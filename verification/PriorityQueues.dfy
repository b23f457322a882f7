// The binary heap of priority search (3rd/ANN/pr_queue.h), indexed from 1.
module PriorityQueues {
  datatype Entry<T> = Entry(key: real, info: T)

  // s[i] is heap slot i + 1.
  ghost predicate Heap<T>(s: seq<Entry<T>>) {
    forall i :: 2 <= i <= |s| ==> s[i / 2 - 1].key <= s[i - 1].key
  }

  // Heap order everywhere except around slot r: the slots below r respect only the slot above r.
  ghost predicate HeapBut<T>(s: seq<Entry<T>>, r: nat)
    requires 1 <= r <= |s|
  {
    && (forall i :: 2 <= i <= |s| && i != r && i / 2 != r ==> s[i / 2 - 1].key <= s[i - 1].key)
    && (forall i :: 2 <= i <= |s| && i / 2 == r && r > 1 ==> s[r / 2 - 1].key <= s[i - 1].key)
  }

  ghost predicate AboveOk<T>(s: seq<Entry<T>>, r: nat)
    requires 1 <= r <= |s|
  {
    r > 1 ==> s[r / 2 - 1].key <= s[r - 1].key
  }

  ghost predicate BelowOk<T>(s: seq<Entry<T>>, r: nat)
    requires 1 <= r <= |s|
  {
    forall i :: 2 <= i <= |s| && i / 2 == r ==> s[r - 1].key <= s[i - 1].key
  }

  lemma {:induction false} RootIsLeast<T>(s: seq<Entry<T>>, i: nat)
    requires Heap(s) && 1 <= i <= |s|
    ensures s[0].key <= s[i - 1].key
  {
    if i > 1 {
      RootIsLeast(s, i / 2);
    }
  }

  lemma {:induction false} Placed<T>(s: seq<Entry<T>>, r: nat)
    requires 1 <= r <= |s| && HeapBut(s, r) && AboveOk(s, r) && BelowOk(s, r)
    ensures Heap(s)
  {
  }

  function Exchanged<T>(s: seq<Entry<T>>, a: nat, b: nat): seq<Entry<T>>
    requires 1 <= a <= |s| && 1 <= b <= |s|
  {
    s[a - 1 := s[b - 1]][b - 1 := s[a - 1]]
  }

  lemma {:induction false} ExchangeKeeps<T>(s: seq<Entry<T>>, a: nat, b: nat)
    requires 1 <= a <= |s| && 1 <= b <= |s|
    ensures multiset(Exchanged(s, a, b)) == multiset(s)
  {
  }

  // The entry at r moves up past a larger parent.
  lemma {:induction false} SiftUp<T>(s: seq<Entry<T>>, r: nat)
    requires 1 < r <= |s| && HeapBut(s, r) && BelowOk(s, r) && s[r / 2 - 1].key > s[r - 1].key
    ensures HeapBut(Exchanged(s, r, r / 2), r / 2) && BelowOk(Exchanged(s, r, r / 2), r / 2)
  {
  }

  // The entry at r moves down past its smaller child.
  lemma {:induction false} SiftDown<T>(s: seq<Entry<T>>, r: nat, c: nat)
    requires 1 <= r <= |s| && HeapBut(s, r) && AboveOk(s, r)
    requires 2 <= c <= |s| && c / 2 == r && s[c - 1].key < s[r - 1].key
    requires forall i :: 2 <= i <= |s| && i / 2 == r ==> s[c - 1].key <= s[i - 1].key
    ensures HeapBut(Exchanged(s, r, c), c) && AboveOk(Exchanged(s, r, c), c)
  {
  }

  // v is the segment a with e in the hole at r.
  ghost predicate Hole<T>(a: seq<Entry<T>>, r: nat, e: Entry<T>, v: seq<Entry<T>>) {
    |a| == |v| && 1 <= r <= |v| && a[r - 1 := e] == v
  }

  // Moving an array entry into the hole at r, and the hole to p.
  lemma {:induction false} HoleMoves<T>(a: seq<Entry<T>>, v: seq<Entry<T>>, r: nat, p: nat, e: Entry<T>)
    requires Hole(a, r, e, v) && 1 <= p <= |v| && p != r
    ensures Hole(a[r - 1 := a[p - 1]], p, e, Exchanged(v, r, p))
    ensures a[p - 1] == v[p - 1] && v[r - 1] == e
  {
    assert a[p - 1] == a[r - 1 := e][p - 1];
  }

  lemma {:induction false} Appended<T>(s: seq<Entry<T>>, e: Entry<T>)
    requires Heap(s)
    ensures HeapBut(s + [e], |s| + 1) && BelowOk(s + [e], |s| + 1)
    ensures multiset(s + [e]) == multiset(s) + multiset{e}
  {
  }

  ghost predicate Smaller<T>(s: seq<Entry<T>>, p: nat, c: nat)
    requires 1 <= p
  {
    c <= |s| && (c == 2 * p || c == 2 * p + 1)
    && (2 * p <= |s| ==> s[c - 1].key <= s[2 * p - 1].key)
    && (2 * p + 1 <= |s| ==> s[c - 1].key <= s[2 * p].key)
  }

  lemma {:induction false} SmallerIsLeast<T>(s: seq<Entry<T>>, p: nat, c: nat)
    requires 1 <= p && Smaller(s, p, c)
    ensures c / 2 == p
    ensures forall i :: 2 <= i <= |s| && i / 2 == p ==> s[c - 1].key <= s[i - 1].key
  {
    forall i | 2 <= i <= |s| && i / 2 == p
      ensures s[c - 1].key <= s[i - 1].key
    {
      assert i == 2 * p || i == 2 * p + 1;
    }
  }

  lemma {:induction false} StopsHere<T>(s: seq<Entry<T>>, p: nat, c: nat)
    requires 1 <= p <= |s| && Smaller(s, p, c) && s[p - 1].key <= s[c - 1].key
    ensures BelowOk(s, p)
  {
    SmallerIsLeast(s, p, c);
  }

  lemma {:induction false} NoChildren<T>(s: seq<Entry<T>>, p: nat)
    requires 1 <= p <= |s| < 2 * p
    ensures BelowOk(s, p)
  {
  }

  lemma {:induction false} LeastFirst<T>(s: seq<Entry<T>>)
    requires Heap(s) && |s| > 0
    ensures forall x :: x in s ==> s[0].key <= x.key
  {
    forall x | x in s
      ensures s[0].key <= x.key
    {
      var i :| 0 <= i < |s| && s[i] == x;
      RootIsLeast(s, i + 1);
    }
  }

  class PrQueue<T(0)> {
    var n: nat
    const maxSize: nat
    const pq: array<Entry<T>>

    ghost predicate Valid()
      reads this, pq
    {
      pq.Length == maxSize + 1 && n <= maxSize && Heap(pq[1..n + 1])
    }

    ghost function Slots(): seq<Entry<T>>
      requires Valid()
      reads this, pq
    {
      pq[1..n + 1]
    }

    constructor (max: nat)
      ensures Valid() && fresh(pq) && maxSize == max && Slots() == []
    {
      n := 0;
      maxSize := max;
      pq := new Entry<T>[max + 1];
    }

    method NonEmpty() returns (r: bool)
      requires Valid()
      ensures r <==> Slots() != []
    {
      r := n != 0;
    }

    // Stores an entry in one slot in use.
    method Put(i: nat, e: Entry<T>)
      requires pq.Length == maxSize + 1 && n <= maxSize && 1 <= i <= n
      modifies pq
      ensures pq[1..n + 1] == old(pq[1..n + 1])[i - 1 := e]
      ensures n < maxSize ==> pq[n + 1] == old(pq[n + 1])
    {
      pq[i] := e;
    }

    // Fills the hole at r from slot p, which becomes the hole.
    method MoveHole(r: nat, p: nat, ghost e: Entry<T>, ghost v: seq<Entry<T>>)
      requires pq.Length == maxSize + 1 && n <= maxSize && n == |v|
      requires Hole(pq[1..n + 1], r, e, v) && 1 <= p <= n && p != r
      modifies pq
      ensures Hole(pq[1..n + 1], p, e, Exchanged(v, r, p)) && |Exchanged(v, r, p)| == n
      ensures multiset(Exchanged(v, r, p)) == multiset(v)
      ensures n < maxSize ==> pq[n + 1] == old(pq[n + 1])
    {
      HoleMoves(pq[1..n + 1], v, r, p, e);
      ExchangeKeeps(v, r, p);
      hide Exchanged;
      Put(r, pq[p]);
    }

    // Moves the hole in the last slot up to where e belongs and stores e there; v0 is the heap with
    // e in the hole.
    method SiftUpFrom(start: nat, e: Entry<T>, ghost v0: seq<Entry<T>>) returns (ghost v: seq<Entry<T>>)
      requires pq.Length == maxSize + 1 && n <= maxSize && 1 <= start <= n == |v0|
      requires HeapBut(v0, start) && BelowOk(v0, start) && Hole(pq[1..n + 1], start, e, v0)
      modifies pq
      ensures pq[1..n + 1] == v && Heap(v) && multiset(v) == multiset(v0)
    {
      hide Heap, HeapBut, BelowOk, Exchanged, Hole;
      var r := start;
      v := v0;
      while r > 1
        invariant n == |v| && 1 <= r <= n
        invariant HeapBut(v, r) && BelowOk(v, r) && multiset(v) == multiset(v0)
        invariant Hole(pq[1..n + 1], r, e, v)
      {
        var p := r / 2;
        HoleMoves(pq[1..n + 1], v, r, p, e);
        assert pq[p] == v[p - 1];
        if pq[p].key <= e.key {
          break;
        }
        SiftUp(v, r);
        MoveHole(r, p, e, v);
        v := Exchanged(v, r, p);
        r := p;
      }
      Fill(r, e, v);
      Placed(v, r);
    }

    method Fill(r: nat, e: Entry<T>, ghost v: seq<Entry<T>>)
      requires pq.Length == maxSize + 1 && n <= maxSize && Hole(pq[1..n + 1], r, e, v) && |v| == n
      modifies pq
      ensures pq[1..n + 1] == v && v[r - 1] == e
    {
      Put(r, e);
    }

    // A full queue is an error.
    method Insert(kv: real, inf: T) returns (ok: bool)
      requires Valid()
      modifies this`n, pq
      ensures Valid()
      ensures ok <==> |old(Slots())| < maxSize
      ensures !ok ==> Slots() == old(Slots())
      ensures ok ==> multiset(Slots()) == multiset(old(Slots())) + multiset{Entry(kv, inf)}
    {
      hide Heap, HeapBut, BelowOk;
      if n + 1 > maxSize {
        return false;
      }
      ghost var s := Slots();
      Appended(s, Entry(kv, inf));
      n := n + 1;
      assert Hole(pq[1..n + 1], n, Entry(kv, inf), s + [Entry(kv, inf)]);
      ghost var _ := SiftUpFrom(n, Entry(kv, inf), s + [Entry(kv, inf)]);
      ok := true;
    }

    // Moves the hole at the root down to where the last entry, kept just behind the heap, belongs
    // and stores it there.
    method SiftDownFrom(kn: real, ghost v0: seq<Entry<T>>) returns (ghost v: seq<Entry<T>>)
      requires pq.Length == maxSize + 1 && 1 <= n < maxSize && |v0| == n && pq[n + 1].key == kn
      requires HeapBut(v0, 1) && Hole(pq[1..n + 1], 1, pq[n + 1], v0)
      modifies pq
      ensures pq[1..n + 1] == v && Heap(v) && multiset(v) == multiset(v0)
    {
      hide Heap, HeapBut, BelowOk, Exchanged, Smaller, Hole;
      ghost var e := pq[n + 1];
      v := v0;
      var p := 1;
      var r := 2;
      while r <= n
        invariant n == |v| && 1 <= p <= n && r == 2 * p
        invariant HeapBut(v, p) && AboveOk(v, p) && multiset(v) == multiset(v0)
        invariant Hole(pq[1..n + 1], p, e, v) && pq[n + 1] == e
      {
        r := Child(r, v, p, e);
        if kn <= pq[r].key {
          StopsHere(v, p, r);
          break;
        }
        SmallerIsLeast(v, p, r);
        SiftDown(v, p, r);
        MoveHole(p, r, e, v);
        v := Exchanged(v, p, r);
        p := r;
        r := 2 * p;
      }
      if r > n {
        NoChildren(v, p);
      }
      Fill(p, pq[n + 1], v);
      Placed(v, p);
    }

    method ExtrMin() returns (kv: real, inf: T)
      requires Valid() && Slots() != []
      modifies this`n, pq
      ensures Valid()
      ensures multiset(old(Slots())) == multiset(Slots()) + multiset{Entry(kv, inf)}
      ensures forall x :: x in old(Slots()) ==> kv <= x.key
    {
      hide Heap, HeapBut;
      ghost var s := Slots();
      LeastFirst(s);
      TakeFirst(s);
      kv := pq[1].key;
      inf := pq[1].info;
      assert s[0] == Entry(kv, inf);
      var kn := pq[n].key;
      n := n - 1;
      if n == 0 {
        pq[1] := pq[n + 1];
        Single(pq[1..n + 1]);
      } else {
        CutHeap(s);
        assert Hole(pq[1..n + 1], 1, pq[n + 1], s[..n][0 := s[n]]);
        ghost var _ := SiftDownFrom(kn, s[..n][0 := s[n]]);
      }
    }

    // The smaller of the two children of the hole at p.
    method Child(left: nat, ghost v: seq<Entry<T>>, ghost p: nat, ghost e: Entry<T>) returns (r: nat)
      requires pq.Length == maxSize + 1 && n <= maxSize && |v| == n
      requires Hole(pq[1..n + 1], p, e, v) && left == 2 * p && left <= n
      ensures Smaller(v, p, r) && 2 <= r <= n && pq[r] == v[r - 1] && v[p - 1] == e
    {
      r := left;
      assert pq[r] == v[r - 1];
      if r < n {
        assert pq[r + 1] == v[r];
      }
      if r < n && pq[r].key > pq[r + 1].key {
        r := r + 1;
      }
    }
  }

  lemma {:induction false} TakeFirst<T>(s: seq<Entry<T>>)
    requires |s| > 0
    ensures var n := |s| - 1; var v := if n > 0 then s[..n][0 := s[n]] else [];
            multiset(v) + multiset{s[0]} == multiset(s)
  {
    var n := |s| - 1;
    if n > 0 {
      assert s == [s[0]] + s[1..n] + [s[n]];
      assert s[..n][0 := s[n]] == [s[n]] + s[1..n];
    } else {
      assert s == [s[0]];
    }
  }

  lemma {:induction false} Single<T>(s: seq<Entry<T>>)
    requires |s| < 2
    ensures Heap(s)
  {
  }

  lemma {:induction false} CutHeap<T>(s: seq<Entry<T>>)
    requires Heap(s) && |s| > 1
    ensures var n := |s| - 1; HeapBut(s[..n][0 := s[n]], 1) && s[..n][0 := s[n]][0] == s[n]
  {
  }
}
