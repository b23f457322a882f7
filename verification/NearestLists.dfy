// What a list of nearest neighbours has to satisfy, and how close two such lists are. dist[i] is
// the squared distance of point i from the query.
module NearestLists {
  import opened KSmallest

  ghost predicate Held(s: seq<Item>, i: int) {
    exists j :: 0 <= j < |s| && s[j].info == i
  }

  ghost predicate Distinct(s: seq<Item>) {
    forall i, j :: 0 <= i < j < |s| ==> s[i].info != s[j].info
  }

  ghost predicate Entries(s: seq<Item>, m: set<int>, dist: seq<real>) {
    forall j :: 0 <= j < |s| ==>
      s[j].info in m && 0 <= s[j].info < |dist| && s[j].key == dist[s[j].info]
  }

  // A missing point is excused when the list is full and the point, after scaling by c, is no
  // nearer than the last entry.
  ghost predicate Excused(s: seq<Item>, k: nat, dist: seq<real>, c: real, i: int)
    requires 0 <= i < |dist|
  {
    |s| == k && (k > 0 ==> c * dist[i] >= s[k - 1].key)
  }

  // s lists k points of m that are nearest up to the factor c.
  ghost predicate Nearest(s: seq<Item>, k: nat, m: set<int>, dist: seq<real>, c: real) {
    && Sorted(s) && Distinct(s) && Entries(s, m, dist) && |s| <= k
    && (forall i :: i in m ==> 0 <= i < |dist|)
    && (forall i :: i in m ==> Held(s, i) || Excused(s, k, dist, c, i))
  }

  ghost predicate NonNegative(dist: seq<real>) {
    forall i :: 0 <= i < |dist| ==> dist[i] >= 0.0
  }

  // ------------------------------------------------------------------
  // Keeping the property while a search runs

  lemma {:induction false} NearestEmpty(k: nat, dist: seq<real>, c: real)
    ensures Nearest([], k, {}, dist, c)
  {
  }

  // t is s with x put in at r, cut to k items.
  ghost predicate PutIn(s: seq<Item>, x: Item, k: nat, r: nat, t: seq<Item>) {
    && r <= |s| && |t| == (if |s| < k then |s| + 1 else k)
    && (forall j :: 0 <= j < r && j < |t| ==> t[j] == s[j] && s[j].key <= x.key)
    && (r < |t| ==> t[r] == x)
    && (forall j :: r <= j < |s| ==> s[j].key > x.key && (j + 1 < |t| ==> t[j + 1] == s[j]))
    && (r > 0 ==> s[r - 1].key <= x.key)
  }

  lemma {:induction false} Spliced(s: seq<Item>, x: Item, r: nat, u: seq<Item>, t: seq<Item>)
    requires r <= |s| && u == s[..r] + [x] + s[r..] && t <= u
    ensures forall j :: 0 <= j < r && j < |t| ==> t[j] == s[j]
    ensures r < |t| ==> t[r] == x
    ensures forall j :: r <= j < |s| && j + 1 < |t| ==> t[j + 1] == s[j]
  {
  }

  lemma {:induction false} InsertCuts(s: seq<Item>, x: Item, k: nat)
    requires |s| <= k
    ensures var r := Place(s, x.key); var t := Insert(s, x, k);
            r <= |s| && |t| == (if |s| < k then |s| + 1 else k) && t <= s[..r] + [x] + s[r..]
  {
  }

  lemma {:induction false} PlaceOrder(s: seq<Item>, kv: real)
    requires Sorted(s)
    ensures var r := Place(s, kv);
            r <= |s| && (forall j :: 0 <= j < r ==> s[j].key <= kv) && (forall j :: r <= j < |s| ==> s[j].key > kv)
  {
    var r := Place(s, kv);
    forall j | 0 <= j < r
      ensures s[j].key <= kv
    {
      assert j < r - 1 ==> s[j].key <= s[r - 1].key;
    }
  }

  lemma {:induction false} InsertShape(s: seq<Item>, x: Item, k: nat)
    requires Sorted(s) && |s| <= k
    ensures PutIn(s, x, k, Place(s, x.key), Insert(s, x, k))
  {
    hide Place, Insert, Sorted;
    var r := Place(s, x.key);
    PlaceOrder(s, x.key);
    InsertCuts(s, x, k);
    Spliced(s, x, r, s[..r] + [x] + s[r..], Insert(s, x, k));
  }

  // Every entry of t is x or an entry of s.
  lemma {:induction false} Origin(s: seq<Item>, x: Item, k: nat, r: nat, t: seq<Item>, j: nat) returns (o: nat)
    requires PutIn(s, x, k, r, t) && |s| <= k && j < |t| && j != r
    ensures o == (if j < r then j else j - 1) && o < |s| && t[j] == s[o]
  {
    o := if j < r then j else j - 1;
    if j > r {
      assert t[o + 1] == s[o];
    }
  }

  lemma {:induction false} PutInSorted(s: seq<Item>, x: Item, k: nat, r: nat, t: seq<Item>)
    requires Sorted(s) && PutIn(s, x, k, r, t) && |s| <= k
    ensures Sorted(t) && |t| <= k
  {
    forall i, j | 0 <= i < j < |t|
      ensures t[i].key <= t[j].key
    {
      if i != r {
        var _ := Origin(s, x, k, r, t, i);
      }
      if j != r {
        var _ := Origin(s, x, k, r, t, j);
      }
    }
  }

  lemma {:induction false} PutInEntries(s: seq<Item>, x: Item, k: nat, r: nat, t: seq<Item>, m: set<int>, dist: seq<real>)
    requires PutIn(s, x, k, r, t) && |s| <= k && Entries(s, m, dist) && Distinct(s)
    requires 0 <= x.info < |dist| && x.info !in m && x.key == dist[x.info]
    ensures Entries(t, m + {x.info}, dist) && Distinct(t)
  {
    forall j | 0 <= j < |t|
      ensures t[j].info in m + {x.info} && 0 <= t[j].info < |dist| && t[j].key == dist[t[j].info]
    {
      if j != r {
        var _ := Origin(s, x, k, r, t, j);
      }
    }
    forall i, j | 0 <= i < j < |t|
      ensures t[i].info != t[j].info
    {
      if i != r {
        var _ := Origin(s, x, k, r, t, i);
      }
      if j != r {
        var _ := Origin(s, x, k, r, t, j);
      }
    }
  }

  lemma {:induction false} ExcuseStays(s: seq<Item>, t: seq<Item>, k: nat, dist: seq<real>, c: real, i: int)
    requires 0 <= i < |dist| && Excused(s, k, dist, c, i)
    requires |t| == k && (k > 0 ==> t[k - 1].key <= s[k - 1].key)
    ensures Excused(t, k, dist, c, i)
  {
  }

  lemma {:induction false} ScaleUp(c: real, d: real)
    requires c >= 1.0 && d >= 0.0
    ensures c * d >= d
  {
    assert c * d - d == (c - 1.0) * d;
  }

  // After an insertion the last key of a full list has not grown, and the item that fell out is
  // not below it.
  lemma {:induction false} LastKey(s: seq<Item>, x: Item, k: nat, r: nat, t: seq<Item>)
    requires Sorted(s) && PutIn(s, x, k, r, t) && |s| == k > 0
    ensures t[k - 1].key <= s[k - 1].key && t[k - 1].key <= (if r == k then x.key else s[k - 1].key)
  {
    if r < k - 1 {
      assert t[(k - 2) + 1] == s[k - 2];
    }
  }

  lemma {:induction false} HeldMoves(s: seq<Item>, x: Item, k: nat, r: nat, t: seq<Item>, dist: seq<real>, c: real, i: int)
    requires Sorted(s) && PutIn(s, x, k, r, t) && |s| <= k && Held(s, i)
    requires 0 <= i < |dist| && dist[i] >= 0.0 && c >= 1.0
    requires forall j :: 0 <= j < |s| && s[j].info == i ==> s[j].key == dist[i]
    ensures Held(t, i) || Excused(t, k, dist, c, i)
  {
    var j :| 0 <= j < |s| && s[j].info == i;
    ScaleUp(c, dist[i]);
    if j < r {
      assert t[j].info == i;
    } else if j + 1 < |t| {
      assert t[j + 1].info == i;
    } else {
      LastKey(s, x, k, r, t);
    }
  }

  lemma {:induction false} Kept(s: seq<Item>, x: Item, k: nat, r: nat, t: seq<Item>, m: set<int>, dist: seq<real>, c: real, i: int)
    requires Nearest(s, k, m, dist, c) && c >= 1.0 && NonNegative(dist) && PutIn(s, x, k, r, t)
    requires 0 <= x.info < |dist| && x.key == dist[x.info]
    requires i in m + {x.info}
    ensures Held(t, i) || Excused(t, k, dist, c, i)
  {
    if i == x.info {
      if r < |t| {
        assert t[r].info == i;
      } else if k > 0 {
        ScaleUp(c, dist[i]);
        LastKey(s, x, k, r, t);
      }
    } else if Held(s, i) {
      HeldMoves(s, x, k, r, t, dist, c, i);
    } else {
      if k > 0 {
        LastKey(s, x, k, r, t);
      }
      ExcuseStays(s, t, k, dist, c, i);
    }
  }

  lemma {:induction false} InsertKeeps(s: seq<Item>, k: nat, m: set<int>, dist: seq<real>, c: real, x: int)
    requires Nearest(s, k, m, dist, c) && c >= 1.0 && NonNegative(dist)
    requires 0 <= x < |dist| && x !in m
    ensures Nearest(Insert(s, Item(dist[x], x), k), k, m + {x}, dist, c)
  {
    hide Insert, Place, PutIn, Sorted, Distinct, Held, Excused;
    var e := Item(dist[x], x);
    var t := Insert(s, e, k);
    var r := Place(s, e.key);
    InsertShape(s, e, k);
    PutInSorted(s, e, k, r, t);
    PutInEntries(s, e, k, r, t, m, dist);
    forall i | i in m + {x}
      ensures Held(t, i) || Excused(t, k, dist, c, i)
    {
      Kept(s, e, k, r, t, m, dist, c, i);
    }
  }

  // Points that are all at least as far as the current limit may be left out.
  lemma {:induction false} PruneKeeps(s: seq<Item>, k: nat, m: set<int>, x: set<int>, dist: seq<real>, c: real, inf: real)
    requires Nearest(s, k, m, dist, c) && k > 0
    requires forall i :: i in x ==> 0 <= i < |dist| && c * dist[i] < inf && c * dist[i] >= MaxOf(s, k, inf)
    ensures Nearest(s, k, m + x, dist, c)
  {
    forall i | i in x
      ensures Excused(s, k, dist, c, i)
    {
    }
  }

  // ------------------------------------------------------------------
  // Comparing lists

  ghost function Infos(s: seq<Item>, n: nat): set<int>
    requires n <= |s|
  {
    set j | 0 <= j < n :: s[j].info
  }

  lemma {:induction false} InfosSize(s: seq<Item>, n: nat)
    requires n <= |s| && Distinct(s)
    ensures |Infos(s, n)| == n
  {
    if n > 0 {
      InfosSize(s, n - 1);
      assert Infos(s, n) == Infos(s, n - 1) + {s[n - 1].info};
      assert s[n - 1].info !in Infos(s, n - 1);
    } else {
      assert Infos(s, 0) == {};
    }
  }

  lemma {:induction false} SubsetSize(a: set<int>, b: set<int>)
    requires a <= b
    ensures |a| <= |b|
  {
    assert b == a + (b - a);
  }

  // More entries than n cannot all be among the first n entries of s.
  lemma {:induction false} Pigeonhole(s: seq<Item>, t: seq<Item>, n: nat, i: nat) returns (j: nat)
    requires Distinct(s) && Distinct(t) && n <= |s| && i <= |t| && n < i
    ensures j < i && t[j].info !in Infos(s, n)
  {
    InfosSize(s, n);
    InfosSize(t, i);
    if forall j :: 0 <= j < i ==> t[j].info in Infos(s, n) {
      SubsetSize(Infos(t, i), Infos(s, n));
    }
    j :| 0 <= j < i && t[j].info !in Infos(s, n);
  }

  lemma {:induction false} Scaled(c: real, a: real, b: real)
    requires c >= 0.0 && a <= b
    ensures c * a <= c * b
  {
    assert c * b - c * a == c * (b - a);
  }

  lemma {:induction false} LastIsLargest(s: seq<Item>, k: nat, i: nat)
    requires Sorted(s) && i < |s| <= k
    ensures |s| == k ==> s[i].key <= s[k - 1].key
  {
    assert i < k - 1 || i == k - 1;
  }

  // An entry of t whose scaled key is below the i-th key of s is one of the first i entries of s.
  lemma {:induction false} RanksBelow(s: seq<Item>, k: nat, m: set<int>, dist: seq<real>, c: real, i: nat, x: int)
    requires Nearest(s, k, m, dist, c) && c >= 1.0 && NonNegative(dist)
    requires i < |s| && x in m && c * dist[x] < s[i].key
    ensures x in Infos(s, i)
  {
    ScaleUp(c, dist[x]);
    LastIsLargest(s, k, i);
    assert Held(s, x);
    var j :| 0 <= j < |s| && s[j].info == x;
    assert s[j].key == dist[x];
    assert j < i;
  }

  // The i-th key of a list that is nearest up to c is at most c times the i-th key of any list of
  // distinct points of the same set.
  lemma {:induction false} WithinFactor(s: seq<Item>, t: seq<Item>, k: nat, m: set<int>, dist: seq<real>, c: real, i: nat)
    requires Nearest(s, k, m, dist, c) && c >= 1.0 && NonNegative(dist)
    requires Sorted(t) && Distinct(t) && Entries(t, m, dist)
    requires i < |s| && i < |t|
    ensures s[i].key <= c * t[i].key
  {
    hide Infos, Held, Excused, Distinct;
    if s[i].key > c * t[i].key {
      var j := Pigeonhole(s, t, i, i + 1);
      assert t[j].key <= t[i].key;
      Scaled(c, t[j].key, t[i].key);
      RanksBelow(s, k, m, dist, c, i, t[j].info);
    }
  }

  // A list falls short of k entries only when it holds every point.
  lemma {:induction false} ListSize(s: seq<Item>, k: nat, m: set<int>, dist: seq<real>, c: real)
    requires Nearest(s, k, m, dist, c)
    ensures |s| == if |m| < k then |m| else k
  {
    InfosSize(s, |s|);
    SubsetSize(Infos(s, |s|), m);
    if |s| < k {
      forall i | i in m
        ensures i in Infos(s, |s|)
      {
        assert Held(s, i);
      }
      SubsetSize(m, Infos(s, |s|));
    }
  }

  // Every key of a list that is nearest up to c lies between the true key of its rank and c times
  // that key; with c = 1 the keys are the true ones.
  lemma {:induction false} CloseToExact(s: seq<Item>, t: seq<Item>, k: nat, m: set<int>, dist: seq<real>, c: real)
    requires Nearest(s, k, m, dist, c) && Nearest(t, k, m, dist, 1.0)
    requires c >= 1.0 && NonNegative(dist)
    ensures |s| == |t|
    ensures forall i :: 0 <= i < |s| ==> t[i].key <= s[i].key <= c * t[i].key
  {
    hide Held, Excused, Distinct, Sorted, Entries, NonNegative;
    ListSize(s, k, m, dist, c);
    ListSize(t, k, m, dist, 1.0);
    forall i | 0 <= i < |s|
      ensures t[i].key <= s[i].key <= c * t[i].key
    {
      WithinFactor(s, t, k, m, dist, c, i);
      WithinFactor(t, s, k, m, dist, 1.0, i);
      assert 1.0 * s[i].key == s[i].key;
    }
  }

  // The points of m strictly below a key, and those not above it.
  ghost function Below(m: set<int>, dist: seq<real>, key: real): set<int> {
    set i | i in m && 0 <= i < |dist| && dist[i] < key
  }

  ghost function UpTo(m: set<int>, dist: seq<real>, key: real): set<int> {
    set i | i in m && 0 <= i < |dist| && dist[i] <= key
  }

  // The i-th key of an exact list is the i-th smallest distance: at most i points lie strictly
  // below it and more than i points lie at or below it.
  lemma {:induction false} ExactRank(t: seq<Item>, k: nat, m: set<int>, dist: seq<real>, i: nat)
    requires Nearest(t, k, m, dist, 1.0) && NonNegative(dist) && i < |t|
    ensures |Below(m, dist, t[i].key)| <= i < |UpTo(m, dist, t[i].key)|
  {
    InfosSize(t, i);
    InfosSize(t, i + 1);
    forall x | x in Below(m, dist, t[i].key)
      ensures x in Infos(t, i)
    {
      assert 1.0 * dist[x] == dist[x];
      RanksBelow(t, k, m, dist, 1.0, i, x);
    }
    SubsetSize(Below(m, dist, t[i].key), Infos(t, i));
    assert forall j :: 0 <= j <= i ==> t[j].key <= t[i].key;
    SubsetSize(Infos(t, i + 1), UpTo(m, dist, t[i].key));
  }
}
