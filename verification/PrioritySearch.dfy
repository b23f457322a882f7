// Priority search of kd- and bd-trees (3rd/ANN/kd_pr_search.cpp, 3rd/ANN/bd_pr_search.cpp): the
// subtrees put aside wait in a heap ordered by their box distances.
module PrioritySearch {
  import opened Geometry
  import opened BoundLists
  import opened KSmallest
  import opened NearestLists
  import opened SpatialTrees
  import opened PriorityQueues
  import opened StandardSearch

  type Waiting = set<Entry<Node>>

  // A waiting subtree is stored with a lower bound for the distance of its cell.
  ghost predicate EntryOk(e: Entry<Node>, pts: seq<Point>, q: Point)
    requires Points(pts, |q|)
  {
    && Disjoint(e.info) && Populated(e.info) && e.info != TRIVIAL
    && exists cell :: BoxOf(cell, |q|) && WellFormed(e.info, cell, pts) && e.key <= BoxDist(q, cell)
  }

  ghost function Pending(w: Waiting): set<int> {
    set e, i | e in w && i in Members(e.info) :: i
  }

  ghost predicate WaitingOk(w: Waiting, pts: seq<Point>, q: Point)
    requires Points(pts, |q|)
  {
    && (forall e :: e in w ==> EntryOk(e, pts, q))
    && (forall e, f :: e in w && f in w && e != f ==> Members(e.info) !! Members(f.info))
  }

  lemma {:induction false} PendingMore(w: Waiting, e: Entry<Node>)
    ensures Pending(w + {e}) == Pending(w) + Members(e.info)
  {
    MembersPending(w + {e}, e);
    forall i | i in Pending(w)
      ensures i in Pending(w + {e})
    {
      var f :| f in w && i in Members(f.info);
      MembersPending(w + {e}, f);
    }
    forall i | i in Pending(w + {e})
      ensures i in Pending(w) + Members(e.info)
    {
      var f :| f in w + {e} && i in Members(f.info);
      if f != e {
        MembersPending(w, f);
      }
    }
  }

  lemma {:induction false} MembersPending(w: Waiting, e: Entry<Node>)
    requires e in w
    ensures Members(e.info) <= Pending(w)
  {
    forall i | i in Members(e.info)
      ensures i in Pending(w)
    {
      assert e in w && i in Members(e.info);
    }
  }

  lemma {:induction false} PendingApart(w: Waiting, x: set<int>)
    requires forall f :: f in w ==> Members(f.info) !! x
    ensures Pending(w) !! x
  {
    forall i | i in Pending(w)
      ensures i !in x
    {
      var f :| f in w && i in Members(f.info);
    }
  }

  lemma {:induction false} PendingLess(w: Waiting, e: Entry<Node>, pts: seq<Point>, q: Point)
    requires Points(pts, |q|) && WaitingOk(w, pts, q) && e in w
    ensures WaitingOk(w - {e}, pts, q)
    ensures Pending(w) == Pending(w - {e}) + Members(e.info) && Pending(w - {e}) !! Members(e.info)
  {
    hide EntryOk, Members, Pending;
    assert w == (w - {e}) + {e};
    PendingMore(w - {e}, e);
    PendingApart(w - {e}, Members(e.info));
  }

  lemma {:induction false} WaitingMember(w: Waiting, e: Entry<Node>, pts: seq<Point>, q: Point) returns (i: int)
    requires Points(pts, |q|) && WaitingOk(w, pts, q) && e in w
    ensures i in Members(e.info)
  {
    hide Members;
    assert EntryOk(e, pts, q);
    PopulatedMember(e.info);
    i := SomeElement(Members(e.info));
  }

  lemma {:induction false} SomeElement(m: set<int>) returns (i: int)
    ensures m == {} || i in m
  {
    i := 0;
    if exists j :: j in m {
      i :| i in m;
    } else {
      assert m == {};
    }
  }

  // Every waiting subtree has a point of its own, so there are no more of them than points.
  lemma {:induction false} FewWaiting(w: Waiting, pts: seq<Point>, q: Point)
    requires Points(pts, |q|) && WaitingOk(w, pts, q)
    ensures |w| <= |Pending(w)|
    decreases |w|
  {
    hide WaitingOk, EntryOk, Members, Pending;
    if w != {} {
      var e :| e in w;
      PendingLess(w, e, pts, q);
      var i := WaitingMember(w, e, pts, q);
      FewWaiting(w - {e}, pts, q);
      SubsetSize(Pending(w - {e}) + {i}, Pending(w));
      assert |Pending(w - {e}) + {i}| == |Pending(w - {e})| + 1;
    }
  }

  // ------------------------------------------------------------------
  // The nodes still waiting bound the number of rounds

  ghost function Size(t: Node): nat {
    match t
    case Leaf(_) => 1
    case Split(_, _, _, _, low, high) => 1 + Size(low) + Size(high)
    case Shrink(_, inner, outer) => 1 + Size(inner) + Size(outer)
  }

  ghost function TotalSize(w: Waiting): nat {
    if w == {} then 0
    else
      var e :| e in w;
      Size(e.info) + TotalSize(w - {e})
  }

  lemma {:induction false} TotalLess(w: Waiting, e: Entry<Node>)
    requires e in w
    ensures TotalSize(w) == Size(e.info) + TotalSize(w - {e})
    decreases |w|
  {
    var f :| f in w && TotalSize(w) == Size(f.info) + TotalSize(w - {f});
    if f != e {
      TotalLess(w - {f}, e);
      TotalLess(w - {e}, f);
      assert w - {f} - {e} == w - {e} - {f};
    }
  }

  lemma {:induction false} TotalMore(w: Waiting, e: Entry<Node>)
    requires e !in w
    ensures TotalSize(w + {e}) == TotalSize(w) + Size(e.info)
  {
    TotalLess(w + {e}, e);
    assert w + {e} - {e} == w;
  }

  lemma {:induction false} MultisetMore(w: Waiting, e: Entry<Node>)
    requires e !in w
    ensures multiset(w + {e}) == multiset(w) + multiset{e}
  {
  }

  lemma {:induction false} MultisetLess(w: Waiting, s: multiset<Entry<Node>>, e: Entry<Node>)
    requires multiset(w) == s + multiset{e}
    ensures e in w && s == multiset(w - {e})
  {
    assert e in multiset(w);
    assert multiset(w)[e] == 1;
    assert s == multiset(w) - multiset{e};
  }

  lemma {:induction false} MultisetSize(s: seq<Entry<Node>>, w: Waiting)
    requires multiset(s) == multiset(w)
    ensures |s| == |w|
  {
    assert multiset(s) == multiset(w);
    assert |multiset(s)| == |s|;
    assert |multiset(w)| == |w|;
  }

  // ------------------------------------------------------------------

  class Searcher {
    // The query, the points and the list of nearest points; its leaves are scanned as in standard search.
    const near: StandardSearch.Searcher
    const queue: PrQueue<Node>

    constructor (near: StandardSearch.Searcher, queue: PrQueue<Node>)
      ensures this.near == near && this.queue == queue
    {
      this.near := near;
      this.queue := queue;
    }

    ghost predicate Ready()
      reads near.mk, queue, queue.pq
    {
      near.Ready() && queue.Valid() && queue.maxSize == |near.pts|
    }

    // The points of m have been dealt with, those of w wait in the queue, and no others do.
    ghost predicate Done(m: set<int>, w: Waiting)
      reads near.mk, near.mk.mk, queue, queue.pq
    {
      && near.Done(m) && queue.Valid() && multiset(queue.Slots()) == multiset(w)
      && WaitingOk(w, near.pts, near.q) && m !! Pending(w)
    }

    // Puts a child aside unless it is the trivial leaf. The queue has room, since all waiting
    // subtrees and this one hold different points.
    method Enqueue(t: Node, dist: real, ghost cell: Box, ghost m: set<int>, ghost w: Waiting)
      returns (ghost w2: Waiting)
      requires Ready() && Done(m, w) && BoxOf(cell, |near.q|) && WellFormed(t, cell, near.pts)
      requires Disjoint(t) && Populated(t) && Members(t) !! m + Pending(w)
      requires Members(t) <= Range(|near.pts|) && Pending(w) <= Range(|near.pts|)
      requires dist <= BoxDist(near.q, cell)
      modifies queue`n, queue.pq
      ensures Ready() && Done(m, w2)
      ensures Pending(w2) == Pending(w) + Members(t)
      ensures TotalSize(w2) <= TotalSize(w) + Size(t)
    {
      hide Nearest, Distances, WellFormed, Disjoint, Populated, BoxDist, Members, Pending, TotalSize, WaitingOk;
      hide Beyond, Range, Heap;
      w2 := w;
      if t != TRIVIAL {
        ghost var e := Entry(dist, t);
        OneMore(w, e, m, cell, near.pts, near.q);
        MultisetSize(queue.Slots(), w);
        var ok := queue.Insert(dist, t);
        assert ok;
        w2 := w + {e};
        MultisetMore(w, e);
      } else {
        TrivialEmpty();
      }
    }

    // Descends to the leaf on the query's side, putting the other children aside. Everything below
    // the node is dealt with or waits afterwards, and the waiting trees have shrunk.
    method Descend(t: Node, boxDist: real, ghost cell: Box, ghost m: set<int>, ghost w: Waiting)
      returns (ghost m2: set<int>, ghost w2: Waiting)
      requires Ready() && Done(m, w) && BoxOf(cell, |near.q|) && WellFormed(t, cell, near.pts)
      requires Disjoint(t) && Populated(t) && Members(t) !! m + Pending(w)
      requires Members(t) <= Range(|near.pts|) && Pending(w) <= Range(|near.pts|)
      requires boxDist <= BoxDist(near.q, cell)
      modifies near.mk`n, near.mk.mk, queue`n, queue.pq
      ensures Ready() && Done(m2, w2)
      ensures m2 + Pending(w2) == m + Pending(w) + Members(t)
      ensures TotalSize(w2) < TotalSize(w) + Size(t)
      decreases t, 1
    {
      hide Nearest, Distances, BoxDist, Pending, TotalSize, WaitingOk, ShrinksTo, Projected, Beyond, Heap, Range;
      hide FarDist, Nearest, EntryOk, BucketIn;
      match t
      case Leaf(bkt) =>
        near.VisitLeaf(bkt, cell, m);
        m2, w2 := m + Members(t), w;
      case Split(cd, cv, lo, hi, low, high) =>
        CrossPlane(near.q, cell, cd, cv, boxDist);
        if near.q[cd] - cv < 0.0 {
          var far := FarDistance(boxDist, near.q[cd], cv, lo, hi);
          ghost var w1 := Enqueue(high, far, HighCell(cell, cd, cv), m, w);
          m2, w2 := Descend(low, boxDist, LowCell(cell, cd, cv), m, w1);
        } else {
          var far := FarDistance(boxDist, near.q[cd], cv, lo, hi);
          ghost var w1 := Enqueue(low, far, LowCell(cell, cd, cv), m, w);
          m2, w2 := Descend(high, boxDist, HighCell(cell, cd, cv), m, w1);
        }
      case Shrink(bnds, inner, outer) =>
        m2, w2 := DescendShrink(t, boxDist, cell, m, w);
    }

    method DescendShrink(t: Node, boxDist: real, ghost cell: Box, ghost m: set<int>, ghost w: Waiting)
      returns (ghost m2: set<int>, ghost w2: Waiting)
      requires Ready() && Done(m, w) && BoxOf(cell, |near.q|) && WellFormed(t, cell, near.pts)
      requires Disjoint(t) && Populated(t) && Members(t) !! m + Pending(w) && t.Shrink?
      requires Members(t) <= Range(|near.pts|) && Pending(w) <= Range(|near.pts|)
      requires boxDist <= BoxDist(near.q, cell)
      modifies near.mk`n, near.mk.mk, queue`n, queue.pq
      ensures Ready() && Done(m2, w2)
      ensures m2 + Pending(w2) == m + Pending(w) + Members(t)
      ensures TotalSize(w2) < TotalSize(w) + Size(t)
      decreases t, 0
    {
      hide Nearest, Distances, BoxDist, Pending, TotalSize, WaitingOk, Projected, Beyond, Heap, Range;
      hide ShrinksTo, EntryOk, BucketIn;
      InnerIsBound(t.bnds, cell, near.q);
      var innerDist := InnerDistance(t.bnds, near.q);
      if innerDist <= boxDist {
        ghost var w1 := Enqueue(t.outer, boxDist, cell, m, w);
        m2, w2 := Descend(t.inner, innerDist, Projected(cell, t.bnds), m, w1);
      } else {
        ghost var w1 := Enqueue(t.inner, innerDist, Projected(cell, t.bnds), m, w);
        m2, w2 := Descend(t.outer, boxDist, cell, m, w1);
      }
    }
  }

  lemma {:induction false} TrivialEmpty()
    ensures Members(TRIVIAL) == {}
  {
  }

  lemma {:induction false} OneMore(w: Waiting, e: Entry<Node>, m: set<int>, cell: Box, pts: seq<Point>, q: Point)
    requires Points(pts, |q|) && WaitingOk(w, pts, q) && BoxOf(cell, |q|) && WellFormed(e.info, cell, pts)
    requires e.key <= BoxDist(q, cell) && Disjoint(e.info) && Populated(e.info) && e.info != TRIVIAL
    requires Members(e.info) !! m + Pending(w) && m !! Pending(w)
    requires Members(e.info) <= Range(|pts|) && Pending(w) <= Range(|pts|)
    ensures e !in w && WaitingOk(w + {e}, pts, q) && |w| < |pts|
    ensures Pending(w + {e}) == Pending(w) + Members(e.info) && m !! Pending(w + {e})
    ensures TotalSize(w + {e}) == TotalSize(w) + Size(e.info)
  {
    hide WellFormed, Disjoint, Populated, BoxDist, Members, TotalSize, Pending;
    PopulatedMember(e.info);
    if e in w {
      MembersPending(w, e);
      assert false;
    }
    NewApart(w, e);
    assert EntryOk(e, pts, q);
    hide EntryOk;
    PendingMore(w, e);
    FewWaiting(w + {e}, pts, q);
    SubsetSize(Pending(w + {e}), Range(|pts|));
    RangeSize(|pts|);
    TotalMore(w, e);
  }

  lemma {:induction false} NewApart(w: Waiting, e: Entry<Node>)
    requires Members(e.info) !! Pending(w)
    ensures forall f :: f in w ==> Members(f.info) !! Members(e.info)
  {
    hide Pending, Members;
    forall f | f in w
      ensures Members(f.info) !! Members(e.info)
    {
      MembersPending(w, f);
    }
  }

  // When the nearest waiting subtree is too far, all of them are.
  lemma {:induction false} RestTooFar(w: Waiting, e: Entry<Node>, pts: seq<Point>, q: Point, i: int)
    requires Points(pts, |q|) && WaitingOk(w, pts, q) && i in Pending(w)
    requires forall f :: f in w ==> e.key <= f.key
    ensures 0 <= i < |pts| && e.key <= Distances(pts, q)[i]
  {
    var f :| f in w && i in Members(f.info);
    assert EntryOk(f, pts, q);
    var cell :| BoxOf(cell, |q|) && WellFormed(f.info, cell, pts) && f.key <= BoxDist(q, cell);
    MembersFar(f.info, cell, pts, q, f.key);
  }

  lemma {:induction false} LeastWaiting(s: seq<Entry<Node>>, w: Waiting, kv: real)
    requires multiset(s) == multiset(w) && forall x :: x in s ==> kv <= x.key
    ensures forall f :: f in w ==> kv <= f.key
  {
    forall f | f in w
      ensures f in s
    {
      assert f in multiset(w);
      assert f in multiset(s);
    }
  }

  lemma {:induction false} TakeWaiting(w: Waiting, e: Entry<Node>, m: set<int>, pts: seq<Point>, q: Point) returns (cell: Box)
    requires Points(pts, |q|) && WaitingOk(w, pts, q) && m !! Pending(w) && e in w
    ensures WaitingOk(w - {e}, pts, q) && m !! Pending(w - {e})
    ensures Pending(w) == Pending(w - {e}) + Members(e.info) && Members(e.info) !! m + Pending(w - {e})
    ensures BoxOf(cell, |q|) && WellFormed(e.info, cell, pts) && e.key <= BoxDist(q, cell)
    ensures Disjoint(e.info) && Populated(e.info)
    ensures TotalSize(w) == TotalSize(w - {e}) + Size(e.info)
  {
    hide Pending, TotalSize, Members, WellFormed, Disjoint, Populated, BoxDist;
    PendingLess(w, e, pts, q);
    TotalLess(w, e);
    assert EntryOk(e, pts, q);
    cell :| BoxOf(cell, |q|) && WellFormed(e.info, cell, pts) && e.key <= BoxDist(q, cell);
  }

  lemma {:induction false} AllTooFar(w: Waiting, e: Entry<Node>, pts: seq<Point>, q: Point, s: seq<Item>, k: nat, m: set<int>,
                  c: real, inf: real)
    requires Points(pts, |q|) && WaitingOk(w, pts, q) && (forall f :: f in w ==> e.key <= f.key)
    requires Nearest(s, k, m, Distances(pts, q), c) && k > 0 && c >= 1.0 && Beyond(inf, c, Distances(pts, q))
    requires e.key * c >= MaxOf(s, k, inf)
    ensures Nearest(s, k, m + Pending(w), Distances(pts, q), c)
  {
    hide Nearest, Distances, MaxOf, Beyond, Pending, WaitingOk;
    forall i | i in Pending(w)
      ensures 0 <= i < |pts| && e.key <= Distances(pts, q)[i]
    {
      RestTooFar(w, e, pts, q, i);
    }
    Skip(s, k, m, Pending(w), Distances(pts, q), c, inf, e.key);
  }

  // Takes the nearest waiting subtree from the queue.
  method TakeNearest(search: Searcher, ghost m: set<int>, ghost w: Waiting)
    returns (boxDist: real, t: Node)
    requires search.Ready() && search.Done(m, w) && w != {}
    modifies search.queue`n, search.queue.pq
    ensures search.Ready() && search.Done(m, w - {Entry(boxDist, t)}) && Entry(boxDist, t) in w
    ensures forall f :: f in w ==> boxDist <= f.key
  {
    hide Nearest, Distances, Beyond, Heap, Pending, WaitingOk;
    ghost var slots := search.queue.Slots();
    SomeWaits(slots, w);
    boxDist, t := search.queue.ExtrMin();
    ghost var e := Entry(boxDist, t);
    LeastWaiting(slots, w, boxDist);
    MultisetLess(w, multiset(search.queue.Slots()), e);
    ghost var _ := TakeWaiting(w, e, m, search.near.pts, search.near.q);
  }

  // Searches the nearest waiting subtree unless it is too far.
  method Step(search: Searcher, ghost m: set<int>, ghost w: Waiting)
    returns (more: bool, ghost m2: set<int>, ghost w2: Waiting)
    requires search.Ready() && search.Done(m, w) && m + Pending(w) <= Range(|search.near.pts|) && w != {}
    modifies search.near.mk`n, search.near.mk.mk, search.queue`n, search.queue.pq
    ensures search.Ready() && m2 + Pending(w2) == m + Pending(w)
    ensures !more ==> search.near.Done(m + Pending(w))
    ensures more ==> search.Done(m2, w2) && TotalSize(w2) < TotalSize(w)
  {
    hide Nearest, Distances, MaxOf, Beyond, Heap, Pending, TotalSize, WaitingOk, Members, WellFormed, Disjoint, Populated;
    hide BoxDist, Range;
    m2, w2 := m, w;
    var boxDist, t := TakeNearest(search, m, w);
    ghost var e := Entry(boxDist, t);
    var limit := search.near.mk.MaxKey();
    more := !(boxDist * search.near.maxErr >= limit);
    if more {
      ghost var cell := TakeWaiting(w, e, m, search.near.pts, search.near.q);
      m2, w2 := search.Descend(t, boxDist, cell, m, w - {e});
    } else {
      AllTooFar(w, e, search.near.pts, search.near.q, search.near.mk.Contents(), search.near.mk.k, m,
                search.near.maxErr, search.near.mk.inf);
    }
  }

  // One round of the search; stops when no subtree is left or the nearest is too far.
  method Round(search: Searcher, ghost m: set<int>, ghost w: Waiting)
    returns (more: bool, ghost m2: set<int>, ghost w2: Waiting)
    requires search.Ready() && search.Done(m, w) && m + Pending(w) <= Range(|search.near.pts|)
    modifies search.near.mk`n, search.near.mk.mk, search.queue`n, search.queue.pq
    ensures search.Ready() && m2 + Pending(w2) == m + Pending(w)
    ensures !more ==> search.near.Done(m + Pending(w))
    ensures more ==> search.Done(m2, w2) && TotalSize(w2) < TotalSize(w)
  {
    hide Nearest, Distances, Beyond, Heap, Pending, TotalSize, WaitingOk, Range;
    m2, w2 := m, w;
    SomeWaits(search.queue.Slots(), w);
    more := search.queue.NonEmpty();
    if more {
      more, m2, w2 := Step(search, m, w);
    } else {
      NothingWaits(search.queue.Slots(), w);
      assert m + Pending(w) == m;
    }
  }

  // Searches the waiting subtrees, nearest first. Every point has been dealt with at the end.
  method Drain(search: Searcher, ghost m: set<int>, ghost w: Waiting)
    requires search.Ready() && search.Done(m, w) && m + Pending(w) <= Range(|search.near.pts|)
    modifies search.near.mk`n, search.near.mk.mk, search.queue`n, search.queue.pq
    ensures search.near.Ready() && search.near.Done(m + Pending(w))
  {
    hide Nearest, Distances, MaxOf, Beyond, Heap, Pending, TotalSize, WaitingOk, Range;
    ghost var dealt, left := m, w;
    var more := true;
    while more
      invariant search.Ready() && (more ==> search.Done(dealt, left))
      invariant dealt + Pending(left) == m + Pending(w)
      invariant !more ==> search.near.Done(m + Pending(w))
      decreases more, TotalSize(left)
    {
      more, dealt, left := Round(search, dealt, left);
    }
  }

  lemma {:induction false} SomeWaits(s: seq<Entry<Node>>, w: Waiting)
    requires multiset(s) == multiset(w)
    ensures s == [] <==> w == {}
  {
    MultisetSize(s, w);
  }

  lemma {:induction false} NothingWaits(s: seq<Entry<Node>>, w: Waiting)
    requires s == [] && multiset(s) == multiset(w)
    ensures w == {} && Pending(w) == {}
  {
    assert forall e :: e in w ==> e in multiset(s);
  }

  lemma {:induction false} FirstWaiting(e: Entry<Node>, cell: Box, pts: seq<Point>, q: Point)
    requires Points(pts, |q|) && BoxOf(cell, |q|) && WellFormed(e.info, cell, pts) && e.key <= BoxDist(q, cell)
    requires Disjoint(e.info) && Populated(e.info) && e.info != TRIVIAL
    ensures WaitingOk({e}, pts, q) && Pending({e}) == Members(e.info)
    ensures multiset([e]) == multiset({e})
  {
    assert EntryOk(e, pts, q);
    PendingMore({}, e);
    assert {} + {e} == {e};
  }

  // The root waits alone at the start.
  method Start(root: Node, boxDist: real, near: StandardSearch.Searcher, ghost cell: Box)
    returns (search: Searcher, ghost w: Waiting)
    requires near.Ready() && BoxOf(cell, |near.q|) && WellFormed(root, cell, near.pts) && near.Done({})
    requires boxDist <= BoxDist(near.q, cell) && Disjoint(root) && Populated(root) && root != TRIVIAL
    requires |near.pts| > 0
    ensures fresh(search) && fresh(search.queue) && fresh(search.queue.pq) && search.near == near
    ensures search.Ready() && search.Done({}, w) && Pending(w) == Members(root)
  {
    hide Nearest, Distances, Beyond, Heap, WellFormed, Disjoint, Populated, BoxDist, Members, Pending, WaitingOk;
    var queue := new PrQueue<Node>(|near.pts|);
    var ok := queue.Insert(boxDist, root);
    assert ok;
    ghost var e := Entry(boxDist, root);
    FirstWaiting(e, cell, near.pts, near.q);
    w := {e};
    assert multiset(queue.Slots()) == multiset([e]);
    search := new Searcher(near, queue);
  }

  // A place is left unfilled exactly when there are no more points.
  lemma {:induction false} KeyBelow(x: real, c: real, inf: real)
    requires x >= 0.0 && c >= 1.0 && c * x < inf
    ensures x < inf
  {
    assert (c - 1.0) * x >= 0.0;
  }

  lemma {:induction false} EntryKnown(s: seq<Item>, m: set<int>, dist: seq<real>, c: real, inf: real, i: nat)
    requires Entries(s, m, dist) && NonNegative(dist) && c >= 1.0 && Beyond(inf, c, dist) && i < |s|
    ensures s[i].info >= 0 && s[i].key < inf
  {
    KeyBelow(dist[s[i].info], c, inf);
  }

  lemma {:induction false} Listed(s: seq<Item>, k: nat, m: set<int>, dist: seq<real>, c: real)
    requires Nearest(s, k, m, dist, c)
    ensures Entries(s, m, dist)
  {
    hide Sorted, Distinct, Entries, Held, Excused;
  }

  lemma {:induction false} Unfilled(s: seq<Item>, k: nat, n: nat, dist: seq<real>, c: real, inf: real, nn: seq<int>, dd: seq<real>)
    requires Nearest(s, k, Range(n), dist, c) && NonNegative(dist) && c >= 1.0 && Beyond(inf, c, dist)
    requires Indices(s, k, nn) && Keys(s, k, inf, dd)
    ensures forall i :: 0 <= i < k ==> (nn[i] == NULL_IDX <==> n <= i) && (dd[i] == inf <==> n <= i)
  {
    hide Nearest, Entries, NonNegative, Beyond;
    Listed(s, k, Range(n), dist, c);
    ListSize(s, k, Range(n), dist, c);
    RangeSize(n);
    forall i | 0 <= i < k
      ensures (nn[i] == NULL_IDX <==> n <= i) && (dd[i] == inf <==> n <= i)
    {
      if i < |s| {
        EntryKnown(s, Range(n), dist, c, inf, i);
      }
    }
  }

  // The k nearest points of a tree with points, up to the factor (1 + eps) squared, by priority search. More places than
  // there are points are no error: exactly those beyond them keep the empty index and distance.
  method KSearch(t: Tree, q: Point, k: nat, nn: array<int>, dd: array<real>, eps: real, inf: real)
    returns (ghost s: seq<Item>)
    requires ValidTree(t) && |t.pts| > 0 && Populated(t.root.value)
    requires |q| == t.dim && eps >= 0.0 && 0 < k <= nn.Length && k <= dd.Length
    requires Beyond(inf, (1.0 + eps) * (1.0 + eps), Distances(t.pts, q))
    modifies nn, dd
    ensures Nearest(s, k, Range(|t.pts|), Distances(t.pts, q), (1.0 + eps) * (1.0 + eps))
    ensures Indices(s, k, nn[..]) && Keys(s, k, inf, dd[..])
    ensures forall i :: 0 <= i < k ==> (nn[i] == -1 <==> |t.pts| <= i) && (dd[i] == inf <==> |t.pts| <= i)
  {
    hide Nearest, Distances, MaxOf, Beyond, Heap, Pending, TotalSize, WaitingOk, WellFormed, Disjoint, Populated;
    hide BoxDist, Indices, Keys, Members;
    var maxErr := (1.0 + eps) * (1.0 + eps);
    ErrorFactor(eps);
    var mk := new MinK(k, inf);
    var near := new StandardSearch.Searcher(t.pts, q, maxErr, mk);
    NearestEmpty(k, Distances(t.pts, q), maxErr);
    var boxDist := BoxDistance(q, t.box, t.dim);
    var root := t.root.value;
    assert 0 in Members(root);
    TrivialEmpty();
    ghost var w;
    var search;
    search, w := Start(root, boxDist, near, t.box);
    Drain(search, {}, w);
    s := mk.Contents();
    assert {} + Pending(w) == Range(|t.pts|);
    Extract(mk, k, nn, dd);
    Unfilled(s, k, |t.pts|, Distances(t.pts, q), maxErr, inf, nn[..], dd[..]);
  }
}
