// The k-smallest list (3rd/ANN/pr_queue_k.h): a sorted array of at most k items with one
// spare slot behind it.
module KSmallest {
  datatype Item = Item(key: real, info: int)

  ghost predicate Sorted(s: seq<Item>) {
    forall i, j :: 0 <= i < j < |s| ==> s[i].key <= s[j].key
  }

  // Where a new key goes: behind every key that does not exceed it, found from the right.
  function Place(s: seq<Item>, kv: real): (r: nat)
    ensures r <= |s|
    ensures r > 0 ==> s[r - 1].key <= kv
    ensures forall i :: r <= i < |s| ==> s[i].key > kv
  {
    if |s| == 0 then 0
    else if s[|s| - 1].key > kv then Place(s[..|s| - 1], kv)
    else |s|
  }

  function Insert(s: seq<Item>, x: Item, k: nat): seq<Item> {
    var r := Place(s, x.key);
    var t := s[..r] + [x] + s[r..];
    if |t| > k then t[..k] else t
  }

  lemma {:induction false} PlaceUnique(s: seq<Item>, kv: real, r: nat)
    requires r <= |s|
    requires r > 0 ==> s[r - 1].key <= kv
    requires forall i :: r <= i < |s| ==> s[i].key > kv
    ensures Place(s, kv) == r
  {
  }

  class MinK {
    const k: nat
    const inf: real      // the key of an empty entry
    var n: nat
    const mk: array<Item>

    ghost predicate Valid()
      reads this
    {
      mk.Length == k + 1 && n <= k
    }

    ghost function Contents(): seq<Item>
      requires Valid()
      reads this, mk
    {
      mk[..n]
    }

    constructor (max: nat, infinity: real)
      ensures Valid() && fresh(mk) && k == max && inf == infinity
      ensures Contents() == []
    {
      k := max;
      inf := infinity;
      n := 0;
      mk := new Item[max + 1];
    }

    method MaxKey() returns (r: real)
      requires Valid() && k > 0
      ensures r == MaxOf(Contents(), k, inf)
    {
      r := if n == k then mk[k - 1].key else inf;
    }

    method IthSmallestKey(i: nat) returns (r: real)
      requires Valid()
      ensures r == if i < |Contents()| then Contents()[i].key else inf
    {
      r := if i < n then mk[i].key else inf;
    }

    method IthSmallestInfo(i: nat) returns (r: int)
      requires Valid()
      ensures r == if i < |Contents()| then Contents()[i].info else NULL_IDX
    {
      r := if i < n then mk[i].info else NULL_IDX;
    }

    // Slides the larger items up, into the spare slot when the list is full.
    method Add(kv: real, info: int)
      requires Valid()
      modifies this`n, mk
      ensures Valid()
      ensures Contents() == Insert(old(Contents()), Item(kv, info), k)
    {
      ghost var s := Contents();
      var i := n;
      while i > 0 && mk[i - 1].key > kv
        invariant 0 <= i <= n == |s|
        invariant mk[..i] == s[..i]
        invariant forall j :: i <= j < n ==> mk[j + 1] == s[j] && s[j].key > kv
      {
        mk[i] := mk[i - 1];
        i := i - 1;
      }
      mk[i] := Item(kv, info);
      PlaceUnique(s, kv, i);
      ghost var t := s[..i] + [Item(kv, info)] + s[i..];
      assert mk[..n + 1] == t;
      if n < k {
        n := n + 1;
      } else {
        assert t[..k] == mk[..k];
      }
    }
  }

  const NULL_IDX: int := -1

  // The first k entries of the output arrays show the list, padded with empty entries.
  ghost predicate Keys(s: seq<Item>, k: nat, inf: real, dd: seq<real>) {
    k <= |dd| && forall i :: 0 <= i < k ==> dd[i] == if i < |s| then s[i].key else inf
  }

  ghost predicate Indices(s: seq<Item>, k: nat, nn: seq<int>) {
    k <= |nn| && forall i :: 0 <= i < k ==> nn[i] == if i < |s| then s[i].info else -1
  }

  // Copies the list to the arrays that the caller supplied.
  method Extract(mk: MinK, k: nat, nn: array?<int>, dd: array?<real>)
    requires mk.Valid()
    requires nn != null ==> k <= nn.Length
    requires dd != null ==> k <= dd.Length
    modifies nn, dd
    ensures nn != null ==> Indices(old(mk.Contents()), k, nn[..])
    ensures dd != null ==> Keys(old(mk.Contents()), k, mk.inf, dd[..])
  {
    ghost var s := mk.Contents();
    for i := 0 to k
      invariant mk.Valid() && mk.Contents() == s
      invariant nn != null ==> Indices(s, i, nn[..])
      invariant dd != null ==> Keys(s, i, mk.inf, dd[..])
    {
      var key := mk.IthSmallestKey(i);
      var info := mk.IthSmallestInfo(i);
      if dd != null {
        dd[i] := key;
      }
      if nn != null {
        nn[i] := info;
      }
    }
  }

  function MaxOf(s: seq<Item>, k: nat, inf: real): real {
    if |s| == k > 0 then s[k - 1].key else inf
  }
}
