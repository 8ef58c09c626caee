/** What it means to select elements of a sequence and keep their order. */
module Selection {

  /** ys are the elements of xs that are taken, each once, in the order they have in xs: rank[i] of the
      first i elements are taken, and an element that is taken stands behind the ones taken before it. */
  ghost predicate Picks<T>(xs: seq<T>, ys: seq<T>, rank: seq<int>)
  {
    && |rank| == |xs| + 1 && rank[0] == 0 && rank[|xs|] == |ys|
    && forall i :: 0 <= i < |xs| ==>
         rank[i + 1] == rank[i] || (rank[i + 1] == rank[i] + 1 && 0 <= rank[i] < |ys| && ys[rank[i]] == xs[i])
  }

  lemma PicksLength<T>(xs: seq<T>, ys: seq<T>, rank: seq<int>)
    requires Picks(xs, ys, rank)
    ensures |rank| == |xs| + 1
  {
  }

  predicate Taken(rank: seq<int>, i: int)
    requires 0 <= i < |rank| - 1
  {
    rank[i + 1] > rank[i]
  }

  /** One more element in front, taken or not. */
  function InFront(rank: seq<int>, taken: bool): (rank': seq<int>)
  {
    [0] + seq(|rank|, i requires 0 <= i < |rank| => rank[i] + if taken then 1 else 0)
  }

  lemma PicksFront<T>(x: T, xs: seq<T>, ys: seq<T>, rank: seq<int>, taken: bool)
    requires Picks(xs, ys, rank)
    ensures var rank' := InFront(rank, taken);
      && Picks([x] + xs, (if taken then [x] else []) + ys, rank')
      && forall i :: 0 <= i <= |xs| ==> (Taken(rank', i) <==> if i == 0 then taken else Taken(rank, i - 1))
  {
    var n := if taken then 1 else 0;
    assert forall i :: 1 <= i < |rank| + 1 ==> InFront(rank, taken)[i] == rank[i - 1] + n;
  }

  /** One more element at the end, taken or not. */
  function AtEnd(rank: seq<int>, taken: bool): (rank': seq<int>)
    requires rank != []
  {
    rank + [rank[|rank| - 1] + if taken then 1 else 0]
  }

  lemma PicksBack<T>(xs: seq<T>, x: T, ys: seq<T>, rank: seq<int>, taken: bool)
    requires Picks(xs, ys, rank)
    ensures var rank' := AtEnd(rank, taken);
      && Picks(xs + [x], ys + (if taken then [x] else []), rank')
      && forall i :: 0 <= i <= |xs| ==> (Taken(rank', i) <==> if i == |xs| then taken else Taken(rank, i))
  {
  }

  /** Selecting from a selection. */
  function Then(rank: seq<int>, rank': seq<int>): (r: seq<int>)
    requires forall i :: 0 <= i < |rank| ==> 0 <= rank[i] < |rank'|
  {
    seq(|rank|, i requires 0 <= i < |rank| => rank'[rank[i]])
  }

  lemma RankBounds<T>(xs: seq<T>, ys: seq<T>, rank: seq<int>)
    requires Picks(xs, ys, rank)
    ensures forall i :: 0 <= i < |rank| ==> 0 <= rank[i] <= |ys|
  {
    for i := 0 to |xs|
      invariant forall k :: 0 <= k <= i ==> 0 <= rank[k]
    {
      assert rank[i] <= rank[i + 1];
    }
    for i := 0 to |xs|
      invariant forall k :: |xs| - i <= k <= |xs| ==> rank[k] <= |ys|
    {
      assert rank[|xs| - i - 1] <= rank[|xs| - i - 1 + 1];
    }
  }

  lemma PicksTwice<T>(xs: seq<T>, ys: seq<T>, zs: seq<T>, rank: seq<int>, rank': seq<int>)
    requires Picks(xs, ys, rank) && Picks(ys, zs, rank')
    ensures forall i :: 0 <= i < |rank| ==> 0 <= rank[i] <= |ys|
    ensures Picks(xs, zs, Then(rank, rank'))
    ensures forall i :: 0 <= i < |xs| ==>
      (Taken(Then(rank, rank'), i) <==> Taken(rank, i) && 0 <= rank[i] < |ys| && Taken(rank', rank[i]))
  {
    RankBounds(xs, ys, rank);
  }

  /** Two selections that take the same elements are the same. */
  lemma PicksSame<T>(xs: seq<T>, ys: seq<T>, zs: seq<T>, rank: seq<int>, rank': seq<int>)
    requires Picks(xs, ys, rank) && Picks(xs, zs, rank')
    requires forall i :: 0 <= i < |xs| ==> (Taken(rank, i) <==> Taken(rank', i))
    ensures ys == zs
  {
    for i := 0 to |xs|
      invariant 0 <= rank[i] == rank'[i] <= |ys| && rank[i] <= |zs| && ys[..rank[i]] == zs[..rank[i]]
    {
      assert Taken(rank, i) <==> Taken(rank', i);
    }
  }
}
