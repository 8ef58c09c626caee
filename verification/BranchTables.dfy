/** MethodCompiler::ParseByteCode's branch tables: targets become opcode indexes, and every opcode learns
    which opcodes branch to it. */
module BranchTables {

  // ---- OffsetToIndex ----

  ghost predicate Increasing(offsets: seq<int>)
  {
    forall i, j :: 0 <= i < j < |offsets| ==> offsets[i] < offsets[j]
  }

  /** Binary search over the start of each opcode and the end of the method; -1 when there is none. */
  method OffsetToIndex(offsets: seq<int>, offset: int) returns (idx: int)
    requires Increasing(offsets)
    ensures -1 <= idx < |offsets| && (idx == -1 <==> offset !in offsets) && (idx >= 0 ==> offsets[idx] == offset)
  {
    var left, right := 0, |offsets|;
    while left < right
      invariant 0 <= left <= right <= |offsets|
      invariant forall i :: 0 <= i < left ==> offsets[i] < offset
      invariant forall i :: right <= i < |offsets| ==> offset < offsets[i]
    {
      var center := (left + right) / 2;
      if offset < offsets[center] {
        right := center;
      } else if offset > offsets[center] {
        left := center + 1;
      } else {
        return center;
      }
    }
    return -1;
  }

  // ---- Counting ----

  function Count(s: seq<int>, d: int): (n: nat)
    ensures n <= |s|
  {
    if s == [] then 0 else Count(s[..|s| - 1], d) + (if s[|s| - 1] == d then 1 else 0)
  }

  lemma CountNext(s: seq<int>, k: nat, d: int)
    requires k < |s|
    ensures Count(s[..k + 1], d) == Count(s[..k], d) + (if s[k] == d then 1 else 0)
  {
    assert s[..k + 1][..k] == s[..k];
  }

  /** Occurrences of any of 0, ..., n - 1. */
  function CountBelow(s: seq<int>, n: nat): (c: nat)
  {
    if n == 0 then 0 else CountBelow(s, n - 1) + Count(s, n - 1)
  }

  lemma {:induction false} CountBelowEmpty(n: nat)
    ensures CountBelow([], n) == 0
  {
    if n > 0 { CountBelowEmpty(n - 1); }
  }

  lemma {:induction false} CountBelowLast(s: seq<int>, n: nat)
    requires s != []
    ensures CountBelow(s, n) == CountBelow(s[..|s| - 1], n) + (if 0 <= s[|s| - 1] < n then 1 else 0)
  {
    if n > 0 { CountBelowLast(s, n - 1); }
  }

  /** There are no more of them than elements. */
  lemma {:induction false} CountBelowBounded(s: seq<int>, n: nat)
    ensures CountBelow(s, n) <= |s|
    decreases |s|
  {
    if s == [] {
      CountBelowEmpty(n);
    } else {
      CountBelowLast(s, n);
      CountBelowBounded(s[..|s| - 1], n);
    }
  }

  lemma {:induction false} CountBelowMonotone(s: seq<int>, m: nat, n: nat)
    requires m <= n
    ensures CountBelow(s, m) <= CountBelow(s, n)
    decreases n
  {
    if m < n { CountBelowMonotone(s, m, n - 1); }
  }

  // ---- The transposed table ----

  /** flat lists the targets of all branches, opcode by opcode; owner[k] is the opcode that flat[k] belongs to. */
  function Sources(flat: seq<int>, owner: seq<int>, d: int): (s: seq<int>)
    requires |flat| == |owner|
    ensures |s| == Count(flat, d)
  {
    if flat == [] then []
    else
      Sources(flat[..|flat| - 1], owner[..|flat| - 1], d)
      + (if flat[|flat| - 1] == d then [owner[|flat| - 1]] else [])
  }

  lemma SourcesNext(flat: seq<int>, owner: seq<int>, k: nat, d: int)
    requires |flat| == |owner| && k < |flat|
    ensures Sources(flat[..k + 1], owner[..k + 1], d)
          == Sources(flat[..k], owner[..k], d) + (if flat[k] == d then [owner[k]] else [])
  {
    assert flat[..k + 1][..k] == flat[..k] && owner[..k + 1][..k] == owner[..k];
  }

  /** Branches from src to d. */
  function Branches(flat: seq<int>, owner: seq<int>, src: int, d: int): (n: nat)
    requires |flat| == |owner|
  {
    if flat == [] then 0
    else
      Branches(flat[..|flat| - 1], owner[..|flat| - 1], src, d)
      + (if flat[|flat| - 1] == d && owner[|flat| - 1] == src then 1 else 0)
  }

  /** The transpose, with multiplicity: d's list names src once for every branch from src to d ... */
  lemma {:induction false} SourcesCount(flat: seq<int>, owner: seq<int>, src: int, d: int)
    requires |flat| == |owner|
    ensures Count(Sources(flat, owner, d), src) == Branches(flat, owner, src, d)
  {
    if flat != [] {
      var n := |flat| - 1;
      SourcesCount(flat[..n], owner[..n], src, d);
      var s := Sources(flat[..n], owner[..n], d);
      assert Sources(flat, owner, d) == if flat[n] == d then s + [owner[n]] else s;
      if flat[n] == d { assert (s + [owner[n]])[..|s|] == s; }
    }
  }

  /** ... and in source order. */
  lemma {:induction false} SourcesOrdered(flat: seq<int>, owner: seq<int>, d: int)
    requires |flat| == |owner| && forall i, j :: 0 <= i < j < |owner| ==> owner[i] <= owner[j]
    ensures forall i, j :: 0 <= i < j < |Sources(flat, owner, d)| ==>
      Sources(flat, owner, d)[i] <= Sources(flat, owner, d)[j]
    ensures forall i :: 0 <= i < |Sources(flat, owner, d)| ==> Sources(flat, owner, d)[i] in owner
  {
    if flat != [] { SourcesOrdered(flat[..|flat| - 1], owner[..|flat| - 1], d); }
  }

  // ---- The loops ----

  const MAX_BRANCHES := 255
  const EMPTY_INDEX := -1

  datatype Flags = Flags(forward: bool, backward: bool)

  /** All targets are opcode boundaries, and no opcode is the target of more than 255 branches. */
  ghost predicate Convertible(offsets: seq<int>, targets: seq<int>)
  {
    && (forall k :: 0 <= k < |targets| ==> targets[k] in offsets)
    && (forall i :: 0 <= i < |offsets| ==> Count(targets, offsets[i]) <= MAX_BRANCHES)
  }

  /** Indexes stand for the offsets they were found for. */
  ghost predicate Converted(offsets: seq<int>, targets: seq<int>, indexes: seq<int>)
  {
    |indexes| == |targets|
    && forall k :: 0 <= k < |targets| ==>
       0 <= indexes[k] < |offsets| && offsets[indexes[k]] == targets[k]
  }

  lemma {:induction false} ConvertedCount(offsets: seq<int>, targets: seq<int>, indexes: seq<int>, i: nat)
    requires Increasing(offsets) && Converted(offsets, targets, indexes) && i < |offsets|
    ensures Count(indexes, i) == Count(targets, offsets[i])
    decreases |targets|
  {
    if targets != [] {
      var n := |targets| - 1;
      ConvertedCount(offsets, targets[..n], indexes[..n], i);
    }
  }

  /** Convert branches from offset to index, in place, counting what comes in at each opcode. */
  method ConvertBranches(offsets: seq<int>, branches: array<int>, num: nat, branchesIn: array<nat>) returns (ok: bool)
    requires Increasing(offsets) && num <= branches.Length && branchesIn.Length == |offsets|
    requires forall i :: 0 <= i < branchesIn.Length ==> branchesIn[i] == 0
    modifies branches, branchesIn
    ensures ok <==> Convertible(offsets, old(branches[..num]))
    ensures ok ==> Converted(offsets, old(branches[..num]), branches[..num])
    ensures ok ==> forall i :: 0 <= i < |offsets| ==> branchesIn[i] == Count(branches[..num], i) <= MAX_BRANCHES
  {
    ghost var targets := branches[..num];
    for k := 0 to num
      invariant branches[..][k..num] == targets[k..] && branchesIn.Length == |offsets|
      invariant Converted(offsets, targets[..k], branches[..][..k])
      invariant forall i :: 0 <= i < |offsets| ==> branchesIn[i] == Count(branches[..][..k], i) <= MAX_BRANCHES
    {
      assert branches[k] == branches[..][k..num][0] == targets[k];
      var idx := OffsetToIndex(offsets, branches[k]);
      if idx == -1 {
        NotConvertible(offsets, targets, k);
        return false;
      }
      if branchesIn[idx] >= MAX_BRANCHES {
        TooMany(offsets, targets, branches[..][..k], k, idx);
        return false;
      }
      ghost var before := branches[..];
      branches[k] := idx;
      branchesIn[idx] := branchesIn[idx] + 1;
      ConvertedNext(offsets, targets, before, branches[..], k, num, idx);
    }
    assert branches[..][..num] == branches[..num] && targets[..num] == targets;
    forall i | 0 <= i < |offsets| ensures Count(targets, offsets[i]) <= MAX_BRANCHES {
      ConvertedCount(offsets, targets, branches[..num], i);
    }
    return true;
  }

  lemma NotConvertible(offsets: seq<int>, targets: seq<int>, k: nat)
    requires k < |targets| && targets[k] !in offsets
    ensures !Convertible(offsets, targets)
  {
  }

  lemma {:induction false} CountMonotone(s: seq<int>, k: nat, d: int)
    requires k <= |s|
    ensures Count(s[..k], d) <= Count(s, d)
    decreases |s|
  {
    if k < |s| {
      CountMonotone(s[..|s| - 1], k, d);
      assert s[..|s| - 1][..k] == s[..k];
    } else {
      assert s[..k] == s;
    }
  }

  lemma TooMany(offsets: seq<int>, targets: seq<int>, indexes: seq<int>, k: nat, idx: nat)
    requires Increasing(offsets) && k < |targets| && idx < |offsets| && offsets[idx] == targets[k]
    requires Converted(offsets, targets[..k], indexes) && Count(indexes, idx) >= MAX_BRANCHES
    ensures !Convertible(offsets, targets)
  {
    hide Count, Converted;
    ConvertedCount(offsets, targets[..k], indexes, idx);
    CountNext(targets, k, offsets[idx]);
    CountMonotone(targets, k + 1, offsets[idx]);
  }

  lemma ConvertedNext(offsets: seq<int>, targets: seq<int>, before: seq<int>, after: seq<int>, k: nat, num: nat,
                      idx: nat)
    requires k < num == |targets| && num <= |before| && idx < |offsets| && offsets[idx] == targets[k]
    requires before[k..num] == targets[k..] && Converted(offsets, targets[..k], before[..k])
    requires after == before[k := idx]
    ensures after[k + 1..num] == targets[k + 1..] && Converted(offsets, targets[..k + 1], after[..k + 1])
    ensures forall i :: Count(after[..k + 1], i) == Count(before[..k], i) + (if i == idx then 1 else 0)
  {
    assert after[..k] == before[..k];
    assert before[k + 1..num] == before[k..num][1..];
    forall i
      ensures Count(after[..k + 1], i) == Count(before[..k], i) + (if i == idx then 1 else 0)
    {
      CountNext(after, k, i);
    }
  }

  /** OUT slices: opcode src owns positions start[src] up to start[src + 1]. */
  ghost predicate Owned(start: seq<int>, owner: seq<int>, n: nat, num: nat)
  {
    && |start| == n + 1 && start[0] == 0 && start[n] == num == |owner|
    && (forall i, j :: 0 <= i <= j <= n ==> start[i] <= start[j])
    && (forall src, k :: 0 <= src < n && start[src] <= k < start[src + 1] && 0 <= k < |owner| ==> owner[k] == src)
  }

  /** What the flags of opcode d say about the opcodes that branch to it. */
  ghost predicate FlagsAgree(f0: Flags, f: Flags, sources: seq<int>, d: int)
  {
    && (f.forward <==> f0.forward || exists i :: 0 <= i < |sources| && sources[i] < d)
    && (f.backward <==> f0.backward || exists i :: 0 <= i < |sources| && sources[i] >= d)
  }

  lemma FlagsNext(f0: Flags, f: Flags, sources: seq<int>, d: int, src: int)
    requires FlagsAgree(f0, f, sources, d)
    ensures FlagsAgree(f0, if src < d then f.(forward := true) else f.(backward := true), sources + [src], d)
  {
    var s := sources + [src];
    assert s[|sources|] == src;
    assert forall i :: 0 <= i < |sources| ==> s[i] == sources[i];
  }

  /** The list of opcode d so far: positions below p have been looked at, br is the next free position. */
  ghost predicate Listed(a: seq<int>, flat: seq<int>, owner: seq<int>, d: int, p: int, br0: int, br: int)
    requires |flat| == |owner|
  {
    && 0 <= p <= |flat| <= br0 <= br <= |a| && a[..|flat|] == flat
    && br == br0 + Count(flat[..p], d) && a[br0..br] == Sources(flat[..p], owner[..p], d)
  }

  lemma ListedStart(a: seq<int>, flat: seq<int>, owner: seq<int>, d: int, br0: int)
    requires |flat| == |owner| && |flat| <= br0 <= |a| && a[..|flat|] == flat
    ensures Listed(a, flat, owner, d, 0, br0, br0) && FlagsAgree(Flags(false, false), Flags(false, false), [], d)
  {
  }

  lemma ListedNext(a: seq<int>, flat: seq<int>, owner: seq<int>, d: int, p: int, br0: int, br: int)
    requires |flat| == |owner| && Listed(a, flat, owner, d, p, br0, br) && p < |flat|
    ensures a[p] == flat[p]
    ensures flat[p] != d ==>
      Listed(a, flat, owner, d, p + 1, br0, br)
      && Sources(flat[..p + 1], owner[..p + 1], d) == Sources(flat[..p], owner[..p], d)
    ensures flat[p] == d && br < |a| ==> Listed(a[br := owner[p]], flat, owner, d, p + 1, br0, br + 1)
    ensures flat[p] == d ==> Sources(flat[..p + 1], owner[..p + 1], d) == Sources(flat[..p], owner[..p], d) + [owner[p]]
  {
    CountNext(flat, p, d);
    SourcesNext(flat, owner, p, d);
    assert a[..|flat|][p] == a[p];
    if flat[p] == d && br < |a| {
      var a' := a[br := owner[p]];
      assert a'[..|flat|] == a[..|flat|];
      assert a'[br0..br + 1] == a[br0..br] + [owner[p]];
    }
  }

  /** Collect what branches to opcode d. */
  method FillOne(branches: array<int>, start: seq<int>, n: nat, num: nat, d: nat, br0: nat, f0: Flags,
                 ghost flat: seq<int>, ghost owner: seq<int>)
    returns (br: nat, f: Flags)
    requires Owned(start, owner, n, num) && |flat| == num <= br0 && br0 + Count(flat, d) <= branches.Length
    requires branches[..][..num] == flat
    modifies branches
    ensures br == br0 + Count(flat, d) && br <= branches.Length && branches[..][br0..br] == Sources(flat, owner, d)
    ensures branches[..][..br0] == old(branches[..])[..br0]
    ensures FlagsAgree(f0, f, Sources(flat, owner, d), d)
  {
    hide Count, Sources, Listed, FlagsAgree;
    br, f := br0, f0;
    ghost var a0 := branches[..];
    ListedStart(branches[..], flat, owner, d, br0);
    FlagsStart(f0, d);
    assert flat[..0] == [] && owner[..0] == [];
    SourcesEmpty(d);
    for src := 0 to n
      invariant Listed(branches[..], flat, owner, d, start[src], br0, br) && branches[..][..br0] == a0[..br0]
      invariant FlagsAgree(f0, f, Sources(flat[..start[src]], owner[..start[src]], d), d)
    {
      var p := start[src];
      while p < start[src + 1]
        invariant start[src] <= p <= start[src + 1] <= num
        invariant Listed(branches[..], flat, owner, d, p, br0, br) && branches[..][..br0] == a0[..br0]
        invariant FlagsAgree(f0, f, Sources(flat[..p], owner[..p], d), d)
      {
        ListedNext(branches[..], flat, owner, d, p, br0, br);
        Room(branches[..], flat, owner, d, p, br0, br);
        if branches[p] == d {
          FlagsNext(f0, f, Sources(flat[..p], owner[..p], d), d, src);
          ghost var a := branches[..];
          branches[br] := src;
          assert branches[..][..br0] == a[..br0];
          f := if src < d then f.(forward := true) else f.(backward := true);
          br := br + 1;
        }
        p := p + 1;
      }
    }
    assert flat[..num] == flat && owner[..num] == owner;
    ListedEnd(branches[..], flat, owner, d, br0, br);
  }

  lemma SourcesEmpty(d: int)
    ensures Sources([], [], d) == []
  {
  }

  lemma FlagsStart(f0: Flags, d: int)
    ensures FlagsAgree(f0, f0, [], d)
  {
  }

  lemma ListedEnd(a: seq<int>, flat: seq<int>, owner: seq<int>, d: int, br0: int, br: int)
    requires |flat| == |owner| && Listed(a, flat, owner, d, |flat|, br0, br)
    ensures br == br0 + Count(flat, d) && 0 <= br0 <= br <= |a| && a[br0..br] == Sources(flat, owner, d)
    ensures a[..|flat|] == flat
  {
    assert flat[..|flat|] == flat && owner[..|flat|] == owner;
  }

  /** There is a free position for every source still to come. */
  lemma Room(a: seq<int>, flat: seq<int>, owner: seq<int>, d: int, p: int, br0: int, br: int)
    requires |flat| == |owner| && Listed(a, flat, owner, d, p, br0, br) && p < |flat| && br0 + Count(flat, d) <= |a|
    ensures |flat| <= br && p < |a| && (flat[p] == d ==> br < |a|)
  {
    CountNext(flat, p, d);
    CountMonotone(flat, p + 1, d);
  }

  /** The IN slice of opcode d. */
  ghost predicate InSlice(a: seq<int>, flat: seq<int>, owner: seq<int>, d: int, count: nat, idx: int, f: Flags)
    requires |flat| == |owner|
  {
    && count == Count(flat, d)
    && (if count == 0 then idx == EMPTY_INDEX
            else |flat| <= idx && idx + count <= |a| && a[idx..idx + count] == Sources(flat, owner, d))
    && FlagsAgree(Flags(false, false), f, Sources(flat, owner, d), d)
  }

  lemma InSliceLater(a: seq<int>, flat: seq<int>, owner: seq<int>, d: int, count: nat, idx: int, f: Flags, br: int,
                     br': int)
    requires |flat| == |owner| && 0 <= br <= br' <= |a| && InSlice(a[..br], flat, owner, d, count, idx, f)
    ensures InSlice(a[..br'], flat, owner, d, count, idx, f)
  {
    hide Count, Sources, FlagsAgree;
    if count != 0 { assert a[..br'][idx..idx + count] == a[..br][idx..idx + count]; }
  }

  /** Convert OUT branches into IN branches.  The result is always true: the counts cannot disagree. */
  method TransposeBranches(branches: array<int>, start: seq<int>, n: nat, num: nat, branchesIn: array<nat>,
                           ghost flat: seq<int>, ghost owner: seq<int>)
    returns (ok: bool, inIdx: seq<int>, flags: seq<Flags>)
    requires Owned(start, owner, n, num) && |flat| == num && branches.Length == 2 * num && branches[..][..num] == flat
    requires n <= branchesIn.Length && forall d :: 0 <= d < n ==> branchesIn[d] == Count(flat, d)
    modifies branches
    ensures ok && branches[..][..num] == flat && |inIdx| == |flags| == n
    ensures forall d :: 0 <= d < n ==> InSlice(branches[..], flat, owner, d, branchesIn[d], inIdx[d], flags[d])
  {
    hide Count, CountBelow, Sources, InSlice, FlagsAgree;
    inIdx, flags := [], [];
    var br := num;
    NoneBelow(flat);
    for d := 0 to n
      invariant |inIdx| == |flags| == d && num <= br == num + CountBelow(flat, d) && br <= branches.Length
      invariant branches[..][..num] == flat
      invariant forall e :: 0 <= e < d ==>
        InSlice(branches[..][..br], flat, owner, e, branchesIn[e], inIdx[e], flags[e])
    {
      BelowNext(flat, d);
      ghost var a, br0 := branches[..], br;
      var f := Flags(false, false);
      var idx := EMPTY_INDEX;
      if branchesIn[d] != 0 {
        idx := br;
        br, f := FillOne(branches, start, n, num, d, br, f, flat, owner);
        assert branches[..][..num] == branches[..][..br0][..num] == a[..br0][..num] == flat;
        if br - idx != branchesIn[d] { return false, inIdx, flags; }
      }
      forall e | 0 <= e < d ensures InSlice(branches[..][..br], flat, owner, e, branchesIn[e], inIdx[e], flags[e]) {
        assert branches[..][..br0] == a[..br0];
        InSliceLater(branches[..], flat, owner, e, branchesIn[e], inIdx[e], flags[e], br0, br);
      }
      NewSlice(branches[..], flat, owner, d, branchesIn[d], idx, f, br0, br);
      inIdx, flags := inIdx + [idx], flags + [f];
    }
    forall d | 0 <= d < n ensures InSlice(branches[..], flat, owner, d, branchesIn[d], inIdx[d], flags[d]) {
      InSliceLater(branches[..], flat, owner, d, branchesIn[d], inIdx[d], flags[d], br, branches.Length);
      assert branches[..][..branches.Length] == branches[..];
    }
    ok := true;
  }

  lemma NoneBelow(flat: seq<int>)
    ensures CountBelow(flat, 0) == 0
  {
  }

  lemma BelowNext(flat: seq<int>, d: nat)
    ensures CountBelow(flat, d + 1) == CountBelow(flat, d) + Count(flat, d) <= |flat|
  {
    CountBelowBounded(flat, d + 1);
  }

  lemma NewSlice(a: seq<int>, flat: seq<int>, owner: seq<int>, d: int, count: nat, idx: int, f: Flags, br0: int,
                 br: int)
    requires |flat| == |owner| && count == Count(flat, d) && |flat| <= br0 <= br <= |a|
    requires if count == 0 then idx == EMPTY_INDEX && br == br0 && f == Flags(false, false)
             else idx == br0 && br == br0 + count && a[br0..br] == Sources(flat, owner, d)
                    && FlagsAgree(Flags(false, false), f, Sources(flat, owner, d), d)
    ensures InSlice(a[..br], flat, owner, d, count, idx, f)
  {
    hide Count, Sources;
    if count == 0 {
      assert Sources(flat, owner, d) == [];
    } else {
      assert a[..br][idx..idx + count] == a[br0..br];
    }
  }
}
