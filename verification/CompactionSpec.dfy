/** What compaction owes the program: every block in use keeps its contents, at an address given by the
    relocation regions, and every pointer follows. */
module CompactionSpec {
  import opened HeapBlocks
  import opened ClusterInvariant
  import opened Relocation

  /** A block in use, in any cluster. */
  ghost predicate IsLive(m: Memory, cl: seq<Range>, a: int)
  {
    exists c :: 0 <= c < |cl| && a in Live(m, cl[c].lo, cl[c].hi)
  }

  ghost function Blocks(m: Memory, cl: seq<Range>): (s: set<int>)
    ensures forall a :: a in s <==> IsLive(m, cl, a)
  {
    set a | 0 <= a < |m| && IsLive(m, cl, a)
  }

  ghost function TotalFree(m: Memory, cl: seq<Range>): (n: nat)
  {
    if cl == [] then 0
    else TotalFree(m, cl[..|cl| - 1]) + FreeSize(m, cl[|cl| - 1].lo, cl[|cl| - 1].hi)
  }

  /** Replacing blocks xs of cluster c by blocks ys does the same to the heap. */
  lemma BlocksUpdate(m: Memory, m': Memory, cl: seq<Range>, c: nat, xs: set<int>, ys: set<int>)
    requires Spaced(cl) && c < |cl|
    requires forall d :: 0 <= d < |cl| && d != c ==> Live(m', cl[d].lo, cl[d].hi) == Live(m, cl[d].lo, cl[d].hi)
    requires Live(m', cl[c].lo, cl[c].hi) == (Live(m, cl[c].lo, cl[c].hi) - xs) + ys
    requires forall a :: a in xs ==> cl[c].lo <= a < cl[c].hi
    ensures Blocks(m', cl) == (Blocks(m, cl) - xs) + ys
  {
    forall a ensures a in Blocks(m', cl) <==> a in (Blocks(m, cl) - xs) + ys {
      if a in Blocks(m', cl) {
        var d :| 0 <= d < |cl| && a in Live(m', cl[d].lo, cl[d].hi);
        if d != c { assert cl[d].hi < cl[c].lo || cl[c].hi < cl[d].lo; }
      }
      if a in ys { assert a in Live(m', cl[c].lo, cl[c].hi); }
      if a in Blocks(m, cl) && a !in xs {
        var d :| 0 <= d < |cl| && a in Live(m, cl[d].lo, cl[d].hi);
        assert a in Live(m', cl[d].lo, cl[d].hi);
      }
    }
  }

  lemma {:induction false} TotalFreeSame(m: Memory, m': Memory, cl: seq<Range>)
    requires forall d :: 0 <= d < |cl| ==> FreeSize(m', cl[d].lo, cl[d].hi) == FreeSize(m, cl[d].lo, cl[d].hi)
    ensures TotalFree(m', cl) == TotalFree(m, cl)
  {
    if cl != [] { TotalFreeSame(m, m', cl[..|cl| - 1]); }
  }

  lemma {:induction false} TotalFreeUpdate(m: Memory, m': Memory, cl: seq<Range>, c: nat)
    requires c < |cl|
    requires forall d :: 0 <= d < |cl| && d != c ==> FreeSize(m', cl[d].lo, cl[d].hi) == FreeSize(m, cl[d].lo, cl[d].hi)
    ensures TotalFree(m', cl) + FreeSize(m, cl[c].lo, cl[c].hi) == TotalFree(m, cl) + FreeSize(m', cl[c].lo, cl[c].hi)
  {
    var last := |cl| - 1;
    if c == last { TotalFreeSame(m, m', cl[..last]); } else { TotalFreeUpdate(m, m', cl[..last], c); }
  }

  function PatchCell(rs: seq<Region>, c: Cell): (c': Cell)
  {
    match c.data
    case Ref(p) => c.(data := Ref(Reloc(rs, p)))
    case Raw(_) => c
  }

  function PatchCells(rs: seq<Region>, cells: seq<Cell>): (cells': seq<Cell>)
    ensures |cells'| == |cells|
    ensures forall i :: 0 <= i < |cells| ==> cells'[i] == PatchCell(rs, cells[i])
  {
    seq(|cells|, i requires 0 <= i < |cells| => PatchCell(rs, cells[i]))
  }

  /** Block a of m0 is in m, moved by all regions, with its pointers patched by the flushed ones. */
  ghost predicate Kept(m0: Memory, m: Memory, all: seq<Region>, flushed: seq<Region>, a: int)
  {
    && 0 <= a < |m0|
    && var b, n := Reloc(all, a), m0[a].size;
    && a + n <= |m0| && 0 <= b && b + n <= |m|
    && m[b..b + n] == PatchCells(flushed, m0[a..a + n])
    && (Unmovable(m0[a]) ==> b == a)
    && (forall p :: a <= p < a + n ==> Reloc(all, p) == p - a + b)
  }

  /** Every cluster of the original heap is tiled. */
  ghost predicate Laid(m: Memory, cl: seq<Range>)
  {
    Spaced(cl) && forall c :: 0 <= c < |cl| ==> Tiled(m, cl[c].lo, cl[c].hi)
  }

  /** Distinct blocks of a heap do not overlap. */
  lemma BlocksApart(m: Memory, cl: seq<Range>, a: int, b: int)
    requires Laid(m, cl) && a in Blocks(m, cl) && b in Blocks(m, cl) && a < b
    ensures 0 <= a < |m| && a + m[a].size <= b
  {
    hide Starts, Tiled;
    var c :| 0 <= c < |cl| && a in Live(m, cl[c].lo, cl[c].hi);
    var d :| 0 <= d < |cl| && b in Live(m, cl[d].lo, cl[d].hi);
    if c == d {
      Disjoint(m, cl[c].lo, cl[c].hi, a, b);
    } else {
      assert c < d;
    }
  }

  /** m holds exactly the blocks of m0: `origin` takes each block back to where it was. */
  ghost predicate Preserved(m0: Memory, m: Memory, cl: seq<Range>, all: seq<Region>, flushed: seq<Region>,
                            origin: map<int, int>)
  {
    && (forall a :: a in Blocks(m0, cl) ==>
          && Kept(m0, m, all, flushed, a)
          && Reloc(all, a) in Blocks(m, cl) && Reloc(all, a) in origin && origin[Reloc(all, a)] == a)
    && (forall b :: b in Blocks(m, cl) ==>
          b in origin && origin[b] in Blocks(m0, cl) && Reloc(all, origin[b]) == b)
  }

  lemma PreservedInitially(m: Memory, cl: seq<Range>)
    ensures Preserved(m, m, cl, [], [], map a | a in Blocks(m, cl) :: a)
  {
    hide Starts;
    forall a | a in Blocks(m, cl) ensures Kept(m, m, [], [], a) {
      BlockInside(m, cl, a);
      assert PatchCells([], m[a..a + m[a].size]) == m[a..a + m[a].size];
    }
  }

  /** The run of movable blocks [s, e) went to f; every other block stayed. */
  ghost predicate Moved(m: Memory, m': Memory, cl: seq<Range>, s: int, e: int, f: int)
  {
    && 0 <= f < s < e && AllLive(m, s, e) && Copied(m, m', s, e, f, f + (e - s)) && AllLive(m', f, f + (e - s))
    && (forall a :: a in Starts(m, s, e) ==> !Unmovable(m[a]))
    && Starts(m, s, e) <= Blocks(m, cl)
    && Blocks(m', cl) == (Blocks(m, cl) - Starts(m, s, e)) + Starts(m', f, f + (e - s))
    && (forall a :: a in Blocks(m, cl) && a !in Starts(m, s, e) ==>
          !(s <= a < e) && !(f <= a < f + (e - s)) && Unchanged(m, m', a, a + m[a].size))
  }

  /** All regions so far start below s. */
  ghost predicate Below(rs: seq<Region>, s: int)
  {
    Ordered(rs) && Downward(rs) && forall i :: 0 <= i < |rs| ==> rs[i].end <= s
  }

  /** Nothing at or above s has moved, and nothing has moved there. */
  lemma RelocBelow(rs: seq<Region>, s: int, a: int)
    requires Below(rs, s) && (s <= a || s <= Reloc(rs, a))
    ensures Reloc(rs, a) == a
  {
    var i := RelocCases(rs, a);
  }

  lemma BelowAppend(rs: seq<Region>, r: Region)
    requires Below(rs, r.start) && r.start < r.end && r.offset < 0
    ensures Below(rs + [r], r.end)
  {
    var all := rs + [r];
    assert forall i :: 0 <= i < |rs| ==> all[i] == rs[i];
  }

  /** The header of a kept block is the original one, up to a patched pointer. */
  lemma KeptHeader(m0: Memory, m: Memory, all: seq<Region>, flushed: seq<Region>, a: int)
    requires Kept(m0, m, all, flushed, a) && 0 < m0[a].size
    ensures 0 <= Reloc(all, a) < |m| && m[Reloc(all, a)] == PatchCell(flushed, m0[a])
  {
    var b, n := Reloc(all, a), m0[a].size;
    assert m[b] == m[b..b + n][0];
    assert m0[a] == m0[a..a + n][0];
  }

  lemma CopiedSlice(m: Memory, m': Memory, s: int, e: int, f: int, a: int, n: nat)
    requires Copied(m, m', s, e, f, f + (e - s)) && s <= a && a + n <= e
    ensures 0 <= a - s + f && a - s + f + n <= |m'| && m'[a - s + f..a - s + f + n] == m[a..a + n]
  {
    var b := a - s + f;
    assert |m'[f..f + (e - s)]| == |m[s..e]|;
    if n > 0 { CopiedAt(m, m', s, e, f, f + (e - s), a + n - 1); }
    var xs, ys := m[a..a + n], m'[b..b + n];
    forall i | 0 <= i < n ensures ys[i] == xs[i] {
      CopiedAt(m, m', s, e, f, f + (e - s), a + i);
    }
    assert ys == xs;
  }

  function Move(s: int, e: int, f: int): (r: Region) { Region(s, e, f, f - s) }

  lemma BlockInside(m: Memory, cl: seq<Range>, a: int)
    requires a in Blocks(m, cl)
    ensures 0 <= a < |m| && 1 <= m[a].size && a + m[a].size <= |m| && !IsFree(m[a])
  {
  }

  /** A block of the run that moved. */
  lemma MovedRun(m0: Memory, m: Memory, m': Memory, cl: seq<Range>, all: seq<Region>, flushed: seq<Region>,
                 s: int, e: int, f: int, a: int)
    requires Moved(m, m', cl, s, e, f) && Below(all, s)
    requires a in Blocks(m0, cl) && s <= a < e
    requires Kept(m0, m, all, flushed, a) && Reloc(all, a) in Blocks(m, cl)
    ensures Reloc(all + [Move(s, e, f)], a) == a - s + f
    ensures Kept(m0, m', all + [Move(s, e, f)], flushed, a)
    ensures a in Starts(m, s, e) && a - s + f in Starts(m', f, f + (e - s))
  {
    hide Starts, AllLive, Tiled, Blocks;
    BlockInside(m0, cl, a);
    RelocBelow(all, s, a);
    KeptHeader(m0, m, all, flushed, a);
    BelowAppend(all, Move(s, e, f));
    RelocAppend(all, Move(s, e, f), a);
    AllLiveBounds(m, s, e);
    AllLiveBounds(m', f, f + (e - s));
    ShiftAt(m, m', s, e, f, f + (e - s), a);
    CopiedSlice(m, m', s, e, f, a, m0[a].size);
    forall p | a <= p < a + m0[a].size ensures Reloc(all + [Move(s, e, f)], p) == p - s + f {
      RelocAppend(all, Move(s, e, f), p);
    }
  }

  /** A block that stayed. */
  lemma MovedOther(m0: Memory, m: Memory, m': Memory, cl: seq<Range>, all: seq<Region>, flushed: seq<Region>,
                   s: int, e: int, f: int, a: int)
    requires Moved(m, m', cl, s, e, f) && Below(all, s)
    requires a in Blocks(m0, cl) && !(s <= a < e) && s in Blocks(m0, cl) && Laid(m0, cl)
    requires Kept(m0, m, all, flushed, a) && Reloc(all, a) in Blocks(m, cl)
    ensures Reloc(all + [Move(s, e, f)], a) == Reloc(all, a)
    ensures Kept(m0, m', all + [Move(s, e, f)], flushed, a)
    ensures Reloc(all, a) in Blocks(m', cl) && !(f <= Reloc(all, a) < f + (e - s))
  {
    hide Starts, AllLive, Tiled, Blocks;
    BlockInside(m0, cl, a);
    KeptHeader(m0, m, all, flushed, a);
    BelowAppend(all, Move(s, e, f));
    RelocAppend(all, Move(s, e, f), a);
    var b, n := Reloc(all, a), m0[a].size;
    assert b !in Starts(m, s, e) by {
      if s <= b { RelocBelow(all, s, a); }
    }
    assert m'[b..b + n] == m[b..b + n];
    if a < s { BlocksApart(m0, cl, a, s); }
    forall p | a <= p < a + n ensures Reloc(all + [Move(s, e, f)], p) == Reloc(all, p) {
      RelocAppend(all, Move(s, e, f), p);
    }
  }

  /** The block at the source cursor has not moved yet. */
  lemma SourceOriginal(m0: Memory, m: Memory, m': Memory, cl: seq<Range>, all: seq<Region>, flushed: seq<Region>,
                       origin: map<int, int>, s: int, e: int, f: int)
    requires Preserved(m0, m, cl, all, flushed, origin) && Moved(m, m', cl, s, e, f) && Below(all, s)
    ensures s in Blocks(m0, cl)
  {
    assert s in Starts(m, s, e);
    RelocBelow(all, s, origin[s]);
  }

  ghost function NewOrigin(origin: map<int, int>, bs: set<int>, s: int, f: int, n: int): (o: map<int, int>)
    requires forall b :: b in bs ==> b in origin || f <= b < f + n
  {
    map b | b in bs :: if f <= b < f + n then b - f + s else origin[b]
  }

  /** Moving a run of blocks, and recording it, preserves everything. */
  lemma PreservedMove(m0: Memory, m: Memory, m': Memory, cl: seq<Range>, all: seq<Region>, flushed: seq<Region>,
                      origin: map<int, int>, s: int, e: int, f: int) returns (origin': map<int, int>)
    requires Preserved(m0, m, cl, all, flushed, origin) && Laid(m0, cl)
    requires Moved(m, m', cl, s, e, f) && Below(all, s)
    ensures Preserved(m0, m', cl, all + [Move(s, e, f)], flushed, origin')
  {
    hide Starts, AllLive, Tiled, Blocks, Kept, Live, Laid, Below;
    SourceOriginal(m0, m, m', cl, all, flushed, origin, s, e, f);
    var all' := all + [Move(s, e, f)];
    origin' := NewOrigin(origin, Blocks(m', cl), s, f, e - s);
    forall a | a in Blocks(m0, cl)
      ensures Kept(m0, m', all', flushed, a) && Reloc(all', a) in Blocks(m', cl)
      ensures Reloc(all', a) in origin' && origin'[Reloc(all', a)] == a
    {
      if s <= a < e {
        MovedRun(m0, m, m', cl, all, flushed, s, e, f, a);
      } else {
        MovedOther(m0, m, m', cl, all, flushed, s, e, f, a);
      }
    }
    forall b | b in Blocks(m', cl)
      ensures b in origin' && origin'[b] in Blocks(m0, cl) && Reloc(all', origin'[b]) == b
    {
      MovedBack(m0, m, m', cl, all, flushed, origin, s, e, f, b);
    }
  }

  lemma MovedBack(m0: Memory, m: Memory, m': Memory, cl: seq<Range>, all: seq<Region>, flushed: seq<Region>,
                  origin: map<int, int>, s: int, e: int, f: int, b: int)
    requires Preserved(m0, m, cl, all, flushed, origin) && Laid(m0, cl) && s in Blocks(m0, cl)
    requires Moved(m, m', cl, s, e, f) && Below(all, s) && b in Blocks(m', cl)
    ensures var a := if f <= b < f + (e - s) then b - f + s else if b in origin then origin[b] else -1;
      a in Blocks(m0, cl) && Reloc(all + [Move(s, e, f)], a) == b
  {
    hide Starts, AllLive, Tiled, Blocks, Kept, Live;
    if f <= b < f + (e - s) {
      var a := b - f + s;
      AllLiveBounds(m, s, e);
      AllLiveBounds(m', f, f + (e - s));
      ShiftAt(m, m', s, e, f, f + (e - s), a);
      assert a in Blocks(m, cl);
      RelocBelow(all, s, origin[a]);
      MovedRun(m0, m, m', cl, all, flushed, s, e, f, a);
    } else {
      assert b in Blocks(m, cl);
      var a := origin[b];
      if s <= a < e { RelocBelow(all, s, a); }
      MovedOther(m0, m, m', cl, all, flushed, s, e, f, a);
    }
  }
}
