/** The heap as memory: an array of cells, one per CLR_RT_HeapBlock unit, in which a block is a
    header cell followed by the rest of its payload.  A stretch of memory is `Tiled` when walking
    from header to header by `DataSize` covers it exactly.  `Starts`, `FreeList` and `FreeSize`
    collect what that walk meets, so each of them splits at any block boundary. */
module HeapBlocks {

  const NULL: int := 0

  /** sizeof(CLR_RT_HeapBlock) */
  const BLOCK_BYTES := 12

  /** The data types the collector distinguishes.  `Other` stands for everything it treats as a leaf:
      numbers, strings, raw arrays, reflection tokens, binary blobs. */
  datatype DataType =
    | FreeBlock
    | CachedBlock
    | Object
    | ArrayByRef
    | Class
    | ValueType
    | SZArray(fReference: bool, numOfElements: nat)
    | Delegate(objectAt: nat)
    | DelegateList(first: nat, length: nat)
    | Other

  datatype Flags = Flags(alive: bool, event: bool, pinned: bool)

  /** The data part of a cell: an address the collector knows about, or anything else. */
  datatype Data = Ref(ptr: int) | Raw(bits: int)

  datatype Cell = Cell(dt: DataType, flags: Flags, size: nat, data: Data)

  /** Payload limits of one cluster. */
  datatype Range = Range(lo: int, hi: int)

  type Memory = seq<Cell>

  const PINNED_ONLY := Flags(false, false, true)

  predicate IsFree(c: Cell) { c.dt.FreeBlock? }

  predicate Unmovable(c: Cell) { c.flags.pinned || c.flags.event }

  function FreeHeader(size: nat): Cell { Cell(FreeBlock, PINNED_ONLY, size, Raw(0)) }

  /** A block that starts at p fits before q. */
  ghost predicate Fits(m: Memory, p: int, q: int)
  {
    0 <= p < q <= |m| && 1 <= m[p].size && p + m[p].size <= q
  }

  /** Walking block by block from p ends exactly at q. */
  ghost predicate Tiled(m: Memory, p: int, q: int)
    decreases q - p
  {
    (0 <= p == q <= |m|) || (Fits(m, p, q) && Tiled(m, p + m[p].size, q))
  }

  /** The block headers met when walking from p to q. */
  ghost function Starts(m: Memory, p: int, q: int): (s: set<int>)
    ensures forall a :: a in s ==> 0 <= p <= a < q <= |m| && 1 <= m[a].size && a + m[a].size <= q
    decreases q - p
  {
    if Fits(m, p, q) then {p} + Starts(m, p + m[p].size, q) else {}
  }

  /** The free blocks met when walking from p to q, in address order. */
  ghost function FreeList(m: Memory, p: int, q: int): (fl: seq<int>)
    decreases q - p
  {
    if Fits(m, p, q) then (if IsFree(m[p]) then [p] else []) + FreeList(m, p + m[p].size, q) else []
  }

  /** Number of cells that belong to free blocks between p and q. */
  ghost function FreeSize(m: Memory, p: int, q: int): (n: nat)
    decreases q - p
  {
    if Fits(m, p, q) then (if IsFree(m[p]) then m[p].size else 0) + FreeSize(m, p + m[p].size, q) else 0
  }

  /** The blocks in use. */
  ghost function Live(m: Memory, p: int, q: int): (s: set<int>)
  {
    set a | a in Starts(m, p, q) && !IsFree(m[a])
  }

  /** Does the walk from p to q end with a free block? */
  ghost predicate EndsFree(m: Memory, p: int, q: int)
    decreases q - p
  {
    Fits(m, p, q) && if p + m[p].size == q then IsFree(m[p]) else EndsFree(m, p + m[p].size, q)
  }

  /** Does the walk from p to q begin with a free block? */
  ghost predicate BeginsFree(m: Memory, p: int, q: int)
  {
    Fits(m, p, q) && IsFree(m[p])
  }

  /** Free blocks carry the pinned flag alone and are never adjacent. */
  ghost predicate Tidy(m: Memory, p: int, q: int)
    decreases q - p
  {
    Fits(m, p, q) ==>
      && (IsFree(m[p]) ==> m[p].flags == PINNED_ONLY && !BeginsFree(m, p + m[p].size, q))
      && Tidy(m, p + m[p].size, q)
  }

  lemma TiledBounds(m: Memory, p: int, q: int)
    requires Tiled(m, p, q)
    ensures 0 <= p <= q <= |m|
  {
  }

  /** The header a walk starts from. */
  lemma NextStart(m: Memory, p: int, q: int)
    requires Tiled(m, p, q)
    ensures p < q ==> p in Starts(m, p, q)
    ensures p < q && !BeginsFree(m, p, q) ==> p in Live(m, p, q)
    ensures p == q ==> FreeList(m, p, q) == []
  {
  }

  lemma OneBlock(m: Memory, p: int, q: int)
    requires 0 <= p < q <= |m| && p + m[p].size == q
    ensures Tiled(m, p, q) && Starts(m, p, q) == {p}
    ensures FreeList(m, p, q) == if IsFree(m[p]) then [p] else []
    ensures FreeSize(m, p, q) == if IsFree(m[p]) then q - p else 0
    ensures Live(m, p, q) == if IsFree(m[p]) then {} else {p}
    ensures EndsFree(m, p, q) == IsFree(m[p])
    ensures Tidy(m, p, q) == (IsFree(m[p]) ==> m[p].flags == PINNED_ONLY)
  {
    assert Tiled(m, q, q) && Starts(m, q, q) == {} && FreeSize(m, q, q) == 0
           && FreeList(m, q, q) == [] && !EndsFree(m, q, q);
  }

  lemma {:induction false} Join(m: Memory, p: int, q: int, r: int)
    requires Tiled(m, p, q) && Tiled(m, q, r)
    ensures Tiled(m, p, r)
    ensures Starts(m, p, r) == Starts(m, p, q) + Starts(m, q, r)
    ensures FreeSize(m, p, r) == FreeSize(m, p, q) + FreeSize(m, q, r)
    ensures Live(m, p, r) == Live(m, p, q) + Live(m, q, r)
    decreases q - p
  {
    if p < q { Join(m, p + m[p].size, q, r); }
  }

  lemma {:induction false} JoinList(m: Memory, p: int, q: int, r: int)
    requires Tiled(m, p, q) && Tiled(m, q, r) && Tiled(m, p, r)
    ensures FreeList(m, p, r) == FreeList(m, p, q) + FreeList(m, q, r)
    decreases q - p
  {
    if p < q {
      Join(m, p + m[p].size, q, r);
      JoinList(m, p + m[p].size, q, r);
    }
  }

  lemma {:induction false} JoinTidy(m: Memory, p: int, q: int, r: int)
    requires Tiled(m, p, q) && Tiled(m, q, r) && Tiled(m, p, r)
    ensures Tidy(m, p, r) <==> Tidy(m, p, q) && Tidy(m, q, r) && !(EndsFree(m, p, q) && BeginsFree(m, q, r))
    ensures EndsFree(m, p, r) == if q < r then EndsFree(m, q, r) else EndsFree(m, p, q)
    decreases q - p
  {
    if p < q {
      Join(m, p + m[p].size, q, r);
      JoinTidy(m, p + m[p].size, q, r);
    }
  }

  lemma {:induction false} Split(m: Memory, p: int, r: int, a: int)
    requires Tiled(m, p, r) && (a in Starts(m, p, r) || a == r || a == p)
    ensures Tiled(m, p, a) && Tiled(m, a, r)
    decreases r - p
  {
    if a != p {
      Split(m, p + m[p].size, r, a);
    }
  }

  /** Two walks that agree on size and freeness at every header of the first are the same walk. */
  ghost predicate SameWalk(m: Memory, m': Memory, p: int, q: int)
  {
    q <= |m'| && forall a :: a in Starts(m, p, q) ==>
      m'[a].size == m[a].size && IsFree(m'[a]) == IsFree(m[a]) && (IsFree(m[a]) ==> m'[a].flags == m[a].flags)
  }

  /** The part of m and m' between p and q is made of the same blocks. */
  ghost predicate SameBlocks(m: Memory, m': Memory, p: int, q: int)
  {
    && Tiled(m, p, q) && Tiled(m', p, q)
    && Starts(m', p, q) == Starts(m, p, q)
    && FreeList(m', p, q) == FreeList(m, p, q)
    && FreeSize(m', p, q) == FreeSize(m, p, q)
    && Tidy(m', p, q) == Tidy(m, p, q)
    && EndsFree(m', p, q) == EndsFree(m, p, q)
    && BeginsFree(m', p, q) == BeginsFree(m, p, q)
    && Live(m', p, q) == Live(m, p, q)
  }

  lemma {:induction false} Frame(m: Memory, m': Memory, p: int, q: int)
    requires Tiled(m, p, q) && SameWalk(m, m', p, q)
    ensures SameBlocks(m, m', p, q)
    decreases q - p
  {
    if p < q { Frame(m, m', p + m[p].size, q); }
  }

  ghost predicate Unchanged(m: Memory, m': Memory, p: int, q: int)
  {
    |m'| == |m| && forall i :: 0 <= i < |m| && p <= i < q ==> m'[i] == m[i]
  }

  lemma FrameUnchanged(m: Memory, m': Memory, p: int, q: int)
    requires Tiled(m, p, q) && Unchanged(m, m', p, q)
    ensures SameBlocks(m, m', p, q)
  {
    Frame(m, m', p, q);
  }

  /** Memory [p', q') of m' holds what [p, q) of m holds. */
  ghost predicate Copied(m: Memory, m': Memory, p: int, q: int, p': int, q': int)
  {
    && 0 <= p <= q <= |m| && 0 <= p' <= q' <= |m'|
    && m'[p'..q'] == m[p..q]
  }

  lemma CopiedAt(m: Memory, m': Memory, p: int, q: int, p': int, q': int, i: int)
    requires Copied(m, m', p, q, p', q') && p <= i < q
    ensures p' <= i - p + p' < q' && m'[i - p + p'] == m[i]
  {
    assert m[p..q][i - p] == m[i];
    assert m'[p'..q'][i - p] == m'[i - p + p'];
  }

  lemma CopiedTail(m: Memory, m': Memory, p: int, q: int, p': int, q': int)
    requires Tiled(m, p, q) && Copied(m, m', p, q, p', q') && p < q
    ensures p' < q' && m'[p'] == m[p]
    ensures Copied(m, m', p + m[p].size, q, p' + m[p].size, q')
  {
    var n, n' := p + m[p].size, p' + m[p].size;
    CopiedAt(m, m', p, q, p', q', p);
    assert |m[p..q]| == |m'[p'..q']|;
    assert m[n..q] == m[p..q][n - p..] && m'[n'..q'] == m'[p'..q'][n - p..];
  }

  /** [p, q) is a run of whole blocks, none of them free. */
  ghost predicate AllLive(m: Memory, p: int, q: int)
    decreases q - p
  {
    Tiled(m, p, q) && (p < q ==> !IsFree(m[p]) && AllLive(m, p + m[p].size, q))
  }

  lemma AllLiveBounds(m: Memory, p: int, q: int)
    requires AllLive(m, p, q)
    ensures Tiled(m, p, q) && 0 <= p <= q <= |m|
  {
  }

  lemma {:induction false} AllLiveFacts(m: Memory, p: int, q: int)
    requires AllLive(m, p, q)
    ensures Tiled(m, p, q) && Live(m, p, q) == Starts(m, p, q)
    ensures FreeList(m, p, q) == [] && FreeSize(m, p, q) == 0
    ensures Tidy(m, p, q) && !EndsFree(m, p, q) && !BeginsFree(m, p, q)
    decreases q - p
  {
    if p < q { AllLiveFacts(m, p + m[p].size, q); }
  }

  lemma {:induction false} AllLiveExtend(m: Memory, p: int, q: int)
    requires AllLive(m, p, q) && q < |m| && !IsFree(m[q]) && 1 <= m[q].size && q + m[q].size <= |m|
    ensures AllLive(m, p, q + m[q].size)
    decreases q - p
  {
    if p < q { AllLiveExtend(m, p + m[p].size, q); } else { OneBlock(m, q, q + m[q].size); }
  }

  /** Copying live blocks elsewhere gives live blocks ... */
  lemma {:induction false} Shift(m: Memory, m': Memory, p: int, q: int, p': int, q': int)
    requires AllLive(m, p, q) && Copied(m, m', p, q, p', q')
    ensures q' - p' == q - p && AllLive(m', p', q')
    decreases q - p
  {
    assert |m[p..q]| == |m'[p'..q']|;
    if p < q {
      CopiedTail(m, m', p, q, p', q');
      Shift(m, m', p + m[p].size, q, p' + m[p].size, q');
    }
  }

  /** ... and every block header keeps its offset. */
  lemma {:induction false} ShiftAt(m: Memory, m': Memory, p: int, q: int, p': int, q': int, a: int)
    requires Tiled(m, p, q) && Copied(m, m', p, q, p', q') && Tiled(m', p', q')
    ensures a in Starts(m, p, q) <==> a - p + p' in Starts(m', p', q')
    decreases q - p
  {
    assert |m[p..q]| == |m'[p'..q']|;
    if p < q {
      CopiedTail(m, m', p, q, p', q');
      ShiftAt(m, m', p + m[p].size, q, p' + m[p].size, q', a);
    }
  }

  /** Distinct blocks do not overlap. */
  lemma Disjoint(m: Memory, p: int, q: int, a: int, b: int)
    requires Tiled(m, p, q) && a in Starts(m, p, q) && (b in Starts(m, p, q) || b == q) && a < b
    ensures a + m[a].size <= b
  {
    Split(m, p, q, b);
    Join(m, p, b, q);
  }
}
