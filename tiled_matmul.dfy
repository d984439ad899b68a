/**
 * The tiled matrix-multiply compute shader. Each 8 x 8 workgroup computes one
 * 64 x 64 block of C: for every k-tile of depth 8 it stages a 64 x 8 tile of A
 * and an 8 x 64 tile of B in workgroup memory (`bufferA`, `bufferB`), then each
 * invocation accumulates an 8 x 8 sub-block in its private `sum`.
 *
 * The two workgroup barriers split each k-tile into a load phase and a compute
 * phase, so the workgroup is modelled sequentially: every invocation's loads,
 * then every invocation's compute, then (after the last tile) every store.
 * Invocation t of a workgroup has local id (t % 8, t / 8); its private `sum`
 * is the slice `sums[t * 64 .. t * 64 + 64]` of one array.
 *
 * Workgroup memory and the sums are described through the coordinates the
 * kernel computes them from (local id, loop counter, r, c); the exactly-once
 * lemmas show that these coordinates name every slot once.
 */
module TiledMatmul {
  import opened Matrix

  /** Invocations per workgroup (`@workgroup_size(8, 8)`), workgroup-buffer length and private-sum length. */
  const Invocations: nat := 64
  const BufferLength: nat := 512
  const SumLength: nat := 64

  /** The kernel's `threadIndex`: `tid.x + tid.y * 8`. */
  function ThreadIndex(tx: nat, ty: nat): nat
  {
    tx + ty * 8
  }

  /** Invocation t of a workgroup is the one with local id (t % 8, t / 8), and no other. */
  lemma InvocationOf(t: nat)
    requires t < Invocations
    ensures t % 8 < 8 && t / 8 < 8 && ThreadIndex(t % 8, t / 8) == t
    ensures forall tx: nat, ty: nat :: tx < 8 && ty < 8 && ThreadIndex(tx, ty) == t ==> tx == t % 8 && ty == t / 8
  {
    forall tx: nat, ty: nat | tx < 8 && ty < 8 && ThreadIndex(tx, ty) == t
      ensures tx == t % 8 && ty == t / 8
    {
      DivModUnique(t, 8, ty, tx);
    }
  }

  /** Where invocation (tx, ty) stores its j-th load from A: `(loadARow + 8*j)*8 + loadACol`. */
  function LoadAOutputIndex(tx: nat, ty: nat, j: nat): nat
  {
    (ty + 8 * j) * 8 + tx
  }

  /** Where invocation (tx, ty) stores its j-th load from B: `j*64 + threadIndex`. */
  function LoadBOutputIndex(tx: nat, ty: nat, j: nat): nat
  {
    j * 64 + ThreadIndex(tx, ty)
  }

  /** Slot r*8 + c of the private sum of invocation (tx, ty), within the array of all 64 invocations' sums. */
  function SumIndex(tx: nat, ty: nat, r: nat, c: nat): nat
  {
    ThreadIndex(tx, ty) * SumLength + r * 8 + c
  }

  /** Where the store of `sum[r*8 + c]` of invocation (tx, ty) in workgroup (cx, cy) lands in C. */
  function StoreIndex(size: nat, cx: nat, cy: nat, tx: nat, ty: nat, r: nat, c: nat): nat
  {
    (cy * 64 + ty * 8) * size + cx * 64 + tx * 8 + c + r * size
  }

  /** Three local coordinates, each below 8. */
  predicate Local3(x: nat, y: nat, z: nat)
  {
    x < 8 && y < 8 && z < 8
  }

  /**
   * Across the 64 invocations and their 8 loads each, every slot of `bufferA` is written
   * exactly once: slot p by invocation (p % 8, (p / 8) % 8) at j = p / 64, and by no other.
   */
  lemma LoadAExactlyOnce(p: nat)
    requires p < BufferLength
    ensures Local3(p % 8, (p / 8) % 8, p / 64)
    ensures LoadAOutputIndex(p % 8, (p / 8) % 8, p / 64) == p
    ensures forall tx: nat, ty: nat, j: nat :: Local3(tx, ty, j) && LoadAOutputIndex(tx, ty, j) == p ==>
              tx == p % 8 && ty == (p / 8) % 8 && j == p / 64
  {
    SlotDigits(p);
    forall tx: nat, ty: nat, j: nat | Local3(tx, ty, j) && LoadAOutputIndex(tx, ty, j) == p
      ensures tx == p % 8 && ty == (p / 8) % 8 && j == p / 64
    {
      SplitCoordinate(p, j, ty, tx);
    }
  }

  /** The base-8 digits of a slot number below 512: p = 64 * (p / 64) + 8 * ((p % 64) / 8) + p % 8. */
  lemma SlotDigits(p: nat)
    requires p < BufferLength
    ensures p / 64 < 8 && (p % 64) / 8 < 8 && (p / 8) % 8 == (p % 64) / 8
    ensures p == (p / 64) * 64 + ((p % 64) / 8) * 8 + p % 8
  {
    var b, t, d := p / 64, (p % 64) / 8, (p % 64) % 8;
    assert p % 64 == t * 8 + d;
    DivModUnique(p, 8, b * 8 + t, d);
    DivModUnique(b * 8 + t, 8, b, t);
  }

  /**
   * Every slot of `bufferB` is written exactly once: slot p by the invocation with
   * thread index p % 64 at j = p / 64, and by no other.
   */
  lemma LoadBExactlyOnce(p: nat)
    requires p < BufferLength
    ensures Local3(p % 8, (p % 64) / 8, p / 64)
    ensures LoadBOutputIndex(p % 8, (p % 64) / 8, p / 64) == p
    ensures forall tx: nat, ty: nat, j: nat :: Local3(tx, ty, j) && LoadBOutputIndex(tx, ty, j) == p ==>
              ThreadIndex(tx, ty) == p % 64 && j == p / 64
  {
    SlotDigits(p);
    forall tx: nat, ty: nat, j: nat | Local3(tx, ty, j) && LoadBOutputIndex(tx, ty, j) == p
      ensures ThreadIndex(tx, ty) == p % 64 && j == p / 64
    {
      SplitCoordinate(p, j, ty, tx);
    }
  }

  /** Distinct local coordinates name distinct slots of `bufferA`. */
  lemma LoadASlotsDistinct(tx: nat, ty: nat, j: nat)
    requires Local3(tx, ty, j)
    ensures forall tx': nat, ty': nat, j': nat :: Local3(tx', ty', j') && (tx' != tx || ty' != ty || j' != j) ==>
              LoadAOutputIndex(tx', ty', j') != LoadAOutputIndex(tx, ty, j)
  {
    forall tx': nat, ty': nat, j': nat | Local3(tx', ty', j') && LoadAOutputIndex(tx', ty', j') == LoadAOutputIndex(tx, ty, j)
      ensures tx' == tx && ty' == ty && j' == j
    {
      var p := LoadAOutputIndex(tx, ty, j);
      SplitCoordinate(p, j, ty, tx);
      SplitCoordinate(p, j', ty', tx');
    }
  }

  /** Distinct local coordinates name distinct slots of `bufferB`. */
  lemma LoadBSlotsDistinct(tx: nat, ty: nat, j: nat)
    requires Local3(tx, ty, j)
    ensures forall tx': nat, ty': nat, j': nat :: Local3(tx', ty', j') && (tx' != tx || ty' != ty || j' != j) ==>
              LoadBOutputIndex(tx', ty', j') != LoadBOutputIndex(tx, ty, j)
  {
    forall tx': nat, ty': nat, j': nat | Local3(tx', ty', j') && LoadBOutputIndex(tx', ty', j') == LoadBOutputIndex(tx, ty, j)
      ensures tx' == tx && ty' == ty && j' == j
    {
      var p := LoadBOutputIndex(tx, ty, j);
      SplitCoordinate(p, j, ty, tx);
      SplitCoordinate(p, j', ty', tx');
    }
  }

  /** A grid of size / 64 workgroups per axis, for a size that is a multiple of 64. */
  predicate InGrid(size: nat, cx: nat, cy: nat)
  {
    size % 64 == 0 && cx < size / 64 && cy < size / 64
  }

  /** The start of a k-tile: a multiple of 8 below size. */
  predicate IsTileStart(size: nat, i: nat)
  {
    i < size && i % 8 == 0
  }

  /** For a workgroup of the grid and a k-tile start, the block and the tile fit in the matrix. */
  lemma BlockFits(size: nat, cx: nat, cy: nat, i: nat)
    requires InGrid(size, cx, cy) && IsTileStart(size, i)
    ensures cy * 64 + 64 <= size && cx * 64 + 64 <= size && i + 8 <= size && size % 8 == 0
  {
    DivModUnique(size, 8, 8 * (size / 64), 0);
  }

  /** Every global read of both load loops is inside the size x size input it reads. */
  lemma LoadInputsInBounds(size: nat, cx: nat, cy: nat, i: nat, tx: nat, ty: nat, j: nat)
    requires InGrid(size, cx, cy) && IsTileStart(size, i) && Local3(tx, ty, j)
    ensures (cy * 64 + ty + 8 * j) * size + tx + i < size * size
    ensures (j + i) * size + cx * 64 + ThreadIndex(tx, ty) < size * size
  {
    BlockFits(size, cx, cy, i);
    FlatIndex(size, cy * 64 + ty + 8 * j, tx + i);
    FlatIndex(size, j + i, cx * 64 + ThreadIndex(tx, ty));
  }

  /** The store of `sum[r*8 + c]` lands on row cy*64 + ty*8 + r, column cx*64 + tx*8 + c of C. */
  lemma StoreIndexIsCell(size: nat, cx: nat, cy: nat, tx: nat, ty: nat, r: nat, c: nat)
    ensures StoreIndex(size, cx, cy, tx, ty, r, c) == GlobalIndex(size, cy * 64 + ty * 8 + r, cx * 64 + tx * 8 + c)
  {
    GlobalIndexValue(size, cy * 64 + ty * 8 + r, cx * 64 + tx * 8 + c);
    assert (cy * 64 + ty * 8) * size + r * size == (cy * 64 + ty * 8 + r) * size;
  }

  /** A row or column splits into workgroup block, invocation and in-sub-block digits, and only one way. */
  lemma SplitCoordinate(x: nat, b: nat, t: nat, d: nat)
    requires t < 8 && d < 8
    ensures x == b * 64 + t * 8 + d <==> (b == x / 64 && t == (x % 64) / 8 && d == x % 8)
  {
  }

  /** A store of the grid that lands on cell (R, C) is the one whose digits R and C spell. */
  lemma StoreCellUnique(size: nat, cx: nat, cy: nat, tx: nat, ty: nat, r: nat, c: nat, R: nat, C: nat)
    requires InGrid(size, cx, cy) && tx < 8 && ty < 8 && r < 8 && c < 8 && R < size && C < size
    requires StoreIndex(size, cx, cy, tx, ty, r, c) == GlobalIndex(size, R, C)
    ensures cx == C / 64 && cy == R / 64 && tx == (C % 64) / 8 && ty == (R % 64) / 8 && r == R % 8 && c == C % 8
  {
    var R', C' := cy * 64 + ty * 8 + r, cx * 64 + tx * 8 + c;
    StoreIndexIsCell(size, cx, cy, tx, ty, r, c);
    BlockFits(size, cx, cy, 0);
    assert R' < size && C' < size;
    GlobalIndexInjective(size, R', C', R, C);
    SplitCoordinate(R, cy, ty, r);
    SplitCoordinate(C, cx, tx, c);
  }

  /** A row or column below a multiple of 64 lies in one of its size / 64 blocks. */
  lemma BlockOf(size: nat, x: nat)
    requires size % 64 == 0 && x < size
    ensures x / 64 < size / 64
  {
    DivModUnique(size, 64, size / 64, 0);
    assert x / 64 * 64 <= x < size / 64 * 64;
  }

  /** Cell (R, C) of C is stored by the workgroup, invocation and sum whose digits R and C spell. */
  lemma StoreOfCell(size: nat, R: nat, C: nat)
    requires size % 64 == 0 && R < size && C < size
    ensures InGrid(size, C / 64, R / 64)
    ensures StoreIndex(size, C / 64, R / 64, (C % 64) / 8, (R % 64) / 8, R % 8, C % 8) == GlobalIndex(size, R, C)
  {
    BlockOf(size, R);
    BlockOf(size, C);
    SplitCoordinate(R, R / 64, (R % 64) / 8, R % 8);
    SplitCoordinate(C, C / 64, (C % 64) / 8, C % 8);
    StoreIndexIsCell(size, C / 64, R / 64, (C % 64) / 8, (R % 64) / 8, R % 8, C % 8);
  }

  /**
   * Over the whole (size / 64) x (size / 64) grid, the stores write every cell of C
   * exactly once: cell (R, C) is written by the one (workgroup, invocation, r, c)
   * whose digits R and C spell, and by no other.
   */
  lemma StoresCoverExactlyOnce(size: nat, R: nat, C: nat)
    requires size % 64 == 0 && R < size && C < size
    ensures InGrid(size, C / 64, R / 64)
    ensures StoreIndex(size, C / 64, R / 64, (C % 64) / 8, (R % 64) / 8, R % 8, C % 8) == GlobalIndex(size, R, C)
    ensures forall cx: nat, cy: nat, tx: nat, ty: nat, r: nat, c: nat
              {:trigger StoreIndex(size, cx, cy, tx, ty, r, c)} ::
              InGrid(size, cx, cy) && tx < 8 && ty < 8 && r < 8 && c < 8 &&
              StoreIndex(size, cx, cy, tx, ty, r, c) == GlobalIndex(size, R, C) ==>
              cx == C / 64 && cy == R / 64 && tx == (C % 64) / 8 && ty == (R % 64) / 8 && r == R % 8 && c == C % 8
  {
    StoreOfCell(size, R, C);
    forall cx: nat, cy: nat, tx: nat, ty: nat, r: nat, c: nat |
      InGrid(size, cx, cy) && tx < 8 && ty < 8 && r < 8 && c < 8 &&
      StoreIndex(size, cx, cy, tx, ty, r, c) == GlobalIndex(size, R, C)
      ensures cx == C / 64 && cy == R / 64 && tx == (C % 64) / 8 && ty == (R % 64) / 8 && r == R % 8 && c == C % 8
    {
      StoreCellUnique(size, cx, cy, tx, ty, r, c, R, C);
    }
  }

  // ---------------------------------------------------------------------------
  // The load phase.

  /** What the j-th load of invocation (tx, ty) stages from A: row aRow + ty + 8*j, column i + tx. */
  function StagedA(matA: seq<int>, size: nat, aRow: nat, i: nat, tx: nat, ty: nat, j: nat): int
    requires IsSquare(matA, size) && aRow + 64 <= size && i + 8 <= size && Local3(tx, ty, j)
  {
    Entry(matA, size, aRow + ty + 8 * j, i + tx)
  }

  /** What the j-th load of invocation (tx, ty) stages from B: row i + j, column bCol + threadIndex. */
  function StagedB(matB: seq<int>, size: nat, bCol: nat, i: nat, tx: nat, ty: nat, j: nat): int
    requires IsSquare(matB, size) && bCol + 64 <= size && i + 8 <= size && Local3(tx, ty, j)
  {
    Entry(matB, size, i + j, bCol + ThreadIndex(tx, ty))
  }

  /** The two load loops of invocation (tx, ty): it fills exactly its own 8 + 8 slots, with the tiles' contents. */
  method LoadThread(matA: seq<int>, matB: seq<int>, size: nat, aRow: nat, bCol: nat, i: nat,
                    tx: nat, ty: nat, bufferA: array<int>, bufferB: array<int>)
    requires IsSquare(matA, size) && IsSquare(matB, size)
    requires aRow + 64 <= size && bCol + 64 <= size && i + 8 <= size
    requires tx < 8 && ty < 8
    requires bufferA.Length == BufferLength && bufferB.Length == BufferLength && bufferA != bufferB
    modifies bufferA, bufferB
    ensures forall tx': nat, ty': nat, j: nat :: Local3(tx', ty', j) ==>
              bufferA[LoadAOutputIndex(tx', ty', j)] ==
                if tx' == tx && ty' == ty then StagedA(matA, size, aRow, i, tx', ty', j)
                else old(bufferA[LoadAOutputIndex(tx', ty', j)])
    ensures forall tx': nat, ty': nat, j: nat :: Local3(tx', ty', j) ==>
              bufferB[LoadBOutputIndex(tx', ty', j)] ==
                if tx' == tx && ty' == ty then StagedB(matB, size, bCol, i, tx', ty', j)
                else old(bufferB[LoadBOutputIndex(tx', ty', j)])
  {
    // The invocation's eight slots of the A tile.
    var loadACol := tx;
    var loadARow := ty;
    for j := 0 to 8
      invariant forall tx': nat, ty': nat, j': nat :: Local3(tx', ty', j') ==>
                  bufferA[LoadAOutputIndex(tx', ty', j')] ==
                    if tx' == tx && ty' == ty && j' < j then StagedA(matA, size, aRow, i, tx', ty', j')
                    else old(bufferA[LoadAOutputIndex(tx', ty', j')])
      invariant bufferB[..] == old(bufferB[..])
    {
      FlatIndex(size, aRow + loadARow + 8 * j, loadACol + i);
      var inputIndex := (aRow + loadARow + 8 * j) * size + loadACol + i;
      var outputIndex := (loadARow + 8 * j) * 8 + loadACol;
      assert outputIndex == LoadAOutputIndex(tx, ty, j);
      LoadASlotsDistinct(tx, ty, j);
      bufferA[outputIndex] := matA[inputIndex];
    }
    // The invocation's eight slots of the B tile.
    var threadIndex := tx + ty * 8;
    for j := 0 to 8
      invariant forall tx': nat, ty': nat, j': nat :: Local3(tx', ty', j') ==>
                  bufferA[LoadAOutputIndex(tx', ty', j')] ==
                    if tx' == tx && ty' == ty then StagedA(matA, size, aRow, i, tx', ty', j')
                    else old(bufferA[LoadAOutputIndex(tx', ty', j')])
      invariant forall tx': nat, ty': nat, j': nat :: Local3(tx', ty', j') ==>
                  bufferB[LoadBOutputIndex(tx', ty', j')] ==
                    if tx' == tx && ty' == ty && j' < j then StagedB(matB, size, bCol, i, tx', ty', j')
                    else old(bufferB[LoadBOutputIndex(tx', ty', j')])
    {
      FlatIndex(size, j + i, bCol + threadIndex);
      var inputIndex := (j + i) * size + bCol + threadIndex;
      var outputIndex := j * 64 + threadIndex;
      assert outputIndex == LoadBOutputIndex(tx, ty, j);
      LoadBSlotsDistinct(tx, ty, j);
      bufferB[outputIndex] := matB[inputIndex];
    }
  }

  /** The load phase of one k-tile, all 64 invocations: afterwards both staged tiles are complete. */
  method LoadPhase(matA: seq<int>, matB: seq<int>, size: nat, aRow: nat, bCol: nat, i: nat,
                   bufferA: array<int>, bufferB: array<int>)
    requires IsSquare(matA, size) && IsSquare(matB, size)
    requires aRow + 64 <= size && bCol + 64 <= size && i + 8 <= size
    requires bufferA.Length == BufferLength && bufferB.Length == BufferLength && bufferA != bufferB
    modifies bufferA, bufferB
    ensures forall tx: nat, ty: nat, j: nat :: Local3(tx, ty, j) ==>
              bufferA[LoadAOutputIndex(tx, ty, j)] == StagedA(matA, size, aRow, i, tx, ty, j)
    ensures forall tx: nat, ty: nat, j: nat :: Local3(tx, ty, j) ==>
              bufferB[LoadBOutputIndex(tx, ty, j)] == StagedB(matB, size, bCol, i, tx, ty, j)
  {
    for t := 0 to Invocations
      invariant forall tx: nat, ty: nat, j: nat :: Local3(tx, ty, j) && ThreadIndex(tx, ty) < t ==>
                  bufferA[LoadAOutputIndex(tx, ty, j)] == StagedA(matA, size, aRow, i, tx, ty, j)
      invariant forall tx: nat, ty: nat, j: nat :: Local3(tx, ty, j) && ThreadIndex(tx, ty) < t ==>
                  bufferB[LoadBOutputIndex(tx, ty, j)] == StagedB(matB, size, bCol, i, tx, ty, j)
    {
      InvocationOf(t);
      LoadThread(matA, matB, size, aRow, bCol, i, t % 8, t / 8, bufferA, bufferB);
    }
  }

  // ---------------------------------------------------------------------------
  // The compute phase.

  /** The term that step j of the compute phase adds to `sum[r*8 + c]` of invocation (tx, ty): `localA{r} * localB{c}`. */
  function OuterTerm(bufA: seq<int>, bufB: seq<int>, tx: nat, ty: nat, r: nat, c: nat, j: nat): int
    requires |bufA| == BufferLength && |bufB| == BufferLength
    requires tx < 8 && ty < 8 && r < 8 && c < 8 && j < 8
  {
    bufA[LoadAOutputIndex(j, r, ty)] * bufB[LoadBOutputIndex(c, tx, j)]
  }

  /** What steps 0 .. j-1 of the compute phase add to `sum[r*8 + c]` of invocation (tx, ty). */
  function OuterSum(bufA: seq<int>, bufB: seq<int>, tx: nat, ty: nat, r: nat, c: nat, j: nat): int
    requires |bufA| == BufferLength && |bufB| == BufferLength
    requires tx < 8 && ty < 8 && r < 8 && c < 8 && j <= 8
  {
    if j == 0 then 0 else OuterSum(bufA, bufB, tx, ty, r, c, j - 1) + OuterTerm(bufA, bufB, tx, ty, r, c, j - 1)
  }

  /** Step j of the compute phase of invocation (tx, ty): each of its 64 sums grows by its outer-product term; no other sum changes. */
  method OuterProductStep(bufferA: array<int>, bufferB: array<int>, sums: array<int>, tx: nat, ty: nat, j: nat)
    requires bufferA.Length == BufferLength && bufferB.Length == BufferLength && sums.Length == Invocations * SumLength
    requires sums != bufferA && sums != bufferB && tx < 8 && ty < 8 && j < 8
    modifies sums
    ensures forall r: nat, c: nat :: r < 8 && c < 8 ==>
              sums[SumIndex(tx, ty, r, c)] == old(sums[SumIndex(tx, ty, r, c)]) + OuterTerm(bufferA[..], bufferB[..], tx, ty, r, c, j)
    ensures forall s :: 0 <= s < sums.Length && (s < ThreadIndex(tx, ty) * SumLength || (ThreadIndex(tx, ty) + 1) * SumLength <= s) ==>
              sums[s] == old(sums[s])
  {
    var base := ThreadIndex(tx, ty) * SumLength;
    var bufA, bufB := bufferA[..], bufferB[..];
    var offsetA := ty * 8 * 8 + j;
    var localA := seq(8, r requires 0 <= r < 8 => bufA[offsetA + 8 * r]);
    var offsetB := tx * 8 + j * 64;
    var localB := bufB[offsetB .. offsetB + 8];
    ghost var before := sums[..];
    // sum[r*8 + c] += localA{r} * localB{c}, row by row.
    for r := 0 to 8
      invariant forall r': nat, c': nat :: r' < 8 && c' < 8 ==>
                  sums[SumIndex(tx, ty, r', c')] == before[SumIndex(tx, ty, r', c')]
                    + (if r' < r then OuterTerm(bufA, bufB, tx, ty, r', c', j) else 0)
      invariant forall s :: 0 <= s < sums.Length && (s < base || base + SumLength <= s) ==> sums[s] == before[s]
    {
      ghost var pre := sums[..];
      AccumulateRow(sums, tx, ty, r, localA[r], localB);
      assert localA[r] == bufA[LoadAOutputIndex(j, r, ty)];
      assert forall c: nat :: c < 8 ==> localB[c] == bufB[LoadBOutputIndex(c, tx, j)];
      RowStep(before, pre, sums[..], bufA, bufB, tx, ty, j, r);
    }
    assert bufferA[..] == bufA && bufferB[..] == bufB;
  }

  /**
   * After rows 0 .. r-1 of step j, adding row r's outer-product terms and nothing else
   * gives rows 0 .. r, and still nothing outside the invocation's 64 sums.
   */
  lemma RowStep(before: seq<int>, pre: seq<int>, post: seq<int>, bufA: seq<int>, bufB: seq<int>, tx: nat, ty: nat, j: nat, r: nat)
    requires |before| == Invocations * SumLength && |pre| == |before| && |post| == |before|
    requires |bufA| == BufferLength && |bufB| == BufferLength && tx < 8 && ty < 8 && j < 8 && r < 8
    requires forall r': nat, c': nat :: r' < 8 && c' < 8 ==>
               pre[SumIndex(tx, ty, r', c')] == before[SumIndex(tx, ty, r', c')]
                 + (if r' < r then OuterTerm(bufA, bufB, tx, ty, r', c', j) else 0)
    requires forall s :: 0 <= s < |pre| && (s < ThreadIndex(tx, ty) * SumLength || ThreadIndex(tx, ty) * SumLength + SumLength <= s) ==>
               pre[s] == before[s]
    requires forall c: nat :: c < 8 ==>
               post[SumIndex(tx, ty, r, c)] == pre[SumIndex(tx, ty, r, c)] + bufA[LoadAOutputIndex(j, r, ty)] * bufB[LoadBOutputIndex(c, tx, j)]
    requires forall s :: 0 <= s < |post| && (s < SumIndex(tx, ty, r, 0) || SumIndex(tx, ty, r, 0) + 8 <= s) ==> post[s] == pre[s]
    ensures forall r': nat, c': nat :: r' < 8 && c' < 8 ==>
              post[SumIndex(tx, ty, r', c')] == before[SumIndex(tx, ty, r', c')]
                + (if r' < r + 1 then OuterTerm(bufA, bufB, tx, ty, r', c', j) else 0)
    ensures forall s :: 0 <= s < |post| && (s < ThreadIndex(tx, ty) * SumLength || ThreadIndex(tx, ty) * SumLength + SumLength <= s) ==>
              post[s] == before[s]
  {
    forall r': nat, c': nat | r' < 8 && c' < 8
      ensures post[SumIndex(tx, ty, r', c')] == before[SumIndex(tx, ty, r', c')]
                + (if r' < r + 1 then OuterTerm(bufA, bufB, tx, ty, r', c', j) else 0)
    {
      if r' != r {
        assert post[SumIndex(tx, ty, r', c')] == pre[SumIndex(tx, ty, r', c')];
      }
    }
  }

  /** The 8 updates `sum[r*8 + c] += localA{r} * localB{c}` of row r of invocation (tx, ty); no other sum changes. */
  method AccumulateRow(sums: array<int>, tx: nat, ty: nat, r: nat, valueA: int, localB: seq<int>)
    requires sums.Length == Invocations * SumLength && tx < 8 && ty < 8 && r < 8 && |localB| == 8
    modifies sums
    ensures forall c: nat :: c < 8 ==> sums[SumIndex(tx, ty, r, c)] == old(sums[SumIndex(tx, ty, r, c)]) + valueA * localB[c]
    ensures forall s :: 0 <= s < sums.Length && (s < SumIndex(tx, ty, r, 0) || SumIndex(tx, ty, r, 0) + 8 <= s) ==>
              sums[s] == old(sums[s])
  {
    var start := ThreadIndex(tx, ty) * SumLength + r * 8;
    for c := 0 to 8
      invariant forall s :: 0 <= s < sums.Length ==>
                  sums[s] == if start <= s < start + c then old(sums[s]) + valueA * localB[s - start] else old(sums[s])
    {
      sums[start + c] := sums[start + c] + valueA * localB[c];
    }
  }

  /** The compute phase of invocation (tx, ty): its 64 sums grow by their outer-product sums; no other sum changes. */
  method ComputeThread(bufferA: array<int>, bufferB: array<int>, sums: array<int>, tx: nat, ty: nat)
    requires bufferA.Length == BufferLength && bufferB.Length == BufferLength && sums.Length == Invocations * SumLength
    requires sums != bufferA && sums != bufferB && tx < 8 && ty < 8
    modifies sums
    ensures forall r: nat, c: nat :: r < 8 && c < 8 ==>
              sums[SumIndex(tx, ty, r, c)] == old(sums[SumIndex(tx, ty, r, c)]) + OuterSum(bufferA[..], bufferB[..], tx, ty, r, c, 8)
    ensures forall s :: 0 <= s < sums.Length && (s < ThreadIndex(tx, ty) * SumLength || (ThreadIndex(tx, ty) + 1) * SumLength <= s) ==>
              sums[s] == old(sums[s])
  {
    for j := 0 to 8
      invariant forall r: nat, c: nat :: r < 8 && c < 8 ==>
                  sums[SumIndex(tx, ty, r, c)] == old(sums[SumIndex(tx, ty, r, c)]) + OuterSum(bufferA[..], bufferB[..], tx, ty, r, c, j)
      invariant forall s :: 0 <= s < sums.Length && (s < ThreadIndex(tx, ty) * SumLength || (ThreadIndex(tx, ty) + 1) * SumLength <= s) ==>
                  sums[s] == old(sums[s])
    {
      OuterProductStep(bufferA, bufferB, sums, tx, ty, j);
    }
  }

  /** The compute phase of one k-tile, all 64 invocations: every private sum grows by its outer-product sum. */
  method ComputePhase(bufferA: array<int>, bufferB: array<int>, sums: array<int>)
    requires bufferA.Length == BufferLength && bufferB.Length == BufferLength && sums.Length == Invocations * SumLength
    requires sums != bufferA && sums != bufferB
    modifies sums
    ensures forall tx: nat, ty: nat, r: nat, c: nat :: tx < 8 && ty < 8 && r < 8 && c < 8 ==>
              sums[SumIndex(tx, ty, r, c)] == old(sums[SumIndex(tx, ty, r, c)]) + OuterSum(bufferA[..], bufferB[..], tx, ty, r, c, 8)
  {
    for t := 0 to Invocations
      invariant forall tx: nat, ty: nat, r: nat, c: nat :: tx < 8 && ty < 8 && r < 8 && c < 8 ==>
                  sums[SumIndex(tx, ty, r, c)] ==
                    if ThreadIndex(tx, ty) < t then old(sums[SumIndex(tx, ty, r, c)]) + OuterSum(bufferA[..], bufferB[..], tx, ty, r, c, 8)
                    else old(sums[SumIndex(tx, ty, r, c)])
    {
      InvocationOf(t);
      ComputeThread(bufferA, bufferB, sums, t % 8, t / 8);
    }
  }

  /**
   * With both tiles staged for the k-tile at i, the factors of term j of the
   * outer-product sum of `sum[r*8 + c]` of invocation (tx, ty) are the factors of term i + j
   * of its cell's dot product.
   */
  lemma OuterTermIsDotTerm(matA: seq<int>, matB: seq<int>, size: nat, aRow: nat, bCol: nat, i: nat,
                           bufA: seq<int>, bufB: seq<int>, tx: nat, ty: nat, r: nat, c: nat, j: nat)
    requires IsSquare(matA, size) && IsSquare(matB, size)
    requires aRow + 64 <= size && bCol + 64 <= size && i + 8 <= size
    requires |bufA| == BufferLength && |bufB| == BufferLength
    requires forall tx': nat, ty': nat, j': nat :: Local3(tx', ty', j') ==>
               bufA[LoadAOutputIndex(tx', ty', j')] == StagedA(matA, size, aRow, i, tx', ty', j')
    requires forall tx': nat, ty': nat, j': nat :: Local3(tx', ty', j') ==>
               bufB[LoadBOutputIndex(tx', ty', j')] == StagedB(matB, size, bCol, i, tx', ty', j')
    requires tx < 8 && ty < 8 && r < 8 && c < 8 && j < 8
    ensures aRow + ty * 8 + r < size && bCol + tx * 8 + c < size
    ensures bufA[LoadAOutputIndex(j, r, ty)] == Entry(matA, size, aRow + ty * 8 + r, i + j)
    ensures bufB[LoadBOutputIndex(c, tx, j)] == Entry(matB, size, i + j, bCol + tx * 8 + c)
  {
    var R, C, k := aRow + ty * 8 + r, bCol + tx * 8 + c, i + j;
    assert aRow + r + 8 * ty == R && bCol + ThreadIndex(c, tx) == C;
    assert StagedA(matA, size, aRow, i, j, r, ty) == Entry(matA, size, R, k);
    assert StagedB(matB, size, bCol, i, c, tx, j) == Entry(matB, size, k, C);
  }

  /**
   * If the factors of terms 0 .. j-1 of an outer-product sum are those of terms i .. i+j-1 of
   * the dot product of row R with column C, the first j terms extend the dot product from i to i + j.
   */
  lemma {:induction false} OuterSumIsDotStep(matA: seq<int>, matB: seq<int>, size: nat, R: nat, C: nat, i: nat,
                                             bufA: seq<int>, bufB: seq<int>, tx: nat, ty: nat, r: nat, c: nat, j: nat)
    requires IsSquare(matA, size) && IsSquare(matB, size)
    requires R < size && C < size && i + j <= size
    requires |bufA| == BufferLength && |bufB| == BufferLength
    requires tx < 8 && ty < 8 && r < 8 && c < 8 && j <= 8
    requires forall j': nat :: j' < j ==>
               bufA[LoadAOutputIndex(j', r, ty)] == Entry(matA, size, R, i + j') &&
               bufB[LoadBOutputIndex(c, tx, j')] == Entry(matB, size, i + j', C)
    ensures Dot(matA, matB, size, R, C, i + j) == Dot(matA, matB, size, R, C, i) + OuterSum(bufA, bufB, tx, ty, r, c, j)
  {
    if j > 0 {
      OuterSumIsDotStep(matA, matB, size, R, C, i, bufA, bufB, tx, ty, r, c, j - 1);
      var k := i + (j - 1);
      assert bufA[LoadAOutputIndex(j - 1, r, ty)] == Entry(matA, size, R, k);
      assert bufB[LoadBOutputIndex(c, tx, j - 1)] == Entry(matB, size, k, C);
    }
  }

  /**
   * With both tiles staged for the k-tile at i, the compute phase adds to every private sum
   * the next 8 terms of its cell's dot product.
   */
  lemma TileStep(matA: seq<int>, matB: seq<int>, size: nat, aRow: nat, bCol: nat, i: nat, bufA: seq<int>, bufB: seq<int>)
    requires IsSquare(matA, size) && IsSquare(matB, size)
    requires aRow + 64 <= size && bCol + 64 <= size && i + 8 <= size
    requires |bufA| == BufferLength && |bufB| == BufferLength
    requires forall tx': nat, ty': nat, j': nat :: Local3(tx', ty', j') ==>
               bufA[LoadAOutputIndex(tx', ty', j')] == StagedA(matA, size, aRow, i, tx', ty', j')
    requires forall tx': nat, ty': nat, j': nat :: Local3(tx', ty', j') ==>
               bufB[LoadBOutputIndex(tx', ty', j')] == StagedB(matB, size, bCol, i, tx', ty', j')
    ensures forall tx: nat, ty: nat, r: nat, c: nat :: tx < 8 && ty < 8 && r < 8 && c < 8 ==>
              Dot(matA, matB, size, aRow + ty * 8 + r, bCol + tx * 8 + c, i + 8)
              == Dot(matA, matB, size, aRow + ty * 8 + r, bCol + tx * 8 + c, i) + OuterSum(bufA, bufB, tx, ty, r, c, 8)
  {
    forall tx: nat, ty: nat, r: nat, c: nat | tx < 8 && ty < 8 && r < 8 && c < 8
      ensures Dot(matA, matB, size, aRow + ty * 8 + r, bCol + tx * 8 + c, i + 8)
              == Dot(matA, matB, size, aRow + ty * 8 + r, bCol + tx * 8 + c, i) + OuterSum(bufA, bufB, tx, ty, r, c, 8)
    {
      CellTileStep(matA, matB, size, aRow, bCol, i, bufA, bufB, tx, ty, r, c);
    }
  }

  /** TileStep for the one sum `sum[r*8 + c]` of invocation (tx, ty). */
  lemma CellTileStep(matA: seq<int>, matB: seq<int>, size: nat, aRow: nat, bCol: nat, i: nat, bufA: seq<int>, bufB: seq<int>,
                     tx: nat, ty: nat, r: nat, c: nat)
    requires IsSquare(matA, size) && IsSquare(matB, size)
    requires aRow + 64 <= size && bCol + 64 <= size && i + 8 <= size
    requires |bufA| == BufferLength && |bufB| == BufferLength
    requires forall tx': nat, ty': nat, j': nat :: Local3(tx', ty', j') ==>
               bufA[LoadAOutputIndex(tx', ty', j')] == StagedA(matA, size, aRow, i, tx', ty', j')
    requires forall tx': nat, ty': nat, j': nat :: Local3(tx', ty', j') ==>
               bufB[LoadBOutputIndex(tx', ty', j')] == StagedB(matB, size, bCol, i, tx', ty', j')
    requires tx < 8 && ty < 8 && r < 8 && c < 8
    ensures aRow + ty * 8 + r < size && bCol + tx * 8 + c < size
    ensures Dot(matA, matB, size, aRow + ty * 8 + r, bCol + tx * 8 + c, i + 8)
            == Dot(matA, matB, size, aRow + ty * 8 + r, bCol + tx * 8 + c, i) + OuterSum(bufA, bufB, tx, ty, r, c, 8)
  {
    var R, C := aRow + ty * 8 + r, bCol + tx * 8 + c;
    forall j: nat | j < 8
      ensures bufA[LoadAOutputIndex(j, r, ty)] == Entry(matA, size, R, i + j)
      ensures bufB[LoadBOutputIndex(c, tx, j)] == Entry(matB, size, i + j, C)
    {
      OuterTermIsDotTerm(matA, matB, size, aRow, bCol, i, bufA, bufB, tx, ty, r, c, j);
    }
    OuterSumIsDotStep(matA, matB, size, R, C, i, bufA, bufB, tx, ty, r, c, 8);
  }

  // ---------------------------------------------------------------------------
  // The store phase.

  /** Cell (R, C) of C lies in the 8 x 8 sub-block of invocation (tx, ty) of the workgroup at (aRow, bCol). */
  predicate InThreadBlock(aRow: nat, bCol: nat, tx: nat, ty: nat, R: nat, C: nat)
  {
    aRow + ty * 8 <= R < aRow + ty * 8 + 8 && bCol + tx * 8 <= C < bCol + tx * 8 + 8
  }

  /** Cell (R, C) lies in the 64 x 64 block of the workgroup at (aRow, bCol). */
  predicate InBlock(aRow: nat, bCol: nat, R: nat, C: nat)
  {
    aRow <= R < aRow + 64 && bCol <= C < bCol + 64
  }

  /** Cell (R, C) lies in row r of the sub-block of invocation (tx, ty) of the workgroup at (aRow, bCol). */
  predicate InThreadRow(aRow: nat, bCol: nat, tx: nat, ty: nat, r: nat, R: nat, C: nat)
  {
    R == aRow + ty * 8 + r && bCol + tx * 8 <= C < bCol + tx * 8 + 8
  }

  /** The kernel's row start `startOutIndex + r*size` is the flat index of row R + r. */
  lemma RowStart(size: nat, R: nat, r: nat, C: nat)
    ensures R * size + C + r * size == GlobalIndex(size, R + r, C)
  {
    GlobalIndexValue(size, R + r, C);
    assert R * size + r * size == (R + r) * size;
  }

  /** The 8 stores of row r of invocation (tx, ty): that row of its sub-block receives its sums, and no other cell changes. */
  method StoreRow(sums: array<int>, size: nat, aRow: nat, bCol: nat, tx: nat, ty: nat, r: nat, matC: array<int>)
    requires sums.Length == Invocations * SumLength && matC.Length == size * size && sums != matC
    requires aRow + 64 <= size && bCol + 64 <= size && tx < 8 && ty < 8 && r < 8
    modifies matC
    ensures forall c: nat :: c < 8 ==>
              Entry(matC[..], size, aRow + ty * 8 + r, bCol + tx * 8 + c) == sums[SumIndex(tx, ty, r, c)]
    ensures forall R: nat, C: nat :: R < size && C < size && !InThreadRow(aRow, bCol, tx, ty, r, R, C) ==>
              Entry(matC[..], size, R, C) == Entry(old(matC[..]), size, R, C)
  {
    var threadIndex := ThreadIndex(tx, ty);
    var startOutIndex := (aRow + ty * 8) * size + bCol + tx * 8;
    var R0, C0 := aRow + ty * 8 + r, bCol + tx * 8;
    // The row's cells are consecutive in C, starting at startOutIndex + r*size.
    ghost var lo := GlobalIndex(size, R0, C0);
    RowStart(size, aRow + ty * 8, r, C0);
    assert startOutIndex + r * size == lo;
    GlobalIndexShift(size, R0, C0, 7);
    FlatIndex(size, R0, C0 + 7);
    ghost var vals := sums[threadIndex * SumLength + r * 8 .. threadIndex * SumLength + r * 8 + 8];
    // matC[startOutIndex + c + r*size] = sum[r*8 + c], for c = 0 .. 7.
    CopyRun(sums, threadIndex * SumLength + r * 8, matC, startOutIndex + r * size, 8);
    RowRangeWrite(old(matC[..]), matC[..], size, R0, C0, vals);
    forall c: nat | c < 8
      ensures Entry(matC[..], size, aRow + ty * 8 + r, bCol + tx * 8 + c) == sums[SumIndex(tx, ty, r, c)]
    {
      assert Entry(matC[..], size, R0, C0 + c) == vals[c];
    }
  }

  /** `dst[to + c] = src[from + c]` for c = 0 .. n-1, in that order; no other element of dst changes. */
  method CopyRun(src: array<int>, from: nat, dst: array<int>, to: nat, n: nat)
    requires src != dst && from + n <= src.Length && to + n <= dst.Length
    modifies dst
    ensures forall k :: 0 <= k < dst.Length ==> dst[k] == if to <= k < to + n then src[from + (k - to)] else old(dst[k])
  {
    for c := 0 to n
      invariant forall k :: 0 <= k < dst.Length ==> dst[k] == if to <= k < to + c then src[from + (k - to)] else old(dst[k])
    {
      dst[to + c] := src[from + c];
    }
  }

  /** The 64 stores of invocation (tx, ty): its 8 x 8 sub-block of C receives its sums, and no other cell changes. */
  method StoreThread(sums: array<int>, size: nat, aRow: nat, bCol: nat, tx: nat, ty: nat, matC: array<int>)
    requires sums.Length == Invocations * SumLength && matC.Length == size * size && sums != matC
    requires aRow + 64 <= size && bCol + 64 <= size && tx < 8 && ty < 8
    modifies matC
    ensures forall r: nat, c: nat :: r < 8 && c < 8 ==>
              Entry(matC[..], size, aRow + ty * 8 + r, bCol + tx * 8 + c) == sums[SumIndex(tx, ty, r, c)]
    ensures forall R: nat, C: nat :: R < size && C < size && !InThreadBlock(aRow, bCol, tx, ty, R, C) ==>
              Entry(matC[..], size, R, C) == Entry(old(matC[..]), size, R, C)
  {
    for r := 0 to 8
      invariant forall r': nat, c': nat :: r' < r && c' < 8 ==>
                  Entry(matC[..], size, aRow + ty * 8 + r', bCol + tx * 8 + c') == sums[SumIndex(tx, ty, r', c')]
      invariant forall R: nat, C: nat :: R < size && C < size && !InThreadBlock(aRow, bCol, tx, ty, R, C) ==>
                  Entry(matC[..], size, R, C) == Entry(old(matC[..]), size, R, C)
    {
      StoreRow(sums, size, aRow, bCol, tx, ty, r, matC);
    }
  }

  /** The sub-block of an invocation lies inside its workgroup's block. */
  lemma ThreadBlockInBlock(aRow: nat, bCol: nat, tx: nat, ty: nat)
    requires tx < 8 && ty < 8
    ensures forall R: nat, C: nat :: InThreadBlock(aRow, bCol, tx, ty, R, C) ==> InBlock(aRow, bCol, R, C)
  {
  }

  /** A cell of the sub-block of invocation (tx, ty) lies in no other invocation's sub-block, and inside the workgroup's block. */
  lemma SubBlocksDisjoint(aRow: nat, bCol: nat, tx': nat, ty': nat, tx: nat, ty: nat, r: nat, c: nat)
    requires tx < 8 && ty < 8 && r < 8 && c < 8
    ensures InBlock(aRow, bCol, aRow + ty * 8 + r, bCol + tx * 8 + c)
    ensures InThreadBlock(aRow, bCol, tx', ty', aRow + ty * 8 + r, bCol + tx * 8 + c) <==> tx' == tx && ty' == ty
  {
  }

  /** The store phase of one workgroup, all 64 invocations: its block of C receives the sums, and no other cell changes. */
  method StorePhase(sums: array<int>, size: nat, aRow: nat, bCol: nat, matC: array<int>)
    requires sums.Length == Invocations * SumLength && matC.Length == size * size && sums != matC
    requires aRow + 64 <= size && bCol + 64 <= size
    modifies matC
    ensures forall tx: nat, ty: nat, r: nat, c: nat :: tx < 8 && ty < 8 && r < 8 && c < 8 ==>
              Entry(matC[..], size, aRow + ty * 8 + r, bCol + tx * 8 + c) == sums[SumIndex(tx, ty, r, c)]
    ensures forall R: nat, C: nat :: R < size && C < size && !InBlock(aRow, bCol, R, C) ==>
              Entry(matC[..], size, R, C) == Entry(old(matC[..]), size, R, C)
  {
    for t := 0 to Invocations
      invariant forall tx: nat, ty: nat, r: nat, c: nat :: tx < 8 && ty < 8 && r < 8 && c < 8 && ThreadIndex(tx, ty) < t ==>
                  Entry(matC[..], size, aRow + ty * 8 + r, bCol + tx * 8 + c) == sums[SumIndex(tx, ty, r, c)]
      invariant forall R: nat, C: nat :: R < size && C < size && !InBlock(aRow, bCol, R, C) ==>
                  Entry(matC[..], size, R, C) == Entry(old(matC[..]), size, R, C)
    {
      InvocationOf(t);
      var localX, localY := t % 8, t / 8;
      ghost var mid := matC[..];
      StoreThread(sums, size, aRow, bCol, localX, localY, matC);
      forall tx: nat, ty: nat, r: nat, c: nat | tx < 8 && ty < 8 && r < 8 && c < 8 && ThreadIndex(tx, ty) < t + 1
        ensures Entry(matC[..], size, aRow + ty * 8 + r, bCol + tx * 8 + c) == sums[SumIndex(tx, ty, r, c)]
      {
        if ThreadIndex(tx, ty) < t {
          SubBlocksDisjoint(aRow, bCol, localX, localY, tx, ty, r, c);
          assert Entry(mid, size, aRow + ty * 8 + r, bCol + tx * 8 + c) == sums[SumIndex(tx, ty, r, c)];
        }
      }
      ThreadBlockInBlock(aRow, bCol, localX, localY);
    }
  }

  // ---------------------------------------------------------------------------
  // One workgroup and the whole dispatch.

  /** One k-tile, the one at i: staging both tiles and the compute phase extend every private sum from i to i + 8 terms. */
  method ProcessTile(matA: seq<int>, matB: seq<int>, size: nat, aRow: nat, bCol: nat, i: nat,
                     bufferA: array<int>, bufferB: array<int>, sums: array<int>)
    requires IsSquare(matA, size) && IsSquare(matB, size)
    requires aRow + 64 <= size && bCol + 64 <= size && i + 8 <= size
    requires bufferA.Length == BufferLength && bufferB.Length == BufferLength && sums.Length == Invocations * SumLength
    requires bufferA != bufferB && sums != bufferA && sums != bufferB
    requires forall tx: nat, ty: nat, r: nat, c: nat :: tx < 8 && ty < 8 && r < 8 && c < 8 ==>
               sums[SumIndex(tx, ty, r, c)] == Dot(matA, matB, size, aRow + ty * 8 + r, bCol + tx * 8 + c, i)
    modifies bufferA, bufferB, sums
    ensures forall tx: nat, ty: nat, r: nat, c: nat :: tx < 8 && ty < 8 && r < 8 && c < 8 ==>
              sums[SumIndex(tx, ty, r, c)] == Dot(matA, matB, size, aRow + ty * 8 + r, bCol + tx * 8 + c, i + 8)
  {
    LoadPhase(matA, matB, size, aRow, bCol, i, bufferA, bufferB);
    ComputePhase(bufferA, bufferB, sums);
    TileStep(matA, matB, size, aRow, bCol, i, bufferA[..], bufferB[..]);
  }

  /** The k-tile loop of the workgroup at (aRow, bCol): afterwards every private sum holds its cell's full dot product. */
  method AccumulateTiles(matA: seq<int>, matB: seq<int>, size: nat, aRow: nat, bCol: nat) returns (sums: array<int>)
    requires IsSquare(matA, size) && IsSquare(matB, size)
    requires aRow + 64 <= size && bCol + 64 <= size && size % 8 == 0
    ensures fresh(sums) && sums.Length == Invocations * SumLength
    ensures forall tx: nat, ty: nat, r: nat, c: nat :: tx < 8 && ty < 8 && r < 8 && c < 8 ==>
              sums[SumIndex(tx, ty, r, c)] == Dot(matA, matB, size, aRow + ty * 8 + r, bCol + tx * 8 + c, size)
  {
    var bufferA := new int[BufferLength](_ => 0);
    var bufferB := new int[BufferLength](_ => 0);
    sums := new int[Invocations * SumLength](_ => 0);
    var i := 0;
    while i < size
      invariant i <= size && i % 8 == 0
      invariant forall tx: nat, ty: nat, r: nat, c: nat :: tx < 8 && ty < 8 && r < 8 && c < 8 ==>
                  sums[SumIndex(tx, ty, r, c)] == Dot(matA, matB, size, aRow + ty * 8 + r, bCol + tx * 8 + c, i)
    {
      ProcessTile(matA, matB, size, aRow, bCol, i, bufferA, bufferB, sums);
      i := i + 8;
    }
  }

  /** Workgroup (cx, cy): after all k-tiles and the stores, its 64 x 64 block of C holds the product; no other cell changes. */
  method Workgroup(matA: seq<int>, matB: seq<int>, size: nat, cx: nat, cy: nat, matC: array<int>)
    requires IsSquare(matA, size) && IsSquare(matB, size) && matC.Length == size * size
    requires InGrid(size, cx, cy)
    modifies matC
    ensures forall R: nat, C: nat :: R < size && C < size ==>
              Entry(matC[..], size, R, C) ==
                if InBlock(cy * 64, cx * 64, R, C) then Dot(matA, matB, size, R, C, size)
                else Entry(old(matC[..]), size, R, C)
  {
    var aRow := cy * 64;
    var bCol := cx * 64;
    BlockFits(size, cx, cy, 0);
    var sums := AccumulateTiles(matA, matB, size, aRow, bCol);
    assert matC[..] == old(matC[..]);
    StoreBlock(matA, matB, size, aRow, bCol, sums, matC);
  }

  /** The store phase of the workgroup at (aRow, bCol), given its finished sums: its block of C holds the product; no other cell changes. */
  method StoreBlock(matA: seq<int>, matB: seq<int>, size: nat, aRow: nat, bCol: nat, sums: array<int>, matC: array<int>)
    requires IsSquare(matA, size) && IsSquare(matB, size) && matC.Length == size * size
    requires aRow + 64 <= size && bCol + 64 <= size && sums.Length == Invocations * SumLength && sums != matC
    requires forall tx: nat, ty: nat, r: nat, c: nat :: tx < 8 && ty < 8 && r < 8 && c < 8 ==>
               sums[SumIndex(tx, ty, r, c)] == Dot(matA, matB, size, aRow + ty * 8 + r, bCol + tx * 8 + c, size)
    modifies matC
    ensures forall R: nat, C: nat :: R < size && C < size ==>
              Entry(matC[..], size, R, C) ==
                if InBlock(aRow, bCol, R, C) then Dot(matA, matB, size, R, C, size)
                else Entry(old(matC[..]), size, R, C)
  {
    StorePhase(sums, size, aRow, bCol, matC);
    StoredBlockIsProduct(matA, matB, size, aRow, bCol, sums[..], old(matC[..]), matC[..]);
  }

  /**
   * If the sums hold their cells' dot products and the stores put each sum on its cell and
   * touched nothing outside the block, then the block holds the product and the rest is unchanged.
   */
  lemma StoredBlockIsProduct(matA: seq<int>, matB: seq<int>, size: nat, aRow: nat, bCol: nat,
                             sums: seq<int>, before: seq<int>, after: seq<int>)
    requires IsSquare(matA, size) && IsSquare(matB, size) && IsSquare(before, size) && IsSquare(after, size)
    requires aRow + 64 <= size && bCol + 64 <= size && |sums| == Invocations * SumLength
    requires forall tx: nat, ty: nat, r: nat, c: nat :: tx < 8 && ty < 8 && r < 8 && c < 8 ==>
               sums[SumIndex(tx, ty, r, c)] == Dot(matA, matB, size, aRow + ty * 8 + r, bCol + tx * 8 + c, size)
    requires forall tx: nat, ty: nat, r: nat, c: nat :: tx < 8 && ty < 8 && r < 8 && c < 8 ==>
               Entry(after, size, aRow + ty * 8 + r, bCol + tx * 8 + c) == sums[SumIndex(tx, ty, r, c)]
    requires forall R: nat, C: nat :: R < size && C < size && !InBlock(aRow, bCol, R, C) ==>
               Entry(after, size, R, C) == Entry(before, size, R, C)
    ensures forall R: nat, C: nat :: R < size && C < size ==>
              Entry(after, size, R, C) ==
                if InBlock(aRow, bCol, R, C) then Dot(matA, matB, size, R, C, size) else Entry(before, size, R, C)
  {
    forall R: nat, C: nat | R < size && C < size && InBlock(aRow, bCol, R, C)
      ensures Entry(after, size, R, C) == Dot(matA, matB, size, R, C, size)
    {
      var ty, r := (R - aRow) / 8, (R - aRow) % 8;
      var tx, c := (C - bCol) / 8, (C - bCol) % 8;
      assert R == aRow + ty * 8 + r && C == bCol + tx * 8 + c;
      assert Entry(after, size, aRow + ty * 8 + r, bCol + tx * 8 + c) == sums[SumIndex(tx, ty, r, c)];
    }
  }

  /** The dispatch of the (size / 64) x (size / 64) grid: C ends up holding exactly the naive product. */
  method Dispatch(matA: seq<int>, matB: seq<int>, size: nat, matC: array<int>)
    requires IsSquare(matA, size) && IsSquare(matB, size) && matC.Length == size * size
    requires size % 64 == 0
    modifies matC
    ensures matC[..] == Product(matA, matB, size)
  {
    var grid := size / 64;
    for cy := 0 to grid
      invariant forall R: nat, C: nat :: R < size && C < size ==>
                  Entry(matC[..], size, R, C) ==
                    if R < cy * 64 then Dot(matA, matB, size, R, C, size) else Entry(old(matC[..]), size, R, C)
    {
      for cx := 0 to grid
        invariant forall R: nat, C: nat :: R < size && C < size ==>
                    Entry(matC[..], size, R, C) ==
                      if R < cy * 64 || (R < cy * 64 + 64 && C < cx * 64) then Dot(matA, matB, size, R, C, size)
                      else Entry(old(matC[..]), size, R, C)
      {
        Workgroup(matA, matB, size, cx, cy, matC);
      }
    }
    forall R: nat, C: nat | R < size && C < size
      ensures Entry(matC[..], size, R, C) == Entry(Product(matA, matB, size), size, R, C)
    {
      ProductEntry(matA, matB, size, R, C);
    }
    EqualByEntries(matC[..], Product(matA, matB, size), size);
  }
}
