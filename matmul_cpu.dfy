/**
 * The CPU reference matrix multiplies of the Rust crate: a comprehension (v1),
 * two cursor iterators that walk the output in row-major order (v2 and v3) and
 * a nested-loop builder (v4). Matrix elements are modelled as integers.
 */
module MatmulCpu {
  import opened Wrappers
  import opened Matrix

  /** Rows 0 .. i-1 of the product as v1's outer `flat_map` produces them; each row is the inner `map` over columns. */
  function RowsV1(a: seq<int>, b: seq<int>, size: nat, i: nat): (r: seq<int>)
    requires IsSquare(a, size) && IsSquare(b, size) && i <= size
    ensures |r| == i * size
  {
    if i == 0 then []
    else RowsV1(a, b, size, i - 1) + seq(size, j requires 0 <= j < size => Dot(a, b, size, i - 1, j, size))
  }

  /**
   * `cpu_matmul_v1`: the flattened comprehension over rows, then columns, of ascending-k sums.
   * The slices' lengths are not checked; the indices read are all below `size * size`, so only
   * the leading `size * size` elements of each matter.
   */
  function CpuMatmulV1(a: seq<int>, b: seq<int>, size: nat): (r: seq<int>)
    requires |a| >= size * size && |b| >= size * size
    ensures |r| == size * size
  {
    RowsV1(a[..size * size], b[..size * size], size, size)
  }

  /** The first i rows produced by v1 are the first i * size elements of the product. */
  lemma {:induction false} RowsV1IsProductPrefix(a: seq<int>, b: seq<int>, size: nat, i: nat)
    requires IsSquare(a, size) && IsSquare(b, size) && i <= size
    ensures i * size <= size * size
    ensures RowsV1(a, b, size, i) == Product(a, b, size)[..i * size]
  {
    MulLeft(i, size, size);
    if i > 0 {
      RowsV1IsProductPrefix(a, b, size, i - 1);
      var prev := RowsV1(a, b, size, i - 1);
      var row := seq(size, j requires 0 <= j < size => Dot(a, b, size, i - 1, j, size));
      var p := Product(a, b, size);
      assert (i - 1) * size + size == i * size;
      forall n | 0 <= n < i * size
        ensures (prev + row)[n] == p[n]
      {
        if n >= (i - 1) * size {
          var j := n - (i - 1) * size;
          ProductEntry(a, b, size, i - 1, j);
        }
      }
    }
  }

  /**
   * v1 yields exactly the naive product of the leading `size * size` elements of each slice
   * (and so nothing when size is 0).
   */
  lemma CpuMatmulV1IsProduct(a: seq<int>, b: seq<int>, size: nat)
    requires |a| >= size * size && |b| >= size * size
    ensures CpuMatmulV1(a, b, size) == Product(a[..size * size], b[..size * size], size)
  {
    RowsV1IsProductPrefix(a[..size * size], b[..size * size], size, size);
  }

  /**
   * One step of either iterator's cursor from the in-range cell (y, x): the row-major
   * position goes up by one, stays within the matrix, and the prefix of the product
   * grows by that cell's dot product.
   */
  lemma CursorStep(a: seq<int>, b: seq<int>, size: nat, y: nat, x: nat)
    requires IsSquare(a, size) && IsSquare(b, size) && y < size && x < size
    ensures y * size + x < size * size
    ensures x + 1 == size ==> (y + 1) * size == y * size + x + 1 && (y + 1) * size <= size * size
    ensures Product(a, b, size)[..y * size + x] + [Dot(a, b, size, y, x, size)]
         == Product(a, b, size)[..y * size + x + 1]
  {
    CursorBounds(size, y, x);
    ProductEntry(a, b, size, y, x);
    PrefixExtend(Product(a, b, size), y * size + x);
  }

  /** The row-major position of an in-range cell is inside the matrix; at the end of a row the next position starts the next row. */
  lemma CursorBounds(size: nat, y: nat, x: nat)
    requires y < size && x < size
    ensures y * size + x < size * size
    ensures x + 1 == size ==> (y + 1) * size == y * size + x + 1 && (y + 1) * size <= size * size
  {
    MulLeft(y + 1, size, size);
  }

  /** A prefix followed by the next element is the one-longer prefix. */
  lemma PrefixExtend(p: seq<int>, n: nat)
    requires n < |p|
    ensures p[..n] + [p[n]] == p[..n + 1]
  {
    assert p[..n + 1][..n] == p[..n];
  }

  /**
   * `MatmulIterator`: a cursor (x, y) over the output, column x of row y.
   * The ghost `yielded` records every value returned so far.
   */
  class MatmulIterator {
    const a: seq<int>
    const b: seq<int>
    const size: nat
    var x: nat
    var y: nat
    ghost var yielded: seq<int>

    /** Number of values yielded so far: the row-major position of the cursor. */
    ghost function Position(): nat
      reads this
    {
      y * size + x
    }

    /**
     * The cursor is on a cell of the output, or is exhausted at (0, size); what has been
     * yielded is the row-major prefix of the product up to the cursor.
     */
    ghost predicate Valid()
      reads this
    {
      && IsSquare(a, size) && IsSquare(b, size)
      && ((y < size && x < size) || (y == size && x == 0))
      && Position() <= size * size
      && yielded == Product(a, b, size)[..Position()]
    }

    /** The iterator as `cpu_matmul_v2` builds it: cursor at (0, 0). */
    constructor (a: seq<int>, b: seq<int>, size: nat)
      requires IsSquare(a, size) && IsSquare(b, size)
      ensures Valid()
      ensures this.a == a && this.b == b && this.size == size
      ensures x == 0 && y == 0 && yielded == []
    {
      this.a, this.b, this.size := a, b, size;
      x, y := 0, 0;
      yielded := [];
    }

    /**
     * `next`: None, with no state change, once y has reached size; otherwise the dot
     * product for the cursor's cell, and the cursor moves one cell in row-major order.
     */
    method Next() returns (r: Option<int>)
      requires Valid()
      modifies this
      ensures Valid()
      ensures r.None? <==> old(y) >= size
      ensures r.None? ==> x == old(x) && y == old(y) && yielded == old(yielded)
      ensures r.Some? ==> r.value == Dot(a, b, size, old(y), old(x), size)
      ensures r.Some? ==> if old(x) + 1 == size then x == 0 && y == old(y) + 1 else x == old(x) + 1 && y == old(y)
      ensures r.Some? ==> Position() == old(Position()) + 1 && yielded == old(yielded) + [r.value]
    {
      if y >= size {
        return None;
      }
      var result := 0;
      for i := 0 to size
        invariant unchanged(this)
        invariant result == Dot(a, b, size, y, x, i)
      {
        FlatIndex(size, y, i);
        FlatIndex(size, i, x);
        result := result + a[y * size + i] * b[x + size * i];
      }
      CursorStep(a, b, size, y, x);
      x := x + 1;
      if x == size {
        x := 0;
        y := y + 1;
      }
      yielded := yielded + [result];
      r := Some(result);
    }
  }

  /** `cpu_matmul_v2`: `None` stands for the assertion panic on a slice of the wrong length. */
  method CpuMatmulV2(a: seq<int>, b: seq<int>, size: nat) returns (it: Option<MatmulIterator>)
    ensures it.None? <==> !(|a| == size * size && |b| == size * size)
    ensures it.Some? ==> fresh(it.value) && it.value.Valid()
    ensures it.Some? ==> it.value.a == a && it.value.b == b && it.value.size == size
    ensures it.Some? ==> it.value.x == 0 && it.value.y == 0 && it.value.yielded == []
  {
    if !(|a| == size * size) || !(|b| == size * size) {
      return None;
    }
    var m := new MatmulIterator(a, b, size);
    return Some(m);
  }

  /**
   * Draining v2 until its first None: it panics on wrong lengths, and otherwise yields
   * exactly size * size values, the product in row-major order.
   */
  method CollectV2(a: seq<int>, b: seq<int>, size: nat) returns (r: Option<seq<int>>)
    ensures r == if IsSquare(a, size) && IsSquare(b, size) then Some(Product(a, b, size)) else None
  {
    var made := CpuMatmulV2(a, b, size);
    if made.None? {
      return None;
    }
    var it := made.value;
    var out := [];
    var next := it.Next();
    while next.Some?
      invariant it.Valid() && it.a == a && it.b == b && it.size == size
      invariant next.Some? ==> it.yielded == out + [next.value]
      invariant next.None? ==> it.yielded == out && it.y >= size
      decreases size * size - |out|
    {
      out := out + [next.value];
      next := it.Next();
    }
    assert it.Position() == size * size;
    ghost var p := Product(a, b, size);
    assert |p| == size * size && p[..size * size] == p;
    return Some(out);
  }

  /**
   * `UnsafeMatmulIterator`: the same cursor as `MatmulIterator`, reading through raw
   * pointers; the reads are modelled as indexed reads, which the verifier proves in range.
   */
  class UnsafeMatmulIterator {
    const a: seq<int>
    const b: seq<int>
    const size: nat
    var x: nat
    var y: nat
    ghost var yielded: seq<int>

    ghost function Position(): nat
      reads this
    {
      y * size + x
    }

    ghost predicate Valid()
      reads this
    {
      && IsSquare(a, size) && IsSquare(b, size)
      && ((y < size && x < size) || (y == size && x == 0))
      && Position() <= size * size
      && yielded == Product(a, b, size)[..Position()]
    }

    /** The iterator as `cpu_matmul_v3` builds it from the slices' base pointers: cursor at (0, 0). */
    constructor (a: seq<int>, b: seq<int>, size: nat)
      requires IsSquare(a, size) && IsSquare(b, size)
      ensures Valid()
      ensures this.a == a && this.b == b && this.size == size
      ensures x == 0 && y == 0 && yielded == []
    {
      this.a, this.b, this.size := a, b, size;
      x, y := 0, 0;
      yielded := [];
    }

    /** `next`, with `read(a.add(..))` as `a[..]`. */
    method Next() returns (r: Option<int>)
      requires Valid()
      modifies this
      ensures Valid()
      ensures r.None? <==> old(y) >= size
      ensures r.None? ==> x == old(x) && y == old(y) && yielded == old(yielded)
      ensures r.Some? ==> r.value == Dot(a, b, size, old(y), old(x), size)
      ensures r.Some? ==> if old(x) + 1 == size then x == 0 && y == old(y) + 1 else x == old(x) + 1 && y == old(y)
      ensures r.Some? ==> Position() == old(Position()) + 1 && yielded == old(yielded) + [r.value]
    {
      if y >= size {
        return None;
      }
      var result := 0;
      for i := 0 to size
        invariant unchanged(this)
        invariant result == Dot(a, b, size, y, x, i)
      {
        FlatIndex(size, y, i);
        FlatIndex(size, i, x);
        result := result + a[y * size + i] * b[x + size * i];
      }
      CursorStep(a, b, size, y, x);
      x := x + 1;
      if x == size {
        x := 0;
        y := y + 1;
      }
      yielded := yielded + [result];
      r := Some(result);
    }
  }

  /** `cpu_matmul_v3`: `None` stands for the assertion panic on a slice of the wrong length. */
  method CpuMatmulV3(a: seq<int>, b: seq<int>, size: nat) returns (it: Option<UnsafeMatmulIterator>)
    ensures it.None? <==> !(|a| == size * size && |b| == size * size)
    ensures it.Some? ==> fresh(it.value) && it.value.Valid()
    ensures it.Some? ==> it.value.a == a && it.value.b == b && it.value.size == size
    ensures it.Some? ==> it.value.x == 0 && it.value.y == 0 && it.value.yielded == []
  {
    if !(|a| == size * size) || !(|b| == size * size) {
      return None;
    }
    var m := new UnsafeMatmulIterator(a, b, size);
    return Some(m);
  }

  /** Draining v3 until its first None yields the product in row-major order. */
  method CollectV3(a: seq<int>, b: seq<int>, size: nat) returns (r: Option<seq<int>>)
    ensures r == if IsSquare(a, size) && IsSquare(b, size) then Some(Product(a, b, size)) else None
  {
    var made := CpuMatmulV3(a, b, size);
    if made.None? {
      return None;
    }
    var it := made.value;
    var out := [];
    var next := it.Next();
    while next.Some?
      invariant it.Valid() && it.a == a && it.b == b && it.size == size
      invariant next.Some? ==> it.yielded == out + [next.value]
      invariant next.None? ==> it.yielded == out && it.y >= size
      decreases size * size - |out|
    {
      out := out + [next.value];
      next := it.Next();
    }
    assert it.Position() == size * size;
    ghost var p := Product(a, b, size);
    assert |p| == size * size && p[..size * size] == p;
    return Some(out);
  }

  /**
   * The innermost loop of v4 for cell (i, j): the ascending-k sum of `a[i*size + k] * b[j + size*k]`,
   * or a panic (None) at the first read past the end of either slice. Every index read is below
   * `size * size`, and the last row and the last column read the last element of `a` and `b`.
   */
  method CellSumV4(a: seq<int>, b: seq<int>, size: nat, i: nat, j: nat) returns (sum: Option<int>)
    requires i < size && j < size
    ensures sum.None? ==> |a| < size * size || |b| < size * size
    ensures sum.Some? && i == size - 1 ==> |a| >= size * size
    ensures sum.Some? && j == size - 1 ==> |b| >= size * size
    ensures |a| >= size * size && |b| >= size * size ==>
              sum == Some(Dot(a[..size * size], b[..size * size], size, i, j, size))
  {
    ghost var fits := |a| >= size * size && |b| >= size * size;
    var acc := 0;
    for k := 0 to size
      invariant 0 < k ==> i * size + k <= |a| && j + size * (k - 1) < |b|
      invariant fits ==> acc == Dot(a[..size * size], b[..size * size], size, i, j, k)
    {
      CellReads(size, i, j, k);
      if i * size + k >= |a| || j + size * k >= |b| {
        return None;
      }
      acc := acc + a[i * size + k] * b[j + size * k];
    }
    LastReads(size, i, j);
    return Some(acc);
  }

  /** The reads of cell (i, j) at step k are the flat indices of (i, k) in `a` and (k, j) in `b`. */
  lemma CellReads(size: nat, i: nat, j: nat, k: nat)
    requires i < size && j < size && k < size
    ensures GlobalIndex(size, i, k) == i * size + k < size * size
    ensures GlobalIndex(size, k, j) == j + size * k < size * size
  {
    CursorBounds(size, i, k);
    CursorBounds(size, k, j);
    GlobalIndexValue(size, i, k);
    GlobalIndexValue(size, k, j);
  }

  /** The last step of the last row reads the last element of `a`, that of the last column the last of `b`. */
  lemma LastReads(size: nat, i: nat, j: nat)
    requires i < size && j < size
    ensures i == size - 1 ==> i * size + size == size * size
    ensures j == size - 1 ==> j + size * (size - 1) + 1 == size * size
  {
  }

  /**
   * `cpu_matmul_v4`: a triple loop that pushes one ascending-k sum per output cell, row by row.
   * The slices' lengths are not checked: a read past the end of either panics (None), which
   * happens exactly when one is shorter than `size * size`; a longer slice contributes only its
   * leading `size * size` elements.
   */
  method CpuMatmulV4(a: seq<int>, b: seq<int>, size: nat) returns (results: Option<seq<int>>)
    ensures results.None? <==> |a| < size * size || |b| < size * size
    ensures results.Some? ==> results.value == Product(a[..size * size], b[..size * size], size)
  {
    ghost var fits := |a| >= size * size && |b| >= size * size;
    var out := [];
    for i := 0 to size
      invariant i * size <= size * size
      invariant 0 < i ==> |b| >= size * size
      invariant i == size ==> |a| >= size * size
      invariant fits ==> out == Product(a[..size * size], b[..size * size], size)[..i * size]
    {
      for j := 0 to size
        invariant i * size + j <= size * size
        invariant 0 < i || j == size ==> |b| >= size * size
        invariant i == size - 1 && 0 < j ==> |a| >= size * size
        invariant fits ==> out == Product(a[..size * size], b[..size * size], size)[..i * size + j]
      {
        var sum := CellSumV4(a, b, size, i, j);
        if sum.None? {
          return None;
        }
        CursorBounds(size, i, j);
        if fits {
          CursorStep(a[..size * size], b[..size * size], size, i, j);
        }
        out := out + [sum.value];
      }
      CursorBounds(size, i, size - 1);
    }
    if fits {
      ghost var p := Product(a[..size * size], b[..size * size], size);
      assert p[..size * size] == p;
    }
    return Some(out);
  }

  /** On well-formed inputs the four versions produce the same sequence. */
  method AllVersionsAgree(a: seq<int>, b: seq<int>, size: nat) returns (v1: seq<int>, v2: Option<seq<int>>, v3: Option<seq<int>>, v4: Option<seq<int>>)
    requires IsSquare(a, size) && IsSquare(b, size)
    ensures v2 == Some(v1) && v3 == Some(v1) && v4 == Some(v1)
  {
    assert a[..size * size] == a && b[..size * size] == b;
    v1 := CpuMatmulV1(a, b, size);
    CpuMatmulV1IsProduct(a, b, size);
    v2 := CollectV2(a, b, size);
    v3 := CollectV3(a, b, size);
    v4 := CpuMatmulV4(a, b, size);
  }
}
