/**
 * Square matrices stored row-major in a flat sequence, and the naive product
 * that every implementation in the repository is compared against.
 * Element (r, c) of a `size` x `size` matrix `m` lives at `m[r * size + c]`.
 */
module Matrix {

  /**
   * The flat index of row `r`, column `c`, that is `r * size + c` (GlobalIndexValue).
   * It is written as repeated addition so that the solver only meets the product
   * where a proof asks for it.
   */
  function GlobalIndex(size: nat, r: nat, c: nat): nat
  {
    if r == 0 then c else size + GlobalIndex(size, r - 1, c)
  }

  /** The flat index is `r * size + c`. */
  lemma {:induction false} GlobalIndexValue(size: nat, r: nat, c: nat)
    ensures GlobalIndex(size, r, c) == r * size + c
  {
    if r > 0 {
      GlobalIndexValue(size, r - 1, c);
    }
  }

  lemma MulLeft(x: nat, y: nat, z: nat)
    requires x <= y
    ensures x * z <= y * z
  {
  }

  /** A position inside the matrix has a flat index inside the matrix, and the index decodes back. */
  lemma FlatIndex(size: nat, r: nat, c: nat)
    requires r < size && c < size
    ensures GlobalIndex(size, r, c) == r * size + c
    ensures GlobalIndex(size, r, c) < size * size
    ensures GlobalIndex(size, r, c) / size == r
    ensures GlobalIndex(size, r, c) % size == c
  {
    GlobalIndexValue(size, r, c);
    MulLeft(r + 1, size, size);
    assert r * size + c < (r + 1) * size;
    DivModUnique(r * size + c, size, r, c);
  }

  /** Euclidean division is unique: a quotient and remainder in range are the ones `/` and `%` give. */
  lemma DivModUnique(n: nat, d: nat, q: nat, rem: nat)
    requires 0 < d && rem < d && n == q * d + rem
    ensures n / d == q && n % d == rem
  {
    var q', r' := n / d, n % d;
    assert n == q' * d + r';
    if q' < q {
      MulLeft(q' + 1, q, d);
      assert false;
    } else if q < q' {
      MulLeft(q + 1, q', d);
      assert false;
    }
  }

  /** Every flat index inside the matrix comes from exactly one in-range (row, column). */
  lemma Unflatten(size: nat, n: nat)
    requires n < size * size
    ensures n / size < size && n % size < size
    ensures GlobalIndex(size, n / size, n % size) == n
  {
    GlobalIndexValue(size, n / size, n % size);
    if n / size >= size {
      MulLeft(size, n / size, size);
      assert false;
    }
  }

  /** Two in-range positions with the same flat index are the same position. */
  lemma GlobalIndexInjective(size: nat, r: nat, c: nat, r': nat, c': nat)
    requires r < size && c < size && r' < size && c' < size
    requires GlobalIndex(size, r, c) == GlobalIndex(size, r', c')
    ensures r == r' && c == c'
  {
    FlatIndex(size, r, c);
    FlatIndex(size, r', c');
  }

  /** A flat matrix of the given side. */
  predicate IsSquare(m: seq<int>, size: nat)
  {
    |m| == size * size
  }

  /** Element (r, c) of `m`. */
  function Entry(m: seq<int>, size: nat, r: nat, c: nat): int
    requires IsSquare(m, size) && r < size && c < size
  {
    FlatIndex(size, r, c);
    m[GlobalIndex(size, r, c)]
  }

  /**
   * The first `k` terms of the dot product of row `r` of `a` with column `c` of `b`,
   * accumulated from 0 in ascending order of the inner index.
   */
  function Dot(a: seq<int>, b: seq<int>, size: nat, r: nat, c: nat, k: nat): int
    requires IsSquare(a, size) && IsSquare(b, size)
    requires r < size && c < size && k <= size
  {
    if k == 0 then 0
    else Dot(a, b, size, r, c, k - 1) + Entry(a, size, r, k - 1) * Entry(b, size, k - 1, c)
  }

  /** The n-th element, in row-major order, of the product: the full dot product of row n / size with column n % size. */
  function ProductAt(a: seq<int>, b: seq<int>, size: nat, n: nat): int
    requires IsSquare(a, size) && IsSquare(b, size) && n < size * size
  {
    Unflatten(size, n);
    Dot(a, b, size, n / size, n % size, size)
  }

  /** The naive product, flattened row-major. */
  function Product(a: seq<int>, b: seq<int>, size: nat): (p: seq<int>)
    requires IsSquare(a, size) && IsSquare(b, size)
    ensures IsSquare(p, size)
  {
    seq(size * size, n requires 0 <= n < size * size => ProductAt(a, b, size, n))
  }

  /** Element (r, c) of the product is the dot product of row r and column c. */
  lemma ProductEntry(a: seq<int>, b: seq<int>, size: nat, r: nat, c: nat)
    requires IsSquare(a, size) && IsSquare(b, size)
    requires r < size && c < size
    ensures GlobalIndex(size, r, c) == r * size + c && GlobalIndex(size, r, c) < size * size
    ensures Product(a, b, size)[GlobalIndex(size, r, c)] == Dot(a, b, size, r, c, size)
  {
    FlatIndex(size, r, c);
  }

  /** Writing cell (r0, c0) of a flat matrix changes that element and no other. */
  lemma EntryAfterWrite(m: seq<int>, size: nat, r0: nat, c0: nat, v: int)
    requires IsSquare(m, size) && r0 < size && c0 < size
    ensures GlobalIndex(size, r0, c0) < |m|
    ensures forall r: nat, c: nat :: r < size && c < size ==>
              Entry(m[GlobalIndex(size, r0, c0) := v], size, r, c) == if r == r0 && c == c0 then v else Entry(m, size, r, c)
  {
    FlatIndex(size, r0, c0);
    var m' := m[GlobalIndex(size, r0, c0) := v];
    forall r: nat, c: nat | r < size && c < size
      ensures Entry(m', size, r, c) == if r == r0 && c == c0 then v else Entry(m, size, r, c)
    {
      FlatIndex(size, r, c);
      if GlobalIndex(size, r, c) == GlobalIndex(size, r0, c0) {
        GlobalIndexInjective(size, r, c, r0, c0);
      }
    }
  }

  /** Consecutive columns of one row have consecutive flat indices. */
  lemma GlobalIndexShift(size: nat, r: nat, c: nat, d: nat)
    ensures GlobalIndex(size, r, c + d) == GlobalIndex(size, r, c) + d
  {
    GlobalIndexValue(size, r, c);
    GlobalIndexValue(size, r, c + d);
  }

  /** The flat range of row r0 starting at column c0 written with `vals`, every other element kept from `before`. */
  predicate RowRangeWritten(before: seq<int>, after: seq<int>, size: nat, r0: nat, c0: nat, vals: seq<int>)
    requires |before| == |after|
  {
    forall k :: 0 <= k < |after| ==>
      after[k] == if GlobalIndex(size, r0, c0) <= k < GlobalIndex(size, r0, c0) + |vals|
                  then vals[k - GlobalIndex(size, r0, c0)] else before[k]
  }

  /**
   * Overwriting the flat range of columns c0 .. c0 + |vals| - 1 of row r0 sets those cells
   * to `vals`, in order, and leaves every other cell as it was.
   */
  lemma RowRangeWrite(before: seq<int>, after: seq<int>, size: nat, r0: nat, c0: nat, vals: seq<int>)
    requires IsSquare(before, size) && IsSquare(after, size) && r0 < size && c0 + |vals| <= size
    requires RowRangeWritten(before, after, size, r0, c0, vals)
    ensures forall c: nat :: c < |vals| ==> Entry(after, size, r0, c0 + c) == vals[c]
    ensures forall r: nat, c: nat :: r < size && c < size && !(r == r0 && c0 <= c < c0 + |vals|) ==>
              Entry(after, size, r, c) == Entry(before, size, r, c)
  {
    RowRangeInside(before, after, size, r0, c0, vals);
    RowRangeOutside(before, after, size, r0, c0, vals);
  }

  /** The written cells of a row range hold `vals`, in order. */
  lemma RowRangeInside(before: seq<int>, after: seq<int>, size: nat, r0: nat, c0: nat, vals: seq<int>)
    requires IsSquare(before, size) && IsSquare(after, size) && r0 < size && c0 + |vals| <= size
    requires RowRangeWritten(before, after, size, r0, c0, vals)
    ensures forall c: nat :: c < |vals| ==> Entry(after, size, r0, c0 + c) == vals[c]
  {
    forall c: nat | c < |vals|
      ensures Entry(after, size, r0, c0 + c) == vals[c]
    {
      GlobalIndexShift(size, r0, c0, c);
      FlatIndex(size, r0, c0 + c);
    }
  }

  /** Every cell outside a written row range keeps its value. */
  lemma RowRangeOutside(before: seq<int>, after: seq<int>, size: nat, r0: nat, c0: nat, vals: seq<int>)
    requires IsSquare(before, size) && IsSquare(after, size) && r0 < size && c0 + |vals| <= size
    requires RowRangeWritten(before, after, size, r0, c0, vals)
    ensures forall r: nat, c: nat :: r < size && c < size && !(r == r0 && c0 <= c < c0 + |vals|) ==>
              Entry(after, size, r, c) == Entry(before, size, r, c)
  {
    var lo := GlobalIndex(size, r0, c0);
    forall r: nat, c: nat | r < size && c < size && !(r == r0 && c0 <= c < c0 + |vals|)
      ensures Entry(after, size, r, c) == Entry(before, size, r, c)
    {
      FlatIndex(size, r, c);
      var k := GlobalIndex(size, r, c);
      if lo <= k < lo + |vals| {
        var d := k - lo;
        GlobalIndexShift(size, r0, c0, d);
        assert c0 + d < size && GlobalIndex(size, r0, c0 + d) == k;
        GlobalIndexInjective(size, r, c, r0, c0 + d);
        assert false;
      }
    }
  }

  /** Two flat square matrices that agree at every (row, column) are equal. */
  lemma EqualByEntries(m: seq<int>, m': seq<int>, size: nat)
    requires IsSquare(m, size) && IsSquare(m', size)
    requires forall r: nat, c: nat :: r < size && c < size ==> Entry(m, size, r, c) == Entry(m', size, r, c)
    ensures m == m'
  {
    forall n | 0 <= n < size * size
      ensures m[n] == m'[n]
    {
      Unflatten(size, n);
      assert Entry(m, size, n / size, n % size) == Entry(m', size, n / size, n % size);
    }
  }
}
