/** How a pack is cut into chunks: the two chunk counts, the slice of an index, and the tiling. */
module ChunkMath {
  import opened Common

  /** The integer ceiling used when a chunk is requested. */
  function ChunkCount(size: nat, max: nat): nat
    requires max > 0
  {
    (size + max - 1) / max
  }

  function Ceil(x: real): int { -((-x).Floor) }

  /** Doubles hold every integer up to 2^53. */
  const DOUBLE_PRECISION: nat := 0x20_0000_0000_0000

  /** A C++ `int` is below this. */
  const INT_LIMIT: nat := 0x8000_0000

  /** Zero, and magnitudes far from both ends of the range of a double. */
  predicate Ordinary(x: real) {
    x == 0.0 || (1.0 <= x * TWO_32 as real && x < TWO_64 as real)
  }

  /**
   Rounding to the nearest double (section 4.3.1 of IEEE 754) of ordinary values: off by at most one
   part in 2^53, and exact on the integers a double holds.
   */
  ghost predicate RoundsToNearest(fl: real -> real) {
    forall x: real :: Ordinary(x) ==>
      && -x <= (fl(x) - x) * DOUBLE_PRECISION as real <= x
      && (x == x.Floor as real && x <= DOUBLE_PRECISION as real ==> fl(x) == x)
  }

  /** The ceiling used when a pack is announced: the size becomes a double, and so does the quotient. */
  function AdvertisedCount(fl: real -> real, size: nat, max: nat): int
    requires max > 0
  {
    Ceil(fl(fl(size as real) / max as real))
  }

  function SliceStart(i: nat, max: nat): nat { i * max }

  function SliceLength(size: nat, i: nat, max: nat): int {
    var rest := size - SliceStart(i, max);
    if max < rest then max else rest
  }

  lemma DivBounds(a: nat, m: nat)
    requires m > 0
    ensures (a / m) * m <= a < (a / m + 1) * m
  {
    assert a == (a / m) * m + a % m;
  }

  /** Both counts are the least number of chunks that cover the pack. */
  lemma CountBounds(size: nat, max: nat)
    requires max > 0
    ensures size <= ChunkCount(size, max) * max < size + max
  {
    DivBounds(size + max - 1, max);
    var n := ChunkCount(size, max);
    assert (n + 1) * max == n * max + max;
  }

  /**
   The advertised count and the served count agree for every pack below 2^53 bytes and every chunk
   size, to whichever side the quotient is rounded.
   */
  lemma AdvertisedIsServed(fl: real -> real, size: nat, max: nat)
    requires RoundsToNearest(fl) && 0 < max < INT_LIMIT && size < DOUBLE_PRECISION
    ensures AdvertisedCount(fl, size, max) == ChunkCount(size, max)
  {
    hide RoundsToNearest, ChunkCount, Ceil;
    var n := ChunkCount(size, max);
    CountBounds(size, max);
    WholeIsKept(fl, size);
    var x := size as real / max as real;
    if n * max == size {
      ExactQuotient(x, n, size, max);
      MulAtMost(1, max, n);
      WholeIsKept(fl, n);
    } else {
      QuotientIs(x, size, max);
      QuotientOrdinary(x, size, max);
      NearQuotient(fl, x, size, max);
      BetweenCounts(fl(x), n, size, max);
    }
  }

  lemma QuotientIs(x: real, size: nat, max: nat)
    requires max > 0 && x == size as real / max as real
    ensures x >= 0.0 && x * max as real == size as real
  {}

  lemma QuotientOrdinary(x: real, size: nat, max: nat)
    requires 0 < max < INT_LIMIT && size < DOUBLE_PRECISION && x >= 0.0 && x * max as real == size as real
    ensures Ordinary(x)
  {
    var m := max as real;
    if x > 0.0 {
      Widen(x, 1.0, m);
      Widen(x, m, TWO_32 as real);
      Positive(x, m);
    }
  }

  lemma Widen(x: real, a: real, b: real)
    requires x > 0.0 && a <= b
    ensures x * a <= x * b
  {
    var d := b - a;
    assert x * d >= 0.0;
    assert x * b == x * a + x * d;
  }

  lemma Positive(x: real, m: real)
    requires x > 0.0 && m > 0.0
    ensures x * m > 0.0
  {}

  lemma ExactQuotient(x: real, n: nat, size: nat, max: nat)
    requires max > 0 && x == size as real / max as real && n * max == size
    ensures x == n as real
  {
    assert n as real * max as real == size as real;
  }

  lemma WholeIsKept(fl: real -> real, n: nat)
    requires RoundsToNearest(fl) && n < DOUBLE_PRECISION
    ensures fl(n as real) == n as real && Ceil(n as real) == n
  {
    assert (n as real).Floor == n;
  }

  /** The rounded quotient, scaled back, is less than one byte away from the size. */
  lemma NearQuotient(fl: real -> real, x: real, size: nat, max: nat)
    requires RoundsToNearest(fl) && max > 0 && size < DOUBLE_PRECISION
    requires Ordinary(x) && x >= 0.0 && x * max as real == size as real
    ensures size as real - 1.0 < fl(x) * max as real < size as real + 1.0
  {
    var m, p, e := max as real, DOUBLE_PRECISION as real, fl(x) - x;
    assert -x <= e * p <= x;
    ScaleBoth(e * p, x, m);
    assert fl(x) * m == x * m + e * m;
    assert (e * p) * m == (e * m) * p;
  }

  lemma ScaleBoth(e: real, x: real, m: real)
    requires m > 0.0 && -x <= e <= x
    ensures -(x * m) <= e * m <= x * m
  {
    RealLe(e, x, m);
    RealLe(-x, e, m);
  }

  lemma RealLe(a: real, b: real, m: real)
    requires m > 0.0 && a <= b
    ensures a * m <= b * m
  {
    var d := b - a;
    assert d * m >= 0.0;
    assert b * m == a * m + d * m;
  }

  /** Below `n * max` and above `(n - 1) * max`, the ceiling is `n`. */
  lemma BetweenCounts(y: real, n: nat, size: nat, max: nat)
    requires max > 0 && size < n * max < size + max
    requires size as real - 1.0 < y * max as real < size as real + 1.0
    ensures Ceil(y) == n
  {
    var m := max as real;
    ProductAsReal(n, max);
    ProductAsReal(n - 1, max);
    LessOne(n, max);
    var above, below := n * max, (n - 1) * max;
    hide *;
    RealLt(y, n as real, m, y * m, above as real);
    RealLt((n - 1) as real, y, m, below as real, y * m);
    CeilBetween(y, n);
  }

  lemma CeilBetween(y: real, n: nat)
    requires (n - 1) as real < y < n as real
    ensures Ceil(y) == n
  {}

  lemma LessOne(n: nat, m: nat)
    ensures (n - 1) * m == n * m - m
  {}

  lemma ProductAsReal(a: int, b: int)
    ensures (a * b) as real == a as real * b as real
  {}

  lemma RealLt(a: real, b: real, m: real, am: real, bm: real)
    requires m > 0.0 && am == a * m && bm == b * m && am < bm
    ensures a < b
  {
    if b <= a {
      RealLe(b, a, m);
    }
  }

  lemma MulAtMost(a: nat, b: nat, m: nat)
    requires a <= b
    ensures a * m <= b * m
  {}

  /** Exactly the indices below the count start inside the pack. */
  lemma SliceInside(size: nat, i: nat, max: nat)
    requires max > 0
    ensures i < ChunkCount(size, max) <==> SliceStart(i, max) < size
    ensures i < ChunkCount(size, max) ==>
              && 1 <= SliceLength(size, i, max) <= max
              && SliceStart(i, max) + SliceLength(size, i, max) <= size
  {
    var n := ChunkCount(size, max);
    CountBounds(size, max);
    if i < n {
      MulAtMost(i, n - 1, max);
      assert (n - 1) * max == n * max - max;
    } else {
      MulAtMost(n, i, max);
    }
  }

  /** The bytes of chunk `i`. */
  function Slice(content: Bytes, i: nat, max: nat): (s: Bytes)
    requires max > 0 && i < ChunkCount(|content|, max)
    ensures |s| == SliceLength(|content|, i, max) >= 1
  {
    SliceInside(|content|, i, max);
    var start := SliceStart(i, max);
    content[start..start + SliceLength(|content|, i, max)]
  }

  /** The first `n` slices, one after the other. */
  function Tile(content: Bytes, n: nat, max: nat): Bytes
    requires max > 0 && n <= ChunkCount(|content|, max)
  {
    if n == 0 then [] else Tile(content, n - 1, max) + Slice(content, n - 1, max)
  }

  lemma {:induction false} TilePrefix(content: Bytes, n: nat, max: nat)
    requires max > 0 && n <= ChunkCount(|content|, max)
    ensures var end := if n * max < |content| then n * max else |content|;
            Tile(content, n, max) == content[..end]
  {
    if n > 0 {
      TilePrefix(content, n - 1, max);
      SliceInside(|content|, n - 1, max);
      assert n * max == (n - 1) * max + max;
    }
  }

  /** The advertised slices, in order, are the pack. */
  lemma SlicesTile(content: Bytes, max: nat)
    requires max > 0
    ensures Tile(content, ChunkCount(|content|, max), max) == content
  {
    TilePrefix(content, ChunkCount(|content|, max), max);
    CountBounds(|content|, max);
  }

  /** Every offset of the pack lies in exactly one advertised slice. */
  lemma OffsetInSlice(size: nat, k: nat, max: nat) returns (i: nat)
    requires max > 0 && k < size
    ensures i == k / max
    ensures i < ChunkCount(size, max)
    ensures SliceStart(i, max) <= k < SliceStart(i, max) + SliceLength(size, i, max)
  {
    i := k / max;
    DivBounds(k, max);
    assert (i + 1) * max == i * max + max;
    SliceInside(size, i, max);
  }

  lemma SlicesApart(size: nat, i: nat, j: nat, k: nat, max: nat)
    requires max > 0 && i != j && i < ChunkCount(size, max)
    requires SliceStart(j, max) <= k < SliceStart(j, max) + max
    ensures !(SliceStart(i, max) <= k < SliceStart(i, max) + SliceLength(size, i, max))
  {
    SliceInside(size, i, max);
    if i < j {
      MulAtMost(i + 1, j, max);
      assert (i + 1) * max == i * max + max;
    } else {
      MulAtMost(j + 1, i, max);
      assert (j + 1) * max == j * max + max;
    }
  }

  /** Offset `b` belongs to slice `b / max` and to no other. */
  lemma ByteInSlice(size: nat, b: nat, i: nat, max: nat)
    requires max > 0 && b < size && i < ChunkCount(size, max)
    ensures SliceStart(i, max) <= b < SliceStart(i, max) + SliceLength(size, i, max) <==> i == b / max
  {
    var j := OffsetInSlice(size, b, max);
    SliceInside(size, j, max);
    hide SliceStart, SliceLength, ChunkCount;
    if i != j {
      SlicesApart(size, i, j, b, max);
    }
  }
}
