/** The dimension planner of the perceptive hash: from a requested bit
    resolution it chooses the width and height of the grid the image is scaled
    to, so that the low-frequency sub-band of that grid (a quarter of each
    side) holds about that many coefficients. */
module DimensionPlanner {
  import opened JavaInt

  /** `(int) Math.round(Math.sqrt(b))` for a positive `int` b: the integer
      nearest to the square root of b (see RoundSqrtNearest). Since b is an
      integer, no tie can arise, and the double square root is exact enough on
      the whole `int` range for the rounding to land on this value. */
  function RoundSqrt(b: int): (s: int)
    requires b >= 1
    ensures s >= 1
    ensures s * s - s < b <= s * s + s
    decreases b
  {
    if b == 1 then 1
    else
      var t := RoundSqrt(b - 1);
      if b <= t * t + t then t else t + 1
  }

  lemma MulMonotone(a: int, b: int, c: int, d: int)
    requires 0 <= a <= c && 0 <= b <= d
    ensures a * b <= c * d
  {
    assert a * b <= c * b by {
      assert (c - a) * b >= 0;
    }
    assert c * b <= c * d by {
      assert c * (d - b) >= 0;
    }
  }

  /** x*x + x grows faster than the gap it leaves: below y, it stays at or
      under y*y - y. */
  lemma PronicBelow(x: int, y: int)
    requires 0 <= x < y
    ensures x * x + x <= y * y - y
  {
    MulMonotone(x, x + 1, y - 1, y);
    assert x * (x + 1) == x * x + x;
    assert (y - 1) * y == y * y - y;
  }

  /** The integer characterisation of RoundSqrt pins down one value. */
  lemma RoundSqrtUnique(b: int, t: int)
    requires b >= 1
    requires t * t - t < b <= t * t + t
    ensures t == RoundSqrt(b)
  {
    var s := RoundSqrt(b);
    if t < s {
      PronicBelow(t, s);
    } else if t > s {
      PronicBelow(s, t);
    }
  }

  /** RoundSqrt(b) is round(sqrt(b)): (s - 1/2)^2 < b < (s + 1/2)^2. */
  lemma RoundSqrtNearest(b: int)
    requires b >= 1
    ensures var r := RoundSqrt(b) as real;
      (r - 0.5) * (r - 0.5) < b as real < (r + 0.5) * (r + 0.5)
  {
    var s := RoundSqrt(b);
    NearestOfBounds(s, b);
    assert (s as real - 0.5) * (s as real - 0.5) < b as real < (s as real + 0.5) * (s as real + 0.5);
  }

  /** The integer bounds of RoundSqrt, carried over to the reals. */
  lemma NearestOfBounds(s: nat, b: int)
    requires s * s - s < b <= s * s + s
    ensures (s as real - 0.5) * (s as real - 0.5) < b as real < (s as real + 0.5) * (s as real + 0.5)
  {
    var q := s * s;
    assert (q - s + 1) as real <= b as real <= (q + s) as real;
    SquareAsReal(s);
    NearestFromBounds(s as real, q as real, b as real);
  }

  /** Squaring commutes with the conversion to real. */
  lemma {:induction false} SquareAsReal(s: nat)
    ensures (s * s) as real == (s as real) * (s as real)
  {
    if s > 0 {
      SquareAsReal(s - 1);
      var p, r := s - 1, (s - 1) as real;
      assert s * s == p * p + 2 * p + 1;
      assert (s as real) * (s as real) == r * r + 2.0 * r + 1.0;
    }
  }

  /** With q = r * r, r * r - r + 1 <= x <= r * r + r puts x strictly
      between (r - 1/2)^2 and (r + 1/2)^2. */
  lemma NearestFromBounds(r: real, q: real, x: real)
    requires q == r * r
    requires q - r + 1.0 <= x <= q + r
    ensures (r - 0.5) * (r - 0.5) < x < (r + 0.5) * (r + 0.5)
  {
    assert (r - 0.5) * (r - 0.5) == q - r + 0.25;
    assert (r + 0.5) * (r + 0.5) == q + r + 0.25;
  }

  /** A scaled grid; the hash reads the sub-band of its first quarter in each
      direction. `(int) (width / 4d)` is `width / 4` for the non-negative sizes
      used here. */
  datatype Grid = Grid(width: int, height: int) {
    function SubWidth(): int { width / 4 }
    function SubHeight(): int { height / 4 }
    /** Number of coefficients in the sub-band, which is the hash length. */
    function BitCount(): int { SubWidth() * SubHeight() }
  }

  /** Sub-band shapes the planner aims for: square, or one taller than wide. */
  predicate NearSquare(subWidth: int, subHeight: int) {
    subWidth >= 1 && (subHeight == subWidth || subHeight == subWidth + 1)
  }

  /** What `computeDimensions` leaves in `width` and `height`, once its
      unreachable branch and its always-false test are removed
      (PlannerBranchesCollapse). */
  function Plan(bitResolution: int): (g: Grid)
    requires bitResolution >= 1
  {
    var s := RoundSqrt(bitResolution);
    Grid(4 * s, if s * s < bitResolution then 4 * s + 4 else 4 * s)
  }

  /** The two tests of `computeDimensions`, with exact integers: the bound of
      the taller shape is never below the request, so the `width++; height++`
      branch cannot run, and the square shape never undershoots by more than
      the taller one overshoots. */
  lemma PlannerBranchesCollapse(bitResolution: int)
    requires bitResolution >= 1
    ensures var dimension := RoundSqrt(bitResolution) * 4;
      var normalBound := (dimension / 4) * (dimension / 4);
      var higherBound := (dimension / 4) * (dimension / 4 + 1);
      && bitResolution <= higherBound
      && !(normalBound - bitResolution > higherBound - bitResolution)
  {
    PlanSubBand(bitResolution);
    var s := RoundSqrt(bitResolution);
    assert (s * 4) / 4 == s;
  }

  /** The sub-band of a planned grid in terms of s = round(sqrt(b)). */
  lemma PlanSubBand(bitResolution: int)
    requires bitResolution >= 1
    ensures var s := RoundSqrt(bitResolution);
      var g := Plan(bitResolution);
      && g.SubWidth() == s
      && g.SubHeight() == (if s * s < bitResolution then s + 1 else s)
      && g.BitCount() == (if s * s < bitResolution then s * s + s else s * s)
  {
    var s := RoundSqrt(bitResolution);
    assert (4 * s) / 4 == s;
    assert (4 * s + 4) / 4 == s + 1;
    assert s * (s + 1) == s * s + s;
  }

  /** Shape of a planned grid: square sides that are multiples of 4, the height
      possibly 4 more; a near-square sub-band that fits strictly inside the grid
      after skipping row and column 0. */
  lemma PlanShape(bitResolution: int)
    requires bitResolution >= 1
    ensures var g := Plan(bitResolution);
      && g.width >= 4 && g.width % 4 == 0 && g.height % 4 == 0
      && (g.height == g.width || g.height == g.width + 4)
      && g.SubWidth() == RoundSqrt(bitResolution)
      && NearSquare(g.SubWidth(), g.SubHeight())
      && 1 <= g.SubWidth() < g.width && 1 <= g.SubHeight() < g.height
      && g.BitCount() >= 1
  {
    var s := RoundSqrt(bitResolution);
    PlanSubBand(bitResolution);
    MulMonotone(1, 1, s, s);
  }

  /** The hash never gets fewer bits than requested, and at most
      round(sqrt(b)) - 1 more. */
  lemma PlanCoversRequest(bitResolution: int)
    requires bitResolution >= 1
    ensures bitResolution <= Plan(bitResolution).BitCount() <= bitResolution + RoundSqrt(bitResolution) - 1
  {
    PlanSubBand(bitResolution);
  }

  /** A near-square sub-band wider than s holds more than s*s + s coefficients. */
  lemma WiderHoldsMore(s: int, subWidth: int, subHeight: int)
    requires 0 <= s < subWidth <= subHeight
    ensures s * s + s < subWidth * subHeight
  {
    MulMonotone(s + 1, s + 1, subWidth, subHeight);
    assert (s + 1) * (s + 1) == s * s + 2 * s + 1;
  }

  /** A near-square sub-band narrower than s holds at most s*s - s coefficients. */
  lemma NarrowerHoldsLess(s: int, subWidth: int, subHeight: int)
    requires NearSquare(subWidth, subHeight) && subWidth < s
    ensures subWidth * subHeight <= s * s - s
  {
    MulMonotone(subWidth, subHeight, subWidth, subWidth + 1);
    assert subWidth * (subWidth + 1) == subWidth * subWidth + subWidth;
    PronicBelow(subWidth, s);
  }

  /** Among all near-square sub-bands that hold at least the requested number
      of coefficients, the planned one is the smallest, and the only one of
      its size. */
  lemma PlanIsTightest(bitResolution: int, subWidth: int, subHeight: int)
    requires bitResolution >= 1
    requires NearSquare(subWidth, subHeight)
    requires bitResolution <= subWidth * subHeight
    ensures Plan(bitResolution).BitCount() <= subWidth * subHeight
    ensures subWidth * subHeight == Plan(bitResolution).BitCount() ==>
      subWidth == Plan(bitResolution).SubWidth() && subHeight == Plan(bitResolution).SubHeight()
  {
    var g := Plan(bitResolution);
    PlanSubBand(bitResolution);
    TightestSubBand(bitResolution, RoundSqrt(bitResolution), subWidth, subHeight, g.SubHeight(), g.BitCount());
  }

  /** PlanIsTightest in terms of s = round(sqrt(b)) and the planned sub-band
      s x planned, holding count coefficients. */
  lemma TightestSubBand(bitResolution: int, s: int, subWidth: int, subHeight: int, planned: int, count: int)
    requires s >= 1 && s * s - s < bitResolution <= s * s + s
    requires planned == (if s * s < bitResolution then s + 1 else s)
    requires count == (if s * s < bitResolution then s * s + s else s * s)
    requires NearSquare(subWidth, subHeight)
    requires bitResolution <= subWidth * subHeight
    ensures count <= subWidth * subHeight
    ensures subWidth * subHeight == count ==> subWidth == s && subHeight == planned
  {
    if subWidth < s {
      NarrowerHoldsLess(s, subWidth, subHeight);
      assert false;
    } else if subWidth > s {
      WiderHoldsMore(s, subWidth, subHeight);
    } else if subHeight == s + 1 {
      assert subWidth * subHeight == s * s + s;
    }
  }

  /** Planned grids for a few requests. */
  lemma PlanExamples()
    ensures Plan(64) == Grid(32, 32) && Plan(64).BitCount() == 64
    ensures Plan(63) == Grid(32, 32) && Plan(63).BitCount() == 64
    ensures Plan(1) == Grid(4, 4) && Plan(1).BitCount() == 1
    ensures Plan(2) == Grid(4, 8) && Plan(2).BitCount() == 2
    ensures Plan(1024) == Grid(128, 128) && Plan(1024).BitCount() == 1024
  {
    RoundSqrtUnique(64, 8);
    RoundSqrtUnique(63, 8);
    RoundSqrtUnique(1, 1);
    RoundSqrtUnique(2, 1);
    RoundSqrtUnique(1024, 32);
  }

  // ---------------------------------------------------------------------
  // `computeDimensions` with Java's 32-bit `int` arithmetic.

  /** Every positive `int` has a rounded square root of at most 46341. */
  lemma RoundSqrtOfInt(bitResolution: int)
    requires 1 <= bitResolution <= MaxInt
    ensures RoundSqrt(bitResolution) <= 46341
  {
    var s := RoundSqrt(bitResolution);
    if s > 46341 {
      PronicBelow(46341, s);
      assert false;
    }
  }

  /** `computeDimensions` exactly as written, every `int` operation wrapping
      modulo 2^32 (`dimension` is never negative, so Java's truncating `/`
      agrees with Dafny's here). */
  function PlanAsWritten(bitResolution: int): (g: Grid)
    requires 1 <= bitResolution <= MaxInt
  {
    var dimension := Wrap(RoundSqrt(bitResolution) * 4);
    var normalBound := Wrap((dimension / 4) * (dimension / 4));
    var higherBound := Wrap((dimension / 4) * Wrap(dimension / 4 + 1));
    if higherBound < bitResolution then
      Grid(Wrap(dimension + 1), Wrap(dimension + 1))
    else if normalBound < bitResolution || Wrap(normalBound - bitResolution) > Wrap(higherBound - bitResolution) then
      Grid(dimension, Wrap(dimension + 4))
    else
      Grid(dimension, dimension)
  }

  /** Up to 2147441940 = 46340 * 46341 no product overflows, and the code as
      written plans exactly the grid of Plan. */
  lemma PlanAsWrittenAgrees(bitResolution: int)
    requires 1 <= bitResolution <= 2147441940
    ensures PlanAsWritten(bitResolution) == Plan(bitResolution)
  {
    var s := RoundSqrt(bitResolution);
    if s > 46340 {
      PronicBelow(46340, s);
      assert false;
    }
    MulMonotone(s, s + 1, 46340, 46341);
    MulMonotone(s, s, s, s + 1);
    assert (s * 4) / 4 == s;
    assert s * (s + 1) == s * s + s;
  }

  /** Above 2147441940 the bounds wrap to negative values, the branch meant to
      be unreachable runs, and the grid is 185365 x 185365 instead of the
      planned 185364 x 185364 (a side that is no multiple of 4). */
  lemma PlanAsWrittenOverflows(bitResolution: int)
    requires 2147441940 < bitResolution <= MaxInt
    ensures PlanAsWritten(bitResolution) == Grid(185365, 185365)
    ensures Plan(bitResolution) == Grid(185364, 185364)
  {
    RoundSqrtUnique(bitResolution, 46341);
    assert Wrap(46341 * 4) == 185364;
    assert 185364 / 4 == 46341;
    assert Wrap(46341 * 46341) == -2147479015;
    assert Wrap(46341 + 1) == 46342;
    assert Wrap(46341 * 46342) == -2147432674;
    assert Wrap(185364 + 1) == 185365;
  }
}
