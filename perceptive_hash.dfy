/** `PerceptiveHash`: a hashing algorithm whose configuration (the size of the
    grid the image is scaled to) is planned once at construction, and whose
    `hash` binarises the low-frequency DCT coefficients of the scaled image. */
module PerceptiveHashAlgorithm {
  import opened DimensionPlanner
  import opened SubBandBinarizer

  /** m holds, entry for entry, the coefficients of the array a. */
  ghost predicate Represents(m: Matrix, a: array2<real>)
    reads a
  {
    IsGrid(m, a.Length0, a.Length1) &&
    forall x, y :: 0 <= x < a.Length0 && 0 <= y < a.Length1 ==> m[x][y] == a[x, y]
  }

  /** The coefficient matrix held by a two-dimensional array. */
  ghost function Rows(a: array2<real>): (m: Matrix)
    reads a
    ensures Represents(m, a)
  {
    seq(a.Length0, x requires 0 <= x < a.Length0 reads a =>
      seq(a.Length1, y requires 0 <= y < a.Length1 reads a => a[x, y]))
  }

  /** The block of rows 1..i fits in a matrix held by an array that is
      larger than the block in both directions. */
  lemma RepresentsFits(m: Matrix, a: array2<real>, i: nat, subHeight: nat)
    requires Represents(m, a)
    requires i < a.Length0 && subHeight < a.Length1
    ensures Fits(m, i, subHeight)
  {
  }

  /** One step of the averaging loop: adding x divided by count to the mean
      of the values before it gives the mean of the values up to it. */
  lemma AccumulateStep(v: seq<real>, x: real, avg: real, count: real)
    requires count != 0.0
    requires avg == Sum(v) / count
    ensures avg + x / count == Sum(v + [x]) / count
  {
    SumSnoc(v, x);
    DivSplit(Sum(v), x, count);
  }

  lemma DivSplit(a: real, b: real, c: real)
    requires c != 0.0
    ensures a / c + b / c == (a + b) / c
  {
  }

  /** The averaging loop nest of `hash`: each coefficient of rows
      1..subWidth and columns 1..subHeight, divided by their number, is added
      to `avg`, which ends as their arithmetic mean (0 when there are none and
      the loops do not run). */
  method SubBandMean(coef: array2<real>, ghost m: Matrix, subWidth: nat, subHeight: nat) returns (avg: real)
    requires Represents(m, coef)
    requires subWidth < coef.Length0 && subHeight < coef.Length1
    ensures avg == Mean(m, subWidth, subHeight)
  {
    var count := subWidth * subHeight;
    avg := 0.0;
    var i := 1;
    while i < subWidth + 1
      invariant 1 <= i <= subWidth + 1
      invariant count == 0 ==> avg == 0.0
      invariant count != 0 ==> avg == Sum(SubBand(m, i - 1, subHeight)) / count as real
    {
      RepresentsFits(m, coef, i, subHeight);
      if subHeight > 0 {
        MulMonotone(1, 1, subWidth, subHeight);
      }
      avg := AccumulateRow(coef, m, i, subHeight, count as real, SubBand(m, i - 1, subHeight), avg);
      i := i + 1;
    }
  }

  /** The inner loop of the averaging nest, over row i: the coefficients of
      columns 1..subHeight, divided by count, are added to avg, which goes from
      the mean of `before` to the mean of `before` followed by them. */
  method AccumulateRow(coef: array2<real>, ghost m: Matrix, i: nat, subHeight: nat, count: real,
                       ghost before: seq<real>, avg0: real) returns (avg: real)
    requires Represents(m, coef)
    requires i < coef.Length0 && subHeight < coef.Length1
    requires subHeight == 0 || count != 0.0
    requires count != 0.0 ==> avg0 == Sum(before) / count
    ensures count != 0.0 ==> avg == Sum(before + m[i][1..subHeight + 1]) / count
    ensures count == 0.0 ==> avg == avg0
  {
    ghost var row := m[i];
    assert before + row[1..1] == before;
    avg := avg0;
    var j := 1;
    while j < subHeight + 1
      invariant 1 <= j <= subHeight + 1
      invariant count != 0.0 ==> avg == Sum(before + row[1..j]) / count
      invariant count == 0.0 ==> avg == avg0
    {
      assert coef[i, j] == row[j];
      assert before + row[1..j + 1] == (before + row[1..j]) + [row[j]];
      AccumulateStep(before + row[1..j], row[j], avg, count);
      avg := avg + coef[i, j] / count;
      j := j + 1;
    }
  }

  /** The emitting loop nest of `hash`: in the same order, a zero is prepended
      to the builder for a coefficient below `avg` and a one otherwise. */
  method PrependBits(coef: array2<real>, ghost m: Matrix, subWidth: nat, subHeight: nat, avg: real, builder: seq<bool>)
    returns (bits: seq<bool>)
    requires Represents(m, coef)
    requires subWidth < coef.Length0 && subHeight < coef.Length1
    ensures bits == Emit(SubBand(m, subWidth, subHeight), avg) + builder
  {
    bits := builder;
    var i := 1;
    while i < subWidth + 1
      invariant 1 <= i <= subWidth + 1
      invariant bits == Emit(SubBand(m, i - 1, subHeight), avg) + builder
    {
      RepresentsFits(m, coef, i, subHeight);
      EmitRowStep(m, i, subHeight, avg, builder);
      bits := PrependRow(coef, m, i, subHeight, avg, bits);
      i := i + 1;
    }
  }

  /** One step of the outer emitting loop: the bits of rows 1..i are those of
      row i in front of those of rows 1..i-1. */
  lemma EmitRowStep(m: Matrix, i: nat, subHeight: nat, avg: real, builder: seq<bool>)
    requires Fits(m, i, subHeight) && i >= 1
    ensures Emit(SubBand(m, i, subHeight), avg) + builder
      == Emit(m[i][1..subHeight + 1], avg) + (Emit(SubBand(m, i - 1, subHeight), avg) + builder)
  {
    EmitAppend(SubBand(m, i - 1, subHeight), m[i][1..subHeight + 1], avg);
  }

  /** The inner loop of the emitting nest, over row i. */
  method PrependRow(coef: array2<real>, ghost m: Matrix, i: nat, subHeight: nat, avg: real, builder: seq<bool>)
    returns (bits: seq<bool>)
    requires Represents(m, coef)
    requires i < coef.Length0 && subHeight < coef.Length1
    ensures bits == Emit(m[i][1..subHeight + 1], avg) + builder
  {
    ghost var row := m[i];
    bits := builder;
    var j := 1;
    while j < subHeight + 1
      invariant 1 <= j <= subHeight + 1
      invariant bits == Emit(row[1..j], avg) + builder
    {
      assert coef[i, j] == row[j];
      assert row[1..j + 1] == row[1..j] + [row[j]];
      EmitSnoc(row[1..j], row[j], avg);
      if coef[i, j] < avg {
        bits := [false] + bits;
      } else {
        bits := [true] + bits;
      }
      j := j + 1;
    }
  }

  class PerceptiveHash {
    /** The requested hash length, kept by the base class. */
    const bitResolution: int
    /** Size of the scaled image the hash is computed from. */
    var width: int
    var height: int

    /** The fields hold the grid planned for the requested resolution. */
    ghost predicate Valid()
      reads this
    {
      bitResolution >= 1 && Grid(width, height) == Plan(bitResolution)
    }

    constructor (bitResolution: int)
      requires bitResolution >= 1
      ensures this.bitResolution == bitResolution
      ensures Valid()
    {
      this.bitResolution := bitResolution;
      new;
      ComputeDimensions();
    }

    /** `computeDimensions` for the requested resolution, branch for branch.
        With exact integers its first branch cannot run and the second half of
        its second test never holds (PlannerBranchesCollapse), so it sets the
        grid of Plan and establishes the class invariant. */
    method ComputeDimensions()
      requires bitResolution >= 1
      modifies this
      ensures Grid(width, height) == Plan(bitResolution)
      ensures Valid()
    {
      PlannerBranchesCollapse(bitResolution);
      PlanSubBand(bitResolution);
      var dimension := RoundSqrt(bitResolution) * 4;
      var normalBound := (dimension / 4) * (dimension / 4);
      var higherBound := (dimension / 4) * (dimension / 4 + 1);

      width := dimension;
      height := dimension;

      if higherBound < bitResolution {
        // the source's `width++; height++`, which cannot run with exact integers
        assert false;
      } else {
        if normalBound < bitResolution || normalBound - bitResolution > higherBound - bitResolution {
          height := height + 4;
        }
      }
    }

    /** The `int` to `double` conversion of the luma values at the start of
        `hash`: each value divided by 255, so luma in [0, 255] lands in [0, 1]. */
    method NormalizeLuma(lum: array2<int>) returns (unit: array2<real>)
      requires lum.Length0 == width && lum.Length1 == height
      ensures fresh(unit) && unit.Length0 == width && unit.Length1 == height
      ensures forall x, y :: 0 <= x < width && 0 <= y < height ==> unit[x, y] == lum[x, y] as real / 255.0
      ensures forall x, y :: 0 <= x < width && 0 <= y < height && 0 <= lum[x, y] <= 255 ==> 0.0 <= unit[x, y] <= 1.0
    {
      unit := new real[width, height];
      for x := 0 to width
        invariant forall x', y :: 0 <= x' < x && 0 <= y < height ==> unit[x', y] == lum[x', y] as real / 255.0
      {
        for y := 0 to height
          invariant forall x', y' :: 0 <= x' < x && 0 <= y' < height ==> unit[x', y'] == lum[x', y'] as real / 255.0
          invariant forall y' :: 0 <= y' < y ==> unit[x, y'] == lum[x, y'] as real / 255.0
        {
          unit[x, y] := lum[x, y] as real / 255.0;
        }
      }
    }

    /** The binarisation at the end of `hash`: the mean of the coefficients
        of rows 1..width/4 and columns 1..height/4, then one bit per such
        coefficient prepended to the builder. `coef` is the DCT of the
        normalised luma, of the size of the scaled image. */
    method Hash(coef: array2<real>, builder: seq<bool>) returns (bits: seq<bool>)
      requires Valid()
      requires coef.Length0 == width && coef.Length1 == height
      ensures bits == Fingerprint(Rows(coef), width / 4, height / 4) + builder
      ensures |bits| == |builder| + Plan(bitResolution).BitCount()
    {
      PlanShape(bitResolution);
      // `(int) (width / 4d)`: the sizes are positive, so this is width / 4
      var subWidth := width / 4;
      var subHeight := height / 4;
      ghost var m := Rows(coef);
      var avg := SubBandMean(coef, m, subWidth, subHeight);
      bits := PrependBits(coef, m, subWidth, subHeight, avg, builder);
    }
  }
}
