# PerceptiveHash in Dafny

A model of the deterministic core of `PerceptiveHash`, the DCT-based image
hash of the JImageHash library, together with proofs about it.

The model has three parts:

- **The dimension planner.** The constructor runs `computeDimensions`, which
  turns a requested bit resolution `b` into the `width` and `height` that the
  image is scaled to. `Math.round(Math.sqrt(b))` is specified exactly as
  `RoundSqrt(b)`: the unique `s >= 1` with `s*s - s < b <= s*s + s`, which is
  the integer nearest to `sqrt(b)`. With that specification, and with exact
  integers:
  - the `width++; height++` branch can never run;
  - the second half of the `||` test is always false;
  - the planned grid is `Plan(b)`, which is `4s` wide and either `4s` high
    (when `s*s >= b`) or `4s + 4` high.
  With Java's 32-bit `int` the branch does run for the largest requests
  (see "## Findings").
  The sub-band of `Plan(b)` holds at least `b` and at most `b + s - 1`
  coefficients. Among all near-square sub-bands that hold `b`, it is the
  smallest.
- **The sub-band binariser.** These are the two loop nests at the end of
  `hash`. The first computes `avg`, the mean of the coefficients in rows
  `1..width/4` and columns `1..height/4`. The second prepends one bit per
  coefficient to the hash builder: zero below `avg`, one otherwise.
  - The coefficient matrix is an `array2<real>`. It stands for the output of
    the DCT, which is not modelled.
  - The builder is a `seq<bool>`. Prepending bit `x` is `bits := [x] + bits`.
  - The loops are imperative methods, proved against the pure specification
    `Fingerprint` in module `SubBandBinarizer`. Lemmas there show:
    - each bit is the mean test of one coefficient, in reverse visiting order;
    - at least one bit is set;
    - a constant block gives all ones;
    - coefficients outside the block never matter.
- **The algorithm id.** `precomputeAlgoId` computes
  `Objects.hash(className, height, width) * 31 + 1` in 32-bit `int`
  arithmetic. For a fixed class, two requests get the same id exactly when
  they plan the same grid.

Module layout:

- `JavaInt` (`java_int.dfy`): Java's 32-bit `int` wrap-around.
- `DimensionPlanner` (`planner.dfy`): `RoundSqrt`, `Grid`, `Plan`, the
  planner lemmas, and the planner with 32-bit arithmetic.
- `SubBandBinarizer` (`binarizer.dfy`): the pure specification of the
  binarisation.
- `AlgorithmIdentity` (`identity.dfy`): `precomputeAlgoId`.
- `PerceptiveHashAlgorithm` (`perceptive_hash.dfy`): class
  `PerceptiveHash`, with fields `width` and `height`, `ComputeDimensions`,
  the luma normalisation, and the loop nests of `hash`.

The source is the file
`PerceptualHashAlgorithm-GP/src/main/java/com/github/kilianB/hashAlgorithms/PerceptiveHash.java`.
All paths below are relative to the repository root.

## Model

| member | source | states |
|---|---|---|
| DimensionPlanner.RoundSqrt | PerceptualHashAlgorithm-GP/src/main/java/com/github/kilianB/hashAlgorithms/PerceptiveHash.java:131 | the rounded square root `s` of a positive `b` is at least 1 and satisfies `s*s - s < b <= s*s + s` |
| DimensionPlanner.RoundSqrtUnique | PerceptualHashAlgorithm-GP/src/main/java/com/github/kilianB/hashAlgorithms/PerceptiveHash.java:131 | only one integer meets that characterisation, so it determines `Math.round(Math.sqrt(b))` |
| DimensionPlanner.RoundSqrtNearest | PerceptualHashAlgorithm-GP/src/main/java/com/github/kilianB/hashAlgorithms/PerceptiveHash.java:131 | `(s - 1/2)^2 < b < (s + 1/2)^2`, i.e. `s` is `sqrt(b)` rounded to the nearest integer |
| DimensionPlanner.RoundSqrtOfInt | PerceptualHashAlgorithm-GP/src/main/java/com/github/kilianB/hashAlgorithms/PerceptiveHash.java:131 | for every positive `int`, the rounded square root is at most 46341 |
| DimensionPlanner.PlannerBranchesCollapse | PerceptualHashAlgorithm-GP/src/main/java/com/github/kilianB/hashAlgorithms/PerceptiveHash.java:131-146 | with exact integers `higherBound >= b`, so the `width++; height++` branch is dead; `(normalBound - b) > (higherBound - b)` never holds |
| DimensionPlanner.PlanSubBand | PerceptualHashAlgorithm-GP/src/main/java/com/github/kilianB/hashAlgorithms/PerceptiveHash.java:131-146 | the planned sub-band is `s` wide, `s + 1` high exactly when `s*s < b` and `s` high otherwise, and holds `s*s + s` or `s*s` coefficients |
| DimensionPlanner.PlanShape | PerceptualHashAlgorithm-GP/src/main/java/com/github/kilianB/hashAlgorithms/PerceptiveHash.java:131-146 | width is a positive multiple of 4; height equals width or width + 4; the sub-band is near-square, non-empty, and strictly inside the grid after row and column 0 |
| DimensionPlanner.PlanCoversRequest | PerceptualHashAlgorithm-GP/src/main/java/com/github/kilianB/hashAlgorithms/PerceptiveHash.java:131-146 | the hash length is at least the requested `b` and at most `b + round(sqrt(b)) - 1` |
| DimensionPlanner.PlanIsTightest | PerceptualHashAlgorithm-GP/src/main/java/com/github/kilianB/hashAlgorithms/PerceptiveHash.java:128-147 | no near-square sub-band that holds `b` coefficients is smaller than the planned one; one of equal size has the planned shape |
| DimensionPlanner.PlanExamples | PerceptualHashAlgorithm-GP/src/main/java/com/github/kilianB/hashAlgorithms/PerceptiveHash.java:131-146 | 64 bits plan 32x32 (64 bits), 63 also 32x32, 1 plans 4x4 (1 bit), 2 plans 4x8 (2 bits), 1024 plans 128x128 |
| DimensionPlanner.PlanAsWrittenAgrees | PerceptualHashAlgorithm-GP/src/main/java/com/github/kilianB/hashAlgorithms/PerceptiveHash.java:128-147 | with 32-bit wrap-around on every operation, the planner gives the grid of `Plan` for every `b` up to 2147441940 |
| DimensionPlanner.PlanAsWrittenOverflows | PerceptualHashAlgorithm-GP/src/main/java/com/github/kilianB/hashAlgorithms/PerceptiveHash.java:133-141 | for `b` from 2147441941 to `Integer.MAX_VALUE` the bounds overflow and the dead branch runs, giving 185365x185365 instead of 185364x185364 |
| PerceptiveHashAlgorithm.PerceptiveHash.constructor | PerceptualHashAlgorithm-GP/src/main/java/com/github/kilianB/hashAlgorithms/PerceptiveHash.java:55-57 | keeps the requested resolution and leaves the object holding the planned grid |
| PerceptiveHashAlgorithm.PerceptiveHash.ComputeDimensions | PerceptualHashAlgorithm-GP/src/main/java/com/github/kilianB/hashAlgorithms/PerceptiveHash.java:128-147 | following the source branch for branch with exact integers, the fields end as the grid `Plan(bitResolution)`, which establishes the class invariant `Valid()` |
| PerceptiveHashAlgorithm.PerceptiveHash.NormalizeLuma | PerceptualHashAlgorithm-GP/src/main/java/com/github/kilianB/hashAlgorithms/PerceptiveHash.java:77-83 | a new width x height array holds each luma value divided by 255; luma in [0, 255] lands in [0, 1] |
| PerceptiveHashAlgorithm.SubBandMean | PerceptualHashAlgorithm-GP/src/main/java/com/github/kilianB/hashAlgorithms/PerceptiveHash.java:94-107 | the averaging loop nest leaves `avg` equal to the arithmetic mean of the sub-band |
| PerceptiveHashAlgorithm.AccumulateRow | PerceptualHashAlgorithm-GP/src/main/java/com/github/kilianB/hashAlgorithms/PerceptiveHash.java:104-106 | the inner averaging loop takes `avg` from the mean-so-far of the visited values to the mean-so-far with row `i` appended |
| PerceptiveHashAlgorithm.PrependBits | PerceptualHashAlgorithm-GP/src/main/java/com/github/kilianB/hashAlgorithms/PerceptiveHash.java:109-118 | the emitting loop nest puts in front of the builder the mean-test bits of the sub-band, last visited first |
| PerceptiveHashAlgorithm.PrependRow | PerceptualHashAlgorithm-GP/src/main/java/com/github/kilianB/hashAlgorithms/PerceptiveHash.java:110-117 | the inner emitting loop puts in front of the builder the bits of row `i`, last column first |
| PerceptiveHashAlgorithm.PerceptiveHash.Hash | PerceptualHashAlgorithm-GP/src/main/java/com/github/kilianB/hashAlgorithms/PerceptiveHash.java:94-119 | for a valid object, the builder gains exactly `Fingerprint` of the coefficients: as many bits as the planned sub-band holds, every array access in bounds |
| SubBandBinarizer.SubBand | PerceptualHashAlgorithm-GP/src/main/java/com/github/kilianB/hashAlgorithms/PerceptiveHash.java:98-104 | the visited block holds `subWidth * subHeight` coefficients (`count`) |
| SubBandBinarizer.SubBandAt | PerceptualHashAlgorithm-GP/src/main/java/com/github/kilianB/hashAlgorithms/PerceptiveHash.java:103-104 | coefficient `(i, j)` is visited as number `(i-1)*subHeight + (j-1)`, in row-major order |
| SubBandBinarizer.SomeAtLeastAverage | PerceptualHashAlgorithm-GP/src/main/java/com/github/kilianB/hashAlgorithms/PerceptiveHash.java:103-107 | some value of a non-empty block is at least its mean |
| SubBandBinarizer.EmitAt | PerceptualHashAlgorithm-GP/src/main/java/com/github/kilianB/hashAlgorithms/PerceptiveHash.java:109-117 | bit `k` of the prepended bits is the threshold test of the `k`-th value from the end |
| SubBandBinarizer.EmitAppend | PerceptualHashAlgorithm-GP/src/main/java/com/github/kilianB/hashAlgorithms/PerceptiveHash.java:109-118 | prepending the bits of `u` and then of `w` gives the bits of `w` in front of those of `u` |
| SubBandBinarizer.Fingerprint | PerceptualHashAlgorithm-GP/src/main/java/com/github/kilianB/hashAlgorithms/PerceptiveHash.java:109-118 | exactly one bit per coefficient of the sub-band |
| SubBandBinarizer.FingerprintBit | PerceptualHashAlgorithm-GP/src/main/java/com/github/kilianB/hashAlgorithms/PerceptiveHash.java:109-117 | the bit of `(i, j)` sits `(i-1)*subHeight + (j-1)` places from the end and is one iff the coefficient is at least the mean |
| SubBandBinarizer.FingerprintHasOne | PerceptualHashAlgorithm-GP/src/main/java/com/github/kilianB/hashAlgorithms/PerceptiveHash.java:94-117 | over exact reals, a non-empty sub-band always yields at least one bit set |
| SubBandBinarizer.ConstantBandAllOnes | PerceptualHashAlgorithm-GP/src/main/java/com/github/kilianB/hashAlgorithms/PerceptiveHash.java:94-117 | a constant sub-band yields all ones |
| SubBandBinarizer.FingerprintIgnoresOutside | PerceptualHashAlgorithm-GP/src/main/java/com/github/kilianB/hashAlgorithms/PerceptiveHash.java:89-110 | row 0, column 0 and everything beyond the block never affect the mean or any bit |
| AlgorithmIdentity.AlgoId | PerceptualHashAlgorithm-GP/src/main/java/com/github/kilianB/hashAlgorithms/PerceptiveHash.java:150-152 | the id is a 32-bit `int` |
| AlgorithmIdentity.AlgoIdCongruence | PerceptualHashAlgorithm-GP/src/main/java/com/github/kilianB/hashAlgorithms/PerceptiveHash.java:151 | up to a multiple of 2^32, the id is a constant of the class name plus `31 * (31 * height + width)` |
| AlgorithmIdentity.AlgoIdSeparatesPlans | PerceptualHashAlgorithm-GP/src/main/java/com/github/kilianB/hashAlgorithms/PerceptiveHash.java:150-152 | for a fixed class, two resolutions get the same id iff they plan the same grid, so 63 and 64 share an id and different grids never do |

## Left out

- Image scaling and luma extraction (`getScaledInstance`, `FastPixel`, lines 72-74) are foreign calls on a `BufferedImage`. `NormalizeLuma` takes the luma array as input.
- The two-dimensional DCT (JTransforms, lines 85-87) is not modelled. `Hash` takes the transformed coefficients as its input array.
- Java `double` arithmetic is modelled as exact `real` arithmetic. This covers the `/ 255d` division, the accumulation `avg += x / count` and the comparison with `avg`. `FingerprintHasOne` and `ConstantBandAllOnes` hold only with exact arithmetic; rounding can break them.
- `Math.sqrt` and `Math.round` are modelled by their exact integer meaning (`RoundSqrt`). This assumes the double square root of an `int` is accurate enough that rounding it gives the nearest integer.
- `HashingAlgorithm`, `HashBuilder` and the `BigInteger` conversion (line 119) are not part of this model. The builder is a `seq<bool>`, and `Hash` returns the bit sequence. The constructor requires `bitResolution >= 1` instead of whatever the base class checks.
- `PerceptiveHashAlgorithm.PerceptiveHash.Hash`: requires a valid object, that is one whose fields hold `Plan(bitResolution)`. So `count` is positive and no division by zero is modelled. `SubBandMean` and `AccumulateRow` do cover an empty block, where `avg` stays 0.
- PerceptiveHashAlgorithm.PerceptiveHash.ComputeDimensions: computes with exact integers, as does the constructor that calls it. So for `b > 2147441940` they give `Plan(b)`, 185364x185364, and not the 185365x185365 that the source's wrapped `int` arithmetic gives (`DimensionPlanner.PlanAsWrittenOverflows`).
- `PerceptiveHashAlgorithm.PerceptiveHash.Hash`: uses the corrected planner grid. For `b > 2147441940` the source's `count = subWidth * subHeight` (line 100) also overflows `int`, and that is not modelled.
- `AlgorithmIdentity.AlgoId`: the hash code of the class name (`String.hashCode`) is a parameter `nameHash`, not computed.
- The JTransforms thread-pool warning and the logger (lines 40, 59-66) are left out. This includes the `width * height` product in that test.
- Serialisation (`serialVersionUID`) is left out.
- The hash loop nests are split into methods per loop (`SubBandMean`/`AccumulateRow`, `PrependBits`/`PrependRow`). The iteration order and the updates are exactly those of the source.

## Findings

| source | as written | input that shows it | evidently intended | confidence | as-written member | corrected member |
|---|---|---|---|---|---|---|
| PerceptualHashAlgorithm-GP/src/main/java/com/github/kilianB/hashAlgorithms/PerceptiveHash.java:133-141 | `normalBound` and `higherBound` are `int` products of `dimension / 4` = 46341; they wrap to negative values, `higherBound < bitResolution` holds, and `width++; height++` runs | `bitResolution` = 2147441941 (any value from there to `Integer.MAX_VALUE`) gives a 185365x185365 grid, whose sides are not multiples of 4 | the grid of the exact-integer planner, 185364x185364, in which the `width++` branch never runs | not executed | DimensionPlanner.PlanAsWrittenOverflows | DimensionPlanner.Plan (DimensionPlanner.PlanAsWrittenAgrees, DimensionPlanner.PlanCoversRequest) |
