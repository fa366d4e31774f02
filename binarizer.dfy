/** The second half of the perceptive hash: the mean-threshold binarisation of
    the low-frequency sub-band of the DCT coefficients. Everything here is a
    pure specification over a coefficient matrix; the loops of `hash` are
    proved against it in PerceptiveHashAlgorithm. */
module SubBandBinarizer {

  /** A coefficient matrix indexed [x][y], like the source's
      `double[width][height]`. */
  type Matrix = seq<seq<real>>

  predicate IsGrid(m: Matrix, width: int, height: int) {
    |m| == width && forall x :: 0 <= x < |m| ==> |m[x]| == height
  }

  /** The block of rows 1..subWidth and columns 1..subHeight lies inside m. */
  predicate Fits(m: Matrix, subWidth: nat, subHeight: nat) {
    subWidth < |m| && forall x :: 1 <= x <= subWidth ==> subHeight < |m[x]|
  }

  /** The coefficients of the block in the order both loop nests of `hash`
      visit them: row x = 1..subWidth outside, column y = 1..subHeight inside. */
  function SubBand(m: Matrix, subWidth: nat, subHeight: nat): (band: seq<real>)
    requires Fits(m, subWidth, subHeight)
    ensures |band| == subWidth * subHeight
  {
    if subWidth == 0 then []
    else
      var before := SubBand(m, subWidth - 1, subHeight);
      assert |before| + subHeight == subWidth * subHeight;
      before + m[subWidth][1..subHeight + 1]
  }

  /** Coefficient (i, j) of the block is visited as number (i-1)*subHeight + (j-1). */
  lemma {:induction false} SubBandAt(m: Matrix, subWidth: nat, subHeight: nat, i: int, j: int)
    requires Fits(m, subWidth, subHeight)
    requires 1 <= i <= subWidth && 1 <= j <= subHeight
    ensures 0 <= (i - 1) * subHeight + (j - 1) < subWidth * subHeight
    ensures SubBand(m, subWidth, subHeight)[(i - 1) * subHeight + (j - 1)] == m[i][j]
  {
    var before := SubBand(m, subWidth - 1, subHeight);
    assert SubBand(m, subWidth, subHeight) == before + m[subWidth][1..subHeight + 1];
    assert |before| == (subWidth - 1) * subHeight;
    if i == subWidth {
      assert (i - 1) * subHeight == |before|;
    } else {
      SubBandAt(m, subWidth - 1, subHeight, i, j);
    }
  }

  /** Two matrices that agree on the block have the same sub-band. */
  lemma {:induction false} SubBandOnlyReadsBlock(m: Matrix, m': Matrix, subWidth: nat, subHeight: nat)
    requires Fits(m, subWidth, subHeight) && Fits(m', subWidth, subHeight)
    requires forall i, j :: 1 <= i <= subWidth && 1 <= j <= subHeight ==> m[i][j] == m'[i][j]
    ensures SubBand(m, subWidth, subHeight) == SubBand(m', subWidth, subHeight)
  {
    if subWidth > 0 {
      SubBandOnlyReadsBlock(m, m', subWidth - 1, subHeight);
      var row, row' := m[subWidth][1..subHeight + 1], m'[subWidth][1..subHeight + 1];
      assert forall y :: 0 <= y < subHeight ==> row[y] == m[subWidth][y + 1] == m'[subWidth][y + 1] == row'[y];
      assert row == row';
    }
  }

  /** A block whose coefficients all equal c has a sub-band of copies of c. */
  lemma {:induction false} SubBandConstant(m: Matrix, subWidth: nat, subHeight: nat, c: real)
    requires Fits(m, subWidth, subHeight)
    requires forall i, j :: 1 <= i <= subWidth && 1 <= j <= subHeight ==> m[i][j] == c
    ensures forall k :: 0 <= k < subWidth * subHeight ==> SubBand(m, subWidth, subHeight)[k] == c
  {
    if subWidth > 0 {
      SubBandConstant(m, subWidth - 1, subHeight, c);
      var before := SubBand(m, subWidth - 1, subHeight);
      var row := m[subWidth][1..subHeight + 1];
      assert forall y :: 0 <= y < subHeight ==> row[y] == m[subWidth][y + 1];
      assert SubBand(m, subWidth, subHeight) == before + row;
    }
  }

  /** Left-to-right sum, the order in which `hash` accumulates. */
  function Sum(v: seq<real>): (total: real) {
    if v == [] then 0.0 else Sum(v[..|v| - 1]) + v[|v| - 1]
  }

  lemma SumSnoc(v: seq<real>, x: real)
    ensures Sum(v + [x]) == Sum(v) + x
  {
    assert (v + [x])[..|v|] == v;
  }

  /** Arithmetic mean of v; 0 for an empty v, where `avg` is never updated. */
  function Average(v: seq<real>): (mean: real) {
    if |v| == 0 then 0.0 else Sum(v) / |v| as real
  }

  /** A sum of values all below t is below |v| * t. */
  lemma {:induction false} SumBelow(v: seq<real>, t: real)
    requires |v| >= 1
    requires forall k :: 0 <= k < |v| ==> v[k] < t
    ensures Sum(v) < |v| as real * t
  {
    if |v| > 1 {
      SumBelow(v[..|v| - 1], t);
    }
  }

  /** A sum of copies of c is |v| * c. */
  lemma {:induction false} SumConstant(v: seq<real>, c: real)
    requires forall k :: 0 <= k < |v| ==> v[k] == c
    ensures Sum(v) == |v| as real * c
  {
    if v != [] {
      SumConstant(v[..|v| - 1], c);
    }
  }

  /** Some value of a non-empty sequence is at least its mean. */
  lemma SomeAtLeastAverage(v: seq<real>)
    requires |v| >= 1
    ensures exists k :: 0 <= k < |v| && v[k] >= Average(v)
  {
    if forall i :: 0 <= i < |v| ==> v[i] < Average(v) {
      SumBelow(v, Average(v));
      assert false;
    }
  }

  /** The bits a `HashBuilder` receives when one bit per value of v is
      prepended in order: one (true) when the value is at least t, zero
      otherwise. The value visited last ends up first. */
  function Emit(v: seq<real>, t: real): (bits: seq<bool>)
    ensures |bits| == |v|
  {
    if v == [] then [] else [v[|v| - 1] >= t] + Emit(v[..|v| - 1], t)
  }

  /** Bit k of the builder is the threshold test of the k-th value from the end. */
  lemma {:induction false} EmitAt(v: seq<real>, t: real, k: int)
    requires 0 <= k < |v|
    ensures Emit(v, t)[k] == (v[|v| - 1 - k] >= t)
  {
    if k > 0 {
      EmitAt(v[..|v| - 1], t, k - 1);
    }
  }

  lemma EmitSnoc(v: seq<real>, x: real, t: real)
    ensures Emit(v + [x], t) == [x >= t] + Emit(v, t)
  {
    assert (v + [x])[..|v|] == v;
  }

  /** Prepending the bits of u and then those of w gives the bits of w in
      front of the bits of u. */
  lemma {:induction false} EmitAppend(u: seq<real>, w: seq<real>, t: real)
    ensures Emit(u + w, t) == Emit(w, t) + Emit(u, t)
  {
    if w != [] {
      var w' := w[..|w| - 1];
      assert u + w == (u + w') + [w[|w| - 1]];
      EmitSnoc(u + w', w[|w| - 1], t);
      EmitSnoc(w', w[|w| - 1], t);
      EmitAppend(u, w', t);
    } else {
      assert u + w == u;
    }
  }

  /** Mean of the sub-band, the threshold of every bit. */
  function Mean(m: Matrix, subWidth: nat, subHeight: nat): (avg: real)
    requires Fits(m, subWidth, subHeight)
  {
    Average(SubBand(m, subWidth, subHeight))
  }

  /** The bits `hash` prepends to its builder: one per coefficient of the
      sub-band, in reverse visiting order. */
  function Fingerprint(m: Matrix, subWidth: nat, subHeight: nat): (bits: seq<bool>)
    requires Fits(m, subWidth, subHeight)
    ensures |bits| == subWidth * subHeight
  {
    Emit(SubBand(m, subWidth, subHeight), Mean(m, subWidth, subHeight))
  }

  /** The bit of coefficient (i, j) sits (i-1)*subHeight + (j-1) places from
      the end, and is one exactly when the coefficient is at least the mean of
      the sub-band. */
  lemma FingerprintBit(m: Matrix, subWidth: nat, subHeight: nat, i: int, j: int)
    requires Fits(m, subWidth, subHeight)
    requires 1 <= i <= subWidth && 1 <= j <= subHeight
    ensures var k := subWidth * subHeight - 1 - ((i - 1) * subHeight + (j - 1));
      0 <= k < subWidth * subHeight &&
      Fingerprint(m, subWidth, subHeight)[k] == (m[i][j] >= Mean(m, subWidth, subHeight))
  {
    SubBandAt(m, subWidth, subHeight, i, j);
    var k := subWidth * subHeight - 1 - ((i - 1) * subHeight + (j - 1));
    EmitAt(SubBand(m, subWidth, subHeight), Mean(m, subWidth, subHeight), k);
  }

  /** Over exact reals, a non-empty sub-band always yields at least one bit set:
      its largest coefficient is at least its mean. */
  lemma FingerprintHasOne(m: Matrix, subWidth: nat, subHeight: nat)
    requires Fits(m, subWidth, subHeight)
    requires subWidth >= 1 && subHeight >= 1
    ensures true in Fingerprint(m, subWidth, subHeight)
  {
    var v := SubBand(m, subWidth, subHeight);
    assert |v| >= 1 by {
      assert subWidth * subHeight >= subHeight;
    }
    SomeAtLeastAverage(v);
    var k :| 0 <= k < |v| && v[k] >= Average(v);
    EmitAt(v, Average(v), |v| - 1 - k);
    assert Fingerprint(m, subWidth, subHeight)[|v| - 1 - k];
  }

  /** A constant sub-band (for instance the DCT of a solid colour, where only
      the skipped DC term is non-zero) yields all ones. */
  lemma ConstantBandAllOnes(m: Matrix, subWidth: nat, subHeight: nat, c: real)
    requires Fits(m, subWidth, subHeight)
    requires forall i, j :: 1 <= i <= subWidth && 1 <= j <= subHeight ==> m[i][j] == c
    ensures forall k :: 0 <= k < subWidth * subHeight ==> Fingerprint(m, subWidth, subHeight)[k]
  {
    var v := SubBand(m, subWidth, subHeight);
    SubBandConstant(m, subWidth, subHeight, c);
    SumConstant(v, c);
    if |v| > 0 {
      assert Average(v) == c;
    }
    forall k | 0 <= k < |v|
      ensures Fingerprint(m, subWidth, subHeight)[k]
    {
      EmitAt(v, Average(v), k);
    }
  }

  /** Row 0, column 0 and everything past the block never influence the hash:
      matrices that agree on the block have the same fingerprint. */
  lemma FingerprintIgnoresOutside(m: Matrix, m': Matrix, subWidth: nat, subHeight: nat)
    requires Fits(m, subWidth, subHeight) && Fits(m', subWidth, subHeight)
    requires forall i, j :: 1 <= i <= subWidth && 1 <= j <= subHeight ==> m[i][j] == m'[i][j]
    ensures Fingerprint(m, subWidth, subHeight) == Fingerprint(m', subWidth, subHeight)
  {
    SubBandOnlyReadsBlock(m, m', subWidth, subHeight);
  }
}
