/** The algorithm id of a perceptive hash: a 32-bit fingerprint of the class
    and of the planned grid, used to refuse comparing hashes made with
    different configurations. */
module AlgorithmIdentity {
  import opened JavaInt
  import opened DimensionPlanner

  /** `Objects.hash(name, height, width)`, that is Java's `Arrays.hashCode` of
      the three values, where `nameHash` stands for the hash code of the class
      name and an `Integer` hashes to its own value. */
  function ObjectsHash(nameHash: int, height: int, width: int): (h: int) {
    var h := Wrap(31 * 1 + nameHash);
    var h' := Wrap(31 * h + height);
    Wrap(31 * h' + width)
  }

  /** `precomputeAlgoId`: `Objects.hash(...) * 31 + 1` in `int` arithmetic. */
  function AlgoId(nameHash: int, height: int, width: int): (id: int)
    ensures InRange(id)
  {
    Wrap(Wrap(ObjectsHash(nameHash, height, width) * 31) + 1)
  }

  lemma WrapQuotient(x: int)
    ensures Wrap(x) == x + Modulus * ((Wrap(x) - x) / Modulus)
  {
  }

  /** Up to a multiple of 2^32, the id is a constant of the class name plus
      31 * (31 * height + width). */
  lemma AlgoIdCongruence(nameHash: int, height: int, width: int)
    ensures exists q :: (AlgoId(nameHash, height, width)
      == 31 * 31 * 31 * 31 + 31 * 31 * 31 * nameHash + 1 + 31 * (31 * height + width) + Modulus * q)
  {
    var h := 31 * 1 + nameHash;
    var h' := 31 * Wrap(h) + height;
    var h'' := 31 * Wrap(h') + width;
    var p := Wrap(h'') * 31;
    var r := Wrap(p) + 1;
    WrapQuotient(h);
    WrapQuotient(h');
    WrapQuotient(h'');
    WrapQuotient(p);
    WrapQuotient(r);
    var q1, q2, q3 := (Wrap(h) - h) / Modulus, (Wrap(h') - h') / Modulus, (Wrap(h'') - h'') / Modulus;
    var q4, q5 := (Wrap(p) - p) / Modulus, (Wrap(r) - r) / Modulus;
    var q := 31 * 31 * 31 * q1 + 31 * 31 * q2 + 31 * q3 + q4 + q5;
    assert AlgoId(nameHash, height, width)
      == 31 * 31 * 31 * 31 + 31 * 31 * 31 * nameHash + 1 + 31 * (31 * height + width) + Modulus * q;
  }

  /** 31 is odd, hence invertible modulo 2^32 (31 * 3186588639 = 1 + 23 * 2^32):
      a multiple of 2^32 that is 31 * d has d a multiple of 2^32 as well. */
  lemma Times31Cancels(d: int, k: int)
    requires 31 * d == Modulus * k
    ensures d == Modulus * (3186588639 * k - 23 * d)
  {
  }

  /** The part of a planned grid the id depends on, 31 * height + width, is
      128 * round(sqrt(b)), plus 124 for a taller grid; it lies in [0, 2^32). */
  function GridKey(g: Grid): (key: int) {
    31 * g.height + g.width
  }

  lemma PlanKey(b: int)
    requires 1 <= b <= MaxInt
    ensures GridKey(Plan(b)) == 128 * RoundSqrt(b) + (if Plan(b).height == Plan(b).width then 0 else 124)
    ensures 0 <= GridKey(Plan(b)) < Modulus
  {
    RoundSqrtOfInt(b);
  }

  lemma PlanKeyDeterminesPlan(b1: int, b2: int)
    requires 1 <= b1 <= MaxInt && 1 <= b2 <= MaxInt
    requires GridKey(Plan(b1)) == GridKey(Plan(b2))
    ensures Plan(b1) == Plan(b2)
  {
    PlanKey(b1);
    PlanKey(b2);
    var s1, s2 := RoundSqrt(b1), RoundSqrt(b2);
    assert s1 == s2;
  }

  /** For a fixed class, two grids whose keys 31 * height + width lie in
      [0, 2^32) get the same id only if their keys are equal. */
  lemma AlgoIdDeterminesKey(nameHash: int, g1: Grid, g2: Grid)
    requires 0 <= GridKey(g1) < Modulus && 0 <= GridKey(g2) < Modulus
    requires AlgoId(nameHash, g1.height, g1.width) == AlgoId(nameHash, g2.height, g2.width)
    ensures GridKey(g1) == GridKey(g2)
  {
    var x1, x2 := GridKey(g1), GridKey(g2);
    var id := AlgoId(nameHash, g1.height, g1.width);
    AlgoIdCongruence(nameHash, g1.height, g1.width);
    AlgoIdCongruence(nameHash, g2.height, g2.width);
    var c := 31 * 31 * 31 * 31 + 31 * 31 * 31 * nameHash + 1;
    var q1 :| id == c + 31 * x1 + Modulus * q1;
    var q2 :| id == c + 31 * x2 + Modulus * q2;
    assert 31 * (x1 - x2) == Modulus * (q2 - q1);
    Times31Cancels(x1 - x2, q2 - q1);
    var k := 3186588639 * (q2 - q1) - 23 * (x1 - x2);
    assert x1 - x2 == Modulus * k;
    assert k == 0;
  }

  /** Two planned grids get the same id exactly when they are the same grid:
      for a fixed class, the id tells every configuration apart (so requests of
      63 and 64 bits, which plan the same grid, share an id, and no two
      different grids do). */
  lemma AlgoIdSeparatesPlans(nameHash: int, b1: int, b2: int)
    requires 1 <= b1 <= MaxInt && 1 <= b2 <= MaxInt
    ensures var g1, g2 := Plan(b1), Plan(b2);
      AlgoId(nameHash, g1.height, g1.width) == AlgoId(nameHash, g2.height, g2.width) <==> g1 == g2
  {
    var g1, g2 := Plan(b1), Plan(b2);
    if AlgoId(nameHash, g1.height, g1.width) == AlgoId(nameHash, g2.height, g2.width) {
      PlanKey(b1);
      PlanKey(b2);
      AlgoIdDeterminesKey(nameHash, g1, g2);
      PlanKeyDeterminesPlan(b1, b2);
    }
  }
}
