/** Two-component weights over u64, the saturating operations on them and some arithmetic. */
module Weights {
  const U64_MAX: nat := 0xFFFF_FFFF_FFFF_FFFF

  function Min(a: nat, b: nat): nat {
    if a < b then a else b
  }

  function Max(a: nat, b: nat): nat {
    if a < b then b else a
  }

  lemma MultiplyUp(a: nat, b: nat, c: nat)
    requires b <= c
    ensures a * b <= a * c
  {
  }

  function SatAdd(a: nat, b: nat): nat {
    Min(a + b, U64_MAX)
  }

  function SatSub(a: nat, b: nat): nat {
    if a < b then 0 else a - b
  }

  function SatMul(a: nat, b: nat): nat {
    Min(a * b, U64_MAX)
  }

  datatype Weight = Weight(refTime: nat, proofSize: nat) {
    predicate Valid() {
      refTime <= U64_MAX && proofSize <= U64_MAX
    }

    predicate AllLte(other: Weight) {
      refTime <= other.refTime && proofSize <= other.proofSize
    }

    function SaturatingAdd(other: Weight): Weight {
      Weight(SatAdd(refTime, other.refTime), SatAdd(proofSize, other.proofSize))
    }

    function SaturatingSub(other: Weight): Weight {
      Weight(SatSub(refTime, other.refTime), SatSub(proofSize, other.proofSize))
    }

    function SaturatingMul(n: nat): Weight {
      Weight(SatMul(refTime, n), SatMul(proofSize, n))
    }

    function Plus(other: Weight): Weight {
      Weight(refTime + other.refTime, proofSize + other.proofSize)
    }
  }

  const ZERO := Weight(0, 0)
}
