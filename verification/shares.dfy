/** Allocation data: how the funds raised for a tree are split among the
    eight stakeholder categories, in basis points. */
module Shares {

  /** 100% in basis points. */
  const TOTAL_SHARES: nat := 10000

  datatype AllocationData = AllocationData(
    planterShare: nat,
    ambassadorShare: nat,
    researchShare: nat,
    localDevelopmentShare: nat,
    insuranceShare: nat,
    treasuryShare: nat,
    reserve1Share: nat,
    reserve2Share: nat)

  /** The sum of the eight shares. */
  function Total(d: AllocationData): nat {
    d.planterShare + d.ambassadorShare + d.researchShare + d.localDevelopmentShare +
    d.insuranceShare + d.treasuryShare + d.reserve1Share + d.reserve2Share
  }

  /** A split the registry accepts: the shares make up exactly 100%. */
  predicate WellFormed(d: AllocationData) {
    Total(d) == TOTAL_SHARES
  }
}
