/** Values read from chain storage, reduced to the fields the indexer keeps. */
module OnChain {
  import opened Tables

  datatype NominatorWithdrawal = NominatorWithdrawal(shares: nat, amount: nat, storageFeeRefund: nat)

  datatype FullOperator = FullOperator(
    signingKey: seq<nat>, currentDomainId: nat, minimumNominatorStake: nat, nominationTax: nat,
    currentTotalStake: nat, currentTotalShares: nat, status: OperatorStatus, totalStorageFeeDeposit: nat)
  {
    function Identity(owner: Address): OperatorIdentity {
      OperatorIdentity(currentDomainId, owner, signingKey, minimumNominatorStake, nominationTax)
    }

    function Stats(): OperatorStats {
      OperatorStats(status, currentTotalStake, currentTotalShares, totalStorageFeeDeposit)
    }
  }
}
