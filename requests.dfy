/**
 * The request bodies of recharge and transfer and the declarative rules they are validated by
 * before the service is called. A rule that fails contributes its message; Bean Validation reports
 * its violations as a set, so the model does too.
 */
module Requests {

  import opened Wrappers

  /** Java's 32-bit `int`, the type of a recharge amount. */
  newtype int32 = x: int | -0x8000_0000 <= x < 0x8000_0000

  const RechargeAmountMessage := "Recharge amount must be greater or equal to 0"
  const TransferAmountMessage := "Transfer amount must be greater or equal to 0"
  const TargetMissingMessage := "TargetRegistryId can not be null"

  /** A recharge body: a primitive amount, so always present. */
  datatype RechargeRequest = RechargeRequest(amount: int32)

  /** A transfer body: an exact decimal amount and the target's id, either of which may be null. */
  datatype TransferRequest = TransferRequest(amount: Option<int>, targetRegistryId: Option<string>)

  /** The violated rules of a recharge body: only a negative amount is rejected (the bound is inclusive). */
  function RechargeViolations(request: RechargeRequest): (v: set<string>)
    ensures v == {} <==> request.amount >= 0
    ensures v <= {RechargeAmountMessage}
  {
    if request.amount < 0 then {RechargeAmountMessage} else {}
  }

  /**
   * The violated rules of a transfer body. The minimum rule holds of a null amount, so only a
   * present negative amount breaks it; the target id must be present.
   */
  function TransferViolations(request: TransferRequest): (v: set<string>)
    ensures TransferAmountMessage in v <==> request.amount.Some? && request.amount.value < 0
    ensures TargetMissingMessage in v <==> request.targetRegistryId.None?
    ensures v <= {TransferAmountMessage, TargetMissingMessage}
  {
    (if request.amount.Some? && request.amount.value < 0 then {TransferAmountMessage} else {})
      + (if request.targetRegistryId.None? then {TargetMissingMessage} else {})
  }

  /** An empty transfer body breaks only the target rule. */
  lemma EmptyTransferBody()
    ensures TransferViolations(TransferRequest(None, None)) == {TargetMissingMessage}
  {
  }

  /** A transfer body passes validation exactly when its amount (if any) is non-negative and it names a target. */
  lemma TransferAcceptance(request: TransferRequest)
    ensures TransferViolations(request) == {}
        <==> request.targetRegistryId.Some? && (request.amount.Some? ==> request.amount.value >= 0)
  {
  }
}
