/**
 * The entry points in front of the service, reduced to what matters for the ledger: a request body
 * is validated first, and only a valid one reaches the service.
 */
module Controller {

  import opened Wrappers
  import opened Repository
  import opened Errors
  import opened Requests
  import opened Ledger
  import opened Service

  class RegistryController {
    const service: RegistryService

    constructor (service: RegistryService)
      ensures this.service == service
    {
      this.service := service;
    }

    /** Validates the recharge body, then recharges; an invalid body leaves the store as it was. */
    method Recharge(userId: string, registryId: string, request: RechargeRequest) returns (outcome: Outcome)
      requires service.repository.Valid()
      modifies service.repository.entities
      ensures service.repository.Valid()
      ensures RechargeViolations(request) != {} ==>
        && outcome == Err(InvalidArguments(RechargeViolations(request)))
        && service.repository.Contents() == old(service.repository.Contents())
      ensures RechargeViolations(request) == {} ==>
        Step(outcome, service.repository.Contents())
          == RechargeStep(old(service.repository.Contents()), userId, registryId, request.amount as int)
    {
      var violations := RechargeViolations(request);
      if violations != {} {
        return Err(InvalidArguments(violations));
      }
      outcome := service.Recharge(userId, registryId, request);
    }

    /** Validates the transfer body, then transfers; an invalid body leaves the store as it was. */
    method Transfer(userId: string, registryId: string, request: TransferRequest) returns (outcome: Outcome)
      requires service.repository.Valid()
      modifies service.repository.entities
      ensures service.repository.Valid()
      ensures TransferViolations(request) != {} ==>
        && outcome == Err(InvalidArguments(TransferViolations(request)))
        && service.repository.Contents() == old(service.repository.Contents())
      ensures TransferViolations(request) == {} ==>
        Step(outcome, service.repository.Contents())
          == TransferStep(old(service.repository.Contents()), userId, registryId,
                          request.targetRegistryId.value, request.amount)
    {
      var violations := TransferViolations(request);
      if violations != {} {
        return Err(InvalidArguments(violations));
      }
      outcome := service.Transfer(userId, registryId, request);
    }
  }
}
