/**
 * The registry service: lists a user's registries, and recharges and transfers by changing the
 * balances of the stored registry entities in place.
 */
module Service {

  import opened Wrappers
  import opened Model
  import opened Repository
  import opened Errors
  import opened Requests
  import opened Responses
  import opened Ledger

  class RegistryService {
    const repository: RegistryRepository

    constructor (repository: RegistryRepository)
      ensures this.repository == repository
    {
      this.repository := repository;
    }

    /**
     * The responses for the user's registries, one per registry and in store order; a user without
     * registries is an error rather than an empty list.
     */
    function FindByUserId(userId: string): (r: Result<seq<RegistryResponse>>)
      reads repository, repository.entities
      requires repository.Valid()
      ensures var stored := repository.Contents();
        r.Failure? <==> forall i :: 0 <= i < |stored| ==> stored[i].userId != userId
      ensures r.Failure? ==> r.error == NoRegistriesForUser(userId)
      ensures r.Success? ==>
        var stored := repository.Contents();
        var ps := Positions(stored, userId);
        && |r.value| == |ps|
        && forall k :: 0 <= k < |ps| ==> r.value[k] == ResponseOf(stored[ps[k]])
    {
      PositionsEmpty(repository.Contents(), userId);
      var responses := ResponsesOf(repository.FindByUserId(userId));
      if responses == [] then Failure(NoRegistriesForUser(userId)) else Success(responses)
    }

    /** Adds the recharge amount to the user's registry `registryId`, after looking it up. */
    method Recharge(userId: string, registryId: string, request: RechargeRequest) returns (outcome: Outcome)
      requires repository.Valid()
      modifies repository.entities
      ensures repository.Valid()
      ensures Step(outcome, repository.Contents())
           == RechargeStep(old(repository.Contents()), userId, registryId, request.amount as int)
    {
      ghost var before := repository.Contents();
      var registry := repository.FindByIdAndUserId(registryId, userId);
      if registry == null {
        return Err(RegistryNotFound(Plain, registryId, userId));
      }
      ghost var k := IndexOf(before, registryId, userId).value;
      registry.SetAmount(registry.amount + request.amount as int);
      repository.AmountChanged(k);
      outcome := Ok;
    }

    /**
     * Moves the transfer amount from the user's registry `registryId` to the user's target
     * registry: both are looked up, then the funds are checked (which fails on a missing amount),
     * then the source is debited and the target credited.
     */
    method Transfer(userId: string, registryId: string, request: TransferRequest) returns (outcome: Outcome)
      requires repository.Valid()
      requires request.targetRegistryId.Some?
      modifies repository.entities
      ensures repository.Valid()
      ensures var step := TransferStep(old(repository.Contents()), userId, registryId,
                                       request.targetRegistryId.value, request.amount);
        outcome == step.outcome && repository.Contents() == step.rows
    {
      ghost var before := repository.Contents();
      var targetId := request.targetRegistryId.value;
      ghost var step := TransferStep(before, userId, registryId, targetId, request.amount);
      var source := repository.FindByIdAndUserId(registryId, userId);
      var target := repository.FindByIdAndUserId(targetId, userId);
      if source == null {
        assert step == Step(Err(RegistryNotFound(Source, registryId, userId)), before);
        return Err(RegistryNotFound(Source, registryId, userId));
      }
      if target == null {
        assert step == Step(Err(RegistryNotFound(Target, targetId, userId)), before);
        return Err(RegistryNotFound(Target, targetId, userId));
      }
      if request.amount.None? {
        assert step == Step(Err(NullAmount), before);
        return Err(NullAmount);
      }
      var amount := request.amount.value;
      ghost var s := IndexOf(before, registryId, userId).value;
      ghost var t := IndexOf(before, targetId, userId).value;
      if source.amount < amount {
        assert step == Step(Err(NotEnoughFunds(source.amount, amount)), before);
        return Err(NotEnoughFunds(source.amount, amount));
      }
      assert step == Step(Ok, WithAmount(WithAmount(before, s, before[s].amount - amount), t,
                                         WithAmount(before, s, before[s].amount - amount)[t].amount + amount));
      MoveFunds(source, target, s, t, amount);
      outcome := Ok;
    }

    /**
     * Debits the stored registry `source`, at position `s`, by `amount`, then credits the stored
     * registry `target`, at position `t`, by it; the two may be the same registry.
     */
    method MoveFunds(source: Registry, target: Registry, ghost s: nat, ghost t: nat, amount: int)
      requires repository.Valid() && s < |repository.entities| && t < |repository.entities|
      requires source == repository.entities[s] && target == repository.entities[t]
      modifies repository.entities
      ensures repository.Valid()
      ensures var debited := WithAmount(old(repository.Contents()), s, old(repository.Contents())[s].amount - amount);
        repository.Contents() == WithAmount(debited, t, debited[t].amount + amount)
    {
      ghost var before := repository.Contents();
      ghost var debited := WithAmount(before, s, before[s].amount - amount);
      ghost var credited := WithAmount(debited, t, debited[t].amount + amount);
      source.SetAmount(source.amount - amount);
      assert repository.entities[s].amount == debited[s].amount;
      repository.AmountChanged(s);
      assert repository.Contents() == debited;
      assert target.amount == debited[t].amount;
      label Debited:
      target.SetAmount(target.amount + amount);
      assert repository.entities[t].amount == credited[t].amount;
      repository.AmountChanged@Debited(t);
    }
  }
}
