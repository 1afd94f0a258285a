/**
 * The balance-mutation protocol on values: what one recharge or one transfer does to the
 * registries in the store, and the properties the protocol guarantees.
 */
module Ledger {

  import opened Wrappers
  import opened Model
  import opened Repository
  import opened Errors

  /** The outcome of one operation together with the store it leaves behind. */
  datatype Step = Step(outcome: Outcome, rows: seq<Row>)

  /** The sum of all balances. */
  function Total(rows: seq<Row>): int {
    if rows == [] then 0 else rows[0].amount + Total(rows[1..])
  }

  /** No balance is negative. */
  predicate NonNegative(rows: seq<Row>) {
    forall i :: 0 <= i < |rows| ==> rows[i].amount >= 0
  }

  /** Same registries in the same order, each with the same id, name and owner. */
  predicate SameRegistries(before: seq<Row>, after: seq<Row>) {
    && |after| == |before|
    && forall i :: 0 <= i < |before| ==>
         after[i].id == before[i].id && after[i].name == before[i].name && after[i].userId == before[i].userId
  }

  /** A failed step leaves the store exactly as it was. */
  predicate FailureIsClean(before: seq<Row>, step: Step) {
    step.outcome.Err? ==> step.rows == before
  }

  /** Recharge: look the registry up among the user's, then add the amount unconditionally. */
  function RechargeStep(rows: seq<Row>, userId: string, registryId: string, amount: int): (r: Step)
    ensures FailureIsClean(rows, r)
    ensures SameRegistries(rows, r.rows)
  {
    var found := IndexOf(rows, registryId, userId);
    if found.None? then
      Step(Err(RegistryNotFound(Plain, registryId, userId)), rows)
    else
      WithAmountKeepsRegistries(rows, found.value, rows[found.value].amount + amount);
      Step(Ok, WithAmount(rows, found.value, rows[found.value].amount + amount))
  }

  /**
   * Transfer: look up source and target among the user's registries; a missing source is reported
   * before a missing target; a missing amount is only read by the funds check, which then fails; a
   * source holding less than the amount is refused; otherwise debit the source, then credit the target.
   */
  function TransferStep(rows: seq<Row>, userId: string, sourceId: string, targetId: string, amount: Option<int>): (r: Step)
    ensures FailureIsClean(rows, r)
    ensures SameRegistries(rows, r.rows)
  {
    var source := IndexOf(rows, sourceId, userId);
    var target := IndexOf(rows, targetId, userId);
    if source.None? then
      Step(Err(RegistryNotFound(Source, sourceId, userId)), rows)
    else if target.None? then
      Step(Err(RegistryNotFound(Target, targetId, userId)), rows)
    else if amount.None? then
      Step(Err(NullAmount), rows)
    else if rows[source.value].amount < amount.value then
      Step(Err(NotEnoughFunds(rows[source.value].amount, amount.value)), rows)
    else
      var debited := WithAmount(rows, source.value, rows[source.value].amount - amount.value);
      var credited := WithAmount(debited, target.value, debited[target.value].amount + amount.value);
      WithAmountKeepsRegistries(rows, source.value, rows[source.value].amount - amount.value);
      WithAmountKeepsRegistries(debited, target.value, debited[target.value].amount + amount.value);
      SameRegistriesTransitive(rows, debited, credited);
      Step(Ok, credited)
  }

  /** Changing one balance changes the total by the difference. */
  lemma {:induction false} TotalWithAmount(rows: seq<Row>, k: nat, amount: int)
    requires k < |rows|
    ensures Total(WithAmount(rows, k, amount)) == Total(rows) - rows[k].amount + amount
  {
    if k == 0 {
      assert WithAmount(rows, k, amount)[1..] == rows[1..];
    } else {
      TotalWithAmount(rows[1..], k - 1, amount);
      assert WithAmount(rows, k, amount)[1..] == WithAmount(rows[1..], k - 1, amount);
    }
  }

  /** Changing one balance keeps the registries. */
  lemma WithAmountKeepsRegistries(rows: seq<Row>, k: nat, amount: int)
    requires k < |rows|
    ensures SameRegistries(rows, WithAmount(rows, k, amount))
  {
  }

  /** Changing one balance keeps a store keyed by id keyed by id. */
  lemma WithAmountKeepsKeys(rows: seq<Row>, k: nat, amount: int)
    requires k < |rows| && KeyedById(rows)
    ensures KeyedById(WithAmount(rows, k, amount))
  {
  }

  /** Setting one balance of a non-negative store to a non-negative amount keeps it non-negative. */
  lemma WithAmountKeepsNonNegative(rows: seq<Row>, k: nat, amount: int)
    requires k < |rows| && NonNegative(rows) && amount >= 0
    ensures NonNegative(WithAmount(rows, k, amount))
  {
  }

  /** Being the same registries is transitive. */
  lemma SameRegistriesTransitive(a: seq<Row>, b: seq<Row>, c: seq<Row>)
    requires SameRegistries(a, b) && SameRegistries(b, c)
    ensures SameRegistries(a, c)
  {
  }

  /** A recharge fails exactly when the user owns no registry with that id, and then changes nothing. */
  lemma RechargeNotFound(rows: seq<Row>, userId: string, registryId: string, amount: int)
    ensures RechargeStep(rows, userId, registryId, amount).outcome.Err?
        <==> forall i :: 0 <= i < |rows| ==> !(rows[i].id == registryId && rows[i].userId == userId)
    ensures RechargeStep(rows, userId, registryId, amount).outcome.Err? ==>
      RechargeStep(rows, userId, registryId, amount) == Step(Err(RegistryNotFound(Plain, registryId, userId)), rows)
  {
  }

  /**
   * A recharge that finds registry `k` adds the amount to its balance and to the total, and changes
   * no other registry and no id, name or owner.
   */
  lemma RechargeAddsFunds(rows: seq<Row>, userId: string, registryId: string, k: nat, amount: int)
    requires IndexOf(rows, registryId, userId) == Some(k)
    ensures var step := RechargeStep(rows, userId, registryId, amount);
      && step.outcome == Ok
      && SameRegistries(rows, step.rows)
      && step.rows[k].amount == rows[k].amount + amount
      && (forall i :: 0 <= i < |rows| && i != k ==> step.rows[i] == rows[i])
      && Total(step.rows) == Total(rows) + amount
  {
    assert RechargeStep(rows, userId, registryId, amount) == Step(Ok, WithAmount(rows, k, rows[k].amount + amount));
    WithAmountKeepsRegistries(rows, k, rows[k].amount + amount);
    TotalWithAmount(rows, k, rows[k].amount + amount);
  }

  /** A missing source is reported first, whatever the target; a missing target only after a found source. */
  lemma TransferLookupPriority(rows: seq<Row>, userId: string, sourceId: string, targetId: string, amount: Option<int>)
    ensures var step := TransferStep(rows, userId, sourceId, targetId, amount);
      && (step.outcome == Err(RegistryNotFound(Source, sourceId, userId))
          <==> IndexOf(rows, sourceId, userId).None?)
      && (step.outcome == Err(RegistryNotFound(Target, targetId, userId))
          <==> IndexOf(rows, sourceId, userId).Some? && IndexOf(rows, targetId, userId).None?)
      && FailureIsClean(rows, step)
  {
  }

  /**
   * Once both registries are found, the transfer is refused exactly when the source holds strictly
   * less than the amount; the refusal carries both numbers and changes nothing. An amount equal to
   * the balance is accepted.
   */
  lemma TransferNeedsFunds(rows: seq<Row>, userId: string, sourceId: string, targetId: string, amount: int)
    requires IndexOf(rows, sourceId, userId).Some? && IndexOf(rows, targetId, userId).Some?
    ensures var step := TransferStep(rows, userId, sourceId, targetId, Some(amount));
      var available := rows[IndexOf(rows, sourceId, userId).value].amount;
      && (step.outcome.Err? <==> available < amount)
      && (step.outcome.Err? ==> step == Step(Err(NotEnoughFunds(available, amount)), rows))
  {
  }
  /**
   * Once both registries are found, a missing amount makes the funds check fail, and the store is
   * left as it was; the lookups before it still report a missing registry first.
   */
  lemma TransferMissingAmount(rows: seq<Row>, userId: string, sourceId: string, targetId: string)
    requires IndexOf(rows, sourceId, userId).Some? && IndexOf(rows, targetId, userId).Some?
    ensures TransferStep(rows, userId, sourceId, targetId, None) == Step(Err(NullAmount), rows)
  {
  }


  /**
   * A successful transfer between two distinct registries debits the source and credits the target
   * by the amount, so their sum is unchanged; no other registry and no id, name or owner changes.
   */
  lemma TransferMovesFunds(rows: seq<Row>, userId: string, sourceId: string, targetId: string, s: nat, t: nat, amount: int)
    requires IndexOf(rows, sourceId, userId) == Some(s) && IndexOf(rows, targetId, userId) == Some(t)
    requires s != t && rows[s].amount >= amount
    ensures var step := TransferStep(rows, userId, sourceId, targetId, Some(amount));
      && step.outcome == Ok
      && SameRegistries(rows, step.rows)
      && step.rows[s].amount == rows[s].amount - amount
      && step.rows[t].amount == rows[t].amount + amount
      && step.rows[s].amount + step.rows[t].amount == rows[s].amount + rows[t].amount
      && (forall i :: 0 <= i < |rows| && i != s && i != t ==> step.rows[i] == rows[i])
  {
  }

  /** A transfer from a registry to itself that passes the funds check leaves the store as it was. */
  lemma TransferToSelf(rows: seq<Row>, userId: string, registryId: string, k: nat, amount: int)
    requires IndexOf(rows, registryId, userId) == Some(k) && rows[k].amount >= amount
    ensures TransferStep(rows, userId, registryId, registryId, Some(amount)) == Step(Ok, rows)
  {
    assert WithAmount(WithAmount(rows, k, rows[k].amount - amount), k, rows[k].amount) == rows;
  }

  /** Every transfer, successful or not, conserves the total of all balances. */
  lemma TransferConservesTotal(rows: seq<Row>, userId: string, sourceId: string, targetId: string, amount: Option<int>)
    ensures Total(TransferStep(rows, userId, sourceId, targetId, amount).rows) == Total(rows)
  {
    var source, target := IndexOf(rows, sourceId, userId), IndexOf(rows, targetId, userId);
    if source.Some? && target.Some? && amount.Some? && rows[source.value].amount >= amount.value {
      var s, t, a := source.value, target.value, amount.value;
      var debited := WithAmount(rows, s, rows[s].amount - a);
      var credited := WithAmount(debited, t, debited[t].amount + a);
      assert TransferStep(rows, userId, sourceId, targetId, amount).rows == credited;
      TotalWithAmount(rows, s, rows[s].amount - a);
      TotalWithAmount(debited, t, debited[t].amount + a);
    } else {
      assert TransferStep(rows, userId, sourceId, targetId, amount).rows == rows;
    }
  }


  /**
   * A recharge adds, removes, reorders or renames no registry and changes no owner, so a store keyed
   * by id stays keyed by id; with a non-negative amount no balance turns negative.
   */
  lemma RechargeKeepsInvariants(rows: seq<Row>, userId: string, registryId: string, amount: int)
    ensures var step := RechargeStep(rows, userId, registryId, amount);
      && SameRegistries(rows, step.rows)
      && FailureIsClean(rows, step)
      && (KeyedById(rows) ==> KeyedById(step.rows))
      && (NonNegative(rows) && amount >= 0 ==> NonNegative(step.rows))
  {
    var found := IndexOf(rows, registryId, userId);
    if found.Some? {
      var k := found.value;
      assert RechargeStep(rows, userId, registryId, amount).rows == WithAmount(rows, k, rows[k].amount + amount);
      WithAmountKeepsRegistries(rows, k, rows[k].amount + amount);
      if KeyedById(rows) {
        WithAmountKeepsKeys(rows, k, rows[k].amount + amount);
      }
      if NonNegative(rows) && amount >= 0 {
        WithAmountKeepsNonNegative(rows, k, rows[k].amount + amount);
      }
    }
  }

  lemma DebitCreditKeepsInvariants(rows: seq<Row>, s: nat, t: nat, amount: int, debited: seq<Row>, credited: seq<Row>)
    requires s < |rows| && t < |rows| && rows[s].amount >= amount
    requires debited == WithAmount(rows, s, rows[s].amount - amount)
    requires credited == WithAmount(debited, t, debited[t].amount + amount)
    ensures SameRegistries(rows, credited)
    ensures KeyedById(rows) ==> KeyedById(credited)
    ensures NonNegative(rows) && amount >= 0 ==> NonNegative(credited)
  {
    WithAmountKeepsRegistries(rows, s, rows[s].amount - amount);
    WithAmountKeepsRegistries(debited, t, debited[t].amount + amount);
    SameRegistriesTransitive(rows, debited, credited);
    if KeyedById(rows) {
      WithAmountKeepsKeys(rows, s, rows[s].amount - amount);
      WithAmountKeepsKeys(debited, t, debited[t].amount + amount);
    }
    if NonNegative(rows) && amount >= 0 {
      WithAmountKeepsNonNegative(rows, s, rows[s].amount - amount);
      WithAmountKeepsNonNegative(debited, t, debited[t].amount + amount);
    }
  }

  /**
   * A transfer adds, removes, reorders or renames no registry and changes no owner, so a store keyed
   * by id stays keyed by id; when the amount, if present, is non-negative, no balance turns negative.
   */
  lemma TransferKeepsInvariants(rows: seq<Row>, userId: string, sourceId: string, targetId: string, amount: Option<int>)
    ensures var step := TransferStep(rows, userId, sourceId, targetId, amount);
      && SameRegistries(rows, step.rows)
      && FailureIsClean(rows, step)
      && (KeyedById(rows) ==> KeyedById(step.rows))
      && (NonNegative(rows) && (amount.Some? ==> amount.value >= 0) ==> NonNegative(step.rows))
  {
    var step := TransferStep(rows, userId, sourceId, targetId, amount);
    var source, target := IndexOf(rows, sourceId, userId), IndexOf(rows, targetId, userId);
    if source.Some? && target.Some? && amount.Some? && rows[source.value].amount >= amount.value {
      var s, t, a := source.value, target.value, amount.value;
      var debited := WithAmount(rows, s, rows[s].amount - a);
      var credited := WithAmount(debited, t, debited[t].amount + a);
      assert step.rows == credited;
      DebitCreditKeepsInvariants(rows, s, t, a, debited, credited);
    } else {
      assert step.rows == rows;
    }
  }

}
