/**
 * The funds check of a transfer as the service writes it: both amounts are converted to the nearest
 * single-precision float before they are compared. Above 2^24 a float no longer holds every
 * integer, so an amount one unit above the balance can round to the balance and pass the check.
 */
module Findings {

  import opened Wrappers
  import opened Model
  import opened Repository
  import opened Errors
  import opened Ledger

  /** 2^24: a float holds every integer of smaller magnitude, and no longer every integer above it. */
  const FloatExact: int := 0x100_0000

  /**
   * The magnitude `n` rounded to a multiple of `ulp`, the smallest power of two at or above `ulp`
   * that leaves at most 24 significant binary digits (the precision of a float), to the nearest
   * such multiple and to the even one on a tie.
   */
  function RoundToUlp(n: nat, ulp: nat): (r: nat)
    requires ulp >= 1
    decreases n - ulp
  {
    if n < FloatExact * ulp then
      var q, rest := n / ulp, n % ulp;
      if 2 * rest < ulp || (2 * rest == ulp && q % 2 == 0) then q * ulp else (q + 1) * ulp
    else
      RoundToUlp(n, 2 * ulp)
  }

  /** The float nearest to the exact amount `x`, as a conversion to `float` yields it. */
  function FloatValue(x: int): (f: int)
    ensures -FloatExact < x < FloatExact ==> f == x
  {
    var magnitude: int := if x >= 0 then RoundToUlp(x, 1) else RoundToUlp(-x, 1);
    if x >= 0 then magnitude else -magnitude
  }

  /** Transfer exactly as written: the funds check compares the float values of the two amounts. */
  function TransferStepAsWritten(rows: seq<Row>, userId: string, sourceId: string, targetId: string, amount: int): (r: Step)
    ensures FailureIsClean(rows, r)
    ensures SameRegistries(rows, r.rows)
  {
    var source := IndexOf(rows, sourceId, userId);
    var target := IndexOf(rows, targetId, userId);
    if source.None? then
      Step(Err(RegistryNotFound(Source, sourceId, userId)), rows)
    else if target.None? then
      Step(Err(RegistryNotFound(Target, targetId, userId)), rows)
    else if FloatValue(rows[source.value].amount) < FloatValue(amount) then
      Step(Err(NotEnoughFunds(rows[source.value].amount, amount)), rows)
    else
      var debited := WithAmount(rows, source.value, rows[source.value].amount - amount);
      var credited := WithAmount(debited, target.value, debited[target.value].amount + amount);
      WithAmountKeepsRegistries(rows, source.value, rows[source.value].amount - amount);
      WithAmountKeepsRegistries(debited, target.value, debited[target.value].amount + amount);
      SameRegistriesTransitive(rows, debited, credited);
      Step(Ok, credited)
  }

  /** While every balance and the amount are below 2^24 in magnitude, the float check decides as the exact one does. */
  lemma AsWrittenAgreesBelowFloatPrecision(rows: seq<Row>, userId: string, sourceId: string, targetId: string, amount: int)
    requires -FloatExact < amount < FloatExact
    requires forall i :: 0 <= i < |rows| ==> -FloatExact < rows[i].amount < FloatExact
    ensures TransferStepAsWritten(rows, userId, sourceId, targetId, amount)
         == TransferStep(rows, userId, sourceId, targetId, Some(amount))
  {
    var source := IndexOf(rows, sourceId, userId);
    if source.Some? {
      assert FloatValue(rows[source.value].amount) == rows[source.value].amount;
    }
  }

  /** A store of one user: a wallet holding 2^24 and empty savings. */
  function Overdrawn(): (rows: seq<Row>)
    ensures KeyedById(rows)
  {
    var rows := [Row("w", "Wallet", "1", 0x100_0000), Row("s", "Savings", "1", 0)];
    assert rows[0].id == "w" && rows[1].id == "s";
    rows
  }

  /**
   * Moving 2^24 + 1 out of a wallet holding 2^24 passes the float check, since both round to the
   * same float, and leaves the wallet at -1; the exact check refuses it with both numbers.
   */
  lemma FloatCheckOverdraws()
    ensures var step := TransferStepAsWritten(Overdrawn(), "1", "w", "s", 0x100_0001);
      && step.outcome == Ok
      && step.rows[0].amount == -1
      && !NonNegative(step.rows)
    ensures TransferStep(Overdrawn(), "1", "w", "s", Some(0x100_0001))
         == Step(Err(NotEnoughFunds(0x100_0000, 0x100_0001)), Overdrawn())
  {
    var rows := Overdrawn();
    IndexOfInKeyedStore(rows, 0, "1");
    IndexOfInKeyedStore(rows, 1, "1");
    assert RoundToUlp(0x100_0001, 1) == RoundToUlp(0x100_0001, 2) == 0x100_0000;
    assert FloatValue(0x100_0000) == FloatValue(0x100_0001);
  }
}
