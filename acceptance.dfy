/**
 * The acceptance scenario of the application's tests, replayed on the balance-mutation protocol:
 * one user with four registries, a recharge and three transfers, each succeeding with the balances
 * the test expects.
 */
module Acceptance {

  import opened Wrappers
  import opened Model
  import opened Repository
  import opened Errors
  import opened Ledger
  import opened Responses

  /** The scenario's store: wallet, savings, insurance policy and food expenses of user "1". */
  function Store(wallet: int, savings: int, insurance: int, food: int): (rows: seq<Row>)
    ensures KeyedById(rows)
  {
    var rows := [Row("w", "Wallet", "1", wallet), Row("s", "Savings", "1", savings),
                 Row("i", "Insurance policy", "1", insurance), Row("f", "Food expenses", "1", food)];
    assert rows[0].id == "w" && rows[1].id == "s" && rows[2].id == "i" && rows[3].id == "f";
    rows
  }

  /** Each of the four registries is found among the user's at its own position. */
  lemma StoreLookups(wallet: int, savings: int, insurance: int, food: int)
    ensures var rows := Store(wallet, savings, insurance, food);
      && IndexOf(rows, "w", "1") == Some(0) && IndexOf(rows, "s", "1") == Some(1)
      && IndexOf(rows, "i", "1") == Some(2) && IndexOf(rows, "f", "1") == Some(3)
  {
    var rows := Store(wallet, savings, insurance, food);
    IndexOfInKeyedStore(rows, 0, "1");
    IndexOfInKeyedStore(rows, 1, "1");
    IndexOfInKeyedStore(rows, 2, "1");
    IndexOfInKeyedStore(rows, 3, "1");
  }

  /** Changing the balance at position `k` of the scenario's store changes that balance only. */
  lemma StoreWithAmount(wallet: int, savings: int, insurance: int, food: int, k: nat, amount: int)
    requires k < 4
    ensures WithAmount(Store(wallet, savings, insurance, food), k, amount)
         == Store(if k == 0 then amount else wallet, if k == 1 then amount else savings,
                  if k == 2 then amount else insurance, if k == 3 then amount else food)
  {
    var a := WithAmount(Store(wallet, savings, insurance, food), k, amount);
    var b := Store(if k == 0 then amount else wallet, if k == 1 then amount else savings,
                   if k == 2 then amount else insurance, if k == 3 then amount else food);
    assert a[0] == b[0] && a[1] == b[1] && a[2] == b[2] && a[3] == b[3];
  }

  /** A transfer between two of the scenario's registries, with enough funds, moves the amount. */
  lemma StoreTransfer(rows: seq<Row>, sourceId: string, targetId: string, s: nat, t: nat, amount: int)
    requires IndexOf(rows, sourceId, "1") == Some(s) && IndexOf(rows, targetId, "1") == Some(t)
    requires rows[s].amount >= amount
    ensures TransferStep(rows, "1", sourceId, targetId, Some(amount))
         == Step(Ok, WithAmount(WithAmount(rows, s, rows[s].amount - amount), t,
                                WithAmount(rows, s, rows[s].amount - amount)[t].amount + amount))
  {
  }

  /** Step 1: recharging the wallet by 2500 brings it to 3500. */
  lemma RechargeWallet()
    ensures RechargeStep(Store(1000, 5000, 0, 0), "1", "w", 2500) == Step(Ok, Store(3500, 5000, 0, 0))
  {
    StoreLookups(1000, 5000, 0, 0);
    assert RechargeStep(Store(1000, 5000, 0, 0), "1", "w", 2500)
        == Step(Ok, WithAmount(Store(1000, 5000, 0, 0), 0, 3500));
    StoreWithAmount(1000, 5000, 0, 0, 0, 3500);
  }

  /** Step 2: moving 1500 from wallet to food expenses leaves 2000 and 1500. */
  lemma WalletToFood()
    ensures TransferStep(Store(3500, 5000, 0, 0), "1", "w", "f", Some(1500)) == Step(Ok, Store(2000, 5000, 0, 1500))
  {
    StoreLookups(3500, 5000, 0, 0);
    StoreTransfer(Store(3500, 5000, 0, 0), "w", "f", 0, 3, 1500);
    StoreWithAmount(3500, 5000, 0, 0, 0, 2000);
    StoreWithAmount(2000, 5000, 0, 0, 3, 1500);
  }

  /** Step 3: moving 500 from savings to the insurance policy leaves 4500 and 500. */
  lemma SavingsToInsurance()
    ensures TransferStep(Store(2000, 5000, 0, 1500), "1", "s", "i", Some(500)) == Step(Ok, Store(2000, 4500, 500, 1500))
  {
    StoreLookups(2000, 5000, 0, 1500);
    StoreTransfer(Store(2000, 5000, 0, 1500), "s", "i", 1, 2, 500);
    StoreWithAmount(2000, 5000, 0, 1500, 1, 4500);
    StoreWithAmount(2000, 4500, 0, 1500, 2, 500);
  }

  /** Step 4: moving 1000 from wallet to savings leaves 1000 and 5500. */
  lemma WalletToSavings()
    ensures TransferStep(Store(2000, 4500, 500, 1500), "1", "w", "s", Some(1000)) == Step(Ok, Store(1000, 5500, 500, 1500))
  {
    StoreLookups(2000, 4500, 500, 1500);
    StoreTransfer(Store(2000, 4500, 500, 1500), "w", "s", 0, 1, 1000);
    StoreWithAmount(2000, 4500, 500, 1500, 0, 1000);
    StoreWithAmount(1000, 4500, 500, 1500, 1, 5500);
  }

  /** The listing the test expects at its end: the four registries in save order. */
  function FinalListing(): seq<RegistryResponse> {
    [RegistryResponse("w", "Wallet", 1000), RegistryResponse("s", "Savings", 5500),
     RegistryResponse("i", "Insurance policy", 500), RegistryResponse("f", "Food expenses", 1500)]
  }

  /** Listing user "1" after the scenario shows every registry of the final store, in save order. */
  lemma ListingAfterScenario()
    ensures ResponsesOf(OwnedBy(Store(1000, 5500, 500, 1500), "1")) == FinalListing()
  {
  }

  /**
   * The whole scenario: the recharge and the three transfers all succeed and leave the balances
   * 1000, 5500, 500 and 1500, with the total grown by exactly the recharge; the user's listing then
   * shows the four registries in save order with those balances.
   */
  lemma AcceptanceTest()
    ensures var r1 := RechargeStep(Store(1000, 5000, 0, 0), "1", "w", 2500);
      var r2 := TransferStep(r1.rows, "1", "w", "f", Some(1500));
      var r3 := TransferStep(r2.rows, "1", "s", "i", Some(500));
      var r4 := TransferStep(r3.rows, "1", "w", "s", Some(1000));
      && r1.outcome == Ok && r2.outcome == Ok && r3.outcome == Ok && r4.outcome == Ok
      && r4.rows == Store(1000, 5500, 500, 1500)
      && Total(r4.rows) == Total(Store(1000, 5000, 0, 0)) + 2500
      && ResponsesOf(OwnedBy(r4.rows, "1")) == FinalListing()
  {
    RechargeWallet();
    WalletToFood();
    SavingsToInsurance();
    WalletToSavings();
    ListingAfterScenario();
  }
}
