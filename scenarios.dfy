/**
 * A client of the entity-level model: two registries of one user are saved into an empty store and
 * one of them is recharged in place, as at the start of the application's acceptance test.
 */
module Scenarios {

  import opened Wrappers
  import opened Model
  import opened Repository
  import opened Errors
  import opened Requests
  import opened Ledger
  import opened Service

  /**
   * Saving assigns the given ids in order; the recharge then adds 2500 to the wallet's 1000 in
   * place, and the wallet keeps its id, label and owner.
   */
  method SaveAndRecharge() returns (outcome: Outcome, wallet: Row)
    ensures outcome == Ok
    ensures wallet == Row("w", "Wallet", "1", 3500)
  {
    var repository := new RegistryRepository();
    var service := new RegistryService(repository);
    var entity := new Registry("Wallet", "1", 1000);
    var savings := new Registry("Savings", "1", 5000);
    assert !IsWhitespace("w"[0]) && !IsWhitespace("s"[0]);
    entity := repository.Save(entity, "w");
    assert "w" != "s";
    savings := repository.Save(savings, "s");
    var rows := repository.Contents();
    assert rows == [Row("w", "Wallet", "1", 1000), Row("s", "Savings", "1", 5000)];
    repository.ContentsKeyedById();
    IndexOfInKeyedStore(rows, 0, "1");

    outcome := service.Recharge("1", "w", RechargeRequest(2500));
    RechargeAddsFunds(rows, "1", "w", 0, 2500);
    wallet := repository.Contents()[0];
  }
}
