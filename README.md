# Budget ledger: registries, recharges and transfers

This project models the ledger core of a small home-budgeting back end. A *registry* is a named
account (`id`, label, owner `userId`, `amount`) kept in a store keyed by its string id, in the
order the registries were saved. The registry service offers three operations over that store:

- listing a user's registries, where a user without any is an error rather than an empty list;
- recharging one of the user's registries, which adds the amount after an ownership lookup;
- transferring between two of the user's registries. The source is looked up before the target
  and a missing source is reported first. A source holding strictly less than the amount is
  refused. Otherwise the source is debited and then the target is credited.

Before the service runs, the request bodies are checked against declarative rules: a non-negative
amount, and a present transfer target.

## Structure

| module | file | models |
|---|---|---|
| `Wrappers` | wrappers.dfy | `Option` |
| `Model` | model.dfy | the mutable registry entity (`Registry` class) and its value view `Row` |
| `Repository` | repository.dfy | the store (`RegistryRepository` class over `seq<Registry>`) and its two derived queries, specified by the functions `OwnedBy`/`Positions` and `IndexOf` |
| `Errors` | errors.dfy | the exceptions, as an `Error` datatype, and their message texts |
| `Requests` | requests.dfy | the two request bodies and their validation rules |
| `Responses` | responses.dfy | the response projection |
| `Ledger` | ledger.dfy | the balance-mutation protocol on values, `RechargeStep` and `TransferStep`, and what it guarantees |
| `Service` | service.dfy | the service class; its methods update the stored entities in place and are proved to follow the protocol |
| `Controller` | controller.dfy | "validate, then call the service" |
| `Acceptance` | acceptance.dfy | the application's acceptance test replayed on the protocol |
| `Scenarios` | scenarios.dfy | a client that saves two entities and recharges one in place |
| `Findings` | findings.dfy | the funds check, as written, compares float approximations (see Findings) |

The entity field the source calls `label` is `name` here, because `label` is a keyword in Dafny.
Amounts are exact integers. The entity declares `float amount`, but the service adds and subtracts
amounts as exact decimals and the tests build balances from `BigDecimal`, so the exact reading is
the one modelled. The transfer's funds check, as the code writes it, converts both amounts to
`float` before comparing them; `Findings` models that comparison separately.

A failing operation returns `Err(e)` with an `Error` value. The source throws an exception
instead. Since each operation is one transaction, that throw leaves the store unchanged, and the
model proves the store unchanged on every error path.

A self-transfer (source id equal to target id) is allowed, as in the code, which has no guard. The
two lookups return the same entity, so debiting and crediting it by the same amount leaves the
store exactly as it was (`Ledger.TransferToSelf`).

## Model

| member | source | states |
|---|---|---|
| Model.Registry.constructor | src/main/java/com/petke/budgeting/model/Registry.java:24-28 | a new registry holds the given label, owner and amount, and no id until it is saved |
| Model.Registry.SetAmount | src/main/java/com/petke/budgeting/model/Registry.java:11-22 | the generated setter changes the amount and leaves the id, label and owner as they were |
| Repository.OwnedBy | src/main/java/com/petke/budgeting/repository/RegistryRepository.java:12 | the owner's listing holds exactly the stored registries whose owner matches, and is no longer than the store |
| Repository.Positions | src/main/java/com/petke/budgeting/repository/RegistryRepository.java:12 | the owner's store positions are each in range and owned by them, strictly increasing (store order), and include every position they own |
| Repository.OwnedByAtPositions | src/main/java/com/petke/budgeting/repository/RegistryRepository.java:12 | the k-th registry of the owner's listing is the registry at the owner's k-th store position, so the listing keeps save order |
| Repository.PositionsEmpty | src/main/java/com/petke/budgeting/repository/RegistryRepository.java:12 | a user has no positions exactly when the store holds no registry of theirs (the empty listing of a user such as "2") |
| Repository.IndexOf | src/main/java/com/petke/budgeting/repository/RegistryRepository.java:13 | a found position holds a registry whose id and owner both match; nothing is found exactly when no stored registry matches both |
| Repository.IndexOfInKeyedStore | src/main/java/com/petke/budgeting/repository/RegistryRepository.java:10-13 | in a store keyed by id, looking up a stored id finds that registry when the asker owns it, and finds nothing when another user owns it (the ownership check) |
| Repository.RegistryRepository.constructor | src/main/java/com/petke/budgeting/repository/RegistryRepository.java:10 | a new store is empty and valid |
| Repository.RegistryRepository.ContentsKeyedById | src/main/java/com/petke/budgeting/repository/RegistryRepository.java:10 | a valid store holds at most one registry per id |
| Repository.RegistryRepository.FindByUserId | src/main/java/com/petke/budgeting/repository/RegistryRepository.java:12 | the query returns, in order, exactly the stored registries at the owner's positions |
| Repository.RegistryRepository.FindByIdAndUserId | src/main/java/com/petke/budgeting/repository/RegistryRepository.java:13 | the query returns null exactly when no registry matches both id and owner; otherwise it returns the stored entity found, whose id and owner match |
| Repository.RegistryRepository.Save | src/main/java/com/petke/budgeting/repository/RegistryRepository.java:10 | saving gives an unsaved registry a fresh non-blank id, keeps its label, owner and amount, appends it after the other registries, and keeps the store keyed by id |
| Repository.RegistryRepository.AmountChanged | src/main/java/com/petke/budgeting/service/RegistryService.java:70-71 | when one stored entity's amount changes in place, the store stays valid and its contents change in that amount only |
| Repository.RegistryRepository.DeleteAll | src/main/java/com/petke/budgeting/repository/RegistryRepository.java:10 | after clearing, the store is empty and valid |
| Requests.RechargeViolations | src/main/java/com/petke/budgeting/model/request/RechargeRequest.java:10-11 | a recharge body is rejected exactly when its amount is negative (0 passes), and the only possible message is the recharge-amount one |
| Requests.TransferViolations | src/main/java/com/petke/budgeting/model/request/TransferRequest.java:12-16 | the amount message appears exactly when an amount is present and negative; the target message appears exactly when the target is null; no other message appears |
| Requests.EmptyTransferBody | src/main/java/com/petke/budgeting/model/request/TransferRequest.java:12-16 | an empty transfer body yields only the target-null message |
| Requests.TransferAcceptance | src/main/java/com/petke/budgeting/model/request/TransferRequest.java:12-16 | a transfer body passes exactly when it names a target and any amount it has is at least 0 |
| Responses.ResponseCopiesExposedFields | src/main/java/com/petke/budgeting/model/response/RegistryResponse.java:10-18 | the projection `Responses.ResponseOf` copies id, label and amount, and two registries give equal responses exactly when those three fields agree, so the owner is not exposed |
| Errors.ListingMessageAsTested | src/main/java/com/petke/budgeting/service/RegistryService.java:34 | the empty-listing message built by `Errors.NotFoundMessage` for user "2" is the text the tests expect |
| Errors.RechargeLookupMessageAsTested | src/main/java/com/petke/budgeting/service/RegistryService.java:45 | the message of a failed recharge lookup, built by `Errors.NotFoundMessage`, is the text the tests expect for a missing registry of user "1" |
| Errors.SourceLookupMessageAsTested | src/main/java/com/petke/budgeting/service/RegistryService.java:57 | the message of a missing transfer source, built by `Errors.NotFoundMessage`, is the text the tests expect |
| Errors.TargetLookupMessageAsTested | src/main/java/com/petke/budgeting/service/RegistryService.java:61-62 | the message of a missing transfer target, built by `Errors.NotFoundMessage`, is the text the tests expect |
| Ledger.RechargeStep | src/main/java/com/petke/budgeting/service/RegistryService.java:41-49 | a recharge keeps the registries, their order, ids, labels and owners, and a failed recharge leaves the store exactly as it was |
| Ledger.TransferStep | src/main/java/com/petke/budgeting/service/RegistryService.java:52-72 | a transfer keeps the registries, their order, ids, labels and owners, and a failed transfer leaves the store exactly as it was |
| Ledger.RechargeNotFound | src/main/java/com/petke/budgeting/service/RegistryService.java:42-46 | a recharge fails exactly when the user owns no registry with that id, and then it reports that registry and user and changes nothing |
| Ledger.RechargeAddsFunds | src/main/java/com/petke/budgeting/service/RegistryService.java:48 | a recharge that finds a registry succeeds, adds the amount to that balance and to the total, and changes no other registry and no id, label or owner |
| Ledger.RechargeKeepsInvariants | src/main/java/com/petke/budgeting/service/RegistryService.java:41-49 | a recharge keeps the registries and their order, changes nothing when it fails, keeps the store keyed by id, and with a non-negative amount keeps every balance non-negative |
| Ledger.TransferLookupPriority | src/main/java/com/petke/budgeting/service/RegistryService.java:53-63 | a missing source is reported exactly when the source is missing, whatever the target and the amount; a missing target is reported exactly when the source is found and the target is not; each failure changes nothing |
| Ledger.TransferNeedsFunds | src/main/java/com/petke/budgeting/service/RegistryService.java:65-68 | once both registries are found, the transfer fails exactly when the source holds strictly less than the amount (an equal amount passes); the failure carries the balance and the amount and changes nothing |
| Ledger.TransferMissingAmount | src/main/java/com/petke/budgeting/service/RegistryService.java:65 | once both registries are found, a transfer without an amount fails at the funds check and leaves the store as it was |
| Ledger.TransferMovesFunds | src/main/java/com/petke/budgeting/service/RegistryService.java:70-71 | a transfer between distinct found registries with enough funds succeeds; it debits the source and credits the target by the amount, so their sum is kept, and no other registry and no id, label or owner changes |
| Ledger.TransferToSelf | src/main/java/com/petke/budgeting/service/RegistryService.java:53-71 | a self-transfer that passes the funds check succeeds and leaves the store exactly as it was |
| Ledger.TransferConservesTotal | src/main/java/com/petke/budgeting/service/RegistryService.java:53-71 | every transfer, successful or not, with or without an amount, keeps the total of all balances |
| Ledger.DebitCreditKeepsInvariants | src/main/java/com/petke/budgeting/service/RegistryService.java:70-71 | debiting then crediting keeps the registries and their keying by id; it keeps balances non-negative when the source holds at least a non-negative amount |
| Ledger.TransferKeepsInvariants | src/main/java/com/petke/budgeting/service/RegistryService.java:52-72 | a transfer keeps the registries and their order, changes nothing when it fails, keeps the store keyed by id, and, unless its amount is negative, keeps every balance non-negative |
| Service.RegistryService.FindByUserId | src/main/java/com/petke/budgeting/service/RegistryService.java:26-38 | the listing fails exactly when the store holds no registry of the user, with the no-registries error for that user; otherwise it holds one response per registry of the user, in store order, and none of another user's (the mapping itself is the helper `Responses.ResponsesOf`) |
| Service.RegistryService.Recharge | src/main/java/com/petke/budgeting/service/RegistryService.java:40-49 | the in-place recharge returns the outcome and leaves the store contents that the recharge protocol prescribes, and keeps the store valid |
| Service.RegistryService.Transfer | src/main/java/com/petke/budgeting/service/RegistryService.java:51-72 | the in-place transfer, with or without an amount in the request, returns the outcome and leaves the store contents that the transfer protocol prescribes, and keeps the store valid |
| Service.RegistryService.MoveFunds | src/main/java/com/petke/budgeting/service/RegistryService.java:70-71 | the two in-place setter calls leave the store with the source debited and then the target credited |
| Controller.RegistryController.Recharge | src/main/java/com/petke/budgeting/controller/RegistryController.java:29-35 | an invalid recharge body is refused with its violations and the store unchanged; a valid one gives exactly the service's recharge |
| Controller.RegistryController.Transfer | src/main/java/com/petke/budgeting/controller/RegistryController.java:37-43 | an invalid transfer body is refused with its violations and the store unchanged; a valid one gives exactly the service's transfer |
| Scenarios.SaveAndRecharge | src/test/java/com/petke/budgeting/BudgetingApplicationTests.java:99-117 | saving a wallet of 1000 and recharging it in place by 2500 succeeds and leaves it with balance 3500 and its id, label and owner |
| Acceptance.Store | src/test/java/com/petke/budgeting/BudgetingApplicationTests.java:261-269 | the acceptance test's four registries of user "1" form a store keyed by id |
| Acceptance.RechargeWallet | src/test/java/com/petke/budgeting/BudgetingApplicationTests.java:272-278 | recharging the wallet by 2500 succeeds and brings it from 1000 to 3500 |
| Acceptance.WalletToFood | src/test/java/com/petke/budgeting/BudgetingApplicationTests.java:280-287 | moving 1500 from wallet to food expenses succeeds and leaves 2000 and 1500 |
| Acceptance.SavingsToInsurance | src/test/java/com/petke/budgeting/BudgetingApplicationTests.java:289-296 | moving 500 from savings to the insurance policy succeeds and leaves 4500 and 500 |
| Acceptance.WalletToSavings | src/test/java/com/petke/budgeting/BudgetingApplicationTests.java:298-305 | moving 1000 from wallet to savings succeeds and leaves 1000 and 5500 |
| Acceptance.AcceptanceTest | src/test/java/com/petke/budgeting/BudgetingApplicationTests.java:258-323 | the whole scenario succeeds step by step and ends with balances 1000, 5500, 500 and 1500; the total has grown by the recharge alone; the user's final listing is the one the test expects |
| Acceptance.ListingAfterScenario | src/test/java/com/petke/budgeting/BudgetingApplicationTests.java:307-322 | listing user "1" after the scenario gives the four registries in save order, with their ids, labels and final balances |
| Findings.TransferStepAsWritten | src/main/java/com/petke/budgeting/service/RegistryService.java:52-72 | the transfer with the float funds check, as written, keeps the registries, their ids, labels and owners, and leaves the store unchanged when it fails |
| Findings.FloatValue | src/main/java/com/petke/budgeting/service/RegistryService.java:65 | the float conversion is exact for every amount of magnitude below 2^24 |
| Findings.AsWrittenAgreesBelowFloatPrecision | src/main/java/com/petke/budgeting/service/RegistryService.java:65-68 | while all balances and the amount are below 2^24 in magnitude, the float funds check decides every transfer as the exact check does |
| Findings.FloatCheckOverdraws | src/main/java/com/petke/budgeting/service/RegistryService.java:65-71 | with a balance of 2^24, the float check lets a transfer of 2^24 + 1 through and the source ends at -1; the exact check refuses the same transfer with both numbers |

## Left out

- HTTP layer: routes, response entities, the status-code mapping and the JSON error body are not modelled. The listing endpoint's `ImmutableList` copy returns the same elements, so the model uses the service's list as is.
- Transactions, dirty checking and persistence: a failed operation changes nothing in the model, which is what the transaction's rollback gives. Concurrency and isolation between requests are not modelled.
- Id generation: the store's UUID generator is replaced by a `freshId` argument to `Save`, required to be non-blank and not yet stored.
- Repository.RegistryRepository.Save: models only saving a registry that has not been saved yet; saving an already stored entity again (an update) is not modelled, because the service never does it.
- Model.NotBlank: treats only space, tab, newline and carriage return as whitespace; the tests' non-blank check on a saved id also counts other Unicode whitespace.
- Ledger.TransferStep: compares the exact amounts, as the rest of the model does; the float comparison the code writes is modelled in `Findings.TransferStepAsWritten`.
- Findings.FloatValue: rounds to 24 significant bits without a largest exponent, so magnitudes beyond the float range, which the code would turn into infinity, round to finite values.
- Responses.ResponseOf: copies the exact balance into the response, whose amount the code declares as `float`; the rounding of balances beyond 2^24 in the listing is not modelled.
- Decimals: amounts are integers. Fractional amounts and the two-digit scale of the stored decimals are not modelled.
- Message formatting: the insufficient-funds error carries the two numbers, not their decimal formatting ("1000.00"). The not-found messages are built by `Errors.NotFoundMessage`. The empty-listing text and the three lookup texts are checked against the tests.
- Service.RegistryService.Transfer: requires the target id to be present. Validation refuses a body without one before the service is reached, so the controller never calls it otherwise; called directly with a null target, the code would look up a registry with a null id, which the model does not do.
- Transfer without an amount: validation lets it through. The lookups still run first and report a missing source or target. When both are found, the funds check dereferences the null amount and throws a null-pointer exception; the model returns the error `NullAmount` instead, with the store unchanged, as the transaction's rollback gives.
- Recharge body parsing: the recharge amount is a Java `int` (modelled as `int32`); a body without an amount reads as 0, and JSON parsing is not modelled.
- The documented contract describes the transfer target as a non-empty id; the code only requires it to be non-null, and the model follows the code.

## Findings

| source | as written | input that shows it | evidently intended | confidence | as-written member | corrected member |
|---|---|---|---|---|---|---|
| src/main/java/com/petke/budgeting/service/RegistryService.java:65 | the funds check compares the two amounts after converting each to `float` | a source balance of 16777216 (2^24) and a transfer of 16777217: both round to the float 16777216, the check passes and the source ends at -1 | refuse a transfer whenever the exact balance is below the exact amount, so no balance turns negative | high, not executed | Findings.FloatCheckOverdraws | Ledger.TransferKeepsInvariants |
