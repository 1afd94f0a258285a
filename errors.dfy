/**
 * The failures the ledger reports to its caller. Each variant stands for one of the exceptions the
 * service and the validation layer throw; the HTTP status mapping and the JSON error body are not
 * part of this model.
 */
module Errors {

  /** Which lookup failed: the single one of a recharge, or the source or target of a transfer. */
  datatype Role = Plain | Source | Target

  datatype Error =
      /** A user owns no registry at all (RegistryNotFoundException from the listing). */
    | NoRegistriesForUser(userId: string)
      /** No registry has this id for this user (RegistryNotFoundException from a lookup). */
    | RegistryNotFound(role: Role, registryId: string, userId: string)
      /** The source holds less than the transfer asks for (InvalidRequestException). */
    | NotEnoughFunds(available: int, requested: int)
      /**
       * The funds check read a transfer amount that was null (the NullPointerException of a body
       * without an amount, which validation lets through).
       */
    | NullAmount
      /** The request body broke one or more validation rules (MethodArgumentNotValidException). */
    | InvalidArguments(messages: set<string>)

  /** The outcome of an operation that returns nothing on success. */
  datatype Outcome = Ok | Err(error: Error)

  /** The outcome of an operation that returns a value on success. */
  datatype Result<+T> = Success(value: T) | Failure(error: Error)

  /** How the message of a failed lookup names the registry that was looked up. */
  function LookupPrefix(role: Role): string {
    match role
    case Plain => "Registry '"
    case Source => "Source registry '"
    case Target => "Target registry '"
  }

  /** The message text of the two not-found exceptions. */
  function NotFoundMessage(e: Error): (m: string)
    requires e.NoRegistriesForUser? || e.RegistryNotFound?
  {
    match e
    case NoRegistriesForUser(userId) =>
      "No registries found for userId: '" + userId + "'"
    case RegistryNotFound(role, registryId, userId) =>
      LookupPrefix(role) + registryId + "' not found for user: '" + userId + "'"
  }

  /** The message of a failed recharge lookup, instantiated as the application's tests do. */
  lemma RechargeLookupMessageAsTested()
    ensures NotFoundMessage(RegistryNotFound(Plain, "not_existing_registry_id", "1"))
         == "Registry 'not_existing_registry_id' not found for user: '1'"
  {
    assert "Registry '" + "not_existing_registry_id" == "Registry 'not_existing_registry_id";
    assert "Registry 'not_existing_registry_id" + "' not found for user: '" == "Registry 'not_existing_registry_id' not found for user: '";
    assert "Registry 'not_existing_registry_id' not found for user: '" + "1" + "'" == "Registry 'not_existing_registry_id' not found for user: '1'";
  }

  /** The message of a failed transfer's source lookup, instantiated as the application's tests do. */
  lemma SourceLookupMessageAsTested()
    ensures NotFoundMessage(RegistryNotFound(Source, "not_existing_registry_id", "1"))
         == "Source registry 'not_existing_registry_id' not found for user: '1'"
  {
    assert "Source registry '" + "not_existing_registry_id" == "Source registry 'not_existing_registry_id";
    assert "Source registry 'not_existing_registry_id" + "' not found for user: '" == "Source registry 'not_existing_registry_id' not found for user: '";
    assert "Source registry 'not_existing_registry_id' not found for user: '" + "1" + "'" == "Source registry 'not_existing_registry_id' not found for user: '1'";
  }

  /** The message of a failed transfer's target lookup, instantiated as the application's tests do. */
  lemma TargetLookupMessageAsTested()
    ensures NotFoundMessage(RegistryNotFound(Target, "not_existing_registry_id", "1"))
         == "Target registry 'not_existing_registry_id' not found for user: '1'"
  {
    assert "Target registry '" + "not_existing_registry_id" == "Target registry 'not_existing_registry_id";
    assert "Target registry 'not_existing_registry_id" + "' not found for user: '" == "Target registry 'not_existing_registry_id' not found for user: '";
    assert "Target registry 'not_existing_registry_id' not found for user: '" + "1" + "'" == "Target registry 'not_existing_registry_id' not found for user: '1'";
  }

  /** The message of an empty listing, instantiated as the application's tests do. */
  lemma ListingMessageAsTested()
    ensures NotFoundMessage(NoRegistriesForUser("2")) == "No registries found for userId: '2'"
  {
  }
}
