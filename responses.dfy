/** What the listing exposes of a registry. */
module Responses {

  import opened Model

  /** The exposed fields: id, name and amount; the owner is not among them. */
  datatype RegistryResponse = RegistryResponse(id: string, name: string, amount: int)

  /** The projection of a registry onto its response. */
  function ResponseOf(registry: Row): (r: RegistryResponse)
  {
    RegistryResponse(registry.id, registry.name, registry.amount)
  }

  /** The projections of a sequence of registries, one per registry and in the same order. */
  function ResponsesOf(rows: seq<Row>): seq<RegistryResponse>
  {
    seq(|rows|, k requires 0 <= k < |rows| => ResponseOf(rows[k]))
  }

  /** The projection copies id, name and amount, and forgets the owner: only these three decide it. */
  lemma ResponseCopiesExposedFields(a: Row, b: Row)
    ensures ResponseOf(a).id == a.id && ResponseOf(a).name == a.name && ResponseOf(a).amount == a.amount
    ensures ResponseOf(a) == ResponseOf(b) <==> a.id == b.id && a.name == b.name && a.amount == b.amount
  {
  }
}
