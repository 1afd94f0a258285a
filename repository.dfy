/**
 * The registry store: saved registries keyed by id, kept in the order they were saved, with the
 * two derived queries the service uses (by owner, and by id and owner).
 */
module Repository {

  import opened Wrappers
  import opened Model

  /** No two stored registries share an id: the store is keyed by id. */
  predicate KeyedById(rows: seq<Row>) {
    forall i, j :: 0 <= i < j < |rows| ==> rows[i].id != rows[j].id
  }

  /** The store with the balance at position `k` replaced. */
  function WithAmount(rows: seq<Row>, k: nat, amount: int): (r: seq<Row>)
    requires k < |rows|
  {
    rows[k := rows[k].(amount := amount)]
  }

  /** The registries owned by `userId`, in store order. */
  function OwnedBy(rows: seq<Row>, userId: string): (owned: seq<Row>)
    ensures |owned| <= |rows|
    ensures forall x :: x in owned <==> x in rows && x.userId == userId
  {
    if rows == [] then []
    else
      var last := rows[|rows| - 1];
      var rest := OwnedBy(rows[..|rows| - 1], userId);
      assert rows == rows[..|rows| - 1] + [last];
      if last.userId == userId then rest + [last] else rest
  }

  /**
   * The store positions of the registries owned by `userId`: every such position exactly once,
   * in increasing order.
   */
  ghost function Positions(rows: seq<Row>, userId: string): (ps: seq<nat>)
    ensures forall k :: 0 <= k < |ps| ==> ps[k] < |rows| && rows[ps[k]].userId == userId
    ensures forall k, l :: 0 <= k < l < |ps| ==> ps[k] < ps[l]
    ensures forall i :: 0 <= i < |rows| && rows[i].userId == userId ==> i in ps
  {
    if rows == [] then []
    else
      var rest := Positions(rows[..|rows| - 1], userId);
      if rows[|rows| - 1].userId == userId then rest + [|rows| - 1] else rest
  }

  /** The listing by owner holds, in order, exactly the registries at the owner's positions. */
  lemma {:induction false} OwnedByAtPositions(rows: seq<Row>, userId: string)
    ensures |OwnedBy(rows, userId)| == |Positions(rows, userId)|
    ensures forall k :: 0 <= k < |Positions(rows, userId)| ==>
      OwnedBy(rows, userId)[k] == rows[Positions(rows, userId)[k]]
  {
    if rows != [] {
      var init, last := rows[..|rows| - 1], rows[|rows| - 1];
      OwnedByAtPositions(init, userId);
      var owned, ps := OwnedBy(init, userId), Positions(init, userId);
      if last.userId == userId {
        assert OwnedBy(rows, userId) == owned + [last];
        assert Positions(rows, userId) == ps + [|rows| - 1];
        forall k | 0 <= k < |ps| + 1
          ensures (owned + [last])[k] == rows[(ps + [|rows| - 1])[k]]
        {
          if k < |ps| {
            assert (owned + [last])[k] == owned[k] == init[ps[k]];
          }
        }
      } else {
        assert OwnedBy(rows, userId) == owned;
        assert Positions(rows, userId) == ps;
        forall k | 0 <= k < |ps|
          ensures owned[k] == rows[ps[k]]
        {
          assert owned[k] == init[ps[k]];
        }
      }
    }
  }

  /** A user has no positions in the store exactly when the store holds no registry of theirs. */
  lemma PositionsEmpty(rows: seq<Row>, userId: string)
    ensures Positions(rows, userId) == [] <==> forall i :: 0 <= i < |rows| ==> rows[i].userId != userId
  {
    var ps := Positions(rows, userId);
    if ps != [] {
      assert rows[ps[0]].userId == userId;
    }
  }

  /** The first position holding registry `id` of owner `userId`, if any. */
  function IndexOf(rows: seq<Row>, id: string, userId: string): (k: Option<nat>)
    ensures k.Some? ==> k.value < |rows| && rows[k.value].id == id && rows[k.value].userId == userId
    ensures k.None? <==> forall i :: 0 <= i < |rows| ==> !(rows[i].id == id && rows[i].userId == userId)
  {
    if rows == [] then None
    else if rows[0].id == id && rows[0].userId == userId then Some(0)
    else
      match IndexOf(rows[1..], id, userId)
      case None => None
      case Some(j) => Some(j + 1)
  }

  /**
   * In a store keyed by id, the lookup finds the registry with that id exactly when it belongs to
   * the asking user: a registry of another user is not returned.
   */
  lemma IndexOfInKeyedStore(rows: seq<Row>, i: nat, userId: string)
    requires KeyedById(rows) && i < |rows|
    ensures IndexOf(rows, rows[i].id, userId) == if rows[i].userId == userId then Some(i) else None
  {
  }

  /** The store itself: saved registry entities in save order. */
  class RegistryRepository {
    var entities: seq<Registry>

    /** Every stored registry has a non-blank id, and no two share one. */
    ghost predicate Valid()
      reads this, entities
    {
      && (forall i :: 0 <= i < |entities| ==> entities[i].id.Some? && NotBlank(entities[i].id.value))
      && (forall i, j :: 0 <= i < j < |entities| ==> entities[i].id != entities[j].id)
    }

    /** An empty store. */
    constructor ()
      ensures Valid() && entities == []
    {
      entities := [];
    }

    /** The stored registries as values, in save order. */
    function Contents(): (rows: seq<Row>)
      reads this, entities
      requires Valid()
      ensures |rows| == |entities|
    {
      seq(|entities|, i requires 0 <= i < |entities| && entities[i].id.Some? reads this, entities =>
        entities[i].View())
    }

    /** The contents of a valid store are keyed by id. */
    lemma ContentsKeyedById()
      requires Valid()
      ensures KeyedById(Contents())
    {
      var rows := Contents();
      forall i, j | 0 <= i < j < |rows| ensures rows[i].id != rows[j].id {
        assert rows[i] == entities[i].View() && rows[j] == entities[j].View();
      }
    }

    /** The registries of `userId`: exactly the owner's, in save order (possibly none). */
    function FindByUserId(userId: string): (rows: seq<Row>)
      reads this, entities
      requires Valid()
      ensures |rows| == |Positions(Contents(), userId)|
      ensures forall k :: 0 <= k < |rows| ==> rows[k] == Contents()[Positions(Contents(), userId)[k]]
    {
      OwnedByAtPositions(Contents(), userId);
      OwnedBy(Contents(), userId)
    }

    /** The registry with this id if it belongs to `userId`, and null otherwise. */
    function FindByIdAndUserId(id: string, userId: string): (r: Registry?)
      reads this, entities
      requires Valid()
      ensures r == null <==> IndexOf(Contents(), id, userId).None?
      ensures r != null ==> r == entities[IndexOf(Contents(), id, userId).value]
      ensures r != null ==> r.id == Some(id) && r.userId == userId
    {
      match IndexOf(Contents(), id, userId)
      case None => null
      case Some(k) => entities[k]
    }

    /**
     * Saves a new registry: the store gives it the fresh identifier `freshId` and appends it.
     */
    method Save(registry: Registry, freshId: string) returns (saved: Registry)
      requires Valid()
      requires registry.id == None
      requires NotBlank(freshId)
      requires forall i :: 0 <= i < |entities| ==> entities[i].id != Some(freshId)
      modifies this, registry
      ensures Valid()
      ensures saved == registry && registry.id == Some(freshId)
      ensures registry.name == old(registry.name) && registry.userId == old(registry.userId)
      ensures registry.amount == old(registry.amount)
      ensures entities == old(entities) + [registry]
      ensures Contents() == old(Contents()) + [Row(freshId, registry.name, registry.userId, registry.amount)]
    {
      registry.id := Some(freshId);
      entities := entities + [registry];
      saved := registry;
      assert Contents() == old(Contents()) + [Row(freshId, registry.name, registry.userId, registry.amount)];
    }

    /**
     * When only the balance of the registry at position `k` has changed since the old state, the
     * store is still valid and its contents differ from the old ones in that balance alone.
     */
    twostate lemma AmountChanged(k: nat)
      requires old(Valid()) && unchanged(this) && k < |entities|
      requires forall i :: 0 <= i < |entities| && i != k ==> unchanged(entities[i])
      requires entities[k].id == old(entities[k].id)
      requires entities[k].name == old(entities[k].name) && entities[k].userId == old(entities[k].userId)
      ensures Valid()
      ensures Contents() == WithAmount(old(Contents()), k, entities[k].amount)
    {
      assert Valid();
      var now, was := Contents(), old(Contents());
      forall i | 0 <= i < |now|
        ensures now[i] == WithAmount(was, k, entities[k].amount)[i]
      {
        if i != k {
          assert now[i] == entities[i].View() == old(entities[i].View());
        }
      }
    }

    /** Removes every registry from the store. */
    method DeleteAll()
      modifies this
      ensures Valid() && entities == [] && Contents() == []
    {
      entities := [];
    }
  }
}
