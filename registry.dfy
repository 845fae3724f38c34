/**
 * The registry service: taxis are registered and unregistered by their
 * identifier; a registered taxi starts available, at (1, 1), idle and with
 * no destination.
 */
module Registry {
  import opened Java
  import opened Entities

  const AlreadyRegistered: JString := Lit("Taxi ya registrado")
  const NotFound: JString := Lit("Taxi no encontrado")

  /** The row `registerTaxi` saves for a new identifier, with the key the database generates. */
  function NewTaxi(id: nat, identifier: JString): Taxi {
    Taxi(id, identifier, true, 1, 1, None, Idle)
  }

  class TaxiService {
    /** The registry's table, keyed by identifier. */
    var taxis: map<JString, Taxi>
    /** The next primary key the database generates. */
    var nextId: nat

    predicate Valid()
      reads this
    {
      forall identifier | identifier in taxis :: taxis[identifier].identifier == identifier && taxis[identifier].id < nextId
    }

    constructor()
      ensures Valid() && taxis == map[] && nextId == 0
    {
      taxis := map[];
      nextId := 0;
    }

    /** `getTaxi`: the taxi registered under `identifier`, if any. */
    function GetTaxi(identifier: JString): (r: Option<Taxi>)
      requires Valid()
      reads this
      ensures r.Some? <==> identifier in taxis
      ensures r.Some? ==> r.value.identifier == identifier
    {
      if identifier in taxis then Some(taxis[identifier]) else None
    }

    /**
     * `registerTaxi`: an identifier already present is refused with an
     * IllegalArgumentException and nothing changes; otherwise a new taxi is
     * saved and returned.
     */
    method RegisterTaxi(identifier: JString) returns (r: Result<Taxi>)
      requires Valid()
      modifies this
      ensures Valid()
      ensures identifier in old(taxis) ==>
        r == Throw(IllegalArgument(AlreadyRegistered)) && taxis == old(taxis) && nextId == old(nextId)
      ensures identifier !in old(taxis) ==>
        r == Ok(NewTaxi(old(nextId), identifier)) && taxis == old(taxis)[identifier := r.value] && nextId == old(nextId) + 1
      ensures r.Ok? ==> GetTaxi(identifier) == Some(r.value)
      ensures r.Ok? ==>
        r.value.available && r.value.x == 1 && r.value.y == 1 && r.value.destIdentifier.None? && r.value.state == Idle
    {
      if GetTaxi(identifier).Some? {
        return Throw(IllegalArgument(AlreadyRegistered));
      }
      var taxi := NewTaxi(nextId, identifier);
      nextId := nextId + 1;
      taxis := taxis[identifier := taxi];
      r := Ok(taxi);
    }

    /**
     * `unregisterTaxi`: an unknown identifier is refused with an
     * IllegalArgumentException; otherwise exactly that taxi is deleted.
     */
    method UnregisterTaxi(identifier: JString) returns (r: Result<()>)
      requires Valid()
      modifies this
      ensures Valid()
      ensures nextId == old(nextId)
      ensures identifier !in old(taxis) ==> r == Throw(IllegalArgument(NotFound)) && taxis == old(taxis)
      ensures identifier in old(taxis) ==> r == Ok(()) && taxis == old(taxis) - {identifier}
      ensures r.Ok? ==> GetTaxi(identifier).None?
      ensures forall other | other != identifier :: GetTaxi(other) == old(GetTaxi(other))
    {
      var found := GetTaxi(identifier);
      if found.None? {
        return Throw(IllegalArgument(NotFound));
      }
      taxis := taxis - {identifier};
      r := Ok(());
    }
  }
}
