/**
 * The coordinator's taxi table and the service over it: assigning the first
 * available taxi, listing the available ones, releasing a taxi, looking one
 * up by its identifier and applying a position report.
 *
 * The table is a sequence of rows in the order the repository lists them;
 * only the primary key is unique, the identifier column carries no
 * constraint.
 */
module CentralTaxiService {
  import opened Java
  import opened Entities

  predicate UniqueIds(rows: seq<Taxi>) {
    forall i, j | 0 <= i < j < |rows| :: rows[i].id != rows[j].id
  }

  predicate UniqueIdentifiers(rows: seq<Taxi>) {
    forall i, j | 0 <= i < j < |rows| :: rows[i].identifier != rows[j].identifier
  }

  predicate IsAvailable(t: Taxi) {
    t.available
  }

  /**
   * The repository's `save`: the row with the same primary key is replaced,
   * or the taxi is appended when no row has its key.
   */
  function Saved(rows: seq<Taxi>, t: Taxi): (r: seq<Taxi>)
    ensures UniqueIds(rows) ==> UniqueIds(r)
    ensures t in r
    ensures forall i | 0 <= i < |rows| && rows[i].id != t.id :: rows[i] in r
  {
    var k := FirstIndex(rows, (row: Taxi) => row.id == t.id);
    if k < 0 then rows + [t]
    else
      var r := seq(|rows|, i requires 0 <= i < |rows| => if rows[i].id == t.id then t else rows[i]);
      assert r[k] == t;
      assert forall i | 0 <= i < |rows| && rows[i].id != t.id :: r[i] == rows[i];
      r
  }

  /** Saving a row read from the table overwrites exactly that row. */
  lemma SavedAt(rows: seq<Taxi>, k: int, t: Taxi)
    requires UniqueIds(rows) && 0 <= k < |rows| && rows[k].id == t.id
    ensures Saved(rows, t) == rows[k := t]
  {
  }

  /** The rows whose identifier is `identifier`, in table order. */
  function WithIdentifier(rows: seq<Taxi>, identifier: JString): seq<Taxi> {
    Filter(rows, (t: Taxi) => t.identifier == identifier)
  }

  /**
   * The derived single-result query `findByIdentifier` (and `findTaxiByIdentifier`,
   * which answers null instead of empty): no row, one row, or an
   * IncorrectResultSize error when several rows match.
   */
  function FindByIdentifier(rows: seq<Taxi>, identifier: JString): (r: Result<Option<Taxi>>)
    ensures r == Ok(None) <==> forall i | 0 <= i < |rows| :: rows[i].identifier != identifier
    ensures r.Ok? && r.value.Some? ==>
      r.value.value in rows && r.value.value.identifier == identifier &&
      forall i | 0 <= i < |rows| && rows[i].identifier == identifier :: rows[i] == r.value.value
    ensures r.Throw? ==> r.error == IncorrectResultSize
  {
    FindOne(rows, (t: Taxi) => t.identifier == identifier)
  }

  /**
   * Once the query finds a row, it finds that row's replacement as well, as
   * long as the identifier is kept.
   */
  lemma FindByIdentifierReplace(rows: seq<Taxi>, identifier: JString, k: int, t: Taxi)
    requires 0 <= k < |rows| && rows[k].identifier == identifier && t.identifier == identifier
    requires FindByIdentifier(rows, identifier).Ok?
    ensures FindByIdentifier(rows[k := t], identifier) == Ok(Some(t))
  {
    FindOneReplace(rows, (t: Taxi) => t.identifier == identifier, k, t);
  }

  /** Saving a row twice under the same key keeps the second version only. */
  lemma SavedTwice(rows: seq<Taxi>, k: int, t: Taxi, u: Taxi)
    requires UniqueIds(rows) && 0 <= k < |rows| && rows[k].id == t.id == u.id
    ensures Saved(Saved(rows, t), u) == Saved(rows, u) == rows[k := u]
  {
    SavedAt(rows, k, t);
    SavedAt(rows[k := t], k, u);
    SavedAt(rows, k, u);
  }

  /** When identifiers are unique the single-result query never fails. */
  lemma {:induction false} FindByUniqueIdentifier(rows: seq<Taxi>, identifier: JString)
    requires UniqueIdentifiers(rows)
    ensures FindByIdentifier(rows, identifier).Ok?
  {
    MatchingAtMostOne(rows, identifier);
  }

  lemma {:induction false} MatchingAtMostOne(rows: seq<Taxi>, identifier: JString)
    requires UniqueIdentifiers(rows)
    ensures |WithIdentifier(rows, identifier)| <= 1
  {
    if |rows| > 0 {
      MatchingAtMostOne(rows[1..], identifier);
      if rows[0].identifier == identifier {
        assert forall i | 0 <= i < |rows[1..]| :: rows[1..][i].identifier != identifier by {
          forall i | 0 <= i < |rows[1..]| ensures rows[1..][i].identifier != identifier {
            assert rows[1..][i] == rows[i + 1];
          }
        }
        FilterNone(rows[1..], (t: Taxi) => t.identifier == identifier);
      }
      assert WithIdentifier(rows, identifier) ==
        (if rows[0].identifier == identifier then [rows[0]] else []) + WithIdentifier(rows[1..], identifier);
    }
  }

  class TaxiService {
    /** The taxi table, in the repository's `findAll` order. */
    var taxis: seq<Taxi>

    predicate Valid()
      reads this
    {
      UniqueIds(taxis)
    }

    constructor(taxis: seq<Taxi>)
      requires UniqueIds(taxis)
      ensures Valid() && this.taxis == taxis
    {
      this.taxis := taxis;
    }

    /**
     * `assignAvailableTaxi`: the first available taxi in table order is made
     * unavailable and moved to (x, y); when none is available nothing changes.
     */
    method AssignAvailableTaxi(x: int, y: int) returns (r: Option<Taxi>)
      requires Valid()
      modifies this
      ensures Valid()
      ensures r.None? <==> forall i | 0 <= i < |old(taxis)| :: !old(taxis)[i].available
      ensures r.None? ==> taxis == old(taxis)
      ensures r.Some? ==> exists k | 0 <= k < |old(taxis)| ::
        old(taxis)[k].available && (forall j | 0 <= j < k :: !old(taxis)[j].available) &&
        r.value == old(taxis)[k].(available := false, x := x, y := y) &&
        taxis == old(taxis)[k := r.value]
    {
      var k := FirstIndex(taxis, IsAvailable);
      if k < 0 {
        return None;
      }
      var taxi := taxis[k].(available := false, x := x, y := y);
      assert Saved(taxis, taxi) == taxis[k := taxi] by {
        SavedAt(taxis, k, taxi);
      }
      taxis := Saved(taxis, taxi);
      r := Some(taxi);
    }

    /** `findAllAvailableTaxis`: exactly the available taxis, in table order. */
    function FindAllAvailableTaxis(): (r: seq<Taxi>)
      reads this
      ensures forall i | 0 <= i < |r| :: r[i] in taxis && r[i].available
      ensures forall i | 0 <= i < |taxis| && taxis[i].available :: taxis[i] in r
    {
      Filter(taxis, IsAvailable)
    }

    /** `releaseTaxi`: the taxi's row is saved back with `available` set and no other field changed. */
    method ReleaseTaxi(taxi: Taxi)
      requires Valid()
      modifies this
      ensures Valid()
      ensures taxis == Saved(old(taxis), taxi.(available := true))
      ensures forall k | 0 <= k < |old(taxis)| && old(taxis)[k].id == taxi.id ::
        taxis == old(taxis)[k := taxi.(available := true)]
    {
      forall k | 0 <= k < |taxis| && taxis[k].id == taxi.id
        ensures Saved(taxis, taxi.(available := true)) == taxis[k := taxi.(available := true)]
      {
        SavedAt(taxis, k, taxi.(available := true));
      }
      taxis := Saved(taxis, taxi.(available := true));
    }

    /** `findTaxiByIdentifier`: the first taxi in table order with that identifier, if any. */
    function FindTaxiByIdentifier(identifier: JString): (r: Option<Taxi>)
      reads this
      ensures r.None? <==> forall i | 0 <= i < |taxis| :: taxis[i].identifier != identifier
      ensures r.Some? ==> exists k | 0 <= k < |taxis| ::
        taxis[k] == r.value && r.value.identifier == identifier &&
        forall j | 0 <= j < k :: taxis[j].identifier != identifier
    {
      var k := FirstIndex(taxis, (t: Taxi) => t.identifier == identifier);
      if k < 0 then None else Some(taxis[k])
    }

    /**
     * `updateTaxiLocationByIdentifier`: the taxi with the report's identifier
     * takes the reported position and state; availability and destination
     * are kept. No such taxi is a NullPointerException, several are an
     * IncorrectResultSize error; the table is then unchanged.
     */
    method UpdateTaxiLocationByIdentifier(report: TaxiStatusDto) returns (r: Result<()>)
      requires Valid()
      modifies this
      ensures Valid()
      ensures r.Throw? ==> taxis == old(taxis)
      ensures FindByIdentifier(old(taxis), report.taxiId).Throw? ==> r == Throw(IncorrectResultSize)
      ensures FindByIdentifier(old(taxis), report.taxiId) == Ok(None) ==> r == Throw(NullPointer)
      ensures r.Ok? <==> FindByIdentifier(old(taxis), report.taxiId).Ok? && FindByIdentifier(old(taxis), report.taxiId).value.Some?
      ensures r.Ok? ==> exists k | 0 <= k < |old(taxis)| ::
        (old(taxis)[k].identifier == report.taxiId &&
         taxis == old(taxis)[k := old(taxis)[k].(x := report.x, y := report.y, state := report.status)])
    {
      var found := FindByIdentifier(taxis, report.taxiId);
      if found.Throw? {
        return Throw(found.error);
      }
      if found.value.None? {
        return Throw(NullPointer);
      }
      var taxi := found.value.value;
      var k :| 0 <= k < |taxis| && taxis[k] == taxi;
      var updated := taxi.(x := report.x, y := report.y, state := report.status);
      SavedAt(taxis, k, updated);
      taxis := Saved(taxis, updated);
      r := Ok(());
    }
  }
}
