/**
 * The coordinator's dispatch service: customers' ride requests, the
 * assignment of a connected taxi, the taxis' status reports and the city
 * snapshot.
 *
 * The repositories are sequences of rows in `findAll` order, and every
 * message sent on the bus is appended to an outbox.
 */
module Dispatch {
  import opened Java
  import opened Entities
  import opened CityGrid
  import opened CitySnapshot
  import CentralTaxiService
  import LocationService
  import MessageHandler
  import ClientHandler

  const Hash: JChar := MessageHandler.Hash
  const Space: JChar := 0x20

  /** "taxi-requests-", the prefix of every customer's topic. */
  const RequestsTopic: JString := Lit("taxi-requests-")
  const TaxiAssigned: JString := Lit("OK: Taxi asignado")
  const NoTaxiAvailable: JString := Lit("KO: Taxis no disponible")
  const End: JString := Lit("END")
  const ArrivedAtDestination: JString := Lit("has arrived at destination")
  const CustomerNotFound: JString := Lit("Customer not found")
  /** What string concatenation writes for a null reference. */
  const Null: JString := Lit("null")

  /** A message on the bus: plain text, or a ride directive in its JSON form. */
  datatype Message = Text(text: JString) | Directive(status: CustomerStatusDto)

  datatype Sent = Sent(topic: JString, message: Message)

  // ---------------------------------------------------------------------
  // Parsing the text messages

  /**
   * The `clientId#destination` request a customer sends; splitting it on
   * '#' must give at least two pieces, or the access to the second one
   * throws.
   */
  function ParseServiceRequest(message: JString): (r: Result<(JString, JString)>)
    ensures r.Ok? <==> |Split(message, Hash)| >= 2
    ensures r.Ok? ==> r.value == (Split(message, Hash)[0], Split(message, Hash)[1])
    ensures r.Throw? ==> r.error == IndexOutOfBounds
  {
    var parts := Split(message, Hash);
    if |parts| < 2 then Throw(IndexOutOfBounds) else Ok((parts[0], parts[1]))
  }

  /** The request the customer application sends for a destination. */
  function ServiceRequest(clientId: JString, destination: JString): JString {
    clientId + [Hash] + destination
  }

  /**
   * A request built from a client identifier and a non-empty destination,
   * neither holding '#', is parsed back into exactly those two.
   */
  lemma ServiceRequestRoundTrip(clientId: JString, destination: JString)
    requires Hash !in clientId && Hash !in destination && destination != []
    ensures ParseServiceRequest(ServiceRequest(clientId, destination)) == Ok((clientId, destination))
  {
    assert ServiceRequest(clientId, destination) == Join(clientId, [destination], Hash);
    JavaSplitJoin(clientId, [destination], Hash);
  }

  /** `extractTaxiIdentifier`: the second space-separated word; a message with fewer words throws. */
  function ExtractTaxiIdentifier(message: JString): (r: Result<JString>)
    ensures r.Ok? <==> |Split(message, Space)| >= 2
    ensures r.Ok? ==> r.value == Split(message, Space)[1] && Space !in r.value
    ensures r.Throw? ==> r.error == IndexOutOfBounds
  {
    var words := Split(message, Space);
    if |words| < 2 then Throw(IndexOutOfBounds)
    else
      assert Space !in words[1] by { LocationService.SplitFree(message, Space); }
      Ok(words[1])
  }

  /**
   * In a message `word identifier more...` whose first word and identifier
   * hold no space, the identifier is the one extracted, whatever follows.
   */
  lemma ExtractsSecondWord(first: JString, identifier: JString, rest: JString)
    requires Space !in first && Space !in identifier && identifier != []
    ensures ExtractTaxiIdentifier(first + [Space] + identifier + [Space] + rest) == Ok(identifier)
  {
    var message := first + [Space] + identifier + [Space] + rest;
    FirstTwoWords(first, identifier, rest);
    SplitKeepsSecond(message, Space);
  }

  /**
   * An arrival message always names a taxi: "has arrived at destination"
   * holds a space followed by a non-space character, so splitting on spaces
   * leaves a non-empty piece after the first one, and the trailing empty
   * pieces dropped by `split` all come after it.
   */
  lemma ArrivalNamesTaxi(message: JString)
    requires Contains(message, ArrivedAtDestination)
    ensures |Split(message, Space)| >= 2
    ensures ExtractTaxiIdentifier(message).Ok?
  {
    var i :| 0 <= i <= |message| - |ArrivedAtDestination| && OccursAt(message, ArrivedAtDestination, i);
    var a, b := ArrivalAround(message, i);
    SplitAllAround(a, b, Space);
    HeadPieceNonEmpty(b, Space);
    var n := |SplitAll(a, Space)|;
    assert SplitAll(message, Space)[n] == SplitAll(b, Space)[0];
    NonEmptyPieceKept(SplitAll(message, Space), n);
  }

  /** The space after "has" cuts the message into two sides, the second starting with 'a'. */
  lemma ArrivalAround(message: JString, i: int) returns (a: JString, b: JString)
    requires 0 <= i <= |message| - |ArrivedAtDestination| && OccursAt(message, ArrivedAtDestination, i)
    ensures message == a + [Space] + b && |b| > 0 && b[0] != Space
  {
    ArrivalLetters();
    assert message[i..i + |ArrivedAtDestination|][3] == message[i + 3];
    assert message[i..i + |ArrivedAtDestination|][4] == message[i + 4];
    a := message[..i + 3];
    b := message[i + 4..];
    assert message == a + [Space] + b;
  }

  lemma ArrivalLetters()
    ensures |ArrivedAtDestination| == 26 && ArrivedAtDestination[3] == Space && ArrivedAtDestination[4] == 0x61
  {
    var s := "has arrived at destination";
    assert s[3] == ' ' && s[4] == 'a';
    assert ArrivedAtDestination[3] == ((s[3] as int) % 0x1_0000) as bv16;
    assert ArrivedAtDestination[4] == ((s[4] as int) % 0x1_0000) as bv16;
  }

  /** A string that does not start with the separator has a non-empty first piece. */
  lemma HeadPieceNonEmpty(s: JString, c: JChar)
    requires |s| > 0 && s[0] != c
    ensures SplitAll(s, c)[0] != []
  {
  }

  /** A non-empty piece past the first keeps at least two pieces after the trailing empty ones are dropped. */
  lemma NonEmptyPieceKept(parts: seq<JString>, n: int)
    requires 1 <= n < |parts| && parts[n] != []
    ensures |DropTrailingEmpty(parts)| >= 2
  {
  }

  lemma FirstTwoWords(first: JString, identifier: JString, rest: JString)
    requires Space !in first && Space !in identifier
    ensures var message := first + [Space] + identifier + [Space] + rest;
      Space in message && |SplitAll(message, Space)| >= 2 &&
      SplitAll(message, Space)[0] == first && SplitAll(message, Space)[1] == identifier
  {
    var tail := identifier + [Space] + rest;
    var message := first + [Space] + identifier + [Space] + rest;
    assert message == first + [Space] + tail;
    assert message[|first|] == Space;
    SplitAllAround(first, tail, Space);
    SplitAllAround(identifier, rest, Space);
    SplitAllNone(first, Space);
    SplitAllNone(identifier, Space);
  }

  // ---------------------------------------------------------------------
  // Queries over the repositories

  predicate UniqueCustomerIds(rows: seq<Customer>) {
    forall i, j | 0 <= i < j < |rows| :: rows[i].id != rows[j].id
  }

  /** The customer repository's `save`: the row with the same primary key is replaced, or the customer appended. */
  function SavedCustomer(rows: seq<Customer>, c: Customer): (r: seq<Customer>)
    ensures UniqueCustomerIds(rows) ==> UniqueCustomerIds(r)
    ensures c in r
  {
    var k := FirstIndex(rows, (row: Customer) => row.id == c.id);
    if k < 0 then rows + [c]
    else
      var r := seq(|rows|, i requires 0 <= i < |rows| => if rows[i].id == c.id then c else rows[i]);
      assert r[k] == c;
      r
  }

  /** Saving a customer read from the table overwrites exactly that row. */
  lemma SavedCustomerAt(rows: seq<Customer>, k: int, c: Customer)
    requires UniqueCustomerIds(rows) && 0 <= k < |rows| && rows[k].id == c.id
    ensures SavedCustomer(rows, c) == rows[k := c]
  {
  }

  /** `getCustomerByIdentifier`'s single-result query. */
  function FindCustomer(rows: seq<Customer>, identifier: JString): (r: Result<Option<Customer>>)
    ensures r == Ok(None) <==> forall i | 0 <= i < |rows| :: rows[i].identifier != identifier
    ensures r.Ok? && r.value.Some? ==>
      r.value.value in rows && r.value.value.identifier == identifier &&
      forall i | 0 <= i < |rows| && rows[i].identifier == identifier :: rows[i] == r.value.value
    ensures r.Throw? ==> r.error == IncorrectResultSize
  {
    FindOne(rows, (c: Customer) => c.identifier == identifier)
  }

  /** The position `findById` finds for a customer's primary key, or -1. */
  function CustomerIndex(rows: seq<Customer>, id: nat): int {
    FirstIndex(rows, (c: Customer) => c.id == id)
  }

  /** The assignment repository's `findByIdTaxiId` single-result query. */
  function FindAssignment(rows: seq<Assignment>, taxiId: nat): (r: Result<Option<Assignment>>)
    ensures r == Ok(None) <==> forall i | 0 <= i < |rows| :: rows[i].taxiId != taxiId
    ensures r.Ok? && r.value.Some? ==>
      r.value.value in rows && r.value.value.taxiId == taxiId &&
      forall i | 0 <= i < |rows| && rows[i].taxiId == taxiId :: rows[i] == r.value.value
    ensures r.Throw? ==> r.error == IncorrectResultSize
  {
    FindOne(rows, (a: Assignment) => a.taxiId == taxiId)
  }

  /** The assignment repository's `save`: the whole row is the key, so an existing row stays as it is. */
  function SavedAssignment(rows: seq<Assignment>, a: Assignment): (r: seq<Assignment>)
    ensures a in r && forall i | 0 <= i < |rows| :: rows[i] in r
    ensures |rows| <= |r| <= |rows| + 1
  {
    if a in rows then rows else rows + [a]
  }

  /**
   * Assignments are never deleted: once a taxi has served a customer, its
   * assignment to a second customer leaves two rows for the taxi, and every
   * later lookup by the taxi fails with IncorrectResultSize.
   */
  lemma SecondRideUnresolvable(rows: seq<Assignment>, first: Assignment, second: Assignment)
    requires first in rows && first.taxiId == second.taxiId && first.customerId != second.customerId
    ensures FindAssignment(SavedAssignment(rows, second), second.taxiId) == Throw(IncorrectResultSize)
  {
    var saved := SavedAssignment(rows, second);
    var i :| 0 <= i < |saved| && saved[i] == first;
    var j :| 0 <= j < |saved| && saved[j] == second;
    FindOneSeveral(saved, (a: Assignment) => a.taxiId == second.taxiId, i, j);
  }

  // ---------------------------------------------------------------------
  // The assignment scan

  /**
   * A taxi whose identifier has a socket in the connection table, and that
   * socket's `isConnected()` answers true (as it does for every accepted
   * socket, closed or not).
   */
  predicate Eligible(connected: map<JString, ClientHandler.Socket>, t: Taxi) {
    t.identifier in connected && connected[t.identifier].connected
  }

  predicate Assignable(connected: map<JString, ClientHandler.Socket>, t: Taxi) {
    t.available && Eligible(connected, t)
  }

  /** The first eligible taxi in a list, or -1. */
  function FirstEligible(candidates: seq<Taxi>, connected: map<JString, ClientHandler.Socket>): int {
    FirstIndex(candidates, (t: Taxi) => Eligible(connected, t))
  }

  /** The first taxi in table order that is available and eligible, or -1. */
  function FirstAssignable(taxis: seq<Taxi>, connected: map<JString, ClientHandler.Socket>): int {
    FirstIndex(taxis, (t: Taxi) => Assignable(connected, t))
  }

  /**
   * Scanning the available taxis for the first eligible one finds the
   * first taxi of the whole table that is both available and eligible.
   */
  lemma {:induction false} FirstOfAvailable(taxis: seq<Taxi>, connected: map<JString, ClientHandler.Socket>)
    ensures var candidates := Filter(taxis, CentralTaxiService.IsAvailable);
      var i := FirstEligible(candidates, connected);
      var k := FirstAssignable(taxis, connected);
      (i < 0 <==> k < 0) && (0 <= i ==> 0 <= k && candidates[i] == taxis[k])
  {
    if |taxis| > 0 {
      FirstOfAvailable(taxis[1..], connected);
      if taxis[0].available {
        ScanKeepsHead(taxis, connected);
      } else {
        ScanSkipsHead(taxis, connected);
      }
    }
  }

  /** The scan and the table agree: the same first taxi, or none for both. */
  predicate ScanAgrees(taxis: seq<Taxi>, connected: map<JString, ClientHandler.Socket>) {
    var candidates := Filter(taxis, CentralTaxiService.IsAvailable);
    var i := FirstEligible(candidates, connected);
    var k := FirstAssignable(taxis, connected);
    (i < 0 <==> k < 0) && (0 <= i ==> 0 <= k && candidates[i] == taxis[k])
  }

  /** An available head taxi is the first candidate, so both sides look at it first. */
  lemma ScanKeepsHead(taxis: seq<Taxi>, connected: map<JString, ClientHandler.Socket>)
    requires |taxis| > 0 && taxis[0].available && ScanAgrees(taxis[1..], connected)
    ensures ScanAgrees(taxis, connected)
  {
    var t := taxis[0];
    var tail := Filter(taxis[1..], CentralTaxiService.IsAvailable);
    var candidates := Filter(taxis, CentralTaxiService.IsAvailable);
    var i', k' := FirstEligible(tail, connected), FirstAssignable(taxis[1..], connected);
    assert FirstAssignable(taxis, connected) ==
      if Eligible(connected, t) then 0 else if k' < 0 then -1 else k' + 1 by {
      FirstIndexCons(taxis, (u: Taxi) => Assignable(connected, u));
    }
    assert candidates == [t] + tail;
    assert FirstEligible(candidates, connected) ==
      if Eligible(connected, t) then 0 else if i' < 0 then -1 else i' + 1 by {
      assert candidates[1..] == tail;
      FirstIndexCons(candidates, (u: Taxi) => Eligible(connected, u));
    }
    if 0 <= i' && !Eligible(connected, t) {
      assert candidates[i' + 1] == tail[i'];
      assert taxis[1..][k'] == taxis[k' + 1];
    }
  }

  /** An unavailable head taxi is no candidate and not assignable: both sides skip it. */
  lemma ScanSkipsHead(taxis: seq<Taxi>, connected: map<JString, ClientHandler.Socket>)
    requires |taxis| > 0 && !taxis[0].available && ScanAgrees(taxis[1..], connected)
    ensures ScanAgrees(taxis, connected)
  {
    var k' := FirstAssignable(taxis[1..], connected);
    assert FirstAssignable(taxis, connected) == if k' < 0 then -1 else k' + 1 by {
      FirstIndexCons(taxis, (u: Taxi) => Assignable(connected, u));
    }
    assert Filter(taxis, CentralTaxiService.IsAvailable) == Filter(taxis[1..], CentralTaxiService.IsAvailable);
    if 0 <= k' {
      assert taxis[1..][k'] == taxis[k' + 1];
    }
  }

  /**
   * What the assignment scan settles on: the first available and eligible
   * taxi in table order with the destination's location; nothing when no
   * taxi qualifies or the destination is unknown; an IncorrectResultSize
   * error when several locations carry the destination's name.
   */
  function ChooseTaxi(taxis: seq<Taxi>, connected: map<JString, ClientHandler.Socket>, locations: seq<Location>,
                      destination: JString): (r: Result<Option<(int, Location)>>)
    ensures r.Ok? && r.value.Some? ==> 0 <= r.value.value.0 < |taxis|
  {
    var k := FirstAssignable(taxis, connected);
    if k < 0 then Ok(None)
    else
      var found := LocationService.FindByIdentifier(locations, destination);
      if found.Throw? then Throw(found.error)
      else if found.value.None? then Ok(None)
      else Ok(Some((k, found.value.value)))
  }

  /**
   * What the choice means: the first available and eligible taxi with a
   * location carrying the destination's name; nothing exactly when no taxi
   * qualifies or no location has that name; otherwise an error, which is
   * IncorrectResultSize.
   */
  lemma ChoiceMeaning(taxis: seq<Taxi>, connected: map<JString, ClientHandler.Socket>, locations: seq<Location>,
                      destination: JString)
    ensures var r := ChooseTaxi(taxis, connected, locations, destination);
      r.Ok? && r.value.Some? ==>
        var (k, l) := r.value.value;
        0 <= k < |taxis| && Assignable(connected, taxis[k]) &&
        (forall j | 0 <= j < k :: !Assignable(connected, taxis[j])) &&
        l in locations && l.identifier == destination
    ensures ChooseTaxi(taxis, connected, locations, destination) == Ok(None) <==>
      (forall i | 0 <= i < |taxis| :: !Assignable(connected, taxis[i])) ||
      ((exists i | 0 <= i < |taxis| :: Assignable(connected, taxis[i])) &&
        forall i | 0 <= i < |locations| :: locations[i].identifier != destination)
    ensures var r := ChooseTaxi(taxis, connected, locations, destination);
      r.Throw? ==> r.error == IncorrectResultSize
  {
  }

  /** The taxi row an assignment saves: unavailable, headed for the customer, ASSIGNED. */
  function Dispatched(t: Taxi, customer: Customer): Taxi {
    t.(available := false, destIdentifier := Some(customer.identifier), state := Assigned)
  }

  /** The directive an assignment sends to the taxi: where it is, where the customer is, and where to go. */
  function AssignmentDirective(t: Taxi, customer: Customer, l: Location): Sent {
    Sent(ClientHandler.StartServiceTopic + t.identifier,
      Directive(CustomerStatusDto(t.identifier, t.x, t.y, t.state, customer.x, customer.y, l.x, l.y)))
  }

  // ---------------------------------------------------------------------
  // The status-report transitions

  /** The taxi's row once the report's position and state are stored. */
  function Reported(t: Taxi, report: TaxiStatusDto): Taxi {
    t.(x := report.x, y := report.y, state := report.status)
  }

  /**
   * The row the dispatcher saves after storing a report: PICKUP moves on to
   * EN_ROUTE_TO_DESTINATION, DESTINATION_REACHED to RETURNING_TO_BASE, and
   * RETURNING_TO_BASE at (1, 1) frees the taxi.
   * As a table: PICKUP goes to EN_ROUTE_TO_DESTINATION; DESTINATION_REACHED
   * goes to RETURNING_TO_BASE; RETURNING_TO_BASE goes to IDLE, available and
   * without a destination, at (1, 1), and stays put elsewhere; every other
   * state is kept. Identity and position never change.
   */
  function Transitioned(u: Taxi): (r: Taxi)
    ensures r.id == u.id && r.identifier == u.identifier && r.x == u.x && r.y == u.y
    ensures r.available == (u.available || (u.state == ReturningToBase && u.x == 1 && u.y == 1))
    ensures r.state == (match u.state
      case Pickup => EnRouteToDestination
      case DestinationReached => ReturningToBase
      case ReturningToBase => if u.x == 1 && u.y == 1 then Idle else ReturningToBase
      case _ => u.state)
    ensures r.destIdentifier == (if u.state == ReturningToBase && u.x == 1 && u.y == 1 then None else u.destIdentifier)
  {
    match u.state
    case Pickup => u.(state := EnRouteToDestination)
    case DestinationReached => u.(state := ReturningToBase)
    case ReturningToBase =>
      if u.x == 1 && u.y == 1 then u.(available := true, state := Idle, destIdentifier := None) else u
    case _ => u
  }

  /** The directive that sends a taxi back to base: no customer and no destination. */
  function ReturnDirective(u: Taxi): Sent {
    Sent(ClientHandler.StartServiceTopic + u.identifier,
      Directive(CustomerStatusDto(u.identifier, u.x, u.y, u.state, -1, -1, -1, -1)))
  }

  /** `taxiId + customer.getDestIdentifier()`, where a null destination is written "null". */
  function DestinationText(dest: Option<JString>): JString {
    if dest.None? then Null else dest.value
  }

  /**
   * The customer of a taxi's ride, as the status handler finds it: the
   * taxi's assignment by `findByIdTaxiId`, then its customer by primary key
   * with `orElseThrow`. No assignment means no customer, several are an
   * IncorrectResultSize error, and an assignment whose customer is gone is
   * a NoSuchElementException.
   */
  function RideCustomer(assignments: seq<Assignment>, customers: seq<Customer>, taxiId: nat): (r: Result<Option<Customer>>)
    ensures r.Ok? && r.value.Some? ==> r.value.value in customers && Assignment(r.value.value.id, taxiId) in assignments
    ensures r == Ok(None) <==> forall i | 0 <= i < |assignments| :: assignments[i].taxiId != taxiId
    ensures r.Throw? ==> r.error == IncorrectResultSize || r.error == NoSuchElement
  {
    var assignment := FindAssignment(assignments, taxiId);
    if assignment.Throw? then Throw(assignment.error)
    else if assignment.value.None? then Ok(None)
    else
      var k := CustomerIndex(customers, assignment.value.value.customerId);
      if k < 0 then Throw(NoSuchElement) else Ok(Some(customers[k]))
  }

  /**
   * How handling a report ends once the taxi's row is stored: STOPPED reads
   * the cell at the reported position, which throws outside the grid;
   * EN_ROUTE_TO_DESTINATION and DESTINATION_REACHED look up the ride's
   * customer, whose errors escape; every other state succeeds.
   */
  function ReportOutcome(report: TaxiStatusDto, ride: Result<Option<Customer>>): Result<()> {
    match report.status
    case Stopped => if InGrid(report.x, report.y) then Ok(()) else Throw(IndexOutOfBounds)
    case EnRouteToDestination => if ride.Throw? then Throw(ride.error) else Ok(())
    case DestinationReached => if ride.Throw? then Throw(ride.error) else Ok(())
    case _ => Ok(())
  }

  /**
   * The cell at the reported position after a report: a stopped taxi turns
   * it red with its text kept; a taxi carrying its customer writes its
   * identifier followed by the customer's destination, in green.
   */
  function ReportedCell(cell: Cell, report: TaxiStatusDto, ride: Result<Option<Customer>>): Cell {
    if report.status == Stopped then cell.(color := Red)
    else if report.status == EnRouteToDestination && ride.Ok? && ride.value.Some? then
      Cell(Green, report.taxiId + DestinationText(ride.value.value.destIdentifier))
    else cell
  }

  /** Everything the snapshot draws, in drawing order: locations, then customers, then taxis. */
  function SnapshotMarkers(locations: seq<Location>, customers: seq<Customer>, taxis: seq<Taxi>): seq<Marker> {
    LocationMarkers(locations) + CustomerMarkers(customers) + TaxiMarkers(taxis)
  }

  /** A concatenation has a marker outside the grid exactly when one of its parts has. */
  lemma OutsideAppend(a: seq<Marker>, b: seq<Marker>)
    ensures FirstIndex(a + b, Outside) < 0 <==> FirstIndex(a, Outside) < 0 && FirstIndex(b, Outside) < 0
  {
    if FirstIndex(a, Outside) >= 0 {
      assert (a + b)[FirstIndex(a, Outside)] == a[FirstIndex(a, Outside)];
    }
    if FirstIndex(b, Outside) >= 0 {
      assert (a + b)[|a| + FirstIndex(b, Outside)] == b[FirstIndex(b, Outside)];
    }
  }

  /** The scan over the available taxis: the position of the first one with a connected socket, or the length. */
  method ScanEligible(candidates: seq<Taxi>, connected: map<JString, ClientHandler.Socket>) returns (i: int)
    ensures 0 <= i <= |candidates|
    ensures i == |candidates| <==> FirstEligible(candidates, connected) < 0
    ensures i < |candidates| ==> i == FirstEligible(candidates, connected)
  {
    i := 0;
    while i < |candidates| && !Eligible(connected, candidates[i])
      invariant 0 <= i <= |candidates|
      invariant forall j | 0 <= j < i :: !Eligible(connected, candidates[j])
    {
      i := i + 1;
    }
  }

  class KafkaService {
    const taxiService: CentralTaxiService.TaxiService
    const clientHandler: ClientHandler.ClientHandler
    const locationService: LocationService.LocationService
    /** The grid the status reports keep up to date. */
    const cityMap: CityMap
    /** The customer table. */
    var customers: seq<Customer>
    /** The customer-taxi assignment table. */
    var assignments: seq<Assignment>
    /** `clientTopics`: the topic created for each customer, by client identifier. */
    var clientTopics: map<JString, JString>
    /** The topics created on the broker, in creation order. */
    var createdTopics: seq<JString>
    /** Every message sent on the bus, in order. */
    var outbox: seq<Sent>

    predicate Valid()
      reads this, taxiService, cityMap
    {
      taxiService.Valid() && cityMap.Valid() && UniqueCustomerIds(customers) &&
      forall clientId | clientId in clientTopics ::
        clientTopics[clientId] == RequestsTopic + clientId && clientTopics[clientId] in createdTopics
    }

    /** The service once started (`fillCityMap`): a new empty grid, no topic created and nothing sent. */
    constructor(taxiService: CentralTaxiService.TaxiService, clientHandler: ClientHandler.ClientHandler,
                locationService: LocationService.LocationService, customers: seq<Customer>, assignments: seq<Assignment>)
      requires taxiService.Valid() && UniqueCustomerIds(customers)
      ensures Valid() && fresh(cityMap) && fresh(cityMap.cells)
      ensures forall x, y | InGrid(x, y) :: cityMap.cells[x, y] == EmptyCell
      ensures this.taxiService == taxiService && this.clientHandler == clientHandler && this.locationService == locationService
      ensures this.customers == customers && this.assignments == assignments
      ensures clientTopics == map[] && createdTopics == [] && outbox == []
    {
      this.taxiService := taxiService;
      this.clientHandler := clientHandler;
      this.locationService := locationService;
      this.customers := customers;
      this.assignments := assignments;
      clientTopics := map[];
      createdTopics := [];
      outbox := [];
      cityMap := new CityMap();
    }

    /**
     * `createClientTopic`: the customer's topic is created and recorded the
     * first time only; a known client changes nothing, so a second call is
     * idle.
     */
    method CreateClientTopic(clientId: JString)
      requires Valid()
      modifies this
      ensures Valid()
      ensures clientId in clientTopics
      ensures clientId in old(clientTopics) ==> clientTopics == old(clientTopics) && createdTopics == old(createdTopics)
      ensures clientId !in old(clientTopics) ==>
        clientTopics == old(clientTopics)[clientId := RequestsTopic + clientId] &&
        createdTopics == old(createdTopics) + [RequestsTopic + clientId]
      ensures customers == old(customers) && assignments == old(assignments) && outbox == old(outbox)
    {
      var topicName := RequestsTopic + clientId;
      if clientId !in clientTopics {
        createdTopics := createdTopics + [topicName];
        clientTopics := clientTopics[clientId := topicName];
      }
    }

    /**
     * `assignTaxiToClient`: the available taxis are scanned in table order
     * for the first one with a connected socket; once one is found the
     * destination is looked up, and an unknown destination ends the scan
     * with false. Otherwise that taxi alone becomes unavailable, ASSIGNED
     * and headed for the customer, a directive goes to its topic and the
     * assignment is saved.
     */
    method AssignTaxiToClient(customer: Customer, destination: JString) returns (r: Result<bool>)
      requires Valid()
      modifies this, taxiService
      ensures Valid()
      ensures var choice := ChooseTaxi(old(taxiService.taxis), clientHandler.connectedTaxis, locationService.locations, destination);
        (choice.Throw? ==> r == Throw(IncorrectResultSize)) &&
        (choice.Ok? ==> r == Ok(choice.value.Some?)) &&
        (choice.Ok? && choice.value.Some? ==>
          var (k, l) := choice.value.value;
          var t := Dispatched(old(taxiService.taxis)[k], customer);
          taxiService.taxis == old(taxiService.taxis)[k := t] &&
          assignments == SavedAssignment(old(assignments), Assignment(customer.id, t.id)) &&
          outbox == old(outbox) + [AssignmentDirective(t, customer, l)]) &&
        (!(choice.Ok? && choice.value.Some?) ==>
          taxiService.taxis == old(taxiService.taxis) && assignments == old(assignments) && outbox == old(outbox))
      ensures customers == old(customers) && clientTopics == old(clientTopics) && createdTopics == old(createdTopics)
    {
      var taxi, k := FindEligibleTaxi();
      if taxi.None? {
        return Ok(false);
      }
      r := AssignTaxi(taxi.value, k, customer, destination);
    }

    /**
     * The scan of `assignTaxiToClient`: the available taxis in table order,
     * stopping at the first with a connected socket; that is the first
     * assignable row of the table.
     */
    method FindEligibleTaxi() returns (taxi: Option<Taxi>, ghost k: int)
      ensures k == FirstAssignable(taxiService.taxis, clientHandler.connectedTaxis)
      ensures taxi.None? <==> k < 0
      ensures taxi.Some? ==> 0 <= k < |taxiService.taxis| && taxi.value == taxiService.taxis[k]
      ensures taxi.Some? ==> taxi.value.available && Eligible(clientHandler.connectedTaxis, taxi.value)
    {
      var candidates := Filter(taxiService.taxis, CentralTaxiService.IsAvailable);
      var connected := clientHandler.connectedTaxis;
      var i := ScanEligible(candidates, connected);
      k := FirstAssignable(taxiService.taxis, connected);
      assert (i == |candidates| <==> k < 0) && (i < |candidates| ==> 0 <= k && candidates[i] == taxiService.taxis[k]) by {
        FirstOfAvailable(taxiService.taxis, connected);
      }
      taxi := if i == |candidates| then None else Some(candidates[i]);
    }

    /**
     * The body of the scan once an eligible taxi is found: the destination
     * is looked up, and only a known destination assigns the taxi.
     */
    method AssignTaxi(taxi: Taxi, ghost k: int, customer: Customer, destination: JString) returns (r: Result<bool>)
      requires Valid() && 0 <= k < |taxiService.taxis| && taxiService.taxis[k] == taxi
      modifies this, taxiService
      ensures Valid()
      ensures var found := LocationService.FindByIdentifier(locationService.locations, destination);
        (found.Throw? ==> r == Throw(IncorrectResultSize)) &&
        (found.Ok? ==> r == Ok(found.value.Some?)) &&
        (found.Ok? && found.value.Some? ==>
          var t := Dispatched(taxi, customer);
          taxiService.taxis == old(taxiService.taxis)[k := t] &&
          assignments == SavedAssignment(old(assignments), Assignment(customer.id, t.id)) &&
          outbox == old(outbox) + [AssignmentDirective(t, customer, found.value.value)]) &&
        (!(found.Ok? && found.value.Some?) ==>
          taxiService.taxis == old(taxiService.taxis) && assignments == old(assignments) && outbox == old(outbox))
      ensures customers == old(customers) && clientTopics == old(clientTopics) && createdTopics == old(createdTopics)
    {
      var location := LocationService.FindByIdentifier(locationService.locations, destination);
      if location.Throw? {
        return Throw(location.error);
      }
      if location.value.None? {
        return Ok(false);
      }
      Dispatch(taxi, k, customer, location.value.value);
      r := Ok(true);
    }

    /**
     * The taxi is saved as assigned to the customer, the directive is sent
     * on the taxi's topic and the assignment is recorded.
     */
    method Dispatch(taxi: Taxi, ghost k: int, customer: Customer, l: Location)
      requires Valid() && 0 <= k < |taxiService.taxis| && taxiService.taxis[k] == taxi
      modifies this, taxiService
      ensures Valid()
      ensures taxiService.taxis == old(taxiService.taxis)[k := Dispatched(taxi, customer)]
      ensures assignments == SavedAssignment(old(assignments), Assignment(customer.id, taxi.id))
      ensures outbox == old(outbox) + [AssignmentDirective(Dispatched(taxi, customer), customer, l)]
      ensures customers == old(customers) && clientTopics == old(clientTopics) && createdTopics == old(createdTopics)
    {
      var dispatched := Dispatched(taxi, customer);
      CentralTaxiService.SavedAt(taxiService.taxis, k, dispatched);
      taxiService.taxis := CentralTaxiService.Saved(taxiService.taxis, dispatched);
      outbox := outbox + [AssignmentDirective(dispatched, customer, l)];
      assignments := SavedAssignment(assignments, Assignment(customer.id, dispatched.id));
    }

    /**
     * `listenTaxiStatusUpdates`: a message announcing an arrival at the
     * destination frees the taxi named by its second word, which such a
     * message always has. Any other message, or a name no taxi carries,
     * leaves the table as it is.
     */
    method ListenTaxiStatusUpdates(message: JString)
      requires Valid()
      modifies taxiService
      ensures Valid()
      ensures !Contains(message, ArrivedAtDestination) ==> taxiService.taxis == old(taxiService.taxis)
      ensures Contains(message, ArrivedAtDestination) ==>
        ExtractTaxiIdentifier(message).Ok? &&
        var found := old(taxiService.FindTaxiByIdentifier(ExtractTaxiIdentifier(message).value));
        taxiService.taxis ==
          if found.None? then old(taxiService.taxis)
          else CentralTaxiService.Saved(old(taxiService.taxis), found.value.(available := true))
    {
      if !Contains(message, ArrivedAtDestination) {
        return;
      }
      ArrivalNamesTaxi(message);
      var taxiIdentifier := ExtractTaxiIdentifier(message).value;
      var found := taxiService.FindTaxiByIdentifier(taxiIdentifier);
      if found.Some? {
        taxiService.ReleaseTaxi(found.value);
      }
    }

    /**
     * `listenTaxiDirections`: the report's position and state are stored on
     * the taxi carrying its identifier, and the dispatcher then reacts to
     * the state: a stopped taxi is painted red, a taxi carrying its customer
     * moves the customer and writes its destination on the grid, a taxi
     * that reached the destination is sent back to base and its customer
     * told the ride is over, a picked-up customer starts the ride, and a
     * taxi back at base is freed. A report naming no taxi, or several, fails
     * before anything changes; the errors of the later steps escape after
     * the rows already saved.
     */
    method ListenTaxiDirections(report: TaxiStatusDto) returns (r: Result<()>)
      requires Valid()
      modifies this, taxiService, cityMap.cells
      ensures Valid()
      ensures var found := CentralTaxiService.FindByIdentifier(old(taxiService.taxis), report.taxiId);
        !(found.Ok? && found.value.Some?) ==>
          r == (if found.Throw? then Throw(IncorrectResultSize) else Throw(NullPointer)) &&
          taxiService.taxis == old(taxiService.taxis) && customers == old(customers) && outbox == old(outbox) &&
          unchanged(cityMap.cells)
      ensures var found := CentralTaxiService.FindByIdentifier(old(taxiService.taxis), report.taxiId);
        found.Ok? && found.value.Some? ==>
          var u := Reported(found.value.value, report);
          var ride := RideCustomer(old(assignments), old(customers), u.id);
          taxiService.taxis == CentralTaxiService.Saved(old(taxiService.taxis), Transitioned(u)) &&
          r == ReportOutcome(report, ride) &&
          customers ==
            (if report.status == EnRouteToDestination && ride.Ok? && ride.value.Some? then
               SavedCustomer(old(customers), ride.value.value.(x := report.x, y := report.y))
             else old(customers)) &&
          outbox ==
            (if report.status == DestinationReached then
               old(outbox) + [ReturnDirective(Transitioned(u))] +
               (if ride.Ok? && ride.value.Some? then [Sent(RequestsTopic + ride.value.value.identifier, Text(End))] else [])
             else old(outbox)) &&
          forall x, y | InGrid(x, y) ::
            cityMap.cells[x, y] ==
              if x == report.x && y == report.y then ReportedCell(old(cityMap.cells[x, y]), report, ride)
              else old(cityMap.cells[x, y])
      ensures assignments == old(assignments) && clientTopics == old(clientTopics) && createdTopics == old(createdTopics)
    {
      var stored, k := StoreReport(report);
      if stored.Throw? {
        return Throw(stored.error);
      }
      var taxi := stored.value;
      ghost var before := taxiService.taxis;
      r := React(taxi, k, report);
      assert taxiService.taxis == CentralTaxiService.Saved(old(taxiService.taxis), Transitioned(taxi)) by {
        assert taxiService.taxis == before[k := Transitioned(taxi)];
        assert before[k := Transitioned(taxi)] == old(taxiService.taxis)[k := Transitioned(taxi)];
        CentralTaxiService.SavedAt(old(taxiService.taxis), k, Transitioned(taxi));
      }
    }

    /**
     * `updateTaxiLocationByIdentifier` followed by `findTaxiByIdentifier`:
     * once the report is stored on row `k`, the single-result query finds
     * that row with the report applied.
     */
    method StoreReport(report: TaxiStatusDto) returns (r: Result<Taxi>, ghost k: int)
      requires Valid()
      modifies taxiService
      ensures Valid()
      ensures var found := CentralTaxiService.FindByIdentifier(old(taxiService.taxis), report.taxiId);
        !(found.Ok? && found.value.Some?) ==>
          r == (if found.Throw? then Throw(IncorrectResultSize) else Throw(NullPointer)) &&
          taxiService.taxis == old(taxiService.taxis)
      ensures var found := CentralTaxiService.FindByIdentifier(old(taxiService.taxis), report.taxiId);
        r.Ok? <==> found.Ok? && found.value.Some?
      ensures r.Ok? ==>
        0 <= k < |old(taxiService.taxis)| &&
        CentralTaxiService.FindByIdentifier(old(taxiService.taxis), report.taxiId) == Ok(Some(old(taxiService.taxis)[k])) &&
        r.value == Reported(old(taxiService.taxis)[k], report) &&
        taxiService.taxis == old(taxiService.taxis)[k := r.value]
    {
      var update := taxiService.UpdateTaxiLocationByIdentifier(report);
      if update.Throw? {
        return Throw(update.error), -1;
      }
      k :| 0 <= k < |old(taxiService.taxis)| && old(taxiService.taxis)[k].identifier == report.taxiId &&
        taxiService.taxis == old(taxiService.taxis)[k := Reported(old(taxiService.taxis)[k], report)];
      ghost var t := old(taxiService.taxis)[k];
      assert CentralTaxiService.FindByIdentifier(old(taxiService.taxis), report.taxiId) == Ok(Some(t));
      var found := CentralTaxiService.FindByIdentifier(taxiService.taxis, report.taxiId);
      assert found == Ok(Some(Reported(t, report))) by {
        CentralTaxiService.FindByIdentifierReplace(old(taxiService.taxis), report.taxiId, k, Reported(t, report));
      }
      r := Ok(found.value.value);
    }

    /** The reaction to a report once the taxi's row `k` holds the report's position and state. */
    method React(taxi: Taxi, ghost k: int, report: TaxiStatusDto) returns (r: Result<()>)
      requires Valid() && 0 <= k < |taxiService.taxis| && taxiService.taxis[k] == taxi
      requires taxi.x == report.x && taxi.y == report.y && taxi.state == report.status
      modifies this, taxiService, cityMap.cells
      ensures Valid()
      ensures var ride := RideCustomer(old(assignments), old(customers), taxi.id);
        taxiService.taxis == old(taxiService.taxis)[k := Transitioned(taxi)] &&
        r == ReportOutcome(report, ride) &&
        customers ==
          (if report.status == EnRouteToDestination && ride.Ok? && ride.value.Some? then
             SavedCustomer(old(customers), ride.value.value.(x := report.x, y := report.y))
           else old(customers)) &&
        outbox ==
          (if report.status == DestinationReached then
             old(outbox) + [ReturnDirective(Transitioned(taxi))] +
             (if ride.Ok? && ride.value.Some? then [Sent(RequestsTopic + ride.value.value.identifier, Text(End))] else [])
           else old(outbox)) &&
        forall x, y | InGrid(x, y) ::
          cityMap.cells[x, y] ==
            if x == report.x && y == report.y then ReportedCell(old(cityMap.cells[x, y]), report, ride)
            else old(cityMap.cells[x, y])
      ensures assignments == old(assignments) && clientTopics == old(clientTopics) && createdTopics == old(createdTopics)
    {
      match report.status
      case Stopped =>
        r := OnStopped(report.x, report.y);
      case EnRouteToDestination =>
        r := OnEnRouteToDestination(taxi, report);
      case _ =>
        r := ReactOnTable(taxi, k, report);
    }

    /**
     * The reports that change only the taxi's row and the outbox: a taxi
     * back at base is freed, one at the destination is sent back to base,
     * a picked-up customer starts the ride; any other state is ignored.
     */
    method ReactOnTable(taxi: Taxi, ghost k: int, report: TaxiStatusDto) returns (r: Result<()>)
      requires Valid() && 0 <= k < |taxiService.taxis| && taxiService.taxis[k] == taxi
      requires taxi.state == report.status && report.status != Stopped && report.status != EnRouteToDestination
      modifies this, taxiService
      ensures Valid()
      ensures var ride := RideCustomer(old(assignments), old(customers), taxi.id);
        taxiService.taxis == old(taxiService.taxis)[k := Transitioned(taxi)] &&
        r == ReportOutcome(report, ride) &&
        outbox ==
          (if report.status == DestinationReached then
             old(outbox) + [ReturnDirective(Transitioned(taxi))] +
             (if ride.Ok? && ride.value.Some? then [Sent(RequestsTopic + ride.value.value.identifier, Text(End))] else [])
           else old(outbox))
      ensures customers == old(customers) && assignments == old(assignments)
      ensures clientTopics == old(clientTopics) && createdTopics == old(createdTopics)
    {
      match report.status
      case ReturningToBase =>
        var saved := taxi;
        if taxi.x == 1 && taxi.y == 1 {
          saved := taxi.(available := true, state := Idle, destIdentifier := None);
        }
        SaveTaxi(saved, k);
        r := Ok(());
      case DestinationReached =>
        r := OnDestinationReached(taxi, k);
      case Pickup =>
        SaveTaxi(taxi.(state := EnRouteToDestination), k);
        r := Ok(());
      case _ =>
        r := Ok(());
    }

    /** `taxiRepository.save` on a row read from the table: that row is overwritten. */
    method SaveTaxi(t: Taxi, ghost k: int)
      requires Valid() && 0 <= k < |taxiService.taxis| && taxiService.taxis[k].id == t.id
      modifies taxiService
      ensures Valid()
      ensures taxiService.taxis == old(taxiService.taxis)[k := t]
    {
      CentralTaxiService.SavedAt(taxiService.taxis, k, t);
      taxiService.taxis := CentralTaxiService.Saved(taxiService.taxis, t);
    }

    /** A stopped taxi: the cell at its position keeps its text and turns red; outside the grid the read throws. */
    method OnStopped(x: int, y: int) returns (r: Result<()>)
      requires cityMap.Valid()
      modifies cityMap.cells
      ensures r == if InGrid(x, y) then Ok(()) else Throw(IndexOutOfBounds)
      ensures forall i, j | InGrid(i, j) ::
        cityMap.cells[i, j] == if i == x && j == y then old(cityMap.cells[i, j]).(color := Red) else old(cityMap.cells[i, j])
    {
      var cell := cityMap.GetPosition(x, y);
      if cell.Throw? {
        return Throw(cell.error);
      }
      cityMap.UpdatePosition(x, y, cell.value.data, Red);
      r := Ok(());
    }

    /**
     * A taxi carrying its customer: the customer of the ride takes the
     * taxi's position and the taxi's cell shows the taxi and the ride's
     * destination in green. Without an assignment nothing happens.
     */
    method OnEnRouteToDestination(taxi: Taxi, report: TaxiStatusDto) returns (r: Result<()>)
      requires Valid()
      modifies this, cityMap.cells
      ensures Valid()
      ensures var ride := RideCustomer(old(assignments), old(customers), taxi.id);
        r == (if ride.Throw? then Throw(ride.error) else Ok(())) &&
        customers ==
          (if ride.Ok? && ride.value.Some? then SavedCustomer(old(customers), ride.value.value.(x := report.x, y := report.y))
           else old(customers)) &&
        forall x, y | InGrid(x, y) ::
          cityMap.cells[x, y] ==
            if x == report.x && y == report.y && ride.Ok? && ride.value.Some? then
              Cell(Green, report.taxiId + DestinationText(ride.value.value.destIdentifier))
            else old(cityMap.cells[x, y])
      ensures assignments == old(assignments) && outbox == old(outbox)
      ensures clientTopics == old(clientTopics) && createdTopics == old(createdTopics)
    {
      var assignment := FindAssignment(assignments, taxi.id);
      if assignment.Throw? {
        return Throw(assignment.error);
      }
      if assignment.value.None? {
        return Ok(());
      }
      var k := CustomerIndex(customers, assignment.value.value.customerId);
      if k < 0 {
        return Throw(NoSuchElement);
      }
      var customer := customers[k].(x := report.x, y := report.y);
      customers := SavedCustomer(customers, customer);
      cityMap.UpdatePosition(report.x, report.y, report.taxiId + DestinationText(customer.destIdentifier), Green);
      r := Ok(());
    }

    /**
     * A taxi at the destination: it is saved RETURNING_TO_BASE and sent the
     * directive back to base, then the ride's customer is told the ride is
     * over.
     */
    method OnDestinationReached(taxi: Taxi, ghost k: int) returns (r: Result<()>)
      requires Valid() && 0 <= k < |taxiService.taxis| && taxiService.taxis[k] == taxi
      modifies this, taxiService
      ensures Valid()
      ensures var ride := RideCustomer(old(assignments), old(customers), taxi.id);
        var back := taxi.(state := ReturningToBase);
        taxiService.taxis == old(taxiService.taxis)[k := back] &&
        r == (if ride.Throw? then Throw(ride.error) else Ok(())) &&
        outbox ==
          old(outbox) + [ReturnDirective(back)] +
          (if ride.Ok? && ride.value.Some? then [Sent(RequestsTopic + ride.value.value.identifier, Text(End))] else [])
      ensures customers == old(customers) && assignments == old(assignments)
      ensures clientTopics == old(clientTopics) && createdTopics == old(createdTopics)
    {
      var back := taxi.(state := ReturningToBase);
      SaveTaxi(back, k);
      outbox := outbox + [ReturnDirective(back)];
      var assignment := FindAssignment(assignments, taxi.id);
      if assignment.Throw? {
        return Throw(assignment.error);
      }
      if assignment.value.None? {
        return Ok(());
      }
      var c := CustomerIndex(customers, assignment.value.value.customerId);
      if c < 0 {
        return Throw(NoSuchElement);
      }
      outbox := outbox + [Sent(RequestsTopic + customers[c].identifier, Text(End))];
      r := Ok(());
    }

    /**
     * `listenServiceRequest`: a `clientId#destination` request. The
     * customer with that identifier is saved REQUESTING with the
     * destination, its topic is created if new, and a taxi is assigned;
     * on success the customer is saved again WAITING_FOR_TAXI. Either way
     * the customer's topic receives the answer. A request without '#'
     * throws before anything changes, and so does an unknown customer; an
     * error of the assignment escapes after the customer and the topic are
     * saved.
     */
    method ListenServiceRequest(message: JString) returns (r: Result<()>)
      requires Valid()
      modifies this, taxiService
      ensures Valid()
      ensures ParseServiceRequest(message).Throw? ==> r == Throw(IndexOutOfBounds) && unchanged(this, taxiService)
      ensures ParseServiceRequest(message).Ok? ==>
        var found := FindCustomer(old(customers), ParseServiceRequest(message).value.0);
        !(found.Ok? && found.value.Some?) ==>
          r == (if found.Throw? then Throw(IncorrectResultSize) else Throw(Runtime(CustomerNotFound))) &&
          unchanged(this, taxiService)
      ensures ParseServiceRequest(message).Ok? ==>
        var (clientId, destination) := ParseServiceRequest(message).value;
        var found := FindCustomer(old(customers), clientId);
        found.Ok? && found.value.Some? ==>
          var requesting := found.value.value.(destIdentifier := Some(destination), state := Requesting);
          var choice := ChooseTaxi(old(taxiService.taxis), clientHandler.connectedTaxis, locationService.locations, destination);
          var chosen := choice.Ok? && choice.value.Some?;
          var reply := Sent(RequestsTopic + requesting.identifier, Text(if chosen then TaxiAssigned else NoTaxiAvailable));
          r == (if choice.Throw? then Throw(IncorrectResultSize) else Ok(())) &&
          customers == SavedCustomer(old(customers), if chosen then requesting.(state := WaitingForTaxi) else requesting) &&
          clientTopics == old(clientTopics)[clientId := RequestsTopic + clientId] &&
          createdTopics == old(createdTopics) + (if clientId in old(clientTopics) then [] else [RequestsTopic + clientId]) &&
          (chosen ==>
            var (k, l) := choice.value.value;
            var t := Dispatched(old(taxiService.taxis)[k], requesting);
            taxiService.taxis == old(taxiService.taxis)[k := t] &&
            assignments == SavedAssignment(old(assignments), Assignment(requesting.id, t.id)) &&
            outbox == old(outbox) + [AssignmentDirective(t, requesting, l), reply]) &&
          (!chosen ==>
            taxiService.taxis == old(taxiService.taxis) && assignments == old(assignments) &&
            outbox == old(outbox) + (if choice.Ok? then [reply] else []))
    {
      var request := ParseServiceRequest(message);
      if request.Throw? {
        return Throw(request.error);
      }
      var (clientId, destination) := request.value;
      var found := FindCustomer(customers, clientId);
      if found.Throw? {
        return Throw(found.error);
      }
      if found.value.None? {
        return Throw(Runtime(CustomerNotFound));
      }
      ghost var i :| 0 <= i < |customers| && customers[i] == found.value.value;
      r := ServeRequest(found.value.value, i, clientId, destination);
    }

    /** The request once its customer, row `i`, is found. */
    method ServeRequest(customer: Customer, ghost i: int, clientId: JString, destination: JString) returns (r: Result<()>)
      requires Valid() && 0 <= i < |customers| && customers[i] == customer
      modifies this, taxiService
      ensures Valid()
      ensures
        var requesting := customer.(destIdentifier := Some(destination), state := Requesting);
        var choice := ChooseTaxi(old(taxiService.taxis), clientHandler.connectedTaxis, locationService.locations, destination);
        var chosen := choice.Ok? && choice.value.Some?;
        var reply := Sent(RequestsTopic + requesting.identifier, Text(if chosen then TaxiAssigned else NoTaxiAvailable));
        r == (if choice.Throw? then Throw(IncorrectResultSize) else Ok(())) &&
        customers == SavedCustomer(old(customers), if chosen then requesting.(state := WaitingForTaxi) else requesting) &&
        clientTopics == old(clientTopics)[clientId := RequestsTopic + clientId] &&
        createdTopics == old(createdTopics) + (if clientId in old(clientTopics) then [] else [RequestsTopic + clientId]) &&
        (chosen ==>
          var (k, l) := choice.value.value;
          var t := Dispatched(old(taxiService.taxis)[k], requesting);
          taxiService.taxis == old(taxiService.taxis)[k := t] &&
          assignments == SavedAssignment(old(assignments), Assignment(requesting.id, t.id)) &&
          outbox == old(outbox) + [AssignmentDirective(t, requesting, l), reply]) &&
        (!chosen ==>
          taxiService.taxis == old(taxiService.taxis) && assignments == old(assignments) &&
          outbox == old(outbox) + (if choice.Ok? then [reply] else []))
    {
      var requesting := customer.(destIdentifier := Some(destination), state := Requesting);
      Register(requesting, i, clientId);
      r := AssignAndReply(requesting, i, destination);
      ghost var final := customers[i];
      assert customers == SavedCustomer(old(customers), final) by {
        assert customers == old(customers)[i := final];
        SavedCustomerAt(old(customers), i, final);
      }
    }

    /** The customer, row `i`, is saved REQUESTING and its topic created if new. */
    method Register(requesting: Customer, ghost i: int, clientId: JString)
      requires Valid() && 0 <= i < |customers| && customers[i].id == requesting.id
      modifies this
      ensures Valid()
      ensures customers == old(customers)[i := requesting]
      ensures clientTopics == old(clientTopics)[clientId := RequestsTopic + clientId]
      ensures createdTopics == old(createdTopics) + (if clientId in old(clientTopics) then [] else [RequestsTopic + clientId])
      ensures assignments == old(assignments) && outbox == old(outbox)
    {
      SaveCustomer(requesting, i);
      CreateClientTopic(clientId);
    }

    /**
     * The assignment and the answer, once the customer, row `i`, is saved
     * REQUESTING: an assigned taxi makes the customer WAITING_FOR_TAXI, and
     * the answer goes to the customer's topic unless the assignment threw.
     */
    method AssignAndReply(requesting: Customer, ghost i: int, destination: JString) returns (r: Result<()>)
      requires Valid() && 0 <= i < |customers| && customers[i] == requesting
      modifies this, taxiService
      ensures Valid()
      ensures
        var choice := ChooseTaxi(old(taxiService.taxis), clientHandler.connectedTaxis, locationService.locations, destination);
        var chosen := choice.Ok? && choice.value.Some?;
        var reply := Sent(RequestsTopic + requesting.identifier, Text(if chosen then TaxiAssigned else NoTaxiAvailable));
        r == (if choice.Throw? then Throw(IncorrectResultSize) else Ok(())) &&
        customers == (if chosen then old(customers)[i := requesting.(state := WaitingForTaxi)] else old(customers)) &&
        (chosen ==>
          var (k, l) := choice.value.value;
          var t := Dispatched(old(taxiService.taxis)[k], requesting);
          taxiService.taxis == old(taxiService.taxis)[k := t] &&
          assignments == SavedAssignment(old(assignments), Assignment(requesting.id, t.id)) &&
          outbox == old(outbox) + [AssignmentDirective(t, requesting, l), reply]) &&
        (!chosen ==>
          taxiService.taxis == old(taxiService.taxis) && assignments == old(assignments) &&
          outbox == old(outbox) + (if choice.Ok? then [reply] else []))
      ensures clientTopics == old(clientTopics) && createdTopics == old(createdTopics)
    {
      var outcome := AssignTaxiToClient(requesting, destination);
      if outcome.Throw? {
        return Throw(outcome.error);
      }
      var response := NoTaxiAvailable;
      if outcome.value {
        response := TaxiAssigned;
        SaveCustomer(requesting.(state := WaitingForTaxi), i);
      }
      outbox := outbox + [Sent(RequestsTopic + requesting.identifier, Text(response))];
      r := Ok(());
    }

    /** `customerRepository.save` on a row read from the table: that row is overwritten. */
    method SaveCustomer(c: Customer, ghost i: int)
      requires Valid() && 0 <= i < |customers| && customers[i].id == c.id
      modifies this
      ensures Valid()
      ensures customers == old(customers)[i := c]
      ensures assignments == old(assignments) && outbox == old(outbox)
      ensures clientTopics == old(clientTopics) && createdTopics == old(createdTopics)
    {
      SavedCustomerAt(customers, i, c);
      customers := SavedCustomer(customers, c);
    }

    /**
     * `populateMap`: a new grid on which the locations, then the customers,
     * then the taxis are drawn, in table order. The first one standing
     * outside the grid makes the cell read throw.
     */
    method PopulateMap() returns (r: Result<CityMap>)
      requires Valid()
      ensures var markers := SnapshotMarkers(locationService.locations, customers, taxiService.taxis);
        (r.Ok? <==> FirstIndex(markers, Outside) < 0) &&
        (r.Throw? ==> r.error == IndexOutOfBounds) &&
        (r.Ok? ==>
           fresh(r.value) && fresh(r.value.cells) && r.value.Valid() &&
           forall x, y | InGrid(x, y) :: r.value.cells[x, y] == Painted(EmptyCell, markers, x, y))
    {
      var l := LocationMarkers(locationService.locations);
      var c := CustomerMarkers(customers);
      var t := TaxiMarkers(taxiService.taxis);
      OutsideAppend(l, c);
      OutsideAppend(l + c, t);
      var grid := new CityMap();
      var drawn := Plot(grid, l);
      if drawn.Throw? {
        return Throw(drawn.error);
      }
      drawn := Plot(grid, c);
      if drawn.Throw? {
        return Throw(drawn.error);
      }
      drawn := Plot(grid, t);
      if drawn.Throw? {
        return Throw(drawn.error);
      }
      forall x, y | InGrid(x, y)
        ensures grid.cells[x, y] == Painted(EmptyCell, l + c + t, x, y)
      {
        PaintedAppend(EmptyCell, l, c, x, y);
        PaintedAppend(EmptyCell, l + c, t, x, y);
      }
      r := Ok(grid);
    }
  }
}
