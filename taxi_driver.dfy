/**
 * The taxi's ride driver: on a directive from the coordinator it either
 * drives back to base, or drives to the customer and then to the
 * destination, publishing one position report per move.
 *
 * The sensor listener runs on another thread and can overwrite the phase
 * with STOPPED at any time; here it is the set `sensor` of move numbers
 * (counted from 0 within one directive) before which it wrote STOPPED.
 */
module TaxiDriver {
  import opened Java
  import opened Entities
  import opened PathFinder

  /** Where a returning taxi drives to. */
  const Base: Pos := Pos(0, 0)

  /** Whether the sensor wrote STOPPED before one of the moves k0 .. k0 + n - 1. */
  predicate StoppedBefore(sensor: set<nat>, k0: nat, n: nat)
    decreases n
  {
    n > 0 && (StoppedBefore(sensor, k0, n - 1) || k0 + n - 1 in sensor)
  }

  /** `StoppedBefore` holds exactly when one of those move numbers is in `sensor`. */
  lemma {:induction false} StoppedBeforeSome(sensor: set<nat>, k0: nat, n: nat)
    ensures StoppedBefore(sensor, k0, n) <==> exists j: nat | k0 <= j < k0 + n :: j in sensor
    decreases n
  {
    if n > 0 {
      StoppedBeforeSome(sensor, k0, n - 1);
      if k0 + n - 1 in sensor {
        assert k0 <= k0 + n - 1 < k0 + n;
      }
    }
  }

  /** Once the sensor has written STOPPED, it has done so before every later move too. */
  lemma {:induction false} StoppedBeforeLater(sensor: set<nat>, k0: nat, n: nat, m: nat)
    requires n <= m && StoppedBefore(sensor, k0, n)
    ensures StoppedBefore(sensor, k0, m)
    decreases m
  {
    if n < m {
      StoppedBeforeLater(sensor, k0, n, m - 1);
    }
  }

  /**
   * The reports of one leg from `start` to `target` whose first move is
   * number `k0`: one per position before arrival, in the leg's phase until
   * the sensor first writes STOPPED and STOPPED from then on.
   */
  function LegMessages(taxiId: JString, start: Pos, target: Pos, legState: TaxiState, sensor: set<nat>, k0: nat)
    : (ms: seq<TaxiStatusDto>)
    ensures |ms| == |Path(start, target)|
  {
    var path := Path(start, target);
    seq(|path|, i requires 0 <= i < |path| =>
      TaxiStatusDto(taxiId, path[i].x, path[i].y, if StoppedBefore(sensor, k0, i + 1) then Stopped else legState))
  }

  /** Report `i` of a leg: the leg's `i`-th position, in the leg's phase unless the sensor stopped the taxi by then. */
  lemma LegMessageAt(taxiId: JString, start: Pos, target: Pos, legState: TaxiState, sensor: set<nat>, k0: nat, i: nat)
    requires i < |Path(start, target)|
    ensures var p := Path(start, target)[i];
      LegMessages(taxiId, start, target, legState, sensor, k0)[i] ==
        TaxiStatusDto(taxiId, p.x, p.y, if StoppedBefore(sensor, k0, i + 1) then Stopped else legState)
  {
  }

  /** Every report of a leg carries the taxi's identifier and says either the leg's phase or STOPPED. */
  lemma LegReports(taxiId: JString, start: Pos, target: Pos, legState: TaxiState, sensor: set<nat>, k0: nat)
    ensures var ms := LegMessages(taxiId, start, target, legState, sensor, k0);
      forall i | 0 <= i < |ms| :: ms[i].taxiId == taxiId && ms[i].status in {legState, Stopped}
  {
  }

  /** A log that held a prefix of `s` holds the next prefix once the next element is appended. */
  lemma ReportedNext<T>(before: seq<T>, s: seq<T>, n: nat, reported: seq<T>)
    requires n < |s| && reported == before + s[..n]
    ensures reported + [s[n]] == before + s[..n + 1]
  {
    assert s[..n + 1] == s[..n] + [s[n]];
  }

  /** Appending reports that all carry `taxiId` keeps every report after `before` carrying it. */
  lemma Tagged(before: seq<TaxiStatusDto>, added: seq<TaxiStatusDto>, taxiId: JString)
    requires forall i | 0 <= i < |added| :: added[i].taxiId == taxiId
    ensures forall i | |before| <= i < |before + added| :: (before + added)[i].taxiId == taxiId
  {
    forall i | |before| <= i < |before + added|
      ensures (before + added)[i].taxiId == taxiId
    {
      assert (before + added)[i] == added[i - |before|];
    }
  }

  lemma LogOfFour<T>(before: seq<T>, a: seq<T>, p: T, b: seq<T>, d: T)
    ensures before + a + [p] + b + [d] == before + (a + [p] + b + [d])
  {
  }

  /** Once a report of a leg says STOPPED, every later report of that leg says STOPPED too. */
  lemma StoppedPersists(taxiId: JString, start: Pos, target: Pos, legState: TaxiState, sensor: set<nat>, k0: nat, i: nat, j: nat)
    requires legState != Stopped
    requires i < j < |Path(start, target)|
    requires LegMessages(taxiId, start, target, legState, sensor, k0)[i].status == Stopped
    ensures LegMessages(taxiId, start, target, legState, sensor, k0)[j].status == Stopped
  {
    StoppedBeforeLater(sensor, k0, i + 1, j + 1);
  }

  /** Everything a return-to-base directive makes the taxi publish. */
  function ReturnMessages(taxiId: JString, directive: CustomerStatusDto, sensor: set<nat>): seq<TaxiStatusDto> {
    LegMessages(taxiId, Pos(directive.x, directive.y), Base, ReturningToBase, sensor, 0)
      + [TaxiStatusDto(taxiId, Base.x, Base.y, ReturningToBase)]
  }

  /** Everything a ride directive makes the taxi publish. */
  function RideMessages(taxiId: JString, directive: CustomerStatusDto, sensor: set<nat>): seq<TaxiStatusDto> {
    var start := Pos(directive.x, directive.y);
    var pickup := Pos(directive.customerX, directive.customerY);
    var destination := Pos(directive.destX, directive.destY);
    LegMessages(taxiId, start, pickup, EnRouteToPickup, sensor, 0)
      + [TaxiStatusDto(taxiId, pickup.x, pickup.y, Pickup)]
      + LegMessages(taxiId, pickup, destination, EnRouteToDestination, sensor, |Path(start, pickup)| + 1)
      + [TaxiStatusDto(taxiId, destination.x, destination.y, DestinationReached)]
  }

  /**
   * A return to base never reports PICKUP or DESTINATION_REACHED, and it ends
   * with one RETURNING_TO_BASE report at the base.
   */
  lemma ReturnReports(taxiId: JString, directive: CustomerStatusDto, sensor: set<nat>)
    ensures var r := ReturnMessages(taxiId, directive, sensor);
      |r| > 0 && r[|r| - 1] == TaxiStatusDto(taxiId, 0, 0, ReturningToBase) &&
      forall i | 0 <= i < |r| :: r[i].taxiId == taxiId && r[i].status in {ReturningToBase, Stopped}
  {
    LegReports(taxiId, Pos(directive.x, directive.y), Base, ReturningToBase, sensor, 0);
  }

  /**
   * A ride reports PICKUP exactly once, at the customer's position, and
   * DESTINATION_REACHED exactly once, last, at the destination; every
   * report before PICKUP is EN_ROUTE_TO_PICKUP or STOPPED and every one
   * between them EN_ROUTE_TO_DESTINATION or STOPPED.
   */
  lemma RideReports(taxiId: JString, directive: CustomerStatusDto, sensor: set<nat>)
    ensures var r := RideMessages(taxiId, directive, sensor);
      var p := |Path(Pos(directive.x, directive.y), Pos(directive.customerX, directive.customerY))|;
      p < |r| - 1 &&
      r[p] == TaxiStatusDto(taxiId, directive.customerX, directive.customerY, Pickup) &&
      r[|r| - 1] == TaxiStatusDto(taxiId, directive.destX, directive.destY, DestinationReached) &&
      (forall i | 0 <= i < p :: r[i].status in {EnRouteToPickup, Stopped}) &&
      (forall i | p < i < |r| - 1 :: r[i].status in {EnRouteToDestination, Stopped}) &&
      (forall i | 0 <= i < |r| :: r[i].taxiId == taxiId)
  {
    var start := Pos(directive.x, directive.y);
    var pickup := Pos(directive.customerX, directive.customerY);
    var destination := Pos(directive.destX, directive.destY);
    var a := LegMessages(taxiId, start, pickup, EnRouteToPickup, sensor, 0);
    var b := LegMessages(taxiId, pickup, destination, EnRouteToDestination, sensor, |Path(start, pickup)| + 1);
    var r := RideMessages(taxiId, directive, sensor);
    LegReports(taxiId, start, pickup, EnRouteToPickup, sensor, 0);
    LegReports(taxiId, pickup, destination, EnRouteToDestination, sensor, |Path(start, pickup)| + 1);
    forall i | |a| < i < |r| - 1
      ensures r[i].status in {EnRouteToDestination, Stopped}
    {
      assert r[i] == b[i - |a| - 1];
    }
  }

  /** Walking a leg one move further along its path. */
  lemma PathAdvance(path: seq<Pos>, n: nat, current: Pos, target: Pos)
    requires n <= |path| && path[n..] == Path(current, target)
    ensures Step(current, target) == target ==> n == |path|
    ensures Step(current, target) != target ==>
      n < |path| && path[n] == Step(current, target) && path[n + 1..] == Path(Step(current, target), target)
  {
    if Step(current, target) != target {
      assert path[n..][1..] == path[n + 1..];
    }
  }

  /** The taxi-side message service: the shared path finder and the reports published so far. */
  class KafkaService {
    const taxiId: JString
    const finder: ShortestPathFinder
    /** Every report sent to the `taxi-directions` topic, in order. */
    var published: seq<TaxiStatusDto>

    constructor(taxiId: JString)
      ensures this.taxiId == taxiId && published == []
      ensures fresh(finder) && finder.Position() == Pos(0, 0) && !finder.stop && finder.taxiState == Assigned
    {
      this.taxiId := taxiId;
      finder := new ShortestPathFinder();
      published := [];
    }

    /**
     * One pass of a stepping loop: the sensor may write STOPPED, the finder
     * moves once; the move that lands on `target` clears `stop` unreported,
     * any other move is reported with the current phase.
     */
    method Advance(target: Pos, legState: TaxiState, sensor: set<nat>, k0: nat, moves: nat) returns (arrived: bool)
      requires legState != Stopped && !finder.stop
      requires finder.taxiState == if StoppedBefore(sensor, k0, moves) then Stopped else legState
      modifies this, finder
      ensures finder.Position() == Step(old(finder.Position()), target) && !finder.stop
      ensures arrived <==> finder.Position() == target
      ensures finder.taxiState == if StoppedBefore(sensor, k0, moves + 1) then Stopped else legState
      ensures arrived ==> published == old(published)
      ensures !arrived ==>
        published == old(published) + [TaxiStatusDto(taxiId, finder.currentX, finder.currentY, finder.taxiState)]
    {
      if k0 + moves in sensor {
        finder.taxiState := Stopped;
      }
      var xy := finder.GetNextPosition(target.x, target.y);
      if finder.stop {
        finder.stop := false;
        return true;
      }
      var status := if finder.taxiState == legState then legState else Stopped;
      published := published + [TaxiStatusDto(taxiId, xy.0, xy.1, status)];
      arrived := false;
    }

    /**
     * One of the three stepping loops: move until the move that lands on
     * `target`, which clears `stop` and ends the loop unreported; every
     * other move is reported, as STOPPED once the sensor has written it.
     */
    method DriveLeg(target: Pos, legState: TaxiState, sensor: set<nat>, k0: nat) returns (moves: nat)
      requires legState != Stopped
      requires finder.taxiState == legState && !finder.stop
      modifies this, finder
      ensures finder.Position() == target && !finder.stop
      ensures moves == |Path(old(finder.Position()), target)| + 1
      ensures published == old(published) + LegMessages(taxiId, old(finder.Position()), target, legState, sensor, k0)
      ensures finder.taxiState == if StoppedBefore(sensor, k0, moves) then Stopped else legState
    {
      var start := finder.Position();
      ghost var before := published;
      ghost var path := Path(start, target);
      ghost var messages := LegMessages(taxiId, start, target, legState, sensor, k0);
      moves := 0;
      while finder.taxiState == legState || finder.taxiState == Stopped
        invariant finder.taxiState == if StoppedBefore(sensor, k0, moves) then Stopped else legState
        invariant !finder.stop
        invariant moves <= |path| && path[moves..] == Path(finder.Position(), target)
        invariant published == before + messages[..moves]
        decreases |path| - moves
      {
        PathAdvance(path, moves, finder.Position(), target);
        ghost var reported := published;
        var arrived := Advance(target, legState, sensor, k0, moves);
        if arrived {
          moves := moves + 1;
          return;
        }
        assert published == reported + [messages[moves]] by {
          LegMessageAt(taxiId, start, target, legState, sensor, k0, moves);
        }
        ReportedNext(before, messages, moves, reported);
        moves := moves + 1;
      }
    }

    /**
     * `listenToClientResponses`: place the taxi at the directive's position;
     * for a RETURNING_TO_BASE directive drive to base and report arrival
     * there; otherwise drive to the customer, report PICKUP, drive to the
     * destination and report DESTINATION_REACHED.
     */
    method ListenToClientResponses(directive: CustomerStatusDto, sensor: set<nat>)
      requires !finder.stop
      modifies this, finder
      ensures !finder.stop
      ensures forall i | |old(published)| <= i < |published| :: published[i].taxiId == taxiId
      ensures directive.status == ReturningToBase ==>
        finder.Position() == Base && published == old(published) + ReturnMessages(taxiId, directive, sensor)
      ensures directive.status != ReturningToBase ==>
        finder.Position() == Pos(directive.destX, directive.destY) && finder.taxiState == DestinationReached &&
        published == old(published) + RideMessages(taxiId, directive, sensor)
    {
      finder.currentX := directive.x;
      finder.currentY := directive.y;
      ghost var before := published;
      if directive.status == ReturningToBase {
        ReturnToBase(directive, sensor);
        assert forall i | |before| <= i < |published| :: published[i].taxiId == taxiId by {
          ReturnReports(taxiId, directive, sensor);
          Tagged(before, ReturnMessages(taxiId, directive, sensor), taxiId);
        }
      } else {
        Ride(directive, sensor);
        assert forall i | |before| <= i < |published| :: published[i].taxiId == taxiId by {
          RideReports(taxiId, directive, sensor);
          Tagged(before, RideMessages(taxiId, directive, sensor), taxiId);
        }
      }
    }

    /** The return-to-base branch: the loop toward (0, 0), then the report at the final position. */
    method ReturnToBase(directive: CustomerStatusDto, sensor: set<nat>)
      requires !finder.stop && finder.Position() == Pos(directive.x, directive.y)
      modifies this, finder
      ensures !finder.stop && finder.Position() == Base
      ensures published == old(published) + ReturnMessages(taxiId, directive, sensor)
    {
      finder.taxiState := ReturningToBase;
      var moves := DriveLeg(Base, ReturningToBase, sensor, 0);
      published := published + [TaxiStatusDto(taxiId, finder.currentX, finder.currentY, ReturningToBase)];
    }

    /** The ride branch: the pickup loop, the PICKUP report, the destination loop and the DESTINATION_REACHED report. */
    method Ride(directive: CustomerStatusDto, sensor: set<nat>)
      requires !finder.stop && finder.Position() == Pos(directive.x, directive.y)
      modifies this, finder
      ensures !finder.stop && finder.Position() == Pos(directive.destX, directive.destY)
      ensures finder.taxiState == DestinationReached
      ensures published == old(published) + RideMessages(taxiId, directive, sensor)
    {
      ghost var before := published;
      var start := finder.Position();
      finder.taxiState := EnRouteToPickup;
      var pickup := Pos(directive.customerX, directive.customerY);
      var moves := DriveLeg(pickup, EnRouteToPickup, sensor, 0);
      ghost var toPickup := LegMessages(taxiId, start, pickup, EnRouteToPickup, sensor, 0);
      published := published + [TaxiStatusDto(taxiId, finder.currentX, finder.currentY, Pickup)];
      finder.taxiState := EnRouteToDestination;
      var destination := Pos(directive.destX, directive.destY);
      ghost var middle := published;
      var moreMoves := DriveLeg(destination, EnRouteToDestination, sensor, moves);
      ghost var toDestination := LegMessages(taxiId, pickup, destination, EnRouteToDestination, sensor, moves);
      finder.taxiState := DestinationReached;
      published := published + [TaxiStatusDto(taxiId, finder.currentX, finder.currentY, DestinationReached)];
      assert published == before + RideMessages(taxiId, directive, sensor) by {
        assert moves == |Path(start, pickup)| + 1;
        LogOfFour(before, toPickup, TaxiStatusDto(taxiId, pickup.x, pickup.y, Pickup),
          toDestination, TaxiStatusDto(taxiId, destination.x, destination.y, DestinationReached));
      }
    }
  }
}
