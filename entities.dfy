/**
 * The records the dispatch services store and exchange: the persisted taxi,
 * customer, location and customer-taxi assignment rows, the two state
 * enumerations, and the status messages carried over the message bus.
 */
module Entities {
  import opened Java

  /** A taxi's phase in a ride; the same eight values on the taxi and on the coordinator. */
  datatype TaxiState =
    | Idle
    | Assigned
    | EnRouteToPickup
    | Pickup
    | EnRouteToDestination
    | Stopped
    | DestinationReached
    | ReturningToBase

  datatype CustomerState = CustomerIdle | Requesting | WaitingForTaxi | InTransit | ServiceCompleted

  /** A row of the coordinator's taxi table; `id` is the generated primary key. */
  datatype Taxi = Taxi(
    id: nat,
    identifier: JString,
    available: bool,
    x: int,
    y: int,
    destIdentifier: Option<JString>,
    state: TaxiState)

  /** A row of the customer table. */
  datatype Customer = Customer(
    id: nat,
    identifier: JString,
    x: int,
    y: int,
    destIdentifier: Option<JString>,
    state: CustomerState)

  /** A named place customers travel to. */
  datatype Location = Location(identifier: JString, x: int, y: int)

  /** A row of the customer-taxi table, keyed by the pair of ids. */
  datatype Assignment = Assignment(customerId: nat, taxiId: nat)

  /** A taxi's position report. */
  datatype TaxiStatusDto = TaxiStatusDto(taxiId: JString, x: int, y: int, status: TaxiState)

  /** A ride directive: the taxi's report plus the customer's position and destination. */
  datatype CustomerStatusDto = CustomerStatusDto(
    taxiId: JString,
    x: int,
    y: int,
    status: TaxiState,
    customerX: int,
    customerY: int,
    destX: int,
    destY: int)
}
