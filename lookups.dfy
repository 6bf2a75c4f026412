/**
 * What the request handlers read from the stores to describe a flight: the
 * cities of its airports, looked up by id. The handlers' lookups of flights
 * and airports by id are not checked for failure, so they need the flight
 * and both of its airports to be stored.
 */
module ServerLookups {
  import opened Wrappers
  import opened Models
  import opened Responses
  import opened FlightModel
  import opened FlightDao
  import opened AirportDao

  /** A flight with id `id` is stored, and every such flight has both airports stored. */
  ghost predicate Described(flights: FlightStore, airports: AirportStore, id: Uuid)
    reads flights, flights.Flights(), airports
  {
    && flights.HasId(id)
    && forall f | f in flights.Flights() && f.id == id :: f.source in airports.data && f.dest in airports.data
  }

  /** `e` is the listing row for flight `f`, carrying `id`. */
  ghost predicate Describes(airports: AirportStore, f: Flight, id: Uuid, e: Entry)
    reads airports
  {
    && f.source in airports.data && f.dest in airports.data
    && e == Entry(airports.data[f.source].city, airports.data[f.dest].city, id)
  }

  /**
   * The listing row for a flight with id `flightId`, carrying `id`: looks
   * the flight up, then its two airports.
   */
  method Describe(flights: FlightStore, airports: AirportStore, flightId: Uuid, id: Uuid) returns (e: Entry)
    requires Described(flights, airports, flightId)
    ensures RowFor(flights, airports, flightId, id, e)
  {
    var flight := flights.FindById(flightId);
    var src := airports.FindById(flight.value.source);
    var dest := airports.FindById(flight.value.dest);
    e := Entry(src.value.city, dest.value.city, id);
  }

  /** `e` is the listing row, carrying `id`, of some stored flight with id `flightId`. */
  ghost predicate RowFor(flights: FlightStore, airports: AirportStore, flightId: Uuid, id: Uuid, e: Entry)
    reads flights, flights.Flights(), airports
  {
    exists f | f in flights.Flights() && f.id == flightId :: Describes(airports, f, id, e)
  }

  /**
   * `info` is the seat snapshot of some stored flight with id `flightId`:
   * its seats left and the names of its airports' cities.
   */
  ghost predicate InfoFor(flights: FlightStore, airports: AirportStore, flightId: Uuid, info: FlightInfo)
    reads flights, flights.Flights(), airports
  {
    exists f | f in flights.Flights() && f.id == flightId :: Informs(airports, f, info)
  }

  /** `info` is the seat snapshot of flight `f`. */
  ghost predicate Informs(airports: AirportStore, f: Flight, info: FlightInfo)
    reads airports, f
  {
    && f.source in airports.data && f.dest in airports.data
    && info == FlightInfo(f.seats, airports.data[f.source].city.name, airports.data[f.dest].city.name)
  }

  /** A snapshot of a flight with id `flightId` means such a flight is stored. */
  lemma InfoKnown(flights: FlightStore, airports: AirportStore, flightId: Uuid, info: FlightInfo)
    requires InfoFor(flights, airports, flightId, info)
    ensures flights.HasId(flightId)
  {
    var f :| f in flights.Flights() && f.id == flightId && Informs(airports, f, info);
    var u, v :| u in flights.data && v in flights.data[u] && flights.data[u][v] == f;
  }

  /**
   * The seat snapshot of a flight with id `flightId`: looks the flight up,
   * then its two airports. None exactly when no flight has that id.
   */
  method Inform(flights: FlightStore, airports: AirportStore, flightId: Uuid) returns (r: Option<FlightInfo>)
    requires flights.HasId(flightId) ==> Described(flights, airports, flightId)
    ensures r.None? <==> !flights.HasId(flightId)
    ensures r.Some? ==> InfoFor(flights, airports, flightId, r.value)
  {
    var flight := flights.FindById(flightId);
    if flight.Failure? {
      return None;
    }
    var src := airports.FindById(flight.value.source);
    var dest := airports.FindById(flight.value.dest);
    return Some(FlightInfo(flight.value.seats, src.value.city.name, dest.value.city.name));
  }

  /**
   * The listing rows for the (flight id, row id) pairs `wanted`, one per
   * pair in order: the loop the ticket and cart listings share.
   */
  method DescribeAll(flights: FlightStore, airports: AirportStore, wanted: seq<(Uuid, Uuid)>) returns (rows: seq<Entry>)
    requires forall i | 0 <= i < |wanted| :: Described(flights, airports, wanted[i].0)
    ensures |rows| == |wanted|
    ensures forall i | 0 <= i < |wanted| :: RowFor(flights, airports, wanted[i].0, wanted[i].1, rows[i])
  {
    rows := [];
    for i := 0 to |wanted|
      invariant |rows| == i
      invariant forall j | 0 <= j < i :: RowFor(flights, airports, wanted[j].0, wanted[j].1, rows[j])
    {
      var row := Describe(flights, airports, wanted[i].0, wanted[i].1);
      rows := rows + [row];
    }
  }
}
