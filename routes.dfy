/**
 * The route handlers: the quickest route between two cities, and a seat
 * snapshot of a list of flights.
 */
module ServerRoutes {
  import opened Wrappers
  import opened Models
  import opened Responses
  import opened RouteGraph
  import opened FlightModel
  import opened FlightDao
  import opened AirportDao
  import opened ServerLookups

  const Missing := "some flight doesn't exist: "
  const InvalidCity := "not valid city name"
  const Unroutable := "no route"

  /** Every stored flight has both of its airports stored. */
  ghost predicate AirportsStored(flights: FlightStore, airports: AirportStore)
    reads flights, airports
  {
    forall u, v | flights.Occupied(u, v) :: flights.data[u][v].source in airports.data && flights.data[u][v].dest in airports.data
  }

  /**
   * `r` is what a seat snapshot of `ids` may come out as: the error naming
   * the first id no stored flight has, or, when all are stored, one
   * snapshot per id in order.
   */
  ghost predicate Snapshot(flights: FlightStore, airports: AirportStore, ids: seq<Uuid>, r: Result<seq<FlightInfo>, string>)
    reads flights, flights.Flights(), airports
  {
    match r
    case Failure(e) =>
      exists i | 0 <= i < |ids| ::
        && !flights.HasId(ids[i]) && (forall j | 0 <= j < i :: flights.HasId(ids[j]))
        && e == Missing + Text(ids[i])
    case Success(infos) =>
      && |infos| == |ids|
      && forall i | 0 <= i < |ids| :: InfoFor(flights, airports, ids[i], infos[i])
  }

  /**
   * Each id of `ids` up to and including the first one no stored flight
   * has, if any, is stored with both of its airports: the ids a seat
   * snapshot looks at before it stops.
   */
  ghost predicate DescribedUntilMissing(flights: FlightStore, airports: AirportStore, ids: seq<Uuid>)
    reads flights, flights.Flights(), airports
  {
    forall i | 0 <= i < |ids| && (forall j | 0 <= j <= i :: flights.HasId(ids[j])) :: Described(flights, airports, ids[i])
  }

  /** Past a prefix of stored ids, the next id, if stored, has both of its airports stored. */
  lemma DescribedNext(flights: FlightStore, airports: AirportStore, ids: seq<Uuid>, i: nat)
    requires DescribedUntilMissing(flights, airports, ids)
    requires i < |ids| && forall j | 0 <= j < i :: flights.HasId(ids[j])
    ensures flights.HasId(ids[i]) ==> Described(flights, airports, ids[i])
  {
    if flights.HasId(ids[i]) {
      assert forall j | 0 <= j <= i :: flights.HasId(ids[j]);
    }
  }

  /**
   * Seats left and city names for the flights `ids`, in order, up to the
   * first id no stored flight has.
   */
  method InformAll(flights: FlightStore, airports: AirportStore, ids: seq<Uuid>) returns (infos: seq<FlightInfo>)
    requires DescribedUntilMissing(flights, airports, ids)
    ensures |infos| <= |ids|
    ensures forall j | 0 <= j < |infos| :: InfoFor(flights, airports, ids[j], infos[j])
    ensures |infos| < |ids| ==> !flights.HasId(ids[|infos|])
  {
    infos := [];
    for i := 0 to |ids|
      invariant |infos| == i
      invariant forall j | 0 <= j < i :: InfoFor(flights, airports, ids[j], infos[j])
      invariant forall j | 0 <= j < i :: flights.HasId(ids[j])
    {
      DescribedNext(flights, airports, ids, i);
      var info := Inform(flights, airports, ids[i]);
      if info.None? {
        return;
      }
      infos := infos + [info.value];
    }
  }

  /**
   * Seats left and city names for each of the flights `ids`, in order;
   * fails at the first id no stored flight has.
   */
  method GetRoute(flights: FlightStore, airports: AirportStore, ids: seq<Uuid>) returns (r: Result<seq<FlightInfo>, string>)
    requires DescribedUntilMissing(flights, airports, ids)
    ensures r.Failure? <==> exists i | 0 <= i < |ids| :: !flights.HasId(ids[i])
    ensures Snapshot(flights, airports, ids, r)
  {
    var infos := InformAll(flights, airports, ids);
    forall j | 0 <= j < |infos| ensures flights.HasId(ids[j]) {
      InfoKnown(flights, airports, ids[j], infos[j]);
    }
    if |infos| < |ids| {
      return Failure(Missing + Text(ids[|infos|]));
    }
    return Success(infos);
  }

  /**
   * The seat snapshot of the flights `ids`. An unknown id is answered with
   * the error, followed by a listing whose list is nil. Without a session
   * the answer is "not authorized".
   */
  method Flights(session: Session?, ids: seq<Uuid>, flights: FlightStore, airports: AirportStore) returns (out: seq<Response>)
    requires session != null ==> DescribedUntilMissing(flights, airports, ids)
    ensures session == null ==> out == [NotAuthorized]
    ensures session != null && (exists i | 0 <= i < |ids| :: !flights.HasId(ids[i])) ==>
      && |out| == 2 && out[0].data == NoData && out[1] == Response("", Payload.Flights(None))
      && Snapshot(flights, airports, ids, Failure(out[0].error))
    ensures session != null && (forall i | 0 <= i < |ids| :: flights.HasId(ids[i])) ==>
      && |out| == 1 && out[0].error == "" && out[0].data.Flights? && out[0].data.flights.Some?
      && Snapshot(flights, airports, ids, Success(out[0].data.flights.value))
  {
    if session == null {
      return [NotAuthorized];
    }
    var r := GetRoute(flights, airports, ids);
    if r.Failure? {
      return [Response(r.error, NoData), Response("", Payload.Flights(None))];
    }
    return [Response("", Payload.Flights(Some(r.value)))];
  }

  /**
   * The quickest route from the city called `source` to the city called
   * `dest`, one leg per flight with the cities it joins and its id. The
   * cities are looked up by name (the ghost `from` and `to` are the
   * airports found) and the route is searched between those airports over
   * flights with seats left; the ghost `path` and `hops` are the flights
   * and airports of the route. A name no airport has is answered "not
   * valid city name", a pair of airports without a route "no route", and
   * without a session the answer is "not authorized". Reads only.
   */
  method Route(session: Session?, source: string, dest: string, flights: FlightStore, airports: AirportStore)
    returns (out: seq<Response>, ghost from: Airport, ghost to: Airport, ghost path: seq<Flight>, ghost hops: seq<Uuid>)
    requires session != null ==> AirportsStored(flights, airports)
    ensures session == null ==> out == [NotAuthorized]
    ensures session != null && !(airports.Named(source) && airports.Named(dest)) ==> out == [Response(InvalidCity, NoData)]
    ensures session != null && airports.Named(source) && airports.Named(dest) ==>
      && from.city.name == source && from in airports.data.Values
      && to.city.name == dest && to in airports.data.Values
      && (!Reachable(flights.SeatGraph(), from.id, to.id) ==> out == [Response(Unroutable, NoData)])
      && (Reachable(flights.SeatGraph(), from.id, to.id) ==>
           && |out| == 1 && out[0].error == "" && out[0].data.Path?
           && |hops| == |path| + 1 && |out[0].data.path| == |path|
           && PathFromTo(flights.SeatGraph(), hops, from.id, to.id)
           && NoShorter(flights.SeatGraph(), from.id, to.id, |path|)
           && forall i | 0 <= i < |path| ::
                && flights.Occupied(hops[i], hops[i + 1]) && path[i] == flights.data[hops[i]][hops[i + 1]]
                && path[i].source in airports.data && path[i].dest in airports.data
                && out[0].data.path[i] == Models.Route([airports.data[path[i].source].city, airports.data[path[i].dest].city], path[i].id))
  {
    from, to :| true;
    if session == null {
      return [NotAuthorized], from, to, [], [];
    }
    var src := airports.FindByName(source);
    var dst := airports.FindByName(dest);
    if src.None? || dst.None? {
      return [Response(InvalidCity, NoData)], from, to, [], [];
    }
    from, to := src.value, dst.value;
    var found;
    found, hops := flights.BreadthFirstSearch(src.value.id, dst.value.id);
    if found.Failure? {
      return [Response(Unroutable, NoData)], from, to, [], hops;
    }
    var route := found.value;
    path := route;
    var legs := [];
    for i := 0 to |route|
      invariant |legs| == i
      invariant forall j | 0 <= j < i ::
        && path[j].source in airports.data && path[j].dest in airports.data
        && legs[j] == Models.Route([airports.data[path[j].source].city, airports.data[path[j].dest].city], path[j].id)
    {
      assert flights.Occupied(hops[i], hops[i + 1]) && route[i] == flights.data[hops[i]][hops[i + 1]];
      var srcById := airports.FindById(route[i].source);
      var destById := airports.FindById(route[i].dest);
      legs := legs + [Models.Route([srcById.value.city, destById.value.city], route[i].id)];
    }
    return [Response("", Path(legs))], from, to, path, hops;
  }
}
