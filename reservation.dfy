/**
 * The reservation handlers: queueing a session for a list of flights, and
 * giving back a held reservation.
 */
module ServerReservation {
  import opened Wrappers
  import opened Models
  import opened Responses
  import opened FlightModel
  import opened FlightDao
  import opened AirportDao
  import opened ServerLookups
  import opened ServerRoutes

  const Unavailable := "at least one flight is not available"

  /** The session once for each slot of `chosen` holding `g`, as sending it slot by slot delivers it to `g`. */
  ghost function Sends(s: Session, chosen: seq<Flight?>, g: Flight): seq<Session>
  {
    if chosen == [] then []
    else Sends(s, chosen[..|chosen| - 1], g) + (if chosen[|chosen| - 1] == g then [s] else [])
  }

  /** Slot-by-slot sending delivers `s` to `g` as many times as `g` occurs in `chosen`. */
  lemma {:induction false} SendsCount(s: Session, chosen: seq<Flight?>, g: Flight)
    ensures Sends(s, chosen, g) == Repeat(s, multiset(chosen)[g])
  {
    if chosen != [] {
      var init, last := chosen[..|chosen| - 1], chosen[|chosen| - 1];
      assert chosen == init + [last];
      SendsCount(s, init, g);
      assert multiset(chosen) == multiset(init) + multiset{last};
    }
  }

  /** `n` copies of `s`. */
  function Repeat(s: Session, n: nat): (r: seq<Session>)
    ensures |r| == n && forall i | 0 <= i < n :: r[i] == s
  {
    if n == 0 then [] else Repeat(s, n - 1) + [s]
  }

  /**
   * `c` is what the availability pass put into the slot for `id`: a stored
   * flight with that id and seats left, or null for a full one.
   */
  ghost predicate Slotted(flights: FlightStore, id: Uuid, c: Flight?)
    reads flights, flights.Flights()`id, flights.Flights()`seats
  {
    if c == null then exists f | f in flights.Flights() && f.id == id :: f.seats == 0
    else c in flights.Flights() && c.id == id && c.seats > 0
  }

  /**
   * What a reservation request adds to the booking queue of `g`: the
   * session once per slot holding `g`, and nothing unless every slot was
   * filled.
   */
  function Queued(session: Session?, found: seq<Flight?>, g: Flight): seq<Session>
  {
    if session != null && AllOpen(found) then Repeat(session, multiset(found)[g]) else []
  }

  /** Each slot of `chosen` is what the availability pass put there for the matching id of `ids`. */
  ghost predicate AllSlotted(flights: FlightStore, ids: seq<Uuid>, chosen: seq<Flight?>)
    reads flights, flights.Flights()`id, flights.Flights()`seats
  {
    |chosen| == |ids| && forall i | 0 <= i < |ids| :: Slotted(flights, ids[i], chosen[i])
  }

  /** No slot of `chosen` was left empty. */
  predicate AllOpen(chosen: seq<Flight?>)
  {
    forall i | 0 <= i < |chosen| :: chosen[i] != null
  }

  /** Some flight a request for `ids` may pick is full. */
  ghost predicate AnyFull(flights: FlightStore, ids: seq<Uuid>)
    reads flights, flights.Flights()
  {
    exists f | f in flights.Flights() && f.id in ids :: f.seats == 0
  }

  /**
   * One step of the availability pass: looks `id` up; `slot` is the flight
   * found when it has seats left and null when it is full.
   */
  method Check(flights: FlightStore, id: Uuid) returns (flight: Flight, slot: Flight?)
    requires flights.HasId(id)
    ensures Slotted(flights, id, slot)
    ensures slot == null || slot == flight
  {
    var found := flights.FindById(id);
    flight := found.value;
    slot := if flight.seats == 0 then null else flight;
  }

  /**
   * The availability pass: looks each requested flight up, in order. A
   * flight with seats left goes into its slot of `chosen`; a full one
   * leaves the slot empty (null) and is listed in `notAvailable`.
   */
  method Pick(flights: FlightStore, ids: seq<Uuid>) returns (chosen: seq<Flight?>, notAvailable: seq<Flight>)
    requires forall i | 0 <= i < |ids| :: flights.HasId(ids[i])
    ensures |chosen| == |ids|
    ensures AllSlotted(flights, ids, chosen)
    ensures notAvailable == [] <==> AllOpen(chosen)
  {
    chosen, notAvailable := [], [];
    for i := 0 to |ids|
      invariant |chosen| == i
      invariant AllSlotted(flights, ids[..i], chosen)
      invariant notAvailable == [] <==> AllOpen(chosen)
    {
      var flight, slot := Check(flights, ids[i]);
      if slot == null {
        notAvailable := notAvailable + [flight];
      }
      assert ids[..i + 1] == ids[..i] + [ids[i]];
      chosen := chosen + [slot];
    }
    assert ids[..|ids|] == ids;
  }

  /**
   * Sends `session` to the booking queue of each flight of `chosen`, in
   * order: a flight appearing k times receives the session k times.
   */
  method Enqueue(session: Session, chosen: seq<Flight?>, ghost pool: set<Flight>)
    requires AllOpen(chosen) && forall i | 0 <= i < |chosen| :: chosen[i] in pool
    modifies pool`queue
    ensures forall g | g in pool :: g.queue == old(g.queue) + Repeat(session, multiset(chosen)[g])
  {
    for i := 0 to |chosen|
      invariant forall g | g in pool :: g.queue == old(g.queue) + Sends(session, chosen[..i], g)
    {
      var f := chosen[i];
      assert chosen[..i + 1][..i] == chosen[..i];
      f.queue := f.queue + [session];
    }
    assert chosen[..|chosen|] == chosen;
    forall g | g in pool ensures Sends(session, chosen, g) == Repeat(session, multiset(chosen)[g]) {
      SendsCount(session, chosen, g);
    }
  }

  /**
   * The refusal when some requested flight is full: the error, with a seat
   * snapshot of all the requested flights.
   */
  method Refuse(flights: FlightStore, airports: AirportStore, ids: seq<Uuid>) returns (out: seq<Response>)
    requires forall i | 0 <= i < |ids| :: Described(flights, airports, ids[i])
    ensures |out| == 1 && out[0].error == Unavailable && out[0].data.Flights? && out[0].data.flights.Some?
    ensures Snapshot(flights, airports, ids, Success(out[0].data.flights.value))
  {
    var snapshot := GetRoute(flights, airports, ids);
    return [Response(Unavailable, Payload.Flights(Some(snapshot.value)))];
  }

  /**
   * Asks for a seat on each flight of `ids`, in order; the ghost `found`
   * holds, per request, the flight the lookup returned when it had seats
   * left and null when it was full. When every flight found has seats left
   * the session joins the booking queue of each, once per request, and the
   * answer is "success"; the seats themselves are taken later by the
   * booking worker. When one of them is full nothing is queued and the
   * answer is "at least one flight is not available" with a seat snapshot
   * of all of them. Without a session the answer is "not authorized". Only
   * queues change.
   */
  method Reservation(session: Session?, ids: seq<Uuid>, flights: FlightStore, airports: AirportStore)
    returns (out: seq<Response>, ghost found: seq<Flight?>)
    requires session != null ==> forall i | 0 <= i < |ids| :: flights.HasId(ids[i])
    requires session != null && AnyFull(flights, ids) ==> forall i | 0 <= i < |ids| :: Described(flights, airports, ids[i])
    modifies flights.Flights()`queue
    ensures session == null ==> out == [NotAuthorized] && found == []
    ensures session != null ==> |found| == |ids| && AllSlotted(flights, ids, found)
    ensures session != null && !AllOpen(found) ==>
      && |out| == 1 && out[0].error == Unavailable
      && out[0].data.Flights? && out[0].data.flights.Some?
      && Snapshot(flights, airports, ids, Success(out[0].data.flights.value))
    ensures session != null && AllOpen(found) ==> out == [Done]
    ensures forall g | g in old(flights.Flights()) :: g.queue == old(g.queue) + Queued(session, found, g)
  {
    if session == null {
      return [NotAuthorized], [];
    }
    ghost var pool := flights.Flights();
    var chosen, notAvailable := Pick(flights, ids);
    found := chosen;
    if notAvailable != [] {
      out := Refuse(flights, airports, ids);
      return;
    }
    Enqueue(session, chosen, pool);
    return [Done], found;
  }

  /**
   * The flight side of giving back a reservation for flight `flightId`:
   * the flight the lookup by id finds, the ghost `f`, gets its seat back.
   * No other flight changes.
   */
  method Refund(flights: FlightStore, flightId: Uuid) returns (ghost f: Flight)
    requires flights.HasId(flightId)
    modifies flights.FlightsWithId(flightId)
    ensures f in old(flights.FlightsWithId(flightId))
    ensures f.seats == old(f.seats) + 1
    ensures f.passengers == old(f.passengers) && f.queue == old(f.queue) && f.id == old(f.id)
    ensures forall g | g in old(flights.FlightsWithId(flightId)) && g != f :: unchanged(g)
  {
    var flight := flights.FindById(flightId);
    f := flight.value;
    flight.value.seats := flight.value.seats + 1;
  }

  /**
   * Gives back the held reservation `reservationId`: the flight its ticket
   * is for, as the lookup by id finds it (the ghost `f`), gets the seat
   * back, and the reservation leaves the session. The ticket the seat was
   * granted with stays among the flight's passengers. Without a session
   * the answer is "not authorized".
   */
  method CancelReservation(session: Session?, reservationId: Uuid, flights: FlightStore)
    returns (out: seq<Response>, ghost f: Flight?)
    requires session != null ==>
      reservationId in session.reservations && flights.HasId(session.reservations[reservationId].ticket.flightId)
    modifies session
    modifies if session != null then flights.FlightsWithId(session.reservations[reservationId].ticket.flightId) else {}
    ensures session == null ==> out == [NotAuthorized]
    ensures session != null ==>
      var flightId := old(session.reservations[reservationId].ticket.flightId);
      && out == [Done]
      && session.reservations == old(session.reservations) - {reservationId}
      && session.id == old(session.id)
      && f in old(flights.FlightsWithId(flightId))
      && f.seats == old(f.seats) + 1
      && f.passengers == old(f.passengers) && f.queue == old(f.queue) && f.id == old(f.id)
      && forall g | g in old(flights.FlightsWithId(flightId)) && g != f :: unchanged(g)
  {
    if session == null {
      return [NotAuthorized], null;
    }
    var reservation := session.reservations[reservationId];
    f := Refund(flights, reservation.ticket.flightId);
    session.reservations := session.reservations - {reservationId};
    return [Done], f;
  }

  /**
   * A seat granted by the booking worker and then given back: with flight
   * ids unique, the flight ends with its seat count and the session with
   * its reservations as they were, while the granted ticket stays among
   * the passengers.
   */
  method GrantThenCancel(flights: FlightStore, f: Flight, session: Session, ticketId: Uuid, rid: Uuid)
    requires flights.UniqueIds() && f in flights.Flights()
    requires f.seats > 0 && ticketId !in TicketIds(f.passengers) && rid !in session.reservations
    modifies f, session
    ensures f.seats == old(f.seats) && f.id == old(f.id) && f.queue == old(f.queue)
    ensures f.passengers == old(f.passengers) + [Ticket(ticketId, session.clientId, f.id)]
    ensures session.reservations == old(session.reservations) && session.id == old(session.id)
  {
    var granted := f.Serve(session, ticketId, rid);
    assert flights.FlightsWithId(f.id) == {f};
    var out, g := CancelReservation(session, rid, flights);
  }
}
