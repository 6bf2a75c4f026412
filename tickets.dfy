/**
 * The ticket handlers: listing a client's tickets, buying a held
 * reservation, cancelling a bought ticket, and the two list helpers they
 * share.
 */
module ServerTickets {
  import opened Wrappers
  import opened Models
  import opened Responses
  import opened FlightModel
  import opened FlightDao
  import opened AirportDao
  import opened ClientDao
  import opened ServerLookups

  const NoReservation := "reservation do not exists"

  /** `i` is the position of the first ticket in `ts` with id `id`. */
  ghost predicate FirstAt(ts: seq<Ticket>, id: Uuid, i: nat)
  {
    i < |ts| && ts[i].id == id && forall j | 0 <= j < i :: ts[j].id != id
  }

  /** The first ticket in `ts` with id `id`, or None exactly when no ticket has it. */
  function TicketWithId(ts: seq<Ticket>, id: Uuid): (r: Option<Ticket>)
    ensures r.None? <==> forall i | 0 <= i < |ts| :: ts[i].id != id
    ensures r.Some? ==> exists i: nat :: FirstAt(ts, id, i) && ts[i] == r.value
  {
    if ts == [] then None
    else if ts[0].id == id then
      assert FirstAt(ts, id, 0);
      Some(ts[0])
    else
      var r := TicketWithId(ts[1..], id);
      assert forall i: nat | FirstAt(ts[1..], id, i) :: FirstAt(ts, id, i + 1);
      r
  }

  /** Scans the tickets in order for the first one with id `id`. */
  method FindTicketById(ts: seq<Ticket>, id: Uuid) returns (r: Option<Ticket>)
    ensures r == TicketWithId(ts, id)
  {
    for i := 0 to |ts|
      invariant forall j | 0 <= j < i :: ts[j].id != id
    {
      if ts[i].id == id {
        assert FirstAt(ts, id, i);
        return Some(ts[i]);
      }
    }
    return None;
  }

  /** `ts` without its first ticket with id `id`; unchanged when no ticket has it. */
  function WithoutFirst(ts: seq<Ticket>, id: Uuid): seq<Ticket>
  {
    if ts == [] then []
    else if ts[0].id == id then ts[1..]
    else [ts[0]] + WithoutFirst(ts[1..], id)
  }

  /** Removing the first match is splicing it out at its position. */
  lemma {:induction false} WithoutFirstAt(ts: seq<Ticket>, id: Uuid, i: nat)
    requires FirstAt(ts, id, i)
    ensures WithoutFirst(ts, id) == ts[..i] + ts[i + 1..]
  {
    if i > 0 {
      assert FirstAt(ts[1..], id, i - 1);
      WithoutFirstAt(ts[1..], id, i - 1);
      assert ts[..i] == [ts[0]] + ts[1..][..i - 1];
      assert ts[i + 1..] == ts[1..][i..];
    }
  }

  /** Without a match nothing is removed. */
  lemma {:induction false} WithoutFirstNone(ts: seq<Ticket>, id: Uuid)
    requires forall i | 0 <= i < |ts| :: ts[i].id != id
    ensures WithoutFirst(ts, id) == ts
  {
    if ts != [] {
      WithoutFirstNone(ts[1..], id);
    }
  }

  /** Splicing out the first match removes one copy of it and keeps every other ticket. */
  lemma WithoutFirstCount(ts: seq<Ticket>, id: Uuid, i: nat)
    requires FirstAt(ts, id, i)
    ensures |WithoutFirst(ts, id)| == |ts| - 1
    ensures multiset(ts) == multiset(WithoutFirst(ts, id)) + multiset{ts[i]}
  {
    WithoutFirstAt(ts, id, i);
    var before, after := ts[..i], ts[i + 1..];
    assert ts == before + [ts[i]] + after;
    assert multiset(ts) == multiset(before) + multiset([ts[i]]) + multiset(after);
    assert multiset(WithoutFirst(ts, id)) == multiset(before) + multiset(after);
  }

  /**
   * Removing by id takes out exactly one copy of the ticket `TicketWithId`
   * finds, and nothing else; without a match the list stays as it is.
   */
  lemma WithoutFirstRemovesFound(ts: seq<Ticket>, id: Uuid)
    ensures TicketWithId(ts, id).None? ==> WithoutFirst(ts, id) == ts
    ensures TicketWithId(ts, id).Some? ==>
      && |WithoutFirst(ts, id)| == |ts| - 1
      && multiset(ts) == multiset(WithoutFirst(ts, id)) + multiset{TicketWithId(ts, id).value}
  {
    var r := TicketWithId(ts, id);
    if r.None? {
      WithoutFirstNone(ts, id);
    } else {
      var i: nat :| FirstAt(ts, id, i) && ts[i] == r.value;
      WithoutFirstCount(ts, id, i);
    }
  }

  /**
   * Cancelling a bought ticket `t` gives the client its list back as it was
   * before the purchase appended `t`.
   */
  lemma CancelUndoesPurchase(c: seq<Ticket>, t: Ticket)
    requires t.id !in TicketIds(c)
    ensures WithoutFirst(c + [t], t.id) == c
  {
    assert FirstAt(c + [t], t.id, |c|) by {
      assert forall j | 0 <= j < |c| :: c[j] in c;
    }
    WithoutFirstAt(c + [t], t.id, |c|);
    assert (c + [t])[..|c|] == c;
  }

  /**
   * A flight's passenger list gets ticket `t` once when the seat is
   * granted and once more when the reservation is bought; cancelling the
   * purchase removes only the first of the two, so one copy is left.
   */
  lemma CancelLeavesGrantedCopy(p: seq<Ticket>, t: Ticket)
    requires t.id !in TicketIds(p)
    ensures WithoutFirst(p + [t] + [t], t.id) == p + [t]
  {
    assert FirstAt(p + [t] + [t], t.id, |p|) by {
      assert forall j | 0 <= j < |p| :: p[j] in p;
    }
    WithoutFirstAt(p + [t] + [t], t.id, |p|);
    assert (p + [t] + [t])[..|p|] == p;
    assert (p + [t] + [t])[|p| + 1..] == [t];
  }

  /**
   * Drops the first ticket with id `id`, keeping the others in order; with
   * no match the list comes back unchanged.
   */
  method RemoveTicketById(ts: seq<Ticket>, id: Uuid) returns (r: seq<Ticket>)
    ensures r == WithoutFirst(ts, id)
  {
    for i := 0 to |ts|
      invariant forall j | 0 <= j < i :: ts[j].id != id
    {
      if ts[i].id == id {
        WithoutFirstAt(ts, id, i);
        return ts[..i] + ts[i + 1..];
      }
    }
    WithoutFirstNone(ts, id);
    return ts;
  }

  /**
   * The client's tickets, one row per ticket in list order, each with the
   * cities of the ticket's flight and the ticket's id. Without a session
   * the answer is "not authorized". Reads only.
   */
  method GetTickets(session: Session?, flights: FlightStore, airports: AirportStore, clients: ClientStore)
    returns (out: seq<Response>)
    requires session != null ==>
      && session.clientId in clients.data
      && var ts := clients.data[session.clientId].clientFlights;
         forall i | 0 <= i < |ts| :: Described(flights, airports, ts[i].flightId)
    ensures session == null ==> out == [NotAuthorized]
    ensures session != null ==>
      && |out| == 1 && out[0].error == "" && out[0].data.Tickets?
      && var ts := clients.data[session.clientId].clientFlights;
         |out[0].data.tickets| == |ts|
         && forall i | 0 <= i < |ts| :: RowFor(flights, airports, ts[i].flightId, ts[i].id, out[0].data.tickets[i])
  {
    if session == null {
      return [NotAuthorized];
    }
    var client := clients.FindById(session.clientId);
    var ts := client.value.clientFlights;
    var rows := DescribeAll(flights, airports, seq(|ts|, i requires 0 <= i < |ts| => (ts[i].flightId, ts[i].id)));
    return [Response("", Tickets(rows))];
  }

  /**
   * The flight side of buying ticket `t`: the flight the lookup by id
   * finds, the ghost `f`, lists `t` once more among its passengers. No
   * other flight changes.
   */
  method Board(flights: FlightStore, t: Ticket) returns (ghost f: Flight)
    requires flights.HasId(t.flightId)
    modifies flights.FlightsWithId(t.flightId)
    ensures f in old(flights.FlightsWithId(t.flightId))
    ensures f.passengers == old(f.passengers) + [t]
    ensures f.seats == old(f.seats) && f.queue == old(f.queue) && f.id == old(f.id)
    ensures forall g | g in old(flights.FlightsWithId(t.flightId)) && g != f :: unchanged(g)
  {
    var flight := flights.FindById(t.flightId);
    f := flight.value;
    flight.value.passengers := flight.value.passengers + [t];
  }

  /**
   * Commits the held reservation `reservationId`: its ticket is appended to
   * the passengers of its flight and to its client's tickets, and the
   * reservation is dropped from the session. The seat was already taken when
   * the reservation was granted, so the seat count stays. An unknown
   * reservation is answered "reservation do not exists", followed by a
   * "success" all the same, and changes nothing. Without a session the
   * answer is "not authorized". The ghost `f` is the flight the lookup by
   * id found; no other flight changes.
   */
  method BuyTicket(session: Session?, reservationId: Uuid, flights: FlightStore, clients: ClientStore)
    returns (out: seq<Response>, ghost f: Flight?)
    requires session != null && reservationId in session.reservations ==>
      var t := session.reservations[reservationId].ticket;
      t.clientId in clients.data && flights.HasId(t.flightId)
    modifies session
    modifies if session != null && reservationId in session.reservations
      then {clients.data[session.reservations[reservationId].ticket.clientId]}
           + flights.FlightsWithId(session.reservations[reservationId].ticket.flightId)
      else {}
    ensures session == null ==> out == [NotAuthorized]
    ensures session != null ==> session.id == old(session.id)
    ensures session != null && reservationId !in old(session.reservations) ==>
      out == [Response(NoReservation, NoData), Done] && session.reservations == old(session.reservations)
    ensures session != null && reservationId in old(session.reservations) ==>
      var res := old(session.reservations[reservationId]);
      var c := clients.data[res.ticket.clientId];
      && out == [Done]
      && session.reservations == old(session.reservations) - {res.id}
      && c.clientFlights == old(c.clientFlights) + [res.ticket] && c.id == old(c.id)
      && f in old(flights.FlightsWithId(res.ticket.flightId))
      && f.passengers == old(f.passengers) + [res.ticket]
      && f.seats == old(f.seats) && f.queue == old(f.queue) && f.id == old(f.id)
      && forall g | g in old(flights.FlightsWithId(res.ticket.flightId)) && g != f :: unchanged(g)
  {
    if session == null {
      return [NotAuthorized], null;
    }
    if reservationId !in session.reservations {
      return [Response(NoReservation, NoData), Done], null;
    }
    var res := session.reservations[reservationId];
    var client := clients.FindById(res.ticket.clientId);
    f := Board(flights, res.ticket);
    client.value.clientFlights := client.value.clientFlights + [res.ticket];
    session.reservations := session.reservations - {res.id};
    return [Done], f;
  }

  /**
   * The flight side of cancelling ticket `t`: the flight the lookup by id
   * finds, the ghost `f`, gets the seat back and its passenger list loses
   * its first ticket with `t`'s id. No other flight changes.
   */
  method ReleaseSeat(flights: FlightStore, t: Ticket) returns (ghost f: Flight)
    requires flights.HasId(t.flightId)
    modifies flights.FlightsWithId(t.flightId)
    ensures f in old(flights.FlightsWithId(t.flightId))
    ensures f.seats == old(f.seats) + 1 && f.passengers == WithoutFirst(old(f.passengers), t.id)
    ensures f.queue == old(f.queue) && f.id == old(f.id)
    ensures forall g | g in old(flights.FlightsWithId(t.flightId)) && g != f :: unchanged(g)
  {
    var flight := flights.FindById(t.flightId);
    f := flight.value;
    flight.value.seats := flight.value.seats + 1;
    flight.value.passengers := RemoveTicketById(flight.value.passengers, t.id);
  }

  /**
   * Cancels the client's bought ticket `ticketId`: the first ticket with
   * that id leaves the client's list, the flight the lookup by id finds,
   * the ghost `f`, gets the seat back, and its passenger list loses its
   * first ticket with that id. No other flight changes. Without a session
   * the answer is "not authorized".
   */
  method CancelBuy(session: Session?, ticketId: Uuid, flights: FlightStore, clients: ClientStore)
    returns (out: seq<Response>, ghost f: Flight?)
    requires session != null ==>
      && session.clientId in clients.data
      && var t := TicketWithId(clients.data[session.clientId].clientFlights, ticketId);
         t.Some? && flights.HasId(t.value.flightId)
    modifies if session != null
      then {clients.data[session.clientId]}
           + flights.FlightsWithId(TicketWithId(clients.data[session.clientId].clientFlights, ticketId).value.flightId)
      else {}
    ensures session == null ==> out == [NotAuthorized]
    ensures session != null ==>
      var c := clients.data[session.clientId];
      var t := TicketWithId(old(c.clientFlights), ticketId).value;
      && out == [Done]
      && c.clientFlights == WithoutFirst(old(c.clientFlights), ticketId) && c.id == old(c.id)
      && f in old(flights.FlightsWithId(t.flightId))
      && f.seats == old(f.seats) + 1
      && f.passengers == WithoutFirst(old(f.passengers), ticketId)
      && f.queue == old(f.queue) && f.id == old(f.id)
      && forall g | g in old(flights.FlightsWithId(t.flightId)) && g != f :: unchanged(g)
  {
    if session == null {
      return [NotAuthorized], null;
    }
    var client := clients.FindById(session.clientId);
    var found := FindTicketById(client.value.clientFlights, ticketId);
    var ticket := found.value;
    client.value.clientFlights := RemoveTicketById(client.value.clientFlights, ticket.id);
    f := ReleaseSeat(flights, ticket);
    return [Done], f;
  }

  /**
   * A seat granted by the booking worker and then bought: with `f` the only
   * flight with its id, the ticket is listed twice among the flight's
   * passengers (once for the grant, once for the purchase) and once among
   * the client's tickets, and the reservation is gone again.
   */
  method GrantThenBuy(flights: FlightStore, clients: ClientStore, f: Flight, session: Session, c: Client, ticketId: Uuid, rid: Uuid)
    requires flights.FlightsWithId(f.id) == {f}
    requires f.seats > 0 && ticketId !in TicketIds(f.passengers) && rid !in session.reservations
    requires session.clientId in clients.data && clients.data[session.clientId] == c
    modifies f, session, c
    ensures flights.FlightsWithId(f.id) == {f} && f.id == old(f.id) && f.queue == old(f.queue)
    ensures f.seats == old(f.seats) - 1
    ensures f.passengers == old(f.passengers) + [Ticket(ticketId, session.clientId, f.id)] + [Ticket(ticketId, session.clientId, f.id)]
    ensures session.reservations == old(session.reservations) && session.id == old(session.id)
    ensures c.clientFlights == old(c.clientFlights) + [Ticket(ticketId, session.clientId, f.id)] && c.id == old(c.id)
  {
    var granted := f.Serve(session, ticketId, rid);
    assert flights.FlightsWithId(f.id) == {f};
    var bought, g := BuyTicket(session, rid, flights, clients);
  }

  /**
   * A seat granted, bought, and the purchase then cancelled: with `f` the
   * only flight with its id, the flight ends with its seat count, the client
   * with its tickets and the session with its reservations as they were,
   * while one copy of the ticket stays among the passengers.
   */
  method GrantBuyCancel(flights: FlightStore, clients: ClientStore, f: Flight, session: Session, c: Client, ticketId: Uuid, rid: Uuid)
    requires flights.FlightsWithId(f.id) == {f}
    requires f.seats > 0 && ticketId !in TicketIds(f.passengers) && rid !in session.reservations
    requires session.clientId in clients.data && clients.data[session.clientId] == c
    requires ticketId !in TicketIds(c.clientFlights)
    modifies f, session, c
    ensures f.seats == old(f.seats) && f.id == old(f.id) && f.queue == old(f.queue)
    ensures f.passengers == old(f.passengers) + [Ticket(ticketId, session.clientId, f.id)]
    ensures session.reservations == old(session.reservations) && session.id == old(session.id)
    ensures c.clientFlights == old(c.clientFlights) && c.id == old(c.id)
  {
    ghost var t := Ticket(ticketId, session.clientId, f.id);
    GrantThenBuy(flights, clients, f, session, c, ticketId, rid);
    CancelUndoesPurchase(old(c.clientFlights), t);
    CancelLeavesGrantedCopy(old(f.passengers), t);
    assert TicketWithId(c.clientFlights, ticketId) == Some(t) by {
      assert FirstAt(c.clientFlights, ticketId, |old(c.clientFlights)|);
    }
    var cancelled, h := CancelBuy(session, ticketId, flights, clients);
  }
}
