/**
 * A flight's seat inventory and its booking worker. The worker's channel is
 * the sequence `queue`, drained in order; the flight's mutex is sequential
 * execution.
 */
module FlightModel {
  import opened Wrappers
  import opened Models

  const NoSeats := "no seats available"

  /** Every id in `ids` is different from the others. */
  ghost predicate DistinctIds(ids: seq<Uuid>)
  {
    forall i, j | 0 <= i < j < |ids| :: ids[i] != ids[j]
  }

  /**
   * The tickets the first `g` queued sessions receive, in queue order: the
   * i-th carries the i-th ticket id, the session's client and the flight.
   */
  function Issued(q: seq<Session>, ticketIds: seq<Uuid>, flightId: Uuid, g: nat): seq<Ticket>
    requires g <= |q| <= |ticketIds|
  {
    if g == 0 then []
    else Issued(q, ticketIds, flightId, g - 1) + [Ticket(ticketIds[g - 1], q[g - 1].clientId, flightId)]
  }

  /**
   * The reservations session `s` receives from the first `g` queued
   * sessions: one for each position where `s` was queued.
   */
  function Granted(q: seq<Session>, ticketIds: seq<Uuid>, resIds: seq<Uuid>, flightId: Uuid, g: nat, s: Session)
    : map<Uuid, Reservation>
    requires g <= |q| <= |ticketIds| && |q| <= |resIds|
  {
    if g == 0 then map[]
    else
      var before := Granted(q, ticketIds, resIds, flightId, g - 1, s);
      if q[g - 1] == s
      then before[resIds[g - 1] := Reservation(resIds[g - 1], Ticket(ticketIds[g - 1], s.clientId, flightId))]
      else before
  }

  /** The i-th issued ticket is built from the i-th ticket id and queued session. */
  lemma {:induction false} IssuedAt(q: seq<Session>, ticketIds: seq<Uuid>, flightId: Uuid, g: nat, i: nat)
    requires g <= |q| <= |ticketIds| && i < g
    ensures |Issued(q, ticketIds, flightId, g)| == g
    ensures Issued(q, ticketIds, flightId, g)[i] == Ticket(ticketIds[i], q[i].clientId, flightId)
  {
    if i < g - 1 {
      IssuedAt(q, ticketIds, flightId, g - 1, i);
    } else {
      IssuedLength(q, ticketIds, flightId, g - 1);
    }
  }

  lemma {:induction false} IssuedLength(q: seq<Session>, ticketIds: seq<Uuid>, flightId: Uuid, g: nat)
    requires g <= |q| <= |ticketIds|
    ensures |Issued(q, ticketIds, flightId, g)| == g
    ensures TicketIds(Issued(q, ticketIds, flightId, g)) == set i | 0 <= i < g :: ticketIds[i]
  {
    if g > 0 {
      IssuedLength(q, ticketIds, flightId, g - 1);
      var before := Issued(q, ticketIds, flightId, g - 1);
      var t := Ticket(ticketIds[g - 1], q[g - 1].clientId, flightId);
      assert TicketIds(before + [t]) == TicketIds(before) + {t.id};
      assert (set i | 0 <= i < g :: ticketIds[i]) == (set i | 0 <= i < g - 1 :: ticketIds[i]) + {ticketIds[g - 1]};
    }
  }

  /**
   * With distinct reservation ids, session `s` holds reservation id `resIds[i]`
   * after the first `g` bookings exactly when `i < g` and `s` was the i-th
   * queued session; that reservation carries the i-th ticket, attributed to
   * `s`'s client, and every granted reservation is stored under its own id.
   */
  lemma {:induction false} GrantedExactly(q: seq<Session>, ticketIds: seq<Uuid>, resIds: seq<Uuid>, flightId: Uuid,
                                          g: nat, s: Session, i: nat)
    requires g <= |q| <= |ticketIds| && |q| <= |resIds| && i < |q|
    requires DistinctIds(resIds)
    ensures resIds[i] in Granted(q, ticketIds, resIds, flightId, g, s) <==> i < g && q[i] == s
    ensures resIds[i] in Granted(q, ticketIds, resIds, flightId, g, s) ==>
      Granted(q, ticketIds, resIds, flightId, g, s)[resIds[i]]
        == Reservation(resIds[i], Ticket(ticketIds[i], s.clientId, flightId))
  {
    if g > 0 {
      GrantedExactly(q, ticketIds, resIds, flightId, g - 1, s, i);
      if i != g - 1 {
        assert resIds[i] != resIds[g - 1];
      }
    }
  }

  /** Every granted reservation is stored under its own id. */
  lemma {:induction false} GrantedKeyed(q: seq<Session>, ticketIds: seq<Uuid>, resIds: seq<Uuid>, flightId: Uuid,
                                        g: nat, s: Session)
    requires g <= |q| <= |ticketIds| && |q| <= |resIds|
    ensures forall k | k in Granted(q, ticketIds, resIds, flightId, g, s) ::
      Granted(q, ticketIds, resIds, flightId, g, s)[k].id == k
    ensures Granted(q, ticketIds, resIds, flightId, g, s).Keys <= set i | 0 <= i < g :: resIds[i]
  {
    if g > 0 {
      GrantedKeyed(q, ticketIds, resIds, flightId, g - 1, s);
    }
  }

  lemma AppendTicketIds(a: seq<Ticket>, b: seq<Ticket>)
    ensures TicketIds(a + b) == TicketIds(a) + TicketIds(b)
  {
    forall x | x in TicketIds(a + b) ensures x in TicketIds(a) + TicketIds(b) {
      var t :| t in a + b && t.id == x;
    }
  }

  /** One more booking adds at most one entry, for session `q[g - 1]`. */
  lemma GrantedStep(q: seq<Session>, ticketIds: seq<Uuid>, resIds: seq<Uuid>, flightId: Uuid,
                    g: nat, s: Session, before: map<Uuid, Reservation>)
    requires 0 < g <= |q| <= |ticketIds| && |q| <= |resIds|
    ensures before + Granted(q, ticketIds, resIds, flightId, g, s) ==
      if q[g - 1] == s
      then (before + Granted(q, ticketIds, resIds, flightId, g - 1, s))
             [resIds[g - 1] := Reservation(resIds[g - 1], Ticket(ticketIds[g - 1], s.clientId, flightId))]
      else before + Granted(q, ticketIds, resIds, flightId, g - 1, s)
  {
  }

  class Flight {
    var id: Uuid
    const source: Uuid
    const dest: Uuid
    var passengers: seq<Ticket>
    var seats: nat
    var queue: seq<Session>

    constructor (id: Uuid, source: Uuid, dest: Uuid, passengers: seq<Ticket>, seats: nat)
      ensures this.id == id && this.source == source && this.dest == dest
      ensures this.passengers == passengers && this.seats == seats && queue == []
    {
      this.id := id;
      this.source := source;
      this.dest := dest;
      this.passengers := passengers;
      this.seats := seats;
      queue := [];
    }

    /**
     * Takes one seat if any is left: the seat count drops by one and a new
     * ticket for this flight, not yet attributed to a client, is appended to
     * the passenger list and returned. Without seats nothing changes. Either
     * way seats plus passengers is conserved. `ticketId` is the fresh UUID.
     */
    method AcceptReservation(ticketId: Uuid) returns (r: Result<Ticket, string>)
      requires ticketId !in TicketIds(passengers)
      modifies this`seats, this`passengers
      ensures old(seats) > 0 ==>
        r == Success(Ticket(ticketId, NilUuid, id)) && seats == old(seats) - 1 && passengers == old(passengers) + [r.value]
      ensures old(seats) == 0 ==> r == Failure(NoSeats) && seats == 0 && passengers == old(passengers)
      ensures seats + |passengers| == old(seats) + |old(passengers)|
    {
      if seats > 0 {
        seats := seats - 1;
        var ticket := Ticket(ticketId, NilUuid, id);
        passengers := passengers + [ticket];
        return Success(ticket);
      }
      return Failure(NoSeats);
    }

    /**
     * One turn of the booking worker for `session`: takes a seat if any is
     * left and, if it got one, attributes the new ticket to the session's
     * client and records a reservation holding it under the fresh id `rid`.
     * Without seats the session is skipped and nothing changes.
     */
    method Serve(session: Session, ticketId: Uuid, rid: Uuid) returns (granted: bool)
      requires ticketId !in TicketIds(passengers)
      modifies this`seats, this`passengers, session`reservations
      ensures granted <==> old(seats) > 0
      ensures granted ==>
        && seats == old(seats) - 1
        && passengers == old(passengers) + [Ticket(ticketId, session.clientId, id)]
        && session.reservations == old(session.reservations)[rid := Reservation(rid, Ticket(ticketId, session.clientId, id))]
      ensures !granted ==> seats == old(seats) && passengers == old(passengers) && session.reservations == old(session.reservations)
    {
      var ticket := AcceptReservation(ticketId);
      if ticket.Failure? {
        return false;
      }
      // The ticket just appended to the passenger list is the one attributed
      // here: the source shares one Ticket between both.
      var attributed := ticket.value.(clientId := session.clientId);
      passengers := passengers[..|passengers| - 1] + [attributed];
      session.reservations := session.reservations[rid := Reservation(rid, attributed)];
      return true;
    }

    /**
     * Drains the booking queue in order. With k seats and n queued sessions
     * exactly the first min(n, k) get a seat: the i-th of them receives a
     * reservation under `resIds[i]` holding ticket `ticketIds[i]`, attributed
     * to its client; the others are skipped and keep their reservations.
     * `ticketIds` and `resIds` are the fresh UUIDs the loop would draw, one
     * pair per queued session.
     */
    method ProcessReservations(ticketIds: seq<Uuid>, resIds: seq<Uuid>)
      requires |ticketIds| == |queue| == |resIds|
      requires DistinctIds(ticketIds) && DistinctIds(resIds)
      requires forall i | 0 <= i < |ticketIds| :: ticketIds[i] !in TicketIds(passengers)
      requires forall i, s | 0 <= i < |resIds| && s in queue :: resIds[i] !in s.reservations
      modifies this`seats, this`passengers, this`queue, queue
      ensures queue == []
      ensures var g := if |old(queue)| < old(seats) then |old(queue)| else old(seats);
        && seats == old(seats) - g
        && passengers == old(passengers) + Issued(old(queue), ticketIds, id, g)
        && forall s | s in old(queue) ::
             s.id == old(s.id) && s.reservations == old(s.reservations) + Granted(old(queue), ticketIds, resIds, id, g, s)
    {
      // The sessions are received from the channel in order; nothing else
      // reads it meanwhile, so the model empties it once all are served.
      var pending := queue;
      ghost var k := seats;
      ghost var p0 := passengers;
      ghost var g: nat := 0;
      var i := 0;
      while i < |pending|
        invariant 0 <= i <= |pending| && queue == pending
        invariant g == (if i < k then i else k)
        invariant seats == k - g
        invariant passengers == p0 + Issued(pending, ticketIds, id, g)
        invariant forall s | s in pending ::
          s.id == old(s.id) && s.reservations == old(s.reservations) + Granted(pending, ticketIds, resIds, id, g, s)
      {
        var session := pending[i];
        IssuedLength(pending, ticketIds, id, g);
        AppendTicketIds(p0, Issued(pending, ticketIds, id, g));
        var granted := Serve(session, ticketIds[i], resIds[i]);
        if granted {
          assert i == g;
          assert passengers == p0 + (Issued(pending, ticketIds, id, g) + [Ticket(ticketIds[g], session.clientId, id)]);
          g := g + 1;
          forall s | s in pending
            ensures s.reservations == old(s.reservations) + Granted(pending, ticketIds, resIds, id, g, s)
          {
            GrantedStep(pending, ticketIds, resIds, id, g, s, old(s.reservations));
          }
        }
        i := i + 1;
      }
      queue := [];
    }
  }
}
