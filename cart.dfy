/** The cart handler: listing the reservations a session holds. */
module ServerCart {
  import opened Models
  import opened Responses
  import opened MapIteration
  import opened FlightDao
  import opened AirportDao
  import opened ServerLookups

  /**
   * The session's reservations, one row per reservation in the map's
   * iteration order (the ghost `keys`), each with the cities of the
   * reserved flight and the reservation's id. Without a session the answer
   * is "not authorized". Reads only.
   */
  method GetCart(session: Session?, flights: FlightStore, airports: AirportStore)
    returns (out: seq<Response>, ghost keys: seq<Uuid>)
    requires session != null ==>
      forall k | k in session.reservations :: Described(flights, airports, session.reservations[k].ticket.flightId)
    ensures session == null ==> out == [NotAuthorized]
    ensures session != null ==>
      && |out| == 1 && out[0].error == "" && out[0].data.Reservations?
      && var rs, rows := session.reservations, out[0].data.reservations;
         && |rows| == |keys| == |rs|
         && Distinct(keys)
         && (forall k :: k in rs <==> k in keys)
         && forall i | 0 <= i < |keys| ::
              keys[i] in rs && RowFor(flights, airports, rs[keys[i]].ticket.flightId, rs[keys[i]].id, rows[i])
  {
    if session == null {
      return [NotAuthorized], [];
    }
    var pending;
    pending, keys := ValuesOf(session.reservations);
    var rows := DescribeAll(flights, airports, seq(|pending|, i requires 0 <= i < |pending| => (pending[i].ticket.flightId, pending[i].id)));
    return [Response("", Reservations(rows))], keys;
  }
}
