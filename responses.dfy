/**
 * What a request handler writes back: an error text, empty on success, and
 * the data shown to the client. Each handler returns the responses it
 * writes, in order.
 */
module Responses {
  import opened Wrappers
  import opened Models

  /** A row of a cart or ticket listing: the flight's two cities and the reservation's or ticket's id. */
  datatype Entry = Entry(src: City, dest: City, id: Uuid)

  /** A row of a seat snapshot: seats left and the names of the flight's two cities. */
  datatype FlightInfo = FlightInfo(seats: nat, src: string, dest: string)

  /**
   * The data part of a response. `NoData` stands for both an absent and an
   * empty data map; `Flights(None)` is a flight listing whose list is nil.
   */
  datatype Payload =
    | NoData
    | Message(text: string)
    | Token(token: string)
    | Flights(flights: Option<seq<FlightInfo>>)
    | Tickets(tickets: seq<Entry>)
    | Reservations(reservations: seq<Entry>)
    | Path(path: seq<Route>)

  datatype Response = Response(error: string, data: Payload)

  const NotAuthorized := Response("not authorized", NoData)

  /** The answer of a state-changing request that went through. */
  const Done := Response("", Message("success"))
}
