# VendePass booking engine in Dafny

VendePass sells airline seats over a TCP protocol. Behind the dispatcher sits
an in-memory booking engine, and this project models that engine:

- Flights are stored by source and destination airport. Each flight has a
  seat counter, a passenger list and a booking queue.
- A booking worker per flight drains the queue. It turns each queued session
  into a held reservation while seats last.
- Request handlers serve the clients:
  - log in and out;
  - find the quickest route between two cities, by a breadth-first search
    over flights with seats left;
  - show a seat snapshot of some flights;
  - queue a reservation for a list of flights, or cancel one;
  - buy a held reservation;
  - list the cart and the bought tickets;
  - cancel a purchase.
- Map-backed stores hold sessions, clients, airports and tickets.

How the model is organised:

- **Form.** Each Go file becomes one Dafny module in the same form.
  - Objects the Go code updates in place are classes with `modifies` frames: `Flight`, `Session`, `Client` and the five stores.
  - Plain records are datatypes.
  - Go loops are `while`/`for` loops with invariants.
- **Handlers.** A handler returns the list of responses it would write, in order: an error text and a payload. An absent session is `null`.
- **Specifications.** Each loop method is proved against a specification.
  - Most are specification functions: `TicketWithId`, `WithoutFirst`, `Issued`, `Granted`, `Repeat`.
  - The route search is proved against the graph predicates `Reachable`, `PathFromTo` and `NoShorter`.
  - The properties the system promises are lemmas about those functions, or `ensures` of the handlers.

Modules and files:

- `wrappers.dfy`: Option and Result.
- `models.dfy`: records; the `Session` and `Client` classes.
- `mapiter.dfy`: Go's unordered map iteration.
- `utils.dfy`: `Filter` and `Find`.
- `flight.dfy`: a flight and its booking worker.
- `routegraph.dfy`: the breadth-first search theory.
- `flightdao.dfy`: the flight store and the route search.
- `sessiondao.dfy`, `clientdao.dfy`, `airportdao.dfy`, `ticketdao.dfy`: the other stores.
- `responses.dfy`: handler answers.
- `lookups.dfy`: the flight and airport lookups that the handlers share.
- Handlers, one file each: `login.dfy`, `routes.dfy`, `reservation.dfy`, `tickets.dfy`, `cart.dfy`.

Choices made where the code leaves room:

- **Map iteration order.** Go's map iteration order is unspecified. The model
  does not fix it. Every listing and search is specified for any order:
  - `FindById` of the flight store may return any stored flight with the id.
  - `FindByName` may return any airport in the city.
  - A listing returns a ghost sequence of keys, giving the order it took.
- **Duplicate flight ids.** The handlers do not assume flight ids are unique.
  - Their contracts speak of the flight the lookup found: a ghost out-parameter.
  - Every other flight with the same id is stated unchanged.
  - The scenario members (`GrantThenCancel`, `GrantThenBuy`, `GrantBuyCancel`, the store round trips) assume unique ids, or that the flight is the only one with its id.
- **`BuyTicket` is modelled once.** The code defines it twice, in
  `internal/server/cart.go:42-83` and `internal/server/tickets.go:66-107`.
  The two bodies are identical.
- **Ticket bookkeeping.** Four steps touch a ticket in the passenger list,
  and the model states all four as proved properties:
  - The booking worker appends the granted ticket to the passenger list.
  - Buying the reservation appends the same ticket a second time.
  - Cancelling a reservation credits the seat and leaves the ticket in the passenger list.
  - Cancelling a purchase removes only the first copy.

  So a flight's passenger list is not its sold seats. See `GrantThenCancel`,
  `CancelLeavesGrantedCopy` and `GrantBuyCancel`.
- **Field names follow the code that uses them.** Three model structs do not
  compile against that code:
  - `internal/models/session.go` lacks the `ClientID` and `Reservations` fields.
  - `internal/models/client.go` lacks `Username` and `Password`.
  - `internal/models/airport.go` lacks `City`.

  The model keeps the fields that the behaviour code reads and writes.
  - `login` builds the session from the client record, and later code reads `session.ClientID`. The model therefore sets `clientId` to the client's id.
  - `GetClient` applies `utils.Find` with a value predicate to a slice of pointers. The model matches client records.
  - `CancelBuy` passes a `[]Ticket` where `[]*Ticket` is expected. The model uses one ticket list.
- **Preconditions from nil dereferences.** Where the code dereferences a lookup
  result without checking it, the model's precondition requires the lookup to
  succeed:
  - the flight of every requested id in `Reservation` (`internal/server/reservation.go:41-42`);
  - the reservation and its flight in `CancelReservation` (`internal/server/reservation.go:100-102`);
  - the ticket and its flight in `CancelBuy` (`internal/server/tickets.go:135-139`);
  - the held reservation's client and flight in `BuyTicket`;
  - the two airports of every listed flight in `GetTickets`, `GetCart`, `getRoute` and `Route`. This is `Described` in `lookups.dfy`. For `getRoute` it is required only of the ids up to the first unknown one (`DescribedUntilMissing` in `routes.dfy`), and for `Route` it is `AirportsStored` in `routes.dfy`.

## Model

| member | source | states |
|---|---|---|
| Utils.Filter | internal/utils/utils.go:12-20 | the result is the order-preserving subsequence of exactly the items that satisfy the predicate; every kept item satisfies it and the length is at most the input's |
| Utils.Find | internal/utils/utils.go:31-38 | None exactly when no item satisfies the predicate; otherwise the first satisfying item in slice order |
| MapIteration.ValuesOf | internal/dao/sessiondao.go:31-42 | a range over a map visits each entry exactly once, in some order recorded by the ghost key sequence |
| Models.Text | internal/server/login.go:55 | the token text of a UUID has 36 characters, lower-case hex digits grouped 8-4-4-4-12 by dashes |
| FlightModel.Flight.AcceptReservation | internal/models/flight.go:38-51 | with seats left, one seat fewer and exactly one new ticket for this flight appended and returned; with none, "no seats available" and nothing changes; seats plus passengers is conserved either way |
| FlightModel.Flight.Serve | internal/models/flight.go:60-73 | one worker turn: granted exactly when a seat was left; then the ticket is attributed to the session's client and held under the fresh reservation id; otherwise the session's reservations stay as they were |
| FlightModel.Flight.ProcessReservations | internal/models/flight.go:58-77 | with k seats and n queued sessions exactly the first min(n, k) are served, in queue order: seats drop by min(n, k), the issued tickets are appended, each session gains exactly its granted reservations, the queue ends empty |
| FlightModel.IssuedAt | internal/models/flight.go:44-47 | the i-th ticket the worker issues carries the i-th fresh id, the i-th queued session's client and the flight |
| FlightModel.IssuedLength | internal/models/flight.go:59-60 | serving g sessions issues exactly g tickets whose ids are the first g fresh ids |
| FlightModel.GrantedExactly | internal/models/flight.go:66-72 | a session holds the i-th reservation id exactly when i is among the served and the session was the i-th queued; that reservation holds the i-th ticket attributed to its client |
| FlightModel.GrantedKeyed | internal/models/flight.go:67-71 | every granted reservation is stored under its own id, and only fresh ids of served positions are used |
| FlightDao.FlightStore.FindAll | internal/dao/flightdao.go:61-70 | every stored flight is listed exactly once, with the slot it was found in |
| FlightDao.FlightStore.Insert | internal/dao/flightdao.go:80-91 | only the (source, dest) slot is written, replacing any earlier flight there; the flight gets the fresh id and an empty queue; keying by airports and unique ids are preserved |
| FlightDao.FlightStore.Update | internal/dao/flightdao.go:106-117 | "not found" and no change when the slot is empty; otherwise exactly that slot is replaced |
| FlightDao.FlightStore.Delete | internal/dao/flightdao.go:132-142 | the slot is empty afterwards, every other slot stays, and no error is returned |
| FlightDao.FlightStore.DeleteAll | internal/dao/flightdao.go:271-273 | the store is empty |
| FlightDao.FlightStore.FindById | internal/dao/flightdao.go:155-165 | "flight not found" exactly when no stored flight has the id; otherwise a stored flight with that id, the only one when ids are unique |
| FlightDao.FlightStore.FindInRow | internal/dao/flightdao.go:157-161 | a flight of the row with the id, or none exactly when the row has none |
| FlightDao.FlightStore.FindBySource | internal/dao/flightdao.go:178-192 | "airport not found" exactly when the source has no row; otherwise exactly the flights of that row, each once |
| FlightDao.FlightStore.FindBySourceAndDest | internal/dao/flightdao.go:206-214 | the flight in the (source, dest) slot, or "flight not found" exactly when it is empty |
| FlightDao.FlightStore.Visit | internal/dao/flightdao.go:243-247 | an unvisited neighbour reached by a flight with seats is discovered, queued and linked to its parent, keeping the search invariant |
| FlightDao.FlightStore.Expand | internal/dao/flightdao.go:242-248 | after expanding an airport every airport one flight with seats away is discovered, and the search invariant holds |
| FlightDao.FlightStore.Step | internal/dao/flightdao.go:235-248 | one loop turn: stops exactly when the destination is dequeued, otherwise keeps the invariant and makes progress |
| FlightDao.FlightStore.Search | internal/dao/flightdao.go:229-249 | every discovered airport is linked to its parent at an optimal hop count; an undiscovered destination is unreachable |
| FlightDao.FlightStore.Trace | internal/dao/flightdao.go:251-263 | following parents back from the destination gives a chain of stored flights from source to destination with as few flights as any route |
| FlightDao.FlightStore.BreadthFirstSearch | internal/dao/flightdao.go:228-266 | "no route available" exactly when the destination is unreachable over flights with seats left; otherwise a chain of stored flights with seats left, leg i ending where leg i+1 starts, with minimal hop count (empty from an airport to itself) |
| FlightDao.InsertThenFind | internal/dao/flightdao.go:80-91 | a flight just inserted is found both by its new id and by its two airports |
| FlightDao.DeleteThenFind | internal/dao/flightdao.go:132-142 | a deleted flight is no longer found by its id |
| FlightDao.DeleteAllThenList | internal/dao/flightdao.go:271-273 | after deleting everything the listing is empty |
| RouteGraph.BfsComplete | internal/dao/flightdao.go:235-256 | when the search queue runs empty every airport reachable from the source has been discovered |
| SessionDao.SessionStore.constructor | internal/dao/sessiondao.go:18-23 | a new store is empty |
| SessionDao.SessionStore.Insert | internal/dao/sessiondao.go:50-60 | the session gets the fresh id and no reservations and is stored under it; every other entry stays |
| SessionDao.SessionStore.Update | internal/dao/sessiondao.go:72-83 | "not found" and no change for an absent id; otherwise the entry is replaced |
| SessionDao.SessionStore.Delete | internal/dao/sessiondao.go:91-96 | the id is removed and every other entry stays |
| SessionDao.SessionStore.FindById | internal/dao/sessiondao.go:108-118 | the stored session, or "not found" exactly when the id is absent |
| SessionDao.SessionStore.FindAll | internal/dao/sessiondao.go:31-42 | every stored session exactly once |
| SessionDao.SessionStore.DeleteAll | internal/dao/sessiondao.go:123-128 | the store is empty |
| SessionDao.InsertThenFind | internal/dao/sessiondao.go:50-60 | a session just inserted is found under its new id |
| SessionDao.DeleteThenFind | internal/dao/sessiondao.go:91-96 | a session just deleted is "not found", and no other session is removed or changed |
| SessionDao.InsertTwiceThenList | internal/dao/sessiondao.go:31-42 | two inserts into an empty store list two sessions |
| ClientDao.ClientStore.FindAll | internal/dao/clientdao.go:54-64 | every stored client exactly once |
| ClientDao.ClientStore.Insert | internal/dao/clientdao.go:73-81 | the client gets the fresh id and is stored under it |
| ClientDao.ClientStore.Update | internal/dao/clientdao.go:94-106 | "not found" exactly for an absent id; the store is unchanged either way, since the stored entry is written back |
| ClientDao.ClientStore.Delete | internal/dao/clientdao.go:116-120 | the id is removed; nothing happens for an absent id |
| ClientDao.ClientStore.FindById | internal/dao/clientdao.go:134-144 | the stored client, or "not found" exactly when the id is absent |
| ClientDao.InsertThenFind | internal/dao/clientdao.go:73-81 | a client just inserted is found, the same object, under its new id |
| TicketDao.TicketStore.FindAll | internal/dao/ticketdao.go:38-46 | every stored ticket exactly once, as many as the store holds |
| TicketDao.TicketStore.Insert | internal/dao/ticketdao.go:48-54 | a copy with the fresh id is stored under that id |
| TicketDao.TicketStore.Update | internal/dao/ticketdao.go:56-67 | "not found" exactly for an absent id; the store is unchanged either way |
| TicketDao.TicketStore.Delete | internal/dao/ticketdao.go:69-71 | the id is removed and every other entry stays |
| TicketDao.TicketStore.FindById | internal/dao/ticketdao.go:73-81 | the stored ticket, or "not found" exactly when the id is absent |
| TicketDao.InsertThenFind | internal/dao/ticketdao.go:48-54 | a ticket just inserted is found under its new id and carries it |
| AirportDao.AirportStore.FindAll | internal/dao/airportdao.go:59-67 | every stored airport exactly once |
| AirportDao.AirportStore.Insert | internal/dao/airportdao.go:79-85 | a copy with the fresh id is stored under that id |
| AirportDao.AirportStore.Update | internal/dao/airportdao.go:101-112 | "not found" and no change for an absent id; otherwise the entry is replaced |
| AirportDao.AirportStore.Delete | internal/dao/airportdao.go:126-128 | the id is removed; nothing happens for an absent id |
| AirportDao.AirportStore.FindById | internal/dao/airportdao.go:144-152 | the stored airport, or "not found" exactly when the id is absent |
| AirportDao.AirportStore.FindByName | internal/dao/airportdao.go:167-174 | a stored airport in the named city, or none exactly when no airport is there |
| ServerLogin.GetClient | internal/server/login.go:14-27 | a stored client with the username, or "client not found" exactly when none has it |
| ServerLogin.Login | internal/server/login.go:33-63 | right password: exactly one new session for that client, without reservations, stored under the fresh id, whose text is the token; wrong password: "invalid credentials" and nothing stored; unknown username: no answer and nothing stored |
| ServerLogin.Logout | internal/server/login.go:65-86 | unknown token: "session not found" and no change; otherwise the session is removed and a later lookup of the token fails; only the session store changes |
| ServerLookups.Describe | internal/server/tickets.go:35-45 | a listing row of a stored flight with the id: its two airports' cities and the row id |
| ServerLookups.DescribeAll | internal/server/tickets.go:34-46 | one listing row per requested pair, in order |
| ServerLookups.Inform | internal/server/routes.go:165-176 | none exactly when no flight has the id; otherwise the seats left and city names of a stored flight with that id |
| ServerLookups.InfoKnown | internal/server/routes.go:165-168 | a snapshot entry was only produced for an id some stored flight has |
| ServerRoutes.InformAll | internal/server/routes.go:162-177 | snapshot entries for the ids in order, stopping exactly at the first unknown id |
| ServerRoutes.GetRoute | internal/server/routes.go:161-179 | fails exactly when some id is unknown, naming the first unknown id after "some flight doesn't exist: "; otherwise one entry per id, in order, with that flight's seats and cities |
| ServerRoutes.Flights | internal/server/routes.go:120-147 | not authorized without a session; an unknown id writes the error and then a listing whose list is nil; otherwise one response with the snapshot |
| ServerRoutes.Route | internal/server/routes.go:56-104 | not authorized without a session; "not valid city name" when a city has no airport; "no route" exactly when the airports are not connected over flights with seats; otherwise one leg per flight of a shortest route, in order, with the flight's id and its airports' cities |
| ServerReservation.Check | internal/server/reservation.go:41-47 | the slot holds the flight found when it has seats and is empty when it is full |
| ServerReservation.Pick | internal/server/reservation.go:37-49 | one slot per requested id, in order; the unavailable list is empty exactly when every slot is filled |
| ServerReservation.SendsCount | internal/server/reservation.go:63-66 | sending slot by slot delivers the session to a flight once per slot holding it |
| ServerReservation.Enqueue | internal/server/reservation.go:63-66 | each flight's queue gains the session exactly as many times as it was requested |
| ServerReservation.Refuse | internal/server/reservation.go:52-60 | the answer is "at least one flight is not available" with a snapshot of all requested flights |
| ServerReservation.Reservation | internal/server/reservation.go:20-74 | not authorized and nothing queued without a session; a full flight answers with the refusal and queues nothing; otherwise the session joins each requested flight's queue once per request and "success"; only queues change, so seats and passengers stay |
| ServerReservation.Refund | internal/server/reservation.go:102-106 | the flight found gets exactly one seat back; no other flight changes |
| ServerReservation.CancelReservation | internal/server/reservation.go:84-117 | not authorized without a session; otherwise the seat is credited and only that reservation leaves the session, whose id stays; the granted ticket stays among the passengers |
| ServerReservation.GrantThenCancel | internal/server/reservation.go:100-108 | a seat granted and then given back leaves the seat count and the reservations as before, with one ticket left among the passengers; the flight's id and queue and the session's id stay |
| ServerTickets.TicketWithId | internal/server/tickets.go:162-169 | none exactly when no ticket has the id; otherwise the first ticket with it |
| ServerTickets.FindTicketById | internal/server/tickets.go:162-169 | the scan returns what `TicketWithId` specifies |
| ServerTickets.WithoutFirstAt | internal/server/tickets.go:181-183 | removing by id splices out the first match at its position |
| ServerTickets.WithoutFirstNone | internal/server/tickets.go:186 | without a match the list is returned unchanged |
| ServerTickets.WithoutFirstCount | internal/server/tickets.go:180-187 | removing the first match drops exactly one copy of it and keeps every other ticket |
| ServerTickets.WithoutFirstRemovesFound | internal/server/tickets.go:180-187 | removal takes out exactly the ticket the search finds, or nothing when there is none |
| ServerTickets.RemoveTicketById | internal/server/tickets.go:180-187 | the loop computes `WithoutFirst`: the first ticket with the id is dropped and the rest keep their order |
| ServerTickets.CancelUndoesPurchase | internal/server/tickets.go:137 | cancelling a just-bought ticket gives the client's list back as it was |
| ServerTickets.CancelLeavesGrantedCopy | internal/server/tickets.go:143 | a passenger list holding the ticket twice keeps one copy after the cancellation |
| ServerTickets.GetTickets | internal/server/tickets.go:21-53 | not authorized without a session; otherwise one row per ticket of the client, in list order, each with its flight's cities and the ticket's id |
| ServerTickets.Board | internal/server/tickets.go:89-95 | the flight found lists the ticket once more; its seats stay; no other flight changes |
| ServerTickets.BuyTicket | internal/server/tickets.go:66-107 | not authorized without a session; an unknown reservation answers "reservation do not exists" then "success" and changes nothing; otherwise the ticket is appended to the flight's passengers and the client's tickets, the reservation is dropped and seats stay; the session's and the client's ids stay |
| ServerTickets.ReleaseSeat | internal/server/tickets.go:139-144 | the flight found gets one seat back and loses the first copy of the ticket; no other flight changes |
| ServerTickets.CancelBuy | internal/server/tickets.go:120-151 | not authorized without a session; otherwise the first copy of the ticket leaves the client's list and the flight's passengers and the flight gets one seat back; the client's id stays |
| ServerTickets.GrantThenBuy | internal/server/tickets.go:88-99 | a granted seat bought lists the ticket twice among the passengers and once among the client's tickets, and the reservation is gone; the flight's, the session's and the client's ids stay |
| ServerTickets.GrantBuyCancel | internal/server/tickets.go:135-144 | grant, buy, then cancel-buy restores the seat count, the client's tickets and the reservations; one copy of the ticket stays among the passengers; the flight's, the session's and the client's ids stay |
| ServerCart.GetCart | internal/server/cart.go:10-40 | not authorized without a session; otherwise exactly one row per reservation of the session, each with its flight's cities and the reservation's id; nothing changes |

## Left out

- Sockets, JSON and logging. This covers `WriteNewResponse`, JSON (un)marshalling of requests and data, `fmt.Print` logging, and `conn.Close` in `logout`. A handler returns the responses it would write instead.
- `SessionIfExists` is not part of this model. Its result is the parameter `session: Session?`: null means not authorized.
- Concurrency. The mutexes are no-ops, because the model is sequential. A flight's channel is the `queue` sequence. The booking worker's goroutine becomes one call of `ProcessReservations` that drains the queue, so the model does not model blocking sends or interleavings.
- Seed loading. The DAO `New` methods read JSON from disk, and `AllRoutes` reloads the seed data. The flight and session stores start empty. The others start from a given map.
- The global store getters in `internal/dao/dao.go` are not modelled. Stores are explicit parameters.
- Fresh UUIDs from `uuid.New()` are parameters, with a precondition that they are not present yet.
- Timestamps are left out: `CreatedAt`, `LastTimeActive` and `time.Now()`. Nothing in the core reads them.
- Display-only fields are left out: city coordinates (floats), airport names and flight lists, the session's connection and failed-reservations channel.
- `NoData` stands for both a nil and an empty data map, since the client cannot tell them apart.
- FlightModel.Flight: `seats` is a `nat`. The wrap-around of Go's `uint` on `Seats++` past the maximum is not modelled. `Seats--` only runs when `Seats > 0`, so it cannot underflow.
- ServerTickets.RemoveTicketById: it returns a new sequence. Go's `append(tickets[:i], tickets[i+1:]...)` shifts the caller's backing array in place, and that aliasing is not modelled.
- ServerReservation.Pick: the fixed-size local `flights` slice of `Reservation` is modelled as a sequence that grows by one slot per request.
- ServerReservation.Reservation: when several stored flights share a requested id, its precondition asks for the airports of all requested flights as soon as any flight with a requested id is full. The Go code refuses, and so reads those airports, only when a flight the lookup picked is full. Which flight the lookup picks is not determined before the call, so the precondition cannot name it. With unique flight ids the two conditions are the same.
- ServerRoutes.Route: its precondition asks that every stored flight's airports are stored. That is stronger than the flights of the route found, which is all the handler dereferences.
- ServerLogin.Login: the token is the UUID's canonical text. The model does not take `fmt.Sprintf("%s", …)` any further than that.
- `PasswordMatches` is the predicate `ServerLogin.PasswordMatches`: exact string equality. It has no contract of its own, because its body is the whole statement.
