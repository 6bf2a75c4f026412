/**
 * The plain records of the booking engine: tickets, reservations, cities,
 * airports, and the two records the handlers update in place, Session and
 * Client. Only the fields the behaviour code reads or writes are kept.
 */
module Models {

  /** A UUID: 128 bits, read as a number with the first byte most significant. */
  newtype Uuid = x: int | 0 <= x < 0x1_0000_0000_0000_0000_0000_0000_0000_0000

  /** The zero UUID, the client id of a ticket that has not been attributed yet. */
  const NilUuid: Uuid := 0

  function HexDigit(d: nat): (c: char)
    requires d < 16
    ensures c in "0123456789abcdef"
  {
    "0123456789abcdef"[d]
  }

  /** The last `n` hexadecimal digits of `x`, most significant first. */
  function Hex(x: nat, n: nat): (s: string)
    ensures |s| == n
    ensures forall i | 0 <= i < n :: s[i] in "0123456789abcdef"
  {
    if n == 0 then "" else Hex(x / 16, n - 1) + [HexDigit(x % 16)]
  }

  /**
   * The canonical text of a UUID: 32 lower-case hexadecimal digits grouped
   * 8-4-4-4-12 by dashes. A session token is the text of the session's id.
   */
  function Text(u: Uuid): (s: string)
    ensures |s| == 36
    ensures forall i | i in {8, 13, 18, 23} :: s[i] == '-'
    ensures forall i | 0 <= i < 36 && i !in {8, 13, 18, 23} :: s[i] in "0123456789abcdef"
  {
    var h := Hex(u as int, 32);
    h[..8] + "-" + h[8..12] + "-" + h[12..16] + "-" + h[16..20] + "-" + h[20..]
  }

  datatype Ticket = Ticket(id: Uuid, clientId: Uuid, flightId: Uuid)

  /** A seat held for a session: the reservation's own id and the ticket it embeds. */
  datatype Reservation = Reservation(id: Uuid, ticket: Ticket)

  /** City shown with an airport; its coordinates are display-only and left out. */
  datatype City = City(name: string, state: string, country: string)

  datatype Airport = Airport(id: Uuid, city: City)

  /** One leg of a route answer: the cities at its two ends and the flight flown. */
  datatype Route = Route(path: seq<City>, flightId: Uuid)

  /** The ids of a list of tickets. */
  function TicketIds(ts: seq<Ticket>): set<Uuid>
  {
    set t | t in ts :: t.id
  }

  /** A logged-in client's session: its token and its pending reservations. */
  class Session {
    var id: Uuid
    const clientId: Uuid
    var reservations: map<Uuid, Reservation>

    constructor (id: Uuid, clientId: Uuid)
      ensures this.id == id && this.clientId == clientId && reservations == map[]
    {
      this.id := id;
      this.clientId := clientId;
      reservations := map[];
    }
  }

  /** A customer: credentials and the list of confirmed tickets. */
  class Client {
    var id: Uuid
    const name: string
    const username: string
    const password: string
    var clientFlights: seq<Ticket>

    constructor (id: Uuid, name: string, username: string, password: string)
      ensures this.id == id && this.name == name && this.username == username
      ensures this.password == password && clientFlights == []
    {
      this.id := id;
      this.name := name;
      this.username := username;
      this.password := password;
      clientFlights := [];
    }
  }
}
