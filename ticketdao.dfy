/** The in-memory ticket store: tickets, held by value, indexed by their id. */
module TicketDao {
  import opened Wrappers
  import opened Models
  import opened MapIteration

  const NotFound := "not found"

  class TicketStore {
    var data: map<Uuid, Ticket>

    /** A store holding the given tickets, as loading the seed file leaves it. */
    constructor (tickets: map<Uuid, Ticket>)
      ensures data == tickets
    {
      data := tickets;
    }

    /**
     * Every stored ticket exactly once, in the map's iteration order; the
     * ghost `keys` gives the id each was stored under.
     */
    method FindAll() returns (v: seq<Ticket>, ghost keys: seq<Uuid>)
      ensures |v| == |keys| == |data|
      ensures Distinct(keys)
      ensures forall k :: k in data <==> k in keys
      ensures forall i | 0 <= i < |keys| :: v[i] == data[keys[i]]
    {
      v, keys := ValuesOf(data);
    }

    /**
     * Gives `t` the fresh id `freshId` and stores a copy of it under that
     * id; `stored` is the caller's ticket as the id assignment leaves it.
     */
    method Insert(t: Ticket, freshId: Uuid) returns (stored: Ticket)
      requires freshId !in data
      modifies this
      ensures stored == t.(id := freshId)
      ensures data == old(data)[freshId := stored]
    {
      stored := t.(id := freshId);
      data := data[freshId := stored];
    }

    /**
     * Fails with "not found" when no ticket has `t`'s id; otherwise writes
     * the ticket already stored there back to its place, so that the store
     * is left as it was either way.
     */
    method Update(t: Ticket) returns (r: Outcome<string>)
      modifies this
      ensures t.id in old(data) <==> r == Pass
      ensures r.Fail? ==> r.error == NotFound
      ensures data == old(data)
    {
      if t.id !in data {
        return Fail(NotFound);
      }
      var last := data[t.id];
      data := data[t.id := last];
      return Pass;
    }

    /** Removes the entry under `t`'s id; without one nothing happens. */
    method Delete(t: Ticket)
      modifies this
      ensures data == old(data) - {t.id}
    {
      data := data - {t.id};
    }

    /** A copy of the ticket stored under `id`, or "not found" exactly when there is none. */
    function FindById(id: Uuid): (r: Result<Ticket, string>)
      reads this
      ensures id in data <==> r.Success?
      ensures r.Success? ==> r.value == data[id]
      ensures r.Failure? ==> r.error == NotFound
    {
      if id !in data then Failure(NotFound) else Success(data[id])
    }
  }

  /**
   * A ticket just inserted is found under its new id, and the ticket found
   * carries that id.
   */
  method InsertThenFind(store: TicketStore, t: Ticket, freshId: Uuid) returns (r: Result<Ticket, string>)
    requires freshId !in store.data
    modifies store
    ensures r == Success(t.(id := freshId)) && r.value.id == freshId
  {
    var stored := store.Insert(t, freshId);
    r := store.FindById(freshId);
  }
}
