/** The in-memory client store: customers indexed by their id. */
module ClientDao {
  import opened Wrappers
  import opened Models
  import opened MapIteration

  const NotFound := "not found"

  class ClientStore {
    var data: map<Uuid, Client>

    /** A store holding the given clients, as loading the seed file leaves it. */
    constructor (clients: map<Uuid, Client>)
      ensures data == clients
    {
      data := clients;
    }

    /**
     * Every stored client exactly once, in the map's iteration order; the
     * ghost `keys` gives the id each was stored under.
     */
    method FindAll() returns (v: seq<Client>, ghost keys: seq<Uuid>)
      ensures |v| == |keys| == |data|
      ensures Distinct(keys)
      ensures forall k :: k in data <==> k in keys
      ensures forall i | 0 <= i < |keys| :: v[i] == data[keys[i]]
    {
      v, keys := ValuesOf(data);
    }

    /** Stores `t` under the fresh id `freshId`, which becomes its id. */
    method Insert(t: Client, freshId: Uuid)
      requires freshId !in data
      modifies this, t`id
      ensures t.id == freshId
      ensures data == old(data)[freshId := t]
    {
      t.id := freshId;
      data := data[freshId := t];
    }

    /**
     * Fails with "not found" when no client has `t`'s id; otherwise writes
     * the client already stored there back to its place, so that the store
     * is left as it was either way.
     */
    method Update(t: Client) returns (r: Outcome<string>)
      modifies this
      ensures t.id in old(data) <==> r == Pass
      ensures r.Fail? ==> r.error == NotFound
      ensures data == old(data)
    {
      if t.id !in data {
        return Fail(NotFound);
      }
      var last := data[t.id];
      data := data[t.id := last];
      return Pass;
    }

    /** Removes the entry under `t`'s id; without one nothing happens. */
    method Delete(t: Client)
      modifies this
      ensures data == old(data) - {t.id}
    {
      data := data - {t.id};
    }

    /** The client stored under `id`, or "not found" exactly when there is none. */
    function FindById(id: Uuid): (r: Result<Client, string>)
      reads this
      ensures id in data <==> r.Success?
      ensures r.Success? ==> r.value == data[id]
      ensures r.Failure? ==> r.error == NotFound
    {
      if id !in data then Failure(NotFound) else Success(data[id])
    }
  }

  /** A client just inserted is found under its new id. */
  method InsertThenFind(store: ClientStore, t: Client, freshId: Uuid) returns (r: Result<Client, string>)
    requires freshId !in store.data
    modifies store, t`id
    ensures r == Success(t) && t.id == freshId
  {
    store.Insert(t, freshId);
    r := store.FindById(freshId);
  }
}
