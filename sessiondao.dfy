/**
 * The in-memory session store: logged-in sessions indexed by their id, the
 * token a client presents with every request.
 */
module SessionDao {
  import opened Wrappers
  import opened Models
  import opened MapIteration

  const NotFound := "not found"

  class SessionStore {
    var data: map<Uuid, Session>

    /** A store with no sessions, as `New` leaves it. */
    constructor ()
      ensures data == map[]
    {
      data := map[];
    }

    /** Every session is stored under its own id. */
    ghost predicate Keyed()
      reads this, data.Values
    {
      forall k | k in data :: data[k].id == k
    }

    /**
     * Stores `t` under the fresh id `freshId`, which becomes its id, with
     * no reservations; every other entry is left as it was.
     */
    method Insert(t: Session, freshId: Uuid)
      requires freshId !in data
      modifies this, t`id, t`reservations
      ensures t.id == freshId && t.reservations == map[]
      ensures data == old(data)[freshId := t]
      ensures old(Keyed()) && t !in old(data.Values) ==> Keyed()
    {
      t.id := freshId;
      t.reservations := map[];
      data := data[freshId := t];
    }

    /**
     * Stores `t` under its id, replacing the session stored there; fails
     * with "not found", changing nothing, when no session has that id.
     */
    method Update(t: Session) returns (r: Outcome<string>)
      modifies this
      ensures t.id in old(data) ==> r == Pass && data == old(data)[t.id := t]
      ensures t.id !in old(data) ==> r == Fail(NotFound) && data == old(data)
    {
      if t.id !in data {
        return Fail(NotFound);
      }
      data := data[t.id := t];
      return Pass;
    }

    /** Removes the entry under `t`'s id, if there is one; every other entry stays. */
    method Delete(t: Session)
      modifies this
      ensures data == old(data) - {t.id}
      ensures old(Keyed()) ==> Keyed()
    {
      data := data - {t.id};
    }

    /** The session stored under `id`, or "not found" exactly when there is none. */
    function FindById(id: Uuid): (r: Result<Session, string>)
      reads this
      ensures id in data <==> r.Success?
      ensures r.Success? ==> r.value == data[id]
      ensures r.Failure? ==> r.error == NotFound
    {
      if id !in data then Failure(NotFound) else Success(data[id])
    }

    /**
     * Every stored session exactly once, in the map's iteration order; the
     * ghost `keys` gives the id each was stored under.
     */
    method FindAll() returns (v: seq<Session>, ghost keys: seq<Uuid>)
      ensures |v| == |keys| == |data|
      ensures Distinct(keys)
      ensures forall k :: k in data <==> k in keys
      ensures forall i | 0 <= i < |keys| :: v[i] == data[keys[i]]
    {
      v, keys := ValuesOf(data);
    }

    /** Forgets every session. */
    method DeleteAll()
      modifies this
      ensures data == map[]
    {
      data := map[];
    }
  }

  /** A session just inserted is found under its new id. */
  method InsertThenFind(store: SessionStore, t: Session, freshId: Uuid) returns (r: Result<Session, string>)
    requires freshId !in store.data
    modifies store, t`id, t`reservations
    ensures r == Success(t) && t.id == freshId
  {
    store.Insert(t, freshId);
    r := store.FindById(freshId);
  }

  /** A session just deleted is no longer found, and nothing else was removed. */
  method DeleteThenFind(store: SessionStore, t: Session) returns (r: Result<Session, string>)
    modifies store
    ensures r == Failure(NotFound)
    ensures forall k | k in old(store.data) && k != t.id :: k in store.data && store.data[k] == old(store.data[k])
  {
    store.Delete(t);
    r := store.FindById(t.id);
  }

  /** Two sessions inserted under different fresh ids into an empty store are both listed. */
  method InsertTwiceThenList(store: SessionStore, a: Session, b: Session, idA: Uuid, idB: Uuid)
    returns (v: seq<Session>)
    requires store.data == map[] && idA != idB
    modifies store, a`id, a`reservations, b`id, b`reservations
    ensures |v| == 2
  {
    store.Insert(a, idA);
    store.Insert(b, idB);
    ghost var keys;
    v, keys := store.FindAll();
  }
}
