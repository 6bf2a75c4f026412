/** The in-memory airport store: airports, held by value, indexed by their id. */
module AirportDao {
  import opened Wrappers
  import opened Models
  import opened MapIteration

  const NotFound := "not found"

  class AirportStore {
    var data: map<Uuid, Airport>

    /** A store holding the given airports, as loading the seed file leaves it. */
    constructor (airports: map<Uuid, Airport>)
      ensures data == airports
    {
      data := airports;
    }

    /** Some stored airport is in the city called `name`. */
    ghost predicate Named(name: string)
      reads this
    {
      exists k | k in data :: data[k].city.name == name
    }

    /**
     * Every stored airport exactly once, in the map's iteration order; the
     * ghost `keys` gives the id each was stored under.
     */
    method FindAll() returns (v: seq<Airport>, ghost keys: seq<Uuid>)
      ensures |v| == |keys| == |data|
      ensures Distinct(keys)
      ensures forall k :: k in data <==> k in keys
      ensures forall i | 0 <= i < |keys| :: v[i] == data[keys[i]]
    {
      v, keys := ValuesOf(data);
    }

    /**
     * Gives `t` the fresh id `freshId` and stores a copy of it under that
     * id; `stored` is the caller's airport as the id assignment leaves it.
     */
    method Insert(t: Airport, freshId: Uuid) returns (stored: Airport)
      requires freshId !in data
      modifies this
      ensures stored == t.(id := freshId)
      ensures data == old(data)[freshId := stored]
    {
      stored := t.(id := freshId);
      data := data[freshId := stored];
    }

    /**
     * Replaces the airport stored under `t`'s id by `t`; fails with "not
     * found", changing nothing, when there is none.
     */
    method Update(t: Airport) returns (r: Outcome<string>)
      modifies this
      ensures t.id in old(data) ==> r == Pass && data == old(data)[t.id := t]
      ensures t.id !in old(data) ==> r == Fail(NotFound) && data == old(data)
    {
      if t.id !in data {
        return Fail(NotFound);
      }
      data := data[t.id := t];
      return Pass;
    }

    /** Removes the entry under `t`'s id; without one nothing happens. */
    method Delete(t: Airport)
      modifies this
      ensures data == old(data) - {t.id}
    {
      data := data - {t.id};
    }

    /** A copy of the airport stored under `id`, or "not found" exactly when there is none. */
    function FindById(id: Uuid): (r: Result<Airport, string>)
      reads this
      ensures id in data <==> r.Success?
      ensures r.Success? ==> r.value == data[id]
      ensures r.Failure? ==> r.error == NotFound
    {
      if id !in data then Failure(NotFound) else Success(data[id])
    }

    /**
     * An airport in the city called `name`, the first met in the map's
     * iteration order, or None exactly when no stored airport is there.
     * With several airports in one city any of them may come back.
     */
    method FindByName(name: string) returns (r: Option<Airport>)
      ensures r.None? <==> !Named(name)
      ensures r.Some? ==> r.value.city.name == name && exists k | k in data :: data[k] == r.value
    {
      var airports, keys := ValuesOf(data);
      for i := 0 to |airports|
        invariant forall j | 0 <= j < i :: airports[j].city.name != name
      {
        if airports[i].city.name == name {
          assert data[keys[i]] == airports[i];
          return Some(airports[i]);
        }
      }
      forall k | k in data ensures data[k].city.name != name {
        var j :| 0 <= j < |keys| && keys[j] == k;
      }
      return None;
    }
  }
}
