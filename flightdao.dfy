/**
 * The in-memory flight store: flights indexed by source airport, then by
 * destination airport, so at most one flight is stored per ordered pair of
 * airports. Besides the usual store operations it answers route queries by
 * a breadth-first search over the flights that still have seats.
 */
module FlightDao {
  import opened Wrappers
  import opened Models
  import opened MapIteration
  import opened FlightModel
  import opened RouteGraph

  const NotFound := "not found"
  const FlightNotFound := "flight not found"
  const AirportNotFound := "airport not found"
  const NoRoute := "no route available"

  /** The slots of row `u` whose destinations are `dests`, in that order. */
  ghost function Pairs(u: Uuid, dests: seq<Uuid>): (r: seq<(Uuid, Uuid)>)
    ensures |r| == |dests|
    ensures forall k | 0 <= k < |dests| :: r[k] == (u, dests[k])
  {
    seq(|dests|, k requires 0 <= k < |dests| => (u, dests[k]))
  }

  /** Appending the distinct slots of a row not seen before keeps the slots distinct. */
  lemma PairsAppend(slots: seq<(Uuid, Uuid)>, u: Uuid, dests: seq<Uuid>)
    requires Distinct(slots) && Distinct(dests)
    requires forall j | 0 <= j < |slots| :: slots[j].0 != u
    ensures Distinct(slots + Pairs(u, dests))
  {
    var all := slots + Pairs(u, dests);
    forall i, j | 0 <= i < j < |all| ensures all[i] != all[j] {
      if j >= |slots| && i >= |slots| {
        assert dests[i - |slots|] != dests[j - |slots|];
      }
    }
  }

  class FlightStore {
    var data: map<Uuid, map<Uuid, Flight>>

    constructor ()
      ensures data == map[]
    {
      data := map[];
    }

    /** A flight is stored under source `u` and destination `v`. */
    predicate Occupied(u: Uuid, v: Uuid)
      reads this
    {
      u in data && v in data[u]
    }

    /** The flights leaving `u`; an airport without an entry reads as an empty row. */
    function Row(u: Uuid): map<Uuid, Flight>
      reads this
    {
      if u in data then data[u] else map[]
    }

    ghost function Flights(): set<Flight>
      reads this
    {
      set u, v | u in data && v in data[u] :: data[u][v]
    }

    /** Each flight is stored under its own source and destination airports. */
    ghost predicate Keyed()
      reads this
    {
      forall u, v | u in data && v in data[u] :: data[u][v].source == u && data[u][v].dest == v
    }

    ghost predicate HasId(id: Uuid)
      reads this, Flights()
    {
      exists u, v | u in data && v in data[u] :: data[u][v].id == id
    }

    /** A stored flight with the given id; when ids are unique, the one. */
    ghost function WithId(id: Uuid): (f: Flight)
      requires HasId(id)
      reads this, Flights()
      ensures f in Flights() && f.id == id
    {
      var u, v :| u in data && v in data[u] && data[u][v].id == id; data[u][v]
    }

    /** The stored flights with the given id: when ids are unique, at most one. */
    ghost function FlightsWithId(id: Uuid): set<Flight>
      reads this, Flights()
    {
      set f | f in Flights() && f.id == id
    }

    /** No two stored flights share an id. */
    ghost predicate UniqueIds()
      reads this, Flights()
    {
      forall u1, v1, u2, v2 | Occupied(u1, v1) && Occupied(u2, v2) && data[u1][v1].id == data[u2][v2].id ::
        u1 == u2 && v1 == v2
    }

    /** The seats left on every stored flight, as the graph the route search explores. */
    ghost function SeatGraph(): Graph
      reads this, Flights()
    {
      map u | u in data :: map v | v in data[u] :: data[u][v].seats
    }

    /** The seats graph depends on nothing but the store's map and the stored flights' fields. */
    twostate lemma SeatGraphKept()
      requires unchanged(this) && forall u, v | u in data && v in data[u] :: unchanged(data[u][v])
      ensures old(SeatGraph()) == SeatGraph()
    {
      assert forall u, v | u in data && v in data[u] :: data[u][v] in Flights();
    }

    /**
     * The flights `v` were found in the slots `slots` of the rows of the
     * first `i` sources in `srcs`; `owner` says which source each came from.
     */
    ghost predicate Listed(v: seq<Flight>, slots: seq<(Uuid, Uuid)>, owner: seq<nat>, srcs: seq<Uuid>, i: nat)
      reads this
    {
      && |v| == |slots| == |owner|
      && forall j | 0 <= j < |slots| ::
           && owner[j] < i && owner[j] < |srcs| && slots[j].0 == srcs[owner[j]]
           && Occupied(slots[j].0, slots[j].1) && v[j] == data[slots[j].0][slots[j].1]
    }

    lemma ListedAppend(v: seq<Flight>, slots: seq<(Uuid, Uuid)>, owner: seq<nat>, srcs: seq<Uuid>, i: nat,
                       fs: seq<Flight>, dests: seq<Uuid>)
      requires Listed(v, slots, owner, srcs, i) && i < |srcs|
      requires |fs| == |dests|
      requires forall l | 0 <= l < |dests| :: Occupied(srcs[i], dests[l]) && fs[l] == data[srcs[i]][dests[l]]
      ensures Listed(v + fs, slots + Pairs(srcs[i], dests), owner + seq(|fs|, _ => i), srcs, i + 1)
    {
      var v', slots', owner' := v + fs, slots + Pairs(srcs[i], dests), owner + seq(|fs|, _ => i);
      forall j | 0 <= j < |slots'|
        ensures && owner'[j] < i + 1 && owner'[j] < |srcs| && slots'[j].0 == srcs[owner'[j]]
                && Occupied(slots'[j].0, slots'[j].1) && v'[j] == data[slots'[j].0][slots'[j].1]
      {
        if j >= |slots| {
          var l := j - |slots|;
          assert owner'[j] == i && slots'[j] == (srcs[i], dests[l]) && v'[j] == fs[l];
        }
      }
    }

    /**
     * Every stored flight, once each, in the map's iteration order; the
     * ghost `slots` gives the source and destination each was found under.
     */
    method FindAll() returns (v: seq<Flight>, ghost slots: seq<(Uuid, Uuid)>)
      ensures |v| == |slots|
      ensures forall i | 0 <= i < |slots| :: Occupied(slots[i].0, slots[i].1) && v[i] == data[slots[i].0][slots[i].1]
      ensures forall i, j | 0 <= i < j < |slots| :: slots[i] != slots[j]
      ensures forall u, d | Occupied(u, d) :: (u, d) in slots
    {
      var rows, srcs := ValuesOf(data);
      v, slots := [], [];
      ghost var owner: seq<nat> := [];
      for i := 0 to |rows|
        invariant Listed(v, slots, owner, srcs, i)
        invariant Distinct(slots)
        invariant forall m, d | 0 <= m < i && d in data[srcs[m]] :: (srcs[m], d) in slots
      {
        var fs, dests := ValuesOf(rows[i]);
        var u := srcs[i];
        ghost var added := Pairs(u, dests);
        PairsAppend(slots, u, dests);
        ListedAppend(v, slots, owner, srcs, i, fs, dests);
        forall d | d in data[u] ensures (u, d) in added {
          var l :| 0 <= l < |dests| && dests[l] == d;
        }
        v, slots, owner := v + fs, slots + added, owner + seq(|fs|, _ => i);
      }
      forall u, d | Occupied(u, d) ensures (u, d) in slots {
        var m :| 0 <= m < |srcs| && srcs[m] == u;
      }
    }

    /**
     * Stores `t` under its source and destination, replacing the flight
     * stored there before, under the fresh id `freshId`, with an empty
     * booking queue.
     */
    method Insert(t: Flight, freshId: Uuid)
      modifies this, t`id, t`queue
      ensures t.id == freshId && t.queue == []
      ensures data == old(data)[t.source := old(Row(t.source))[t.dest := t]]
      ensures old(Keyed()) ==> Keyed()
      ensures old(Keyed()) && old(UniqueIds()) && !old(HasId(freshId)) ==> UniqueIds()
    {
      t.id := freshId;
      data := data[t.source := Row(t.source)[t.dest := t]];
      t.queue := [];
      if old(Keyed()) && old(UniqueIds()) && !old(HasId(freshId)) {
        forall u1, v1, u2, v2 | Occupied(u1, v1) && Occupied(u2, v2) && data[u1][v1].id == data[u2][v2].id
          ensures u1 == u2 && v1 == v2
        {
          var at1 := u1 == t.source && v1 == t.dest;
          var at2 := u2 == t.source && v2 == t.dest;
          if !at1 {
            assert old(Occupied(u1, v1)) && data[u1][v1] != t;
          }
          if !at2 {
            assert old(Occupied(u2, v2)) && data[u2][v2] != t;
          }
        }
      }
    }

    /**
     * Replaces the flight stored under `t`'s source and destination by `t`;
     * fails with "not found", changing nothing, when that slot is empty.
     */
    method Update(t: Flight) returns (r: Outcome<string>)
      modifies this
      ensures old(Occupied(t.source, t.dest)) ==> r == Pass && data == old(data)[t.source := old(data)[t.source][t.dest := t]]
      ensures !old(Occupied(t.source, t.dest)) ==> r == Fail(NotFound) && data == old(data)
      ensures old(Keyed()) ==> Keyed()
    {
      if !Occupied(t.source, t.dest) {
        return Fail(NotFound);
      }
      data := data[t.source := data[t.source][t.dest := t]];
      return Pass;
    }

    /**
     * Empties the slot under `t`'s source and destination. The source's
     * check that the slot is gone after the deletion can never fail.
     */
    method Delete(t: Flight) returns (r: Outcome<string>)
      modifies this
      ensures r == Pass
      ensures !Occupied(t.source, t.dest)
      ensures t.source in old(data) ==> data == old(data)[t.source := old(data)[t.source] - {t.dest}]
      ensures t.source !in old(data) ==> data == old(data)
      ensures old(Keyed()) ==> Keyed()
    {
      if t.source in data {
        data := data[t.source := data[t.source] - {t.dest}];
      }
      r := if Occupied(t.source, t.dest) then Fail("delete was unsuccessful") else Pass;
    }

    /** Forgets every flight. */
    method DeleteAll()
      modifies this
      ensures data == map[]
    {
      data := map[];
    }

    /**
     * Finds a stored flight with the given id, scanning rows and slots in
     * iteration order; "flight not found" exactly when none has it. When ids
     * are unique the flight found is the only one with that id.
     */
    method FindById(id: Uuid) returns (r: Result<Flight, string>)
      ensures r.Failure? <==> !HasId(id)
      ensures r.Failure? ==> r.error == FlightNotFound
      ensures r.Success? ==> r.value.id == id && r.value in Flights()
      ensures r.Success? && UniqueIds() ==> forall f | f in Flights() && f.id == id :: f == r.value
    {
      var rows: seq<map<Uuid, Flight>>, srcs: seq<Uuid> := ValuesOf(data);
      for i := 0 to |rows|
        invariant forall j, d: Uuid | 0 <= j < i && d in rows[j] :: rows[j][d].id != id
      {
        var found := FindInRow(rows[i], id);
        if found.Some? {
          assert exists d | d in rows[i] :: rows[i][d] == found.value;
          return Success(found.value);
        }
      }
      forall u, v | Occupied(u, v) ensures data[u][v].id != id {
        var j :| 0 <= j < |srcs| && srcs[j] == u;
      }
      return Failure(FlightNotFound);
    }

    /** The inner scan of `FindById`: a flight of `row` with the given id, in iteration order. */
    method FindInRow(row: map<Uuid, Flight>, id: Uuid) returns (r: Option<Flight>)
      ensures r.None? <==> forall d | d in row :: row[d].id != id
      ensures r.Some? ==> r.value.id == id && exists d | d in row :: row[d] == r.value
    {
      var fs, dests := ValuesOf(row);
      for k := 0 to |fs|
        invariant forall l | 0 <= l < k :: fs[l].id != id
      {
        if fs[k].id == id {
          assert row[dests[k]] == fs[k];
          return Some(fs[k]);
        }
      }
      forall d | d in row ensures row[d].id != id {
        var l :| 0 <= l < |dests| && dests[l] == d;
      }
      return None;
    }

    /**
     * The flights leaving airport `id`, each once, in iteration order; the
     * ghost `dests` gives their destinations. Fails with "airport not found"
     * only when the airport never had a row: a row emptied by deletions
     * still answers with an empty list.
     */
    method FindBySource(id: Uuid) returns (r: Result<seq<Flight>, string>, ghost dests: seq<Uuid>)
      ensures id !in data <==> r == Failure(AirportNotFound)
      ensures r.Success? ==>
        && |r.value| == |dests| == |data[id]|
        && Distinct(dests)
        && (forall d :: d in data[id] <==> d in dests)
        && forall i | 0 <= i < |dests| :: r.value[i] == data[id][dests[i]]
    {
      if id !in data {
        return Failure(AirportNotFound), [];
      }
      var fs;
      fs, dests := ValuesOf(data[id]);
      return Success(fs), dests;
    }

    /** The flight stored under `source` and `dest`, or "flight not found". */
    method FindBySourceAndDest(source: Uuid, dest: Uuid) returns (r: Result<Flight, string>)
      ensures r.Failure? <==> !Occupied(source, dest)
      ensures r.Failure? ==> r.error == FlightNotFound
      ensures r.Success? ==> r.value == data[source][dest]
      ensures r.Success? && Keyed() ==> r.value.source == source && r.value.dest == dest
    {
      if !Occupied(source, dest) {
        return Failure(FlightNotFound);
      }
      return Success(data[source][dest]);
    }

    /** Row `u` of `g` holds the seats left on the flights stored leaving `u`. */
    ghost predicate RowIs(g: Graph, u: Uuid)
      reads this, Flights()
    {
      && (u in g <==> u in data)
      && (u in data ==> g[u].Keys == data[u].Keys && forall w | w in data[u] :: g[u][w] == data[u][w].seats)
    }

    /**
     * The search's visit of one flight, from `current` to `neighbor`: an
     * unvisited destination reached by a flight with seats left is marked
     * visited, queued, and remembers `current` as its parent.
     */
    method Visit(ghost g: Graph, source: Uuid, current: Uuid, neighbor: Uuid, seats: nat,
                 visited: set<Uuid>, queue: seq<Uuid>, parent: map<Uuid, Uuid>, ghost dist: map<Uuid, nat>)
      returns (visited': set<Uuid>, queue': seq<Uuid>, parent': map<Uuid, Uuid>, ghost dist': map<Uuid, nat>)
      requires Edge(g, current, neighbor) <==> seats > 0
      requires BfsInv(g, source, visited, [current] + queue, dist, parent)
      requires visited <= Targets(g) + {source}
      ensures BfsInv(g, source, visited', [current] + queue', dist', parent')
      ensures visited <= visited' <= Targets(g) + {source}
      ensures 2 * |Targets(g) - visited'| + |queue'| <= 2 * |Targets(g) - visited| + |queue|
      ensures seats > 0 ==> neighbor in visited'
    {
      if neighbor !in visited && seats > 0 {
        BfsDiscover(g, source, visited, current, queue, dist, parent, neighbor);
        EdgeTarget(g, current, neighbor);
        CardRemove(Targets(g), visited, neighbor);
        visited' := visited + {neighbor};
        queue' := queue + [neighbor];
        parent' := parent[neighbor := current];
        dist' := dist[neighbor := dist[current] + 1];
      } else {
        visited', queue', parent', dist' := visited, queue, parent, dist;
      }
    }

    /**
     * One step of the route search: expands `current`, just taken off the
     * queue, by visiting every flight in its row in iteration order.
     */
    method Expand(ghost g: Graph, source: Uuid, current: Uuid, visited: set<Uuid>, queue: seq<Uuid>,
                  parent: map<Uuid, Uuid>, ghost dist: map<Uuid, nat>)
      returns (visited': set<Uuid>, queue': seq<Uuid>, parent': map<Uuid, Uuid>, ghost dist': map<Uuid, nat>)
      requires RowIs(g, current)
      requires BfsInv(g, source, visited, [current] + queue, dist, parent)
      requires visited <= Targets(g) + {source}
      ensures BfsInv(g, source, visited', [current] + queue', dist', parent')
      ensures forall w {:trigger Edge(g, current, w)} | Edge(g, current, w) :: w in visited'
      ensures visited' <= Targets(g) + {source}
      ensures 2 * |Targets(g) - visited'| + |queue'| <= 2 * |Targets(g) - visited| + |queue|
    {
      visited', queue', parent', dist' := visited, queue, parent, dist;
      var row := Row(current);
      var todo := row.Keys;
      while todo != {}
        invariant BfsInv(g, source, visited', [current] + queue', dist', parent')
        invariant todo <= row.Keys
        invariant visited' <= Targets(g) + {source}
        invariant 2 * |Targets(g) - visited'| + |queue'| <= 2 * |Targets(g) - visited| + |queue|
        invariant forall w {:trigger row[w]} | w in row && w !in todo && g[current][w] > 0 :: w in visited'
        decreases |todo|
      {
        var neighbor :| neighbor in todo;
        todo := todo - {neighbor};
        visited', queue', parent', dist' := Visit(g, source, current, neighbor, row[neighbor].seats, visited', queue', parent', dist');
      }
      assert forall w {:trigger Edge(g, current, w)} | Edge(g, current, w) :: w in row && g[current][w] > 0;
    }

    /**
     * One turn of the search loop: takes the head off the queue and, unless
     * it is `dest`, expands it. When `dest` comes off the queue the search
     * stops with `dest` discovered.
     */
    method Step(ghost g: Graph, source: Uuid, dest: Uuid, visited: set<Uuid>, queue: seq<Uuid>,
                parent: map<Uuid, Uuid>, ghost dist: map<Uuid, nat>)
      returns (visited': set<Uuid>, queue': seq<Uuid>, parent': map<Uuid, Uuid>, ghost dist': map<Uuid, nat>, found: bool)
      requires g == SeatGraph()
      requires BfsInv(g, source, visited, queue, dist, parent) && queue != []
      requires visited <= Targets(g) + {source}
      ensures found <==> queue[0] == dest
      ensures found ==> dest in visited' && ParentsLinked(g, source, visited', dist', parent') && Optimal(g, source, visited', dist')
      ensures !found ==> BfsInv(g, source, visited', queue', dist', parent') && visited' <= Targets(g) + {source}
      ensures !found ==> 2 * |Targets(g) - visited'| + |queue'| < 2 * |Targets(g) - visited| + |queue|
    {
      BfsPop(g, source, visited, queue, dist, parent);
      var current := queue[0];
      queue' := queue[1..];
      if current == dest {
        return visited, queue', parent, dist, true;
      }
      assert RowIs(g, current);
      visited', queue', parent', dist' := Expand(g, source, current, visited, queue', parent, dist);
      BfsFinish(g, source, visited', current, queue', dist', parent');
      found := false;
    }

    /**
     * The search loop: airports are taken off the queue in order and
     * expanded until the queue runs empty or `dest` comes off it. Every
     * airport it discovers is linked to the one it was discovered from, at a
     * hop count no route beats; when `dest` was not discovered it is not
     * reachable at all.
     */
    method Search(ghost g: Graph, source: Uuid, dest: Uuid)
      returns (visited: set<Uuid>, parent: map<Uuid, Uuid>, ghost dist: map<Uuid, nat>)
      requires g == SeatGraph()
      ensures ParentsLinked(g, source, visited, dist, parent)
      ensures Optimal(g, source, visited, dist)
      ensures dest !in visited ==> !Reachable(g, source, dest)
    {
      visited := {source};
      var queue := [source];
      parent := map[source := source];
      dist := map[source := 0];
      BfsInit(g, source);
      while queue != []
        invariant BfsInv(g, source, visited, queue, dist, parent)
        invariant visited <= Targets(g) + {source}
        invariant g == SeatGraph()
        decreases 2 * |Targets(g) - visited| + |queue|
      {
        var found;
        visited, queue, parent, dist, found := Step(g, source, dest, visited, queue, parent, dist);
        SeatGraphKept();
        if found {
          return;
        }
      }
      forall p | PathFromTo(g, p, source, dest) && dest !in visited ensures false {
        BfsComplete(g, source, visited, dist, parent, p);
      }
    }

    /**
     * The route back from `dest` to `source` along the parent links: the
     * flights stored between consecutive airports of `hops`, a path of
     * `dist[dest]` flights, which is as short as a route can be when every
     * hop count found is optimal.
     */
    method Trace(ghost g: Graph, source: Uuid, dest: Uuid, visited: set<Uuid>, parent: map<Uuid, Uuid>, ghost dist: map<Uuid, nat>)
      returns (path: seq<Flight>, ghost hops: seq<Uuid>)
      requires g == SeatGraph()
      requires ParentsLinked(g, source, visited, dist, parent)
      requires dest in visited
      ensures |hops| == |path| + 1 && |path| == dist[dest]
      ensures PathFromTo(g, hops, source, dest)
      ensures forall i | 0 <= i < |path| :: Occupied(hops[i], hops[i + 1]) && path[i] == data[hops[i]][hops[i + 1]]
      ensures Optimal(g, source, visited, dist) ==> NoShorter(g, source, dest, |path|)
    {
      path := [];
      var current := dest;
      hops := [dest];
      while current != source
        invariant current in visited
        invariant |hops| == |path| + 1 && hops[0] == current && hops[|hops| - 1] == dest
        invariant dist[current] + |path| == dist[dest]
        invariant IsPath(g, hops)
        invariant forall i | 0 <= i < |path| :: Occupied(hops[i], hops[i + 1]) && path[i] == data[hops[i]][hops[i + 1]]
        decreases dist[current]
      {
        var prev := parent[current];
        var flight := data[prev][current];
        Prepend(g, prev, hops);
        ghost var path0, hops0 := path, hops;
        path, hops := [flight] + path, [prev] + hops;
        forall i | 0 <= i < |path| ensures Occupied(hops[i], hops[i + 1]) && path[i] == data[hops[i]][hops[i + 1]] {
          if i > 0 {
            assert path[i] == path0[i - 1] && hops[i] == hops0[i - 1] && hops[i + 1] == hops0[i];
          }
        }
        current := prev;
      }
      if Optimal(g, source, visited, dist) {
        assert NoShorter(g, source, dest, dist[dest]);
      }
    }

    /**
     * A route from airport `source` to airport `dest` over flights that
     * still have seats, with as few flights as possible: the ghost `hops`
     * lists the airports passed through and the i-th flight is the one
     * stored from `hops[i]` to `hops[i + 1]`. Fails with "no route
     * available" exactly when no such route exists; from an airport to
     * itself the route is empty.
     */
    method BreadthFirstSearch(source: Uuid, dest: Uuid) returns (r: Result<seq<Flight>, string>, ghost hops: seq<Uuid>)
      ensures r.Failure? <==> !Reachable(SeatGraph(), source, dest)
      ensures r.Failure? ==> r.error == NoRoute
      ensures r.Success? ==>
        && |hops| == |r.value| + 1
        && PathFromTo(SeatGraph(), hops, source, dest)
        && (forall i | 0 <= i < |r.value| :: Occupied(hops[i], hops[i + 1]) && r.value[i] == data[hops[i]][hops[i + 1]])
        && NoShorter(SeatGraph(), source, dest, |r.value|)
    {
      ghost var g := SeatGraph();
      var visited, parent, dist := Search(g, source, dest);
      SeatGraphKept();
      if dest !in visited {
        return Failure(NoRoute), [];
      }
      var path;
      path, hops := Trace(g, source, dest, visited, parent, dist);
      SeatGraphKept();
      return Success(path), hops;
    }
  }

  /**
   * A flight just inserted under a fresh id is found both by that id and
   * by its airports, when the store kept each flight under its own airports
   * with unique ids.
   */
  method InsertThenFind(store: FlightStore, t: Flight, freshId: Uuid)
    returns (byId: Result<Flight, string>, byAirports: Result<Flight, string>)
    requires store.Keyed() && store.UniqueIds() && !store.HasId(freshId)
    modifies store, t`id, t`queue
    ensures byId == Success(t) && byAirports == Success(t) && t.id == freshId
  {
    store.Insert(t, freshId);
    byId := store.FindById(freshId);
    byAirports := store.FindBySourceAndDest(t.source, t.dest);
  }

  /**
   * A flight stored under its own airports, with ids unique, is no longer
   * found by its id once deleted.
   */
  method DeleteThenFind(store: FlightStore, t: Flight) returns (r: Result<Flight, string>)
    requires store.Keyed() && store.UniqueIds() && store.Occupied(t.source, t.dest) && store.data[t.source][t.dest] == t
    modifies store
    ensures r == Failure(FlightNotFound)
  {
    ghost var before := store.data;
    var deleted := store.Delete(t);
    forall u, v | store.Occupied(u, v) ensures store.data[u][v].id != t.id {
      assert u in before && v in before[u] && store.data[u][v] == before[u][v];
      assert old(store.Occupied(u, v)) && (u, v) != (t.source, t.dest);
    }
    r := store.FindById(t.id);
  }

  /** An empty store has no occupied slot, so a list of its occupied slots is empty. */
  lemma NothingListed(store: FlightStore, slots: seq<(Uuid, Uuid)>)
    requires store.data == map[]
    ensures (forall i | 0 <= i < |slots| :: store.Occupied(slots[i].0, slots[i].1)) ==> slots == []
  {
    if slots != [] {
      assert !store.Occupied(slots[0].0, slots[0].1);
    }
  }

  /** After forgetting every flight, listing them gives nothing. */
  method DeleteAllThenList(store: FlightStore) returns (v: seq<Flight>)
    modifies store
    ensures v == []
  {
    store.DeleteAll();
    ghost var slots;
    v, slots := store.FindAll();
    NothingListed(store, slots);
  }
}
