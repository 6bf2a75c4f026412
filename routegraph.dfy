/**
 * The airport graph the route search explores: an edge runs from airport
 * u to airport v when a flight u -> v is stored and still has a seat.
 * This module states reachability and hop-minimality, and the invariant
 * of a breadth-first search together with the lemmas that carry it
 * through each step.
 */
module RouteGraph {
  import opened Models

  /** Seats left on the flight stored under source u and destination v. */
  type Graph = map<Uuid, map<Uuid, nat>>

  predicate Edge(g: Graph, u: Uuid, v: Uuid)
  {
    u in g && v in g[u] && g[u][v] > 0
  }

  /** The airports some flight arrives at. */
  ghost function Targets(g: Graph): set<Uuid>
  {
    set u, v | u in g && v in g[u] :: v
  }

  lemma EdgeTarget(g: Graph, u: Uuid, v: Uuid)
    requires Edge(g, u, v)
    ensures v in Targets(g)
  {
  }

  /** Marking one more airport of `t` visited leaves one fewer unvisited. */
  lemma CardRemove(t: set<Uuid>, visited: set<Uuid>, n: Uuid)
    requires n in t && n !in visited
    ensures |t - (visited + {n})| == |t - visited| - 1
  {
    assert t - (visited + {n}) == (t - visited) - {n};
  }

  /** `p` lists airports, each one reached from the previous by an edge. */
  ghost predicate IsPath(g: Graph, p: seq<Uuid>)
  {
    |p| >= 1 && forall i | 0 <= i < |p| - 1 :: Edge(g, p[i], p[i + 1])
  }

  ghost predicate PathFromTo(g: Graph, p: seq<Uuid>, s: Uuid, d: Uuid)
  {
    IsPath(g, p) && p[0] == s && p[|p| - 1] == d
  }

  ghost predicate Reachable(g: Graph, s: Uuid, d: Uuid)
  {
    exists p :: PathFromTo(g, p, s, d)
  }

  /** No path from `s` to `d` takes fewer than `k` flights. */
  ghost predicate NoShorter(g: Graph, s: Uuid, d: Uuid, k: nat)
  {
    forall p {:trigger PathFromTo(g, p, s, d)} | PathFromTo(g, p, s, d) :: |p| - 1 >= k
  }

  /** Every discovered airport hangs off its parent by one edge, one hop further. */
  ghost predicate ParentsLinked(g: Graph, src: Uuid, visited: set<Uuid>, dist: map<Uuid, nat>, parent: map<Uuid, Uuid>)
  {
    && src in visited && dist.Keys == visited && parent.Keys == visited
    && dist[src] == 0 && parent[src] == src
    && forall v {:trigger parent[v]} | v in visited && v != src ::
         parent[v] in visited && Edge(g, parent[v], v) && dist[v] == dist[parent[v]] + 1
  }

  /** Every discovery hop count is optimal. */
  ghost predicate Optimal(g: Graph, src: Uuid, visited: set<Uuid>, dist: map<Uuid, nat>)
    requires visited <= dist.Keys
  {
    forall v {:trigger NoShorter(g, src, v, dist[v])} | v in visited :: NoShorter(g, src, v, dist[v])
  }

  /** The queue holds distinct discovered airports in nondecreasing distance, spanning at most one hop. */
  ghost predicate QueueOrdered(visited: set<Uuid>, lq: seq<Uuid>, dist: map<Uuid, nat>)
    requires visited <= dist.Keys
  {
    && (forall i, j | 0 <= i < j < |lq| :: lq[i] != lq[j])
    && (forall i | 0 <= i < |lq| :: lq[i] in visited)
    && (forall i, j | 0 <= i <= j < |lq| :: dist[lq[i]] <= dist[lq[j]])
    && (|lq| > 0 ==> dist[lq[|lq| - 1]] <= dist[lq[0]] + 1)
  }

  /** Expanded airports come no later than the queue's head and have all their successors discovered. */
  ghost predicate ExpandedClosed(g: Graph, visited: set<Uuid>, lq: seq<Uuid>, dist: map<Uuid, nat>)
    requires visited <= dist.Keys && forall i | 0 <= i < |lq| :: lq[i] in visited
  {
    && (forall u {:trigger dist[u]} | u in visited && u !in lq && |lq| > 0 :: dist[u] <= dist[lq[0]])
    && (forall u, w {:trigger Edge(g, u, w)} | u in visited && u !in lq && Edge(g, u, w) ::
          w in visited && dist[w] <= dist[u] + 1)
  }

  /**
   * The state of a breadth-first search from `src`: `visited` are the
   * airports discovered so far, `lq` those waiting to be expanded (its head
   * possibly being expanded right now), `dist` the hop count at which each
   * was discovered and `parent` the airport it was discovered from.
   */
  ghost predicate BfsInv(g: Graph, src: Uuid, visited: set<Uuid>, lq: seq<Uuid>,
                         dist: map<Uuid, nat>, parent: map<Uuid, Uuid>)
  {
    && ParentsLinked(g, src, visited, dist, parent)
    && Optimal(g, src, visited, dist)
    && QueueOrdered(visited, lq, dist)
    && ExpandedClosed(g, visited, lq, dist)
  }

  lemma BfsInit(g: Graph, src: Uuid)
    ensures BfsInv(g, src, {src}, [src], map[src := 0], map[src := src])
  {
  }

  /** While the queue is not empty, nothing discovered is more than one hop past its head. */
  lemma BfsBounded(g: Graph, src: Uuid, visited: set<Uuid>, lq: seq<Uuid>,
                   dist: map<Uuid, nat>, parent: map<Uuid, Uuid>)
    requires BfsInv(g, src, visited, lq, dist, parent) && |lq| > 0
    ensures forall v | v in visited :: dist[v] <= dist[lq[0]] + 1
  {
    forall v | v in visited ensures dist[v] <= dist[lq[0]] + 1 {
      if v in lq {
        var i :| 0 <= i < |lq| && lq[i] == v;
        assert dist[lq[i]] <= dist[lq[|lq| - 1]];
      }
    }
  }

  /**
   * Every airport within as many hops as the queue's head is already
   * discovered, at no greater distance than that path.
   */
  lemma {:induction false} BfsCovers(g: Graph, src: Uuid, visited: set<Uuid>, lq: seq<Uuid>,
                                     dist: map<Uuid, nat>, parent: map<Uuid, Uuid>, p: seq<Uuid>)
    requires BfsInv(g, src, visited, lq, dist, parent) && |lq| > 0
    requires IsPath(g, p) && p[0] == src && |p| - 1 <= dist[lq[0]]
    ensures p[|p| - 1] in visited && dist[p[|p| - 1]] <= |p| - 1
    decreases |p|
  {
    if |p| > 1 {
      var q := p[..|p| - 1];
      assert IsPath(g, q) by {
        forall i | 0 <= i < |q| - 1 ensures Edge(g, q[i], q[i + 1]) {
          assert q[i] == p[i] && q[i + 1] == p[i + 1];
        }
      }
      BfsCovers(g, src, visited, lq, dist, parent, q);
      var u := q[|q| - 1];
      assert Edge(g, u, p[|p| - 1]) by {
        assert u == p[|p| - 2];
      }
    }
  }

  lemma ParentsExtend(g: Graph, src: Uuid, visited: set<Uuid>, dist: map<Uuid, nat>, parent: map<Uuid, Uuid>,
                      c: Uuid, n: Uuid)
    requires ParentsLinked(g, src, visited, dist, parent)
    requires c in visited && Edge(g, c, n) && n !in visited
    ensures ParentsLinked(g, src, visited + {n}, dist[n := dist[c] + 1], parent[n := c])
  {
  }

  lemma OptimalExtend(g: Graph, src: Uuid, visited: set<Uuid>, c: Uuid, queue: seq<Uuid>,
                      dist: map<Uuid, nat>, parent: map<Uuid, Uuid>, n: Uuid)
    requires BfsInv(g, src, visited, [c] + queue, dist, parent)
    requires n !in visited
    ensures Optimal(g, src, visited + {n}, dist[n := dist[c] + 1])
  {
    var lq := [c] + queue;
    assert lq[0] == c;
    assert NoShorter(g, src, n, dist[c] + 1) by {
      forall p | PathFromTo(g, p, src, n) ensures |p| - 1 >= dist[c] + 1 {
        if |p| - 1 <= dist[c] {
          BfsCovers(g, src, visited, lq, dist, parent, p);
        }
      }
    }
  }

  /** Appending an element not yet present keeps elements distinct. */
  lemma AppendDistinct(lq: seq<Uuid>, n: Uuid)
    requires forall i, j | 0 <= i < j < |lq| :: lq[i] != lq[j]
    requires forall i | 0 <= i < |lq| :: lq[i] != n
    ensures forall i, j | 0 <= i < j < |lq + [n]| :: (lq + [n])[i] != (lq + [n])[j]
  {
    var lq' := lq + [n];
    forall i, j | 0 <= i < j < |lq'| ensures lq'[i] != lq'[j] {
      if j < |lq| {
        assert lq'[i] == lq[i] && lq'[j] == lq[j];
      } else {
        assert lq'[i] == lq[i] && lq'[j] == n;
      }
    }
  }

  /** Appending an element at least as far as every queued one keeps the order. */
  lemma AppendSorted(lq: seq<Uuid>, dist: map<Uuid, nat>, n: Uuid, d: nat)
    requires forall i | 0 <= i < |lq| :: lq[i] in dist && lq[i] != n && dist[lq[i]] <= d
    requires forall i, j | 0 <= i <= j < |lq| :: dist[lq[i]] <= dist[lq[j]]
    ensures forall i, j | 0 <= i <= j < |lq + [n]| :: dist[n := d][(lq + [n])[i]] <= dist[n := d][(lq + [n])[j]]
  {
    var lq', dist' := lq + [n], dist[n := d];
    forall i, j | 0 <= i <= j < |lq'| ensures dist'[lq'[i]] <= dist'[lq'[j]] {
      if j < |lq| {
        assert lq'[i] == lq[i] && lq'[j] == lq[j];
        assert dist'[lq[i]] == dist[lq[i]] && dist'[lq[j]] == dist[lq[j]];
      } else if i < |lq| {
        assert lq'[i] == lq[i] && lq'[j] == n;
        assert dist'[lq[i]] == dist[lq[i]];
      }
    }
  }

  lemma QueueExtend(visited: set<Uuid>, c: Uuid, queue: seq<Uuid>, dist: map<Uuid, nat>, n: Uuid)
    requires visited <= dist.Keys && QueueOrdered(visited, [c] + queue, dist)
    requires forall v | v in visited :: dist[v] <= dist[c] + 1
    requires n !in visited
    ensures QueueOrdered(visited + {n}, [c] + (queue + [n]), dist[n := dist[c] + 1])
  {
    var lq := [c] + queue;
    assert lq[0] == c;
    var lq', dist' := lq + [n], dist[n := dist[c] + 1];
    assert lq' == [c] + (queue + [n]);
    AppendDistinct(lq, n);
    AppendSorted(lq, dist, n, dist[c] + 1);
    assert forall i | 0 <= i < |lq'| :: lq'[i] in visited + {n} by {
      forall i | 0 <= i < |lq'| ensures lq'[i] in visited + {n} {
        if i < |lq| {
          assert lq'[i] == lq[i];
        }
      }
    }
    assert lq'[|lq'| - 1] == n && lq'[0] == c;
  }

  lemma ExpandedExtend(g: Graph, src: Uuid, visited: set<Uuid>, c: Uuid, queue: seq<Uuid>,
                       dist: map<Uuid, nat>, parent: map<Uuid, Uuid>, n: Uuid)
    requires BfsInv(g, src, visited, [c] + queue, dist, parent)
    requires n !in visited
    requires QueueOrdered(visited + {n}, [c] + (queue + [n]), dist[n := dist[c] + 1])
    ensures ExpandedClosed(g, visited + {n}, [c] + (queue + [n]), dist[n := dist[c] + 1])
  {
    var lq := [c] + queue;
    var visited', lq', dist' := visited + {n}, [c] + (queue + [n]), dist[n := dist[c] + 1];
    assert lq[0] == c && lq'[0] == c;
    forall u | u in visited' && u !in lq'
      ensures dist'[u] <= dist'[c]
      ensures forall w | Edge(g, u, w) :: w in visited' && dist'[w] <= dist'[u] + 1
    {
      assert u in visited && u != n;
      assert u !in lq;
    }
  }

  /** Taking the head off the queue to expand it leaves the state unchanged. */
  lemma BfsPop(g: Graph, src: Uuid, visited: set<Uuid>, queue: seq<Uuid>,
               dist: map<Uuid, nat>, parent: map<Uuid, Uuid>)
    requires BfsInv(g, src, visited, queue, dist, parent) && |queue| > 0
    ensures BfsInv(g, src, visited, [queue[0]] + queue[1..], dist, parent)
  {
    assert [queue[0]] + queue[1..] == queue;
  }

  /** While `c` is expanded, nothing discovered is more than one hop past it. */
  lemma BfsNear(g: Graph, src: Uuid, visited: set<Uuid>, c: Uuid, queue: seq<Uuid>,
                dist: map<Uuid, nat>, parent: map<Uuid, Uuid>)
    requires BfsInv(g, src, visited, [c] + queue, dist, parent)
    ensures forall v | v in visited :: dist[v] <= dist[c] + 1
  {
    BfsBounded(g, src, visited, [c] + queue, dist, parent);
  }

  /**
   * While `c` is expanded, discovering an unvisited successor `n` of it at
   * one hop past it, and appending it to the queue, keeps the invariant.
   */
  lemma BfsDiscover(g: Graph, src: Uuid, visited: set<Uuid>, c: Uuid, queue: seq<Uuid>,
                    dist: map<Uuid, nat>, parent: map<Uuid, Uuid>, n: Uuid)
    requires BfsInv(g, src, visited, [c] + queue, dist, parent)
    requires Edge(g, c, n) && n !in visited
    ensures BfsInv(g, src, visited + {n}, [c] + (queue + [n]), dist[n := dist[c] + 1], parent[n := c])
  {
    ParentsExtend(g, src, visited, dist, parent, c, n);
    OptimalExtend(g, src, visited, c, queue, dist, parent, n);
    BfsNear(g, src, visited, c, queue, dist, parent);
    QueueExtend(visited, c, queue, dist, n);
    ExpandedExtend(g, src, visited, c, queue, dist, parent, n);
  }

  lemma QueueShrink(visited: set<Uuid>, c: Uuid, queue: seq<Uuid>, dist: map<Uuid, nat>)
    requires visited <= dist.Keys && QueueOrdered(visited, [c] + queue, dist)
    ensures QueueOrdered(visited, queue, dist)
    ensures forall i | 0 <= i < |queue| :: dist[c] <= dist[queue[i]] && queue[i] != c
  {
    var lq := [c] + queue;
    assert forall i | 0 <= i < |queue| :: queue[i] == lq[i + 1];
    if |queue| > 0 {
      assert dist[lq[0]] <= dist[lq[1]];
    }
  }

  lemma ExpandedShrink(g: Graph, src: Uuid, visited: set<Uuid>, c: Uuid, queue: seq<Uuid>,
                       dist: map<Uuid, nat>, parent: map<Uuid, Uuid>)
    requires BfsInv(g, src, visited, [c] + queue, dist, parent)
    requires forall w {:trigger Edge(g, c, w)} | Edge(g, c, w) :: w in visited && dist[w] <= dist[c] + 1
    requires QueueOrdered(visited, queue, dist)
    requires forall i | 0 <= i < |queue| :: dist[c] <= dist[queue[i]]
    ensures ExpandedClosed(g, visited, queue, dist)
  {
    var lq := [c] + queue;
    forall u | u in visited && u !in queue
      ensures |queue| > 0 ==> dist[u] <= dist[queue[0]]
      ensures forall w | Edge(g, u, w) :: w in visited && dist[w] <= dist[u] + 1
    {
      if u != c {
        assert u !in lq;
      }
    }
  }

  /** Once every successor of `c` is discovered, `c` is expanded and the invariant holds for the rest of the queue. */
  lemma BfsFinish(g: Graph, src: Uuid, visited: set<Uuid>, c: Uuid, queue: seq<Uuid>,
                  dist: map<Uuid, nat>, parent: map<Uuid, Uuid>)
    requires BfsInv(g, src, visited, [c] + queue, dist, parent)
    requires forall w {:trigger Edge(g, c, w)} | Edge(g, c, w) :: w in visited
    ensures BfsInv(g, src, visited, queue, dist, parent)
  {
    BfsNear(g, src, visited, c, queue, dist, parent);
    QueueShrink(visited, c, queue, dist);
    ExpandedShrink(g, src, visited, c, queue, dist, parent);
  }

  /** At exhaustion every airport reachable from `src` has been discovered. */
  lemma {:induction false} BfsComplete(g: Graph, src: Uuid, visited: set<Uuid>,
                                       dist: map<Uuid, nat>, parent: map<Uuid, Uuid>, p: seq<Uuid>)
    requires BfsInv(g, src, visited, [], dist, parent)
    requires IsPath(g, p) && p[0] == src
    ensures p[|p| - 1] in visited
    decreases |p|
  {
    if |p| > 1 {
      var q := p[..|p| - 1];
      assert IsPath(g, q) by {
        forall i | 0 <= i < |q| - 1 ensures Edge(g, q[i], q[i + 1]) {
          assert q[i] == p[i] && q[i + 1] == p[i + 1];
        }
      }
      BfsComplete(g, src, visited, dist, parent, q);
      assert Edge(g, q[|q| - 1], p[|p| - 1]) by {
        assert q[|q| - 1] == p[|p| - 2];
      }
    }
  }

  /** Extending a path by one edge gives a path. */
  lemma Extend(g: Graph, p: seq<Uuid>, w: Uuid)
    requires IsPath(g, p) && Edge(g, p[|p| - 1], w)
    ensures IsPath(g, p + [w])
  {
    var p' := p + [w];
    forall i | 0 <= i < |p'| - 1 ensures Edge(g, p'[i], p'[i + 1]) {
      if i < |p| - 1 {
        assert p'[i] == p[i] && p'[i + 1] == p[i + 1];
      }
    }
  }

  /** Prefixing a path by one edge gives a path. */
  lemma Prepend(g: Graph, u: Uuid, p: seq<Uuid>)
    requires IsPath(g, p) && Edge(g, u, p[0])
    ensures IsPath(g, [u] + p)
  {
    var p' := [u] + p;
    forall i | 0 <= i < |p'| - 1 ensures Edge(g, p'[i], p'[i + 1]) {
      if i > 0 {
        assert p'[i] == p[i - 1] && p'[i + 1] == p[i];
      }
    }
  }
}
