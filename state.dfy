/**
 * A search state of the deliberative agent (3-deliberative/src/template/State.java):
 * the plan so far, the city reached, the tasks still to pick up and to
 * deliver, the free space, and the MST heuristic of the remaining work.
 */
module States {
  import opened Actions
  import opened Mappings
  import opened Edges
  import opened UnionFind
  import opened CustomPlans
  import Plans

  /**
   * What `computeHash` identifies a state by: its delivery mapping, its
   * pickup mapping and its city.
   */
  datatype Key = Key(deliveries: Lists, pickups: Lists, city: City)

  /** The summed weight of a list of tasks. */
  function WeightSum(ts: seq<Task>): nat
  {
    if ts == [] then 0 else WeightSum(ts[..|ts| - 1]) + ts[|ts| - 1].weight
  }

  function Elems(cs: seq<City>): set<City>
  {
    set c | c in cs
  }

  ghost predicate Distinct(cs: seq<City>)
  {
    forall p, q :: 0 <= p < q < |cs| ==> cs[p] != cs[q]
  }

  /** The cities a task brings into the heuristic: its destination, and its origin when it is still to be picked up. */
  function TaskCities(t: Task, both: bool): set<City>
  {
    if both then {t.deliveryCity, t.pickupCity} else {t.deliveryCity}
  }

  function ListCities(l: seq<Task>, both: bool): set<City>
  {
    if l == [] then {} else ListCities(l[..|l| - 1], both) + TaskCities(l[|l| - 1], both)
  }

  ghost function KeyCities(m: Lists, ks: set<City>, both: bool): set<City>
  {
    set c, x | c in ks && c in m && x in ListCities(m[c], both) :: x
  }

  /**
   * The cities the heuristic spans: both ends of every task still to pick
   * up and the destination of every task on board.
   */
  ghost function Pending(pickups: Lists, deliveries: Lists): set<City>
  {
    KeyCities(pickups, pickups.Keys, true) + KeyCities(deliveries, deliveries.Keys, false)
  }

  lemma {:induction false} ListCitiesEmpty(l: seq<Task>, both: bool)
    ensures l != [] ==> ListCities(l, both) != {}
  {
    if l != [] {
      assert l[|l| - 1].deliveryCity in ListCities(l, both);
    }
  }

  /** With no empty list, nothing is pending exactly when both mappings are empty. */
  lemma PendingEmpty(pickups: Lists, deliveries: Lists)
    requires NoEmpty(pickups) && NoEmpty(deliveries)
    ensures Pending(pickups, deliveries) == {} <==> pickups == map[] && deliveries == map[]
  {
    if pickups != map[] {
      var c :| c in pickups;
      ListCitiesEmpty(pickups[c], true);
      var x :| x in ListCities(pickups[c], true);
      assert x in KeyCities(pickups, pickups.Keys, true);
    }
    if deliveries != map[] {
      var c :| c in deliveries;
      ListCitiesEmpty(deliveries[c], false);
      var x :| x in ListCities(deliveries[c], false);
      assert x in KeyCities(deliveries, deliveries.Keys, false);
    }
  }

  /** x and y are the two ends, in either order, of some tree edge. */
  ghost predicate Adjacent(tree: seq<Edge<City>>, x: City, y: City)
  {
    exists e :: e in tree && ((e.a == x && e.b == y) || (e.a == y && e.b == x))
  }

  /** A walk along tree edges: every two consecutive cities are adjacent. */
  ghost predicate Walks(tree: seq<Edge<City>>, w: seq<City>)
  {
    forall k :: 0 <= k < |w| - 1 ==> Adjacent(tree, w[k], w[k + 1])
  }

  /** Some walk along the tree's edges leads from x to y. */
  ghost predicate Linked(tree: seq<Edge<City>>, x: City, y: City)
  {
    exists w :: Walks(tree, w) && |w| > 0 && w[0] == x && w[|w| - 1] == y
  }

  lemma LinkedSelf(tree: seq<Edge<City>>, x: City)
    ensures Linked(tree, x, x)
  {
    assert Walks(tree, [x]);
  }

  /** A walk stays one when the tree grows. */
  lemma LinkedGrow(tree: seq<Edge<City>>, e: Edge<City>, x: City, y: City)
    requires Linked(tree, x, y)
    ensures Linked(tree + [e], x, y)
  {
    var w :| Walks(tree, w) && |w| > 0 && w[0] == x && w[|w| - 1] == y;
    forall k | 0 <= k < |w| - 1
      ensures Adjacent(tree + [e], w[k], w[k + 1])
    {
      assert Adjacent(tree, w[k], w[k + 1]);
      var f :| f in tree && ((f.a == w[k] && f.b == w[k + 1]) || (f.a == w[k + 1] && f.b == w[k]));
      assert f in tree + [e];
    }
  }

  /** Walks from x to y and from y to z make one from x to z. */
  lemma LinkedTrans(tree: seq<Edge<City>>, x: City, y: City, z: City)
    requires Linked(tree, x, y) && Linked(tree, y, z)
    ensures Linked(tree, x, z)
  {
    var w :| Walks(tree, w) && |w| > 0 && w[0] == x && w[|w| - 1] == y;
    var v :| Walks(tree, v) && |v| > 0 && v[0] == y && v[|v| - 1] == z;
    var u := w + v[1..];
    forall k | 0 <= k < |u| - 1
      ensures Adjacent(tree, u[k], u[k + 1])
    {
      if k < |w| - 1 {
        assert u[k] == w[k] && u[k + 1] == w[k + 1];
      } else {
        assert u[k] == v[k - |w| + 1] && u[k + 1] == v[k - |w| + 2];
      }
    }
    assert u[|u| - 1] == z;
  }

  /** A new edge links its two ends, both ways. */
  lemma LinkedEdge(tree: seq<Edge<City>>, e: Edge<City>)
    ensures Linked(tree + [e], e.a, e.b) && Linked(tree + [e], e.b, e.a)
  {
    assert e in tree + [e];
    assert Walks(tree + [e], [e.a, e.b]);
    assert Walks(tree + [e], [e.b, e.a]);
  }

  /**
   * A heuristic tree over the pending cities: distinct edges between two
   * different pending cities weighted by their distance, polled in
   * non-decreasing weight, one fewer than the cities, and linking every two
   * of them.
   */
  ghost predicate Spans(dist: Plans.Distance, cities: seq<City>, tree: seq<Edge<City>>)
  {
    && (forall e :: e in tree ==> e.a in cities && e.b in cities && e.a != e.b && e.weight == dist(e.a, e.b))
    && (forall p, q :: 0 <= p < q < |tree| ==> tree[p].weight <= tree[q].weight)
    && (forall p, q :: 0 <= p < q < |tree| ==> tree[p] != tree[q])
    && (forall x, y :: x in cities && y in cities ==> Linked(tree, x, y))
    && |tree| == if cities == [] then 0 else |cities| - 1
  }

  /** futureCost is the weight of such a tree over exactly the pending cities. */
  ghost predicate Heuristic(dist: Plans.Distance, pickups: Lists, deliveries: Lists, cost: nat)
  {
    exists cities: seq<City>, tree: seq<Edge<City>> ::
      Distinct(cities) && Elems(cities) == Pending(pickups, deliveries) && Spans(dist, cities, tree) && cost == Weight(tree)
  }

  /** A tree spanning a list of exactly the pending cities witnesses the heuristic. */
  lemma Spanning(dist: Plans.Distance, pickups: Lists, deliveries: Lists, cities: seq<City>, tree: seq<Edge<City>>, cost: nat)
    requires Distinct(cities) && Elems(cities) == Elems([]) + KeyCities(pickups, pickups.Keys, true) + KeyCities(deliveries, deliveries.Keys, false)
    requires forall e :: e in tree ==> e.a in cities && e.b in cities && e.a != e.b && e.weight == dist(e.a, e.b)
    requires forall p, q :: 0 <= p < q < |tree| ==> tree[p].weight <= tree[q].weight
    requires forall p, q :: 0 <= p < q < |tree| ==> tree[p] != tree[q]
    requires forall x, y :: x in cities && y in cities ==> Linked(tree, x, y)
    requires |tree| == (if cities == [] then 0 else |cities| - 1) && cost == Weight(tree)
    ensures Heuristic(dist, pickups, deliveries, cost)
  {
    assert Elems([]) == {};
    assert Spans(dist, cities, tree);
  }

  /** The heuristic of a state with nothing pending is 0. */
  lemma HeuristicNothingPending(dist: Plans.Distance, pickups: Lists, deliveries: Lists, cost: nat)
    requires Heuristic(dist, pickups, deliveries, cost) && Pending(pickups, deliveries) == {}
    ensures cost == 0
  {
    var cities: seq<City>, tree: seq<Edge<City>> :|
      Distinct(cities) && Elems(cities) == Pending(pickups, deliveries) && Spans(dist, cities, tree) && cost == Weight(tree);
    ElemsEmpty(cities);
  }

  lemma ElemsEmpty(cs: seq<City>)
    ensures Elems(cs) == {} ==> cs == []
  {
    if cs != [] {
      assert cs[0] in Elems(cs);
    }
  }

  /** The first index of a minimum-weight edge: what the priority queue polls. */
  method MinEdge(q: seq<Edge<City>>) returns (m: nat)
    requires q != []
    ensures m < |q| && forall e :: e in q ==> q[m].weight <= e.weight
  {
    m := 0;
    var k := 1;
    while k < |q|
      invariant m < k <= |q|
      invariant forall j :: 0 <= j < k ==> q[m].weight <= q[j].weight
    {
      if q[k].weight < q[m].weight {
        m := k;
      }
      k := k + 1;
    }
  }

  /** The union-find holds one singleton set per listed city, and no city is listed twice or shares a set. */
  ghost predicate Tracks(s: Set<City>, cities: seq<City>)
    reads s
  {
    && s.Valid() && s.toInt.Keys == Elems(cities) && |s.fromInt| == |cities| && Distinct(cities)
    && forall x, y :: x in s.toInt && y in s.toInt && s.toInt[x] == s.toInt[y] ==> x == y
  }

  /** `cities.add(c); s.makeSet(c)` for a city not listed yet. */
  method AddCity(s: Set<City>, cities: seq<City>, c: City) returns (cities': seq<City>)
    requires Tracks(s, cities)
    requires c !in cities
    modifies s
    ensures Tracks(s, cities')
    ensures cities' == cities + [c] && Elems(cities') == Elems(cities) + {c}
  {
    cities' := cities + [c];
    s.MakeSet(c);
    assert Elems(cities') == Elems(cities) + {c};
  }

  /** Adds a task's cities that are not listed yet: its destination, then its origin when both. */
  method AddTaskCities(s: Set<City>, cities: seq<City>, t: Task, both: bool) returns (cities': seq<City>)
    requires Tracks(s, cities)
    modifies s
    ensures Tracks(s, cities')
    ensures Elems(cities') == Elems(cities) + TaskCities(t, both)
  {
    cities' := cities;
    if t.deliveryCity !in cities' {
      cities' := AddCity(s, cities', t.deliveryCity);
    }
    if both && t.pickupCity !in cities' {
      cities' := AddCity(s, cities', t.pickupCity);
    }
  }

  /** Adds the cities of one task list that are not listed yet, making a singleton set for each. */
  method AddCities(s: Set<City>, cities: seq<City>, l: seq<Task>, both: bool) returns (cities': seq<City>)
    requires Tracks(s, cities)
    modifies s
    ensures Tracks(s, cities')
    ensures Elems(cities') == Elems(cities) + ListCities(l, both)
  {
    cities' := cities;
    var k := 0;
    while k < |l|
      invariant k <= |l|
      invariant Tracks(s, cities')
      invariant Elems(cities') == Elems(cities) + ListCities(l[..k], both)
    {
      cities' := AddTaskCities(s, cities', l[k], both);
      assert l[..k + 1][..k] == l[..k];
      k := k + 1;
    }
    assert l[..k] == l;
  }

  lemma KeyCitiesAdd(m: Lists, done: set<City>, c: City, both: bool)
    requires c in m
    ensures KeyCities(m, done + {c}, both) == KeyCities(m, done, both) + ListCities(m[c], both)
  {
  }

  /** Walks the lists of a mapping, in the map's own iteration order, adding their cities. */
  method AddMapCities(s: Set<City>, cities: seq<City>, m: Lists, both: bool) returns (cities': seq<City>)
    requires Tracks(s, cities)
    modifies s
    ensures Tracks(s, cities')
    ensures Elems(cities') == Elems(cities) + KeyCities(m, m.Keys, both)
  {
    cities' := cities;
    var todo := m.Keys;
    ghost var done: set<City> := {};
    while todo != {}
      invariant todo <= m.Keys && done + todo == m.Keys
      invariant Tracks(s, cities')
      invariant Elems(cities') == Elems(cities) + KeyCities(m, done, both)
      decreases todo
    {
      var c :| c in todo;
      cities' := AddCities(s, cities', m[c], both);
      KeyCitiesAdd(m, done, c, both);
      done := done + {c};
      todo := todo - {c};
    }
    KeyCitiesAll(m, done, both);
  }

  lemma KeyCitiesAll(m: Lists, done: set<City>, both: bool)
    requires m.Keys <= done
    ensures KeyCities(m, done, both) == KeyCities(m, m.Keys, both)
  {
  }

  /** The complete graph over the cities, in the order of the nested loops. */
  method AllEdges(dist: Plans.Distance, cities: seq<City>) returns (edges: seq<Edge<City>>)
    requires Distinct(cities)
    ensures forall p, q :: 0 <= p < q < |cities| ==> Edge(cities[p], cities[q], dist(cities[p], cities[q])) in edges
    ensures forall e :: e in edges ==> e.a in cities && e.b in cities && e.a != e.b && e.weight == dist(e.a, e.b)
  {
    edges := [];
    var i := 0;
    while i < |cities|
      invariant i <= |cities|
      invariant forall p, q :: 0 <= p < i && p < q < |cities| ==> Edge(cities[p], cities[q], dist(cities[p], cities[q])) in edges
      invariant forall e :: e in edges ==> e.a in cities && e.b in cities && e.a != e.b && e.weight == dist(e.a, e.b)
    {
      var j := i + 1;
      while j < |cities|
        invariant i < j <= |cities| || j == i + 1 == |cities| + 1
        invariant forall p, q :: 0 <= p < i && p < q < |cities| ==> Edge(cities[p], cities[q], dist(cities[p], cities[q])) in edges
        invariant forall q :: i < q < j && q < |cities| ==> Edge(cities[i], cities[q], dist(cities[i], cities[q])) in edges
        invariant forall e :: e in edges ==> e.a in cities && e.b in cities && e.a != e.b && e.weight == dist(e.a, e.b)
      {
        edges := edges + [Edge(cities[i], cities[j], dist(cities[i], cities[j]))];
        j := j + 1;
      }
      i := i + 1;
    }
  }

  /** The union-find holds exactly the cities, in one set fewer than the cities per tree edge. */
  ghost predicate Sets(cities: seq<City>, i: int, fromInt: map<int, seq<City>>, toInt: map<City, int>, tree: seq<Edge<City>>)
  {
    Inv(i, fromInt, toInt) && toInt.Keys == Elems(cities) && |fromInt| + |tree| == |cities|
  }

  /** The queue and the tree are drawn from the edges; the tree is polled in non-decreasing weight. */
  ghost predicate Polled(edges: seq<Edge<City>>, remaining: seq<Edge<City>>, tree: seq<Edge<City>>)
  {
    && (forall e :: e in remaining ==> e in edges)
    && (forall e :: e in tree ==> e in edges)
    && (forall p, q :: 0 <= p < q < |tree| ==> tree[p].weight <= tree[q].weight)
    && (tree != [] ==> forall e :: e in remaining ==> tree[|tree| - 1].weight <= e.weight)
  }

  /** Every edge already polled has both ends in one set. */
  ghost predicate Connects(edges: seq<Edge<City>>, remaining: seq<Edge<City>>, toInt: map<City, int>)
  {
    forall e :: e in edges ==> e.a in toInt && e.b in toInt && (e in remaining || toInt[e.a] == toInt[e.b])
  }

  /** Kruskal's loop invariant, stated on the union-find's two maps. */
  ghost predicate Forest(cities: seq<City>, edges: seq<Edge<City>>, i: int, fromInt: map<int, seq<City>>, toInt: map<City, int>,
                         remaining: seq<Edge<City>>, tree: seq<Edge<City>>)
  {
    Sets(cities, i, fromInt, toInt, tree) && Polled(edges, remaining, tree) && Connects(edges, remaining, toInt) && Links(toInt, tree)
  }

  /** Every tree edge lies within one set, cities in one set are linked by the tree, and no edge is in the tree twice. */
  ghost predicate Links(toInt: map<City, int>, tree: seq<Edge<City>>)
  {
    && (forall e :: e in tree ==> e.a in toInt && e.b in toInt && toInt[e.a] == toInt[e.b])
    && (forall x, y :: x in toInt && y in toInt && toInt[x] == toInt[y] ==> Linked(tree, x, y))
    && (forall p, q :: 0 <= p < q < |tree| ==> tree[p] != tree[q])
  }

  /** With every city alone in its set, the empty tree links each set. */
  lemma Unlinked(toInt: map<City, int>)
    requires forall x, y :: x in toInt && y in toInt && toInt[x] == toInt[y] ==> x == y
    ensures Links(toInt, [])
  {
    forall x, y | x in toInt && y in toInt && toInt[x] == toInt[y]
      ensures Linked([], x, y)
    {
      LinkedSelf([], x);
    }
  }

  /** Adding an edge across two sets and relabelling the second set as the first keeps the sets linked by the tree. */
  lemma JoinLinks(toInt: map<City, int>, tree: seq<Edge<City>>, e: Edge<City>)
    requires Links(toInt, tree) && e.a in toInt && e.b in toInt && toInt[e.a] != toInt[e.b]
    ensures Links(Relabelled(toInt, toInt[e.b], toInt[e.a]), tree + [e])
  {
    var ka, kb := toInt[e.a], toInt[e.b];
    var t := Relabelled(toInt, kb, ka);
    var grown := tree + [e];
    LinkedEdge(tree, e);
    forall f | f in grown
      ensures f.a in t && f.b in t && t[f.a] == t[f.b]
    {
      if f != e {
        assert f in tree;
      }
    }
    forall x, y | x in t && y in t && t[x] == t[y]
      ensures Linked(grown, x, y)
    {
      if toInt[x] == toInt[y] {
        LinkedGrow(tree, e, x, y);
      } else if toInt[x] == ka {
        LinkedGrow(tree, e, x, e.a);
        LinkedGrow(tree, e, e.b, y);
        LinkedTrans(grown, x, e.a, e.b);
        LinkedTrans(grown, x, e.b, y);
      } else {
        LinkedGrow(tree, e, x, e.b);
        LinkedGrow(tree, e, e.a, y);
        LinkedTrans(grown, x, e.b, e.a);
        LinkedTrans(grown, x, e.a, y);
      }
    }
    forall p, q | 0 <= p < q < |grown|
      ensures grown[p] != grown[q]
    {
      assert grown[p] == tree[p];
      if q == |tree| {
        assert tree[p] in tree;
      } else {
        assert grown[q] == tree[q];
      }
    }
  }

  /** Taking the m-th edge out of the queue. */
  lemma RemoveAt(q: seq<Edge<City>>, m: nat)
    requires m < |q|
    ensures forall x :: x in q[..m] + q[m + 1..] ==> x in q
    ensures forall x :: x in q ==> x == q[m] || x in q[..m] + q[m + 1..]
  {
    assert q == q[..m] + [q[m]] + q[m + 1..];
  }

  /** Polling a lightest edge whose ends are already in one set keeps the invariant. */
  lemma PollSkip(cities: seq<City>, edges: seq<Edge<City>>, i: int, fromInt: map<int, seq<City>>, toInt: map<City, int>,
                 remaining: seq<Edge<City>>, tree: seq<Edge<City>>, m: nat)
    requires Forest(cities, edges, i, fromInt, toInt, remaining, tree) && m < |remaining|
    requires remaining[m].a in toInt && remaining[m].b in toInt && toInt[remaining[m].a] == toInt[remaining[m].b]
    ensures Forest(cities, edges, i, fromInt, toInt, remaining[..m] + remaining[m + 1..], tree)
  {
    RemoveAt(remaining, m);
  }

  /** Polling the lightest edge and adding it to the tree keeps the tree sorted and drawn from the edges. */
  lemma PollTree(edges: seq<Edge<City>>, remaining: seq<Edge<City>>, tree: seq<Edge<City>>, m: nat)
    requires Polled(edges, remaining, tree) && m < |remaining|
    requires forall e :: e in remaining ==> remaining[m].weight <= e.weight
    ensures Polled(edges, remaining[..m] + remaining[m + 1..], tree + [remaining[m]])
  {
    RemoveAt(remaining, m);
  }

  /** Relabelling b's set as a's keeps polled edges connected and connects the polled edge itself. */
  lemma PollConnect(edges: seq<Edge<City>>, remaining: seq<Edge<City>>, toInt: map<City, int>, m: nat)
    requires Connects(edges, remaining, toInt) && m < |remaining| && remaining[m] in edges
    ensures Connects(edges, remaining[..m] + remaining[m + 1..], Relabelled(toInt, toInt[remaining[m].b], toInt[remaining[m].a]))
  {
    RemoveAt(remaining, m);
  }

  /** Polling a lightest edge across two sets, adding it to the tree and joining the sets keeps the invariant. */
  lemma PollJoin(cities: seq<City>, edges: seq<Edge<City>>, i: int, fromInt: map<int, seq<City>>, toInt: map<City, int>,
                 remaining: seq<Edge<City>>, tree: seq<Edge<City>>, m: nat)
    requires Forest(cities, edges, i, fromInt, toInt, remaining, tree) && m < |remaining|
    requires forall e :: e in remaining ==> remaining[m].weight <= e.weight
    requires toInt[remaining[m].a] != toInt[remaining[m].b]
    ensures toInt[remaining[m].a] in fromInt && toInt[remaining[m].b] in fromInt
    ensures Forest(cities, edges, i, Merged(fromInt, toInt[remaining[m].a], toInt[remaining[m].b]),
                   Relabelled(toInt, toInt[remaining[m].b], toInt[remaining[m].a]), remaining[..m] + remaining[m + 1..], tree + [remaining[m]])
  {
    var e := remaining[m];
    var ka, kb := toInt[e.a], toInt[e.b];
    Joined(i, fromInt, toInt, ka, kb);
    JoinLinks(toInt, tree, e);
    PollTree(edges, remaining, tree, m);
    PollConnect(edges, remaining, toInt, m);
  }

  /**
   * Kruskal's loop: polls the lightest remaining edge and, when its ends
   * lie in different sets, adds its weight and joins the sets. The list of
   * visited cities is never filled, so the loop runs until the edges are
   * exhausted.
   */
  method Span(dist: Plans.Distance, s: Set<City>, cities: seq<City>, edges: seq<Edge<City>>) returns (cost: nat, ghost tree: seq<Edge<City>>)
    requires Tracks(s, cities)
    requires forall p, q :: 0 <= p < q < |cities| ==> Edge(cities[p], cities[q], dist(cities[p], cities[q])) in edges
    requires forall e :: e in edges ==> e.a in cities && e.b in cities
    modifies s
    ensures cost == Weight(tree)
    ensures forall e :: e in tree ==> e in edges
    ensures forall p, q :: 0 <= p < q < |tree| ==> tree[p].weight <= tree[q].weight
    ensures forall p, q :: 0 <= p < q < |tree| ==> tree[p] != tree[q]
    ensures forall x, y :: x in cities && y in cities ==> Linked(tree, x, y)
    ensures |tree| == if cities == [] then 0 else |cities| - 1
  {
    Unlinked(s.toInt);
    var visited: seq<City> := [];
    var remaining := edges;
    cost := 0;
    tree := [];
    while |visited| < |cities| && |remaining| > 0
      invariant Forest(cities, edges, s.i, s.fromInt, s.toInt, remaining, tree)
      invariant cost == Weight(tree)
      decreases |remaining|
    {
      remaining, tree, cost := Poll(s, cities, edges, remaining, tree, cost);
    }
    Spanned(dist, cities, edges, s.i, s.fromInt, s.toInt, tree);
  }

  /** One round of Kruskal's loop: the lightest remaining edge leaves the queue and joins two sets when it crosses them. */
  method Poll(s: Set<City>, cities: seq<City>, edges: seq<Edge<City>>, remaining: seq<Edge<City>>, ghost tree: seq<Edge<City>>, cost: nat)
    returns (remaining': seq<Edge<City>>, ghost tree': seq<Edge<City>>, cost': nat)
    requires remaining != [] && Forest(cities, edges, s.i, s.fromInt, s.toInt, remaining, tree) && cost == Weight(tree)
    modifies s
    ensures Forest(cities, edges, s.i, s.fromInt, s.toInt, remaining', tree') && cost' == Weight(tree')
    ensures |remaining'| == |remaining| - 1
  {
    var m := MinEdge(remaining);
    var e := remaining[m];
    cost', tree' := cost, tree;
    if s.FindSet(e.a) != s.FindSet(e.b) {
      PollJoin(cities, edges, s.i, s.fromInt, s.toInt, remaining, tree, m);
      cost' := cost + e.weight;
      var _ := s.Union(e.a, e.b);
      WeightAppend(tree, e);
      tree' := tree + [e];
    } else {
      PollSkip(cities, edges, s.i, s.fromInt, s.toInt, remaining, tree, m);
    }
    remaining' := remaining[..m] + remaining[m + 1..];
  }

  /** Once every edge of the complete graph is polled, one set is left: the tree links every two cities and has one edge fewer than them. */
  lemma Spanned(dist: Plans.Distance, cities: seq<City>, edges: seq<Edge<City>>, i: int, fromInt: map<int, seq<City>>,
                toInt: map<City, int>, tree: seq<Edge<City>>)
    requires Forest(cities, edges, i, fromInt, toInt, [], tree)
    requires forall p, q :: 0 <= p < q < |cities| ==> Edge(cities[p], cities[q], dist(cities[p], cities[q])) in edges
    ensures forall p, q :: 0 <= p < q < |tree| ==> tree[p] != tree[q]
    ensures forall x, y :: x in cities && y in cities ==> Linked(tree, x, y)
    ensures |tree| == if cities == [] then 0 else |cities| - 1
  {
    if cities != [] {
      forall x | x in toInt
        ensures toInt[x] == toInt[cities[0]]
      {
        var p :| 0 <= p < |cities| && cities[p] == x;
        if p > 0 {
          assert Edge(cities[0], cities[p], dist(cities[0], cities[p])) in edges;
        }
      }
      OneSet(i, fromInt, toInt, cities[0]);
    }
  }

  /**
   * `computeH`: the weight of Kruskal's spanning tree over the pending
   * cities. The mappings are walked in the map's own iteration order.
   */
  method ComputeH(dist: Plans.Distance, pickups: Lists, deliveries: Lists) returns (cost: nat)
    ensures Heuristic(dist, pickups, deliveries, cost)
    ensures Pending(pickups, deliveries) == {} ==> cost == 0
  {
    var s := new Set<City>();
    var cities := AddMapCities(s, [], pickups, true);
    cities := AddMapCities(s, cities, deliveries, false);
    var edges := AllEdges(dist, cities);
    ghost var tree;
    cost, tree := Span(dist, s, cities, edges);
    Spanning(dist, pickups, deliveries, cities, tree, cost);
    if Pending(pickups, deliveries) == {} {
      HeuristicNothingPending(dist, pickups, deliveries, cost);
    }
  }

  class State {
    var plan: CustomPlan
    var currentCity: City
    var deliveryMapping: Lists
    var pickupMapping: Lists
    var freeSpace: int
    var futureCost: nat
    var hash: Key

    /** Stores the fields, computes the heuristic over the two mappings and the hash. */
    constructor (dist: Plans.Distance, plan: CustomPlan, currentCity: City, pickupMapping: Lists, deliveryMapping: Lists, freeSpace: int)
      ensures this.plan == plan && this.currentCity == currentCity && this.freeSpace == freeSpace
      ensures this.pickupMapping == pickupMapping && this.deliveryMapping == deliveryMapping
      ensures Heuristic(dist, pickupMapping, deliveryMapping, futureCost)
      ensures hash == Key(deliveryMapping, pickupMapping, currentCity)
    {
      var h := ComputeH(dist, pickupMapping, deliveryMapping);
      this.plan := plan;
      this.deliveryMapping := deliveryMapping;
      this.pickupMapping := pickupMapping;
      this.freeSpace := freeSpace;
      this.currentCity := currentCity;
      this.futureCost := h;
      this.hash := Key(deliveryMapping, pickupMapping, currentCity);
    }

    /** The A* value of the state: distance travelled plus the heuristic. */
    function Priority(): nat
      reads this
    {
      plan.distance + futureCost
    }

    /** `compareTo`: the sign of the difference in priority, as -1, 0 or 1. */
    function CompareTo(o: State): (r: int)
      reads this, o
      ensures r == -1 <==> Priority() < o.Priority()
      ensures r == 1 <==> Priority() > o.Priority()
      ensures r == 0 <==> Priority() == o.Priority()
    {
      var metric := plan.distance + futureCost - o.plan.distance - o.futureCost;
      if metric > 0 then 1 else if metric < 0 then -1 else 0
    }

    /**
     * `deliverTasks`: when the city is a key of the delivery mapping, every
     * listed task is delivered in turn, freeing its weight, and the key is
     * removed. `thrown` stands for the IllegalArgumentException on a listed
     * task bound elsewhere; the deliveries before it have then been made.
     */
    method DeliverTasks() returns (thrown: bool)
      modifies this
      ensures currentCity == old(currentCity) && pickupMapping == old(pickupMapping)
      ensures futureCost == old(futureCost) && hash == old(hash)
      ensures currentCity !in old(deliveryMapping) ==>
        !thrown && plan == old(plan) && freeSpace == old(freeSpace) && deliveryMapping == old(deliveryMapping)
      ensures thrown <==> (currentCity in old(deliveryMapping) &&
        exists t :: t in old(deliveryMapping)[currentCity] && t.deliveryCity != currentCity)
      ensures thrown ==> (deliveryMapping == old(deliveryMapping) &&
        exists k :: 0 <= k < |old(deliveryMapping)[currentCity]| && Delivers(old(deliveryMapping)[currentCity][..k], old(plan), old(freeSpace)))
      ensures !thrown && currentCity in old(deliveryMapping) ==>
        deliveryMapping == old(deliveryMapping) - {currentCity} && Delivers(old(deliveryMapping)[currentCity], old(plan), old(freeSpace))
      ensures FiledBy(old(deliveryMapping), false) ==> !thrown && FiledBy(deliveryMapping, false)
      ensures NoEmpty(old(deliveryMapping)) ==> NoEmpty(deliveryMapping)
    {
      thrown := false;
      if currentCity in deliveryMapping {
        var toDeliver := deliveryMapping[currentCity];
        var space := freeSpace;
        var p := plan;
        var k := 0;
        while k < |toDeliver|
          invariant k <= |toDeliver|
          invariant forall j :: 0 <= j < k ==> toDeliver[j].deliveryCity == currentCity
          invariant space == old(freeSpace) + WeightSum(toDeliver[..k]) && p == Appended(old(plan), toDeliver[..k], false)
          invariant plan == old(plan) && freeSpace == old(freeSpace)
        {
          var t := toDeliver[k];
          if currentCity != t.deliveryCity {
            assert t in deliveryMapping[currentCity] && CityOf(t, false) != currentCity;
            freeSpace, plan := space, p;
            return true;
          }
          space := space + t.weight;
          p := p.(steps := p.steps + [DeliverAt(t)]);
          assert toDeliver[..k + 1][..k] == toDeliver[..k];
          k := k + 1;
        }
        assert toDeliver[..k] == toDeliver;
        freeSpace, plan := space, p;
        deliveryMapping := deliveryMapping - {currentCity};
      }
    }

    /** The state has delivered the tasks ts in order, starting from plan p with free space f. */
    ghost predicate Delivers(ts: seq<Task>, p: CustomPlan, f: int)
      reads this
    {
      freeSpace == f + WeightSum(ts) && plan == Appended(p, ts, false)
    }
  }
}
