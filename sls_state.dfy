/**
 * What the auction agent's stochastic local search keeps true of the
 * solutions it builds, and the facts about the successor map that its
 * pointer surgery relies on (5-auction/src/template/SLS.java).
 */
module SlsState {
  import opened Wrappers
  import opened Actions
  import opened Chains
  import opened Feasibility
  import opened Plans
  import opened Moves
  import opened AuctionSolution

  /** Java's Long.MAX_VALUE and Long.MIN_VALUE. */
  const LONG_MAX: int := 0x7fff_ffff_ffff_ffff
  const LONG_MIN: int := -0x8000_0000_0000_0000

  /** Java's `(long)` cast of a cost difference: values beyond the range of long saturate. */
  function ToLong(x: int): (r: int)
    ensures LONG_MIN <= r <= LONG_MAX
    ensures LONG_MIN <= x <= LONG_MAX ==> r == x
    ensures x > LONG_MAX ==> r == LONG_MAX
    ensures x < LONG_MIN ==> r == LONG_MIN
  {
    if x > LONG_MAX then LONG_MAX else if x < LONG_MIN then LONG_MIN else x
  }

  /** The platform numbers the fleet: vehicle i has id i, so `plans.set(v.id, …)` updates plan i. */
  ghost predicate Numbered(vs: seq<Vehicle>)
  {
    forall i :: 0 <= i < |vs| ==> vs[i].id == i
  }

  /** Java's `Map.replace`: a put only when the key is already present. */
  function Replace<K, V>(m: map<K, V>, k: K, v: V): map<K, V>
  {
    if k in m then m[k := v] else m
  }

  /** Every action on a chain is a key of nextAction (the search only ever puts). */
  ghost predicate Keyed(next: NextMap, chains: seq<seq<Action>>)
  {
    forall i, x :: 0 <= i < |chains| && x in chains[i] ==> x in next
  }

  /** Keys are never removed, so a map that gained keys still covers chains with no new action. */
  lemma KeyedGrow(next: NextMap, next': NextMap, chains: seq<seq<Action>>, chains': seq<seq<Action>>)
    requires Keyed(next, chains) && next.Keys <= next'.Keys && Carried(chains') <= Carried(chains)
    ensures Keyed(next', chains')
  {
    forall i, x | 0 <= i < |chains'| && x in chains'[i] ensures x in next' {
      assert x in Carried(chains');
      var k :| 0 <= k < |chains| && x in chains[k];
    }
  }

  /** Vehicle k's plan walks its chain, or is still Plan.EMPTY for an empty chain. */
  ghost predicate AgreeAt(vs: seq<Vehicle>, chains: seq<seq<Action>>, plans: seq<Plan>, k: nat)
    requires k < |vs| && k < |chains| && k < |plans|
  {
    plans[k] == ChainPlan(vs[k], chains[k]) || (plans[k] == Empty && chains[k] == [])
  }

  /** A solution the search may hand out: linked, keyed, feasible, and its plans follow its chains. */
  ghost predicate Sound(s: Solution, vs: seq<Vehicle>)
    reads s
  {
    && s.vehicles == vs && s.Valid() && Keyed(s.nextAction, s.chains) && Feasible(vs, s.chains)
    && |s.plans| == |vs|
    && forall k :: 0 <= k < |vs| ==> AgreeAt(vs, s.chains, s.plans, k)
  }

  /** The solution of an agent that has won nothing yet: no plans and no actions. */
  ghost predicate Blank(s: Solution, vs: seq<Vehicle>)
    reads s
  {
    && s.vehicles == vs && s.Valid() && s.plans == []
    && forall k :: 0 <= k < |s.chains| ==> s.chains[k] == []
  }

  /** The solution objects ns stand, one by one, for the fleets' chains. */
  ghost predicate Offers(ns: seq<Solution>, vs: seq<Vehicle>, fleets: seq<seq<seq<Action>>>)
    reads ns
  {
    && |ns| == |fleets|
    && forall k :: 0 <= k < |ns| ==> Sound(ns[k], vs) && ns[k].chains == fleets[k]
  }

  /**
   * A solution changingOrder builds on: its chains are the fleet's chains0
   * with vehicle i's chain replaced by ca, linked and keyed, and every plan
   * but i's agrees with chains0.
   */
  ghost predicate RowReady(s: Solution, vs: seq<Vehicle>, chains0: seq<seq<Action>>, i: nat, ca: seq<Action>)
    reads s
  {
    && s.vehicles == vs && s.Valid() && Keyed(s.nextAction, chains0) && |s.plans| == |vs| && |chains0| == |vs| && i < |vs|
    && (forall k :: 0 <= k < |vs| && k != i ==> AgreeAt(vs, chains0, s.plans, k))
    && s.chains == chains0[i := ca]
  }

  /** Adding one offered solution for one more fleet. */
  lemma OffersSnoc(ns: seq<Solution>, vs: seq<Vehicle>, fleets: seq<seq<seq<Action>>>, s: Solution)
    requires Offers(ns, vs, fleets) && Sound(s, vs)
    ensures Offers(ns + [s], vs, fleets + [s.chains])
  {
    assert forall k :: 0 <= k < |ns| ==> (ns + [s])[k] == ns[k];
  }

  /** Offers of two lists concatenate. */
  lemma OffersConcat(ns: seq<Solution>, ms: seq<Solution>, vs: seq<Vehicle>, fa: seq<seq<seq<Action>>>, fb: seq<seq<seq<Action>>>)
    requires Offers(ns, vs, fa) && Offers(ms, vs, fb)
    ensures Offers(ns + ms, vs, fa + fb)
  {
    forall k | 0 <= k < |ns + ms| ensures Sound((ns + ms)[k], vs) && (ns + ms)[k].chains == (fa + fb)[k] {
      if k < |ns| {
        assert (ns + ms)[k] == ns[k] && (fa + fb)[k] == fa[k];
      } else {
        assert (ns + ms)[k] == ms[k - |ns|] && (fa + fb)[k] == fb[k - |ns|];
      }
    }
  }

  /** Lifting one more chain adds one more fleet. */
  lemma LiftSnoc(chains: seq<seq<Action>>, j: nat, os: seq<seq<Action>>, o: seq<Action>)
    requires j < |chains|
    ensures Lift(chains, j, os + [o]) == Lift(chains, j, os) + [chains[j := o]]
  {
  }

  /**
   * Relinking vehicle i's chain: when the heads and successors of the other
   * vehicles' chains are untouched, every chain but i's stays linked.
   */
  lemma RelinkOne(vs: seq<Vehicle>, next: NextMap, heads: map<Vehicle, Option<Action>>, chains: seq<seq<Action>>,
                  i: nat, next': NextMap, heads': map<Vehicle, Option<Action>>, c': seq<Action>)
    requires |chains| == |vs| && i < |vs|
    requires forall k :: 0 <= k < |vs| ==> Linked(next, Head(heads, vs[k]), chains[k])
    requires Linked(next', Head(heads', vs[i]), c')
    requires forall k, x :: 0 <= k < |vs| && k != i && x in chains[k] ==> Succ(next', x) == Succ(next, x)
    requires forall k :: 0 <= k < |vs| && k != i ==> Head(heads', vs[k]) == Head(heads, vs[k])
    ensures forall k :: 0 <= k < |vs| ==> Linked(next', Head(heads', vs[k]), chains[i := c'][k])
  {
    forall k | 0 <= k < |vs| && k != i
      ensures Linked(next', Head(heads', vs[k]), chains[k])
    {
      LinkedFrame(next, next', Head(heads, vs[k]), chains[k]);
    }
  }

  /**
   * The unlinking of changingVehicles keeps every chain linked: vehicle i's
   * head moves past its first action and, when the delivery is not next,
   * the action before the delivery is redirected past it.
   */
  lemma UnlinkRelinks(vs: seq<Vehicle>, next: NextMap, heads: map<Vehicle, Option<Action>>, chains: seq<seq<Action>>, i: nat)
    requires Numbered(vs) && Feasible(vs, chains) && i < |vs| && chains[i] != []
    requires forall k :: 0 <= k < |vs| ==> Linked(next, Head(heads, vs[k]), chains[k])
    ensures Delivery(chains[i][0].task) in chains[i][1..]
    ensures var r := chains[i][1..]; var m := TaskIndex(r, chains[i][0].task);
      m == 0 ==> forall k :: 0 <= k < |vs| ==>
        Linked(next, Head(heads[vs[i] := Succ(next, r[0])], vs[k]), chains[i := Remainder(chains[i])][k])
    ensures var r := chains[i][1..]; var m := TaskIndex(r, chains[i][0].task);
      m > 0 ==> forall k :: 0 <= k < |vs| ==>
        Linked(next[r[m - 1] := Succ(next, r[m])], Head(heads[vs[i] := Some(r[0])], vs[k]), chains[i := Remainder(chains[i])][k])
  {
    var c := chains[i];
    HeadPaired(vs[i].capacity, c);
    var r := c[1..];
    var m := TaskIndex(r, c[0].task);
    LinkedTail(next, c);
    var next' := next;
    var heads' := heads;
    if m == 0 {
      heads' := heads[vs[i] := Succ(next, r[0])];
      LinkedTail(next, r);
      assert r[..m] + r[m + 1..] == r[1..];
    } else {
      heads' := heads[vs[i] := Some(r[0])];
      next' := next[r[m - 1] := Succ(next, r[m])];
      LinkedSkip(next, r, m);
      assert r[m - 1] == c[m];
      OnlyOn(vs, chains, i, r[m - 1]);
    }
    forall k | 0 <= k < |vs| && k != i ensures Head(heads', vs[k]) == Head(heads, vs[k]) {
      NumberedDistinct(vs, i, k);
    }
    RelinkOne(vs, next, heads, chains, i, next', heads', Remainder(c));
  }

  /**
   * Recomputing the plans of the vehicles whose chains changed (i and j,
   * possibly the same) restores agreement.
   */
  lemma AgreeRecomputed(vs: seq<Vehicle>, chains0: seq<seq<Action>>, plans0: seq<Plan>,
                        chains: seq<seq<Action>>, plans: seq<Plan>, i: nat, j: nat)
    requires |chains0| == |vs| && |plans0| == |vs| && i < |vs| && j < |vs|
    requires forall k :: 0 <= k < |vs| && k != i && k != j ==> AgreeAt(vs, chains0, plans0, k)
    requires |chains| == |vs| && forall k :: 0 <= k < |vs| && k != i && k != j ==> chains[k] == chains0[k]
    requires plans == plans0[i := ChainPlan(vs[i], chains[i])][j := ChainPlan(vs[j], chains[j])]
    ensures forall k :: 0 <= k < |vs| ==> AgreeAt(vs, chains, plans, k)
  {
    forall k | 0 <= k < |vs| ensures AgreeAt(vs, chains, plans, k) {
      if k != i && k != j {
        assert AgreeAt(vs, chains0, plans0, k);
        assert plans[k] == plans0[k] && chains[k] == chains0[k];
      }
    }
  }

  /**
   * Two puts insert x after the action at index e of chain i: when neither
   * is on another chain, every chain stays linked.
   */
  lemma InsertRelinks(vs: seq<Vehicle>, next: NextMap, heads: map<Vehicle, Option<Action>>, chains: seq<seq<Action>>,
                      i: nat, e: nat, x: Action)
    requires |chains| == |vs| && i < |vs| && e < |chains[i]| && x !in chains[i]
    requires forall k :: 0 <= k < |vs| ==> Linked(next, Head(heads, vs[k]), chains[k])
    requires forall k :: 0 <= k < |vs| && k != i ==> x !in chains[k] && chains[i][e] !in chains[k]
    ensures forall k :: 0 <= k < |vs| ==>
      Linked(next[chains[i][e] := Some(x)][x := Succ(next, chains[i][e])], Head(heads, vs[k]),
             chains[i := chains[i][..e + 1] + [x] + chains[i][e + 1..]][k])
  {
    var c := chains[i];
    var next' := next[c[e] := Some(x)][x := Succ(next, c[e])];
    LinkedInsert(next, Head(heads, vs[i]), c, e, x);
    RelinkOne(vs, next, heads, chains, i, next', heads, c[..e + 1] + [x] + c[e + 1..]);
  }

  /**
   * The two starting points of changingOrder on chain i = [p, d] + rest:
   * with the head moved to rest, the chain is rest (A11); with p's
   * successor set to rest's first action, it is [p] + rest (the pickup
   * first).
   */
  lemma OrderRelinks(vs: seq<Vehicle>, next: NextMap, heads: map<Vehicle, Option<Action>>, chains: seq<seq<Action>>, i: nat)
    requires Numbered(vs) && Feasible(vs, chains) && i < |vs| && |chains[i]| >= 3
    requires forall k :: 0 <= k < |vs| ==> Linked(next, Head(heads, vs[k]), chains[k])
    ensures var c := chains[i];
      forall k :: 0 <= k < |vs| ==> Linked(next, Head(heads[vs[i] := Some(c[2])], vs[k]), chains[i := c[2..]][k])
    ensures var c := chains[i];
      forall k :: 0 <= k < |vs| ==>
        Linked(next[c[0] := Some(c[2])], Head(heads[vs[i] := Some(c[0])], vs[k]), chains[i := [c[0]] + c[2..]][k])
  {
    var c := chains[i];
    forall k | 0 <= k < |vs| && k != i
      ensures Head(heads[vs[i] := Some(c[2])], vs[k]) == Head(heads, vs[k])
      ensures Head(heads[vs[i] := Some(c[0])], vs[k]) == Head(heads, vs[k])
    {
      NumberedDistinct(vs, i, k);
    }
    LinkedTail(next, c);
    LinkedTail(next, c[1..]);
    assert c[1..][1..] == c[2..];
    RelinkOne(vs, next, heads, chains, i, next, heads[vs[i] := Some(c[2])], c[2..]);
    LinkedSkip(next, c, 1);
    assert c[..1] + c[2..] == [c[0]] + c[2..];
    OnlyOn(vs, chains, i, c[0]);
    RelinkOne(vs, next, heads, chains, i, next[c[0] := Some(c[2])], heads[vs[i] := Some(c[0])], [c[0]] + c[2..]);
  }

  /** The chain with the pickup after rest[..a], then the delivery inserted after its action at index e. */
  lemma PlaceInsert(rest: seq<Action>, a: nat, e: nat, p: Action, d: Action)
    requires a <= e <= |rest|
    ensures var ca := rest[..a] + [p] + rest[a..];
      e < |ca| && Place(rest, a, e, p, d) == ca[..e + 1] + [d] + ca[e + 1..]
  {
    var ca := rest[..a] + [p] + rest[a..];
    assert ca[..e + 1] == rest[..a] + [p] + rest[a..e];
    assert ca[e + 1..] == rest[e..];
  }

  /** The chain with only the pickup put back after rest[..a], position by position. */
  lemma RowShape(rest: seq<Action>, a: nat, pick: Action)
    requires a <= |rest|
    ensures var ca := rest[..a] + [pick] + rest[a..];
      |ca| == |rest| + 1 && ca[a] == pick && forall e :: a <= e < |rest| ==> ca[e + 1] == rest[e]
  {
  }

  /** The delivery of the front pair is not on the chain with only the pickup put back. */
  lemma RowFree(c: seq<Action>, pick: Action, drop: Action, rest: seq<Action>, a: nat)
    requires Distinct(c) && c == [pick, drop] + rest && a <= |rest|
    ensures drop !in rest[..a] + [pick] + rest[a..]
  {
    var ca := rest[..a] + [pick] + rest[a..];
    assert c[1] == drop;
    forall q | 0 <= q < |ca| ensures ca[q] != drop {
      if q < a {
        assert ca[q] == rest[q] == c[q + 2];
      } else if q == a {
        assert ca[q] == pick == c[0];
      } else {
        assert ca[q] == rest[q - 1] == c[q + 1];
      }
    }
  }

  /** Following the successor of rest[a - 1], where rest = c[2..]. */
  lemma FollowRest(next: NextMap, head: Option<Action>, c: seq<Action>, a: nat)
    requires Linked(next, head, c) && |c| >= 2 && 0 < a <= |c| - 2
    ensures Succ(next, c[2..][a - 1]) == At(c[2..], a)
  {
    assert c[2..][a - 1] == c[a + 1];
  }

  /**
   * The setting of one row of changingOrder: vehicle i's chain in chains0
   * is [pick, drop] + rest, A1 holds it with drop taken out and pick put
   * back after rest[..a], and every chain the search may offer for it,
   * `all`, is feasible and keeps its actions.
   */
  ghost predicate RowSetting(A1: Solution, vs: seq<Vehicle>, i: nat, pick: Action, drop: Action,
                             chains0: seq<seq<Action>>, rest: seq<Action>, a: nat, all: seq<seq<Action>>)
    reads A1
  {
    && Numbered(vs) && i < |vs| && Feasible(vs, chains0)
    && chains0[i] == [pick, drop] + rest && a <= |rest|
    && RowReady(A1, vs, chains0, i, rest[..a] + [pick] + rest[a..])
    && drop !in rest[..a] + [pick] + rest[a..]
    && forall o :: o in all ==> ChainOk(vs[i].capacity, o) && Elems(o) == Elems(chains0[i])
  }

  /**
   * Where a row of changingOrder ends up: the rows after the one for
   * pickup position a, from free space `after` on, added to `row`, make up
   * `all`.
   */
  ghost predicate RowEnds(rest: seq<Action>, a: nat, p: Action, d: Action, after: int, row: seq<seq<Action>>, all: seq<seq<Action>>)
    requires a <= |rest|
  {
    if a < |rest| then Rows(rest, a + 1, p, d, after, row) == all else row == all
  }

  /**
   * One step of changingOrder's inner loop: when the places for the
   * delivery from position e on, added to `done`, make up the row, the
   * rows after it make up `all`, and the free space allows it, the place
   * at e is one of `all` and the next step ends in the same row.
   */
  lemma DropsNext(rest: seq<Action>, a: nat, e: nat, p: Action, d: Action, free: int, done: seq<seq<Action>>,
                  row: seq<seq<Action>>, after: int, all: seq<seq<Action>>)
    requires a <= e <= |rest| && 0 <= free && Drops(rest, a, e, p, d, free, done) == row
    requires RowEnds(rest, a, p, d, after, row, all)
    ensures Place(rest, a, e, p, d) in all
    ensures e < |rest| ==> Drops(rest, a, e + 1, p, d, free + rest[e].Delta(), done + [Place(rest, a, e, p, d)]) == row
    ensures e == |rest| ==> done + [Place(rest, a, e, p, d)] == row
  {
    var done' := done + [Place(rest, a, e, p, d)];
    DropsStep(rest, a, e, p, d, free, done);
    assert Place(rest, a, e, p, d) in done';
    if e < |rest| {
      DropsKeeps(rest, a, e + 1, p, d, free + rest[e].Delta(), done');
    }
    if a < |rest| {
      RowsKeeps(rest, a + 1, p, d, after, row);
    }
  }

  /** A numbered fleet has no vehicle twice. */
  lemma NumberedDistinct(vs: seq<Vehicle>, i: nat, k: nat)
    requires Numbered(vs) && i < |vs| && k < |vs| && i != k
    ensures vs[i] != vs[k]
  {
    assert vs[i].id == i && vs[k].id == k;
  }

  /** An action on chain i is on no other chain of a feasible fleet. */
  lemma OnlyOn(vs: seq<Vehicle>, chains: seq<seq<Action>>, i: nat, x: Action)
    requires Feasible(vs, chains) && i < |chains| && x in chains[i]
    ensures forall k :: 0 <= k < |chains| && k != i ==> x !in chains[k]
  {
  }

  /**
   * The random numbers one round of findBestsolution draws: the index among
   * the used vehicles, whether the greedy choice wins (`nextDouble() < p`)
   * and the index of a neighbour otherwise.
   */
  datatype Draw = Draw(vehicle: nat, greedy: bool, neighbour: nat)

  /** What build's first task costs on vehicle v: driving home to pickup, then pickup to delivery. */
  function StartCost(dist: Distance, v: Vehicle, t: Task): nat
  {
    dist(v.home, t.pickupCity) * v.costPerKm + dist(t.pickupCity, t.deliveryCity) * v.costPerKm
  }

  /** Vehicle b can carry t and is the first of the cheapest such for build's first task. */
  ghost predicate FirstCheapest(dist: Distance, vs: seq<Vehicle>, t: Task, b: nat)
  {
    && b < |vs| && t.weight <= vs[b].capacity
    && (forall k :: 0 <= k < |vs| && t.weight <= vs[k].capacity ==> StartCost(dist, vs[b], t) <= StartCost(dist, vs[k], t))
    && (forall k :: 0 <= k < b && t.weight <= vs[k].capacity ==> StartCost(dist, vs[b], t) < StartCost(dist, vs[k], t))
  }

  /** The first vehicle, in the shuffled order from position m on, whose capacity covers w. */
  function FirstCarrier(vs: seq<Vehicle>, order: seq<nat>, w: nat, m: nat): (r: Option<nat>)
    requires forall n :: 0 <= n < |order| ==> order[n] < |vs|
    ensures r.Some? ==> r.value < |vs| && w <= vs[r.value].capacity && m < |order| && r.value in order[m..]
    decreases |order| - m
  {
    if m >= |order| then None
    else if w <= vs[order[m]].capacity then Some(order[m])
    else FirstCarrier(vs, order, w, m + 1)
  }

  /** When the order lists every vehicle, a carrier is found exactly when some vehicle can carry w. */
  lemma {:induction false} FirstCarrierFound(vs: seq<Vehicle>, order: seq<nat>, w: nat, m: nat)
    requires forall n :: 0 <= n < |order| ==> order[n] < |vs|
    ensures FirstCarrier(vs, order, w, m).None? <==>
      forall n :: m <= n < |order| ==> vs[order[n]].capacity < w
    decreases |order| - m
  {
    if m < |order| {
      FirstCarrierFound(vs, order, w, m + 1);
    }
  }

  /** A sound solution that carries at least one task: what build hands out. */
  ghost predicate Started(s: Solution, vs: seq<Vehicle>)
    reads s
  {
    Sound(s, vs) && Carried(s.chains) != {}
  }

  /** A fleet carries nothing exactly when every chain is empty. */
  lemma CarriedNone(chains: seq<seq<Action>>)
    ensures Carried(chains) == {} <==> forall k :: 0 <= k < |chains| ==> chains[k] == []
  {
    if Carried(chains) != {} {
      var x :| x in Carried(chains);
      var k :| 0 <= k < |chains| && x in chains[k];
      assert chains[k] != [];
    }
    if k :| 0 <= k < |chains| && chains[k] != [] {
      var x := chains[k][0];
      assert x in chains[k];
      assert x in Carried(chains);
    }
  }

  /** build's test for "no tasks in the plan", as written: the solution costs nothing. */
  function BootstrapsAsWritten(dist: Distance, vs: seq<Vehicle>, plans: seq<Plan>): bool
  {
    TotalCost(dist, vs, plans) == 0
  }

  /**
   * The written test lets a solution that already carries a task through:
   * one vehicle at city 0 has won task 0, picked up and delivered at city 0,
   * so its plan has no move and costs 0. Bootstrapping for task 1 then
   * gives the fleet the chains of initSolutionSingle, which carry task 1
   * alone: task 0 is lost.
   */
  lemma BootstrapAsWrittenDropsTask()
    ensures var v := Vehicle(0, 10, 1, 0);
      var t0 := Task(0, 0, 0, 1);
      var t1 := Task(1, 0, 1, 1);
      var chains := [[Pickup(t0), Delivery(t0)]];
      && Feasible([v], chains)
      && BootstrapsAsWritten((a: City, b: City) => if a == b then 0 else 1, [v], [ChainPlan(v, chains[0])])
      && Pickup(t0) in Carried(chains)
      && Pickup(t0) !in Carried(SingleChains([v], v, t1))
  {
    var v := Vehicle(0, 10, 1, 0);
    var t0 := Task(0, 0, 0, 1);
    var t1 := Task(1, 0, 1, 1);
    var chains := [[Pickup(t0), Delivery(t0)]];
    SingleFeasible([v], 0, t0);
    assert SingleChains([v], v, t0) == chains;
    var d := (a: City, b: City) => if a == b then 0 else 1;
    var steps := RouteSteps(0, chains[0]);
    assert chains[0][1..] == [Delivery(t0)] && [Delivery(t0)][1..] == [];
    assert RouteSteps(0, [Delivery(t0)]) == [DeliveryStep(t0)];
    assert steps == [PickupStep(t0), DeliveryStep(t0)];
    assert StepsDistance(d, 0, steps[1..]) == 0;
    assert Pickup(t0) in chains[0];
    SingleFeasible([v], 0, t1);
  }

  // ---------------------------------------------------------------- the search on chains

  /** `totalCost` of the solution whose plans are the vehicles' chain plans. */
  function FleetCost(dist: Distance, vs: seq<Vehicle>, chains: seq<seq<Action>>): nat
    decreases |vs|
  {
    if vs == [] || chains == [] then 0
    else PlanDistance(dist, ChainPlan(vs[0], chains[0])) * vs[0].costPerKm + FleetCost(dist, vs[1..], chains[1..])
  }

  /** Plans as long as the chain plans cost what the chains cost. */
  lemma {:induction false} PlansCostChains(dist: Distance, vs: seq<Vehicle>, plans: seq<Plan>, chains: seq<seq<Action>>)
    requires |plans| == |vs| && |chains| == |vs|
    requires forall k :: 0 <= k < |vs| ==> PlanDistance(dist, plans[k]) == PlanDistance(dist, ChainPlan(vs[k], chains[k]))
    ensures TotalCost(dist, vs, plans) == FleetCost(dist, vs, chains)
    decreases |vs|
  {
    if vs != [] {
      assert PlanDistance(dist, plans[0]) == PlanDistance(dist, ChainPlan(vs[0], chains[0]));
      forall k | 0 <= k < |vs| - 1
        ensures PlanDistance(dist, plans[1..][k]) == PlanDistance(dist, ChainPlan(vs[1..][k], chains[1..][k]))
      {
        assert plans[1..][k] == plans[k + 1] && vs[1..][k] == vs[k + 1] && chains[1..][k] == chains[k + 1];
      }
      PlansCostChains(dist, vs[1..], plans[1..], chains[1..]);
    }
  }

  /**
   * A sound solution costs what its chains cost: a vehicle left without a
   * plan has an empty chain, whose plan has length 0 too.
   */
  lemma SoundCost(dist: Distance, s: Solution, vs: seq<Vehicle>)
    requires Sound(s, vs)
    ensures TotalCost(dist, vs, s.plans) == FleetCost(dist, vs, s.chains)
  {
    forall k | 0 <= k < |vs|
      ensures PlanDistance(dist, s.plans[k]) == PlanDistance(dist, ChainPlan(vs[k], s.chains[k]))
    {
      assert AgreeAt(vs, s.chains, s.plans, k);
    }
    PlansCostChains(dist, vs, s.plans, s.chains);
  }

  /** Index b holds the first of the cheapest fleets of fs. */
  ghost predicate FirstCheapestFleet(dist: Distance, vs: seq<Vehicle>, fs: seq<seq<seq<Action>>>, b: nat)
  {
    && b < |fs|
    && (forall k :: 0 <= k < |fs| ==> FleetCost(dist, vs, fs[b]) <= FleetCost(dist, vs, fs[k]))
    && (forall k :: 0 <= k < b ==> FleetCost(dist, vs, fs[b]) < FleetCost(dist, vs, fs[k]))
  }

  /** localChoice's scan on fleets: a fleet replaces the best so far only when strictly cheaper. */
  function CheapestFleet(dist: Distance, vs: seq<Vehicle>, fs: seq<seq<seq<Action>>>): (b: nat)
    requires fs != []
    ensures FirstCheapestFleet(dist, vs, fs, b)
    decreases |fs|
  {
    if |fs| == 1 then 0
    else
      var front := fs[..|fs| - 1];
      var b := CheapestFleet(dist, vs, front);
      assert forall k :: 0 <= k < |front| ==> front[k] == fs[k];
      if FleetCost(dist, vs, fs[|fs| - 1]) < FleetCost(dist, vs, fs[b]) then |fs| - 1 else b
  }

  /** Only one index holds the first of the cheapest fleets. */
  lemma FirstCheapestUnique(dist: Distance, vs: seq<Vehicle>, fs: seq<seq<seq<Action>>>, b: nat, b': nat)
    requires FirstCheapestFleet(dist, vs, fs, b) && FirstCheapestFleet(dist, vs, fs, b')
    ensures b == b'
  {
    assert FleetCost(dist, vs, fs[b]) == FleetCost(dist, vs, fs[b']);
  }

  /**
   * One round of findBestsolution on chains: chooseNeighbors offers the
   * neighbour fleets for the draw, and localChoice takes the first cheapest
   * one when the draw is greedy, otherwise the drawn one. None where either
   * throws: no vehicle has a task, or no neighbour is offered. The round
   * keeps the fleet feasible and carrying the same actions.
   */
  function Next(dist: Distance, vs: seq<Vehicle>, chains: seq<seq<Action>>, d: Draw): (r: Option<seq<seq<Action>>>)
    requires Feasible(vs, chains)
    ensures r.Some? ==> Feasible(vs, r.value) && Carried(r.value) == Carried(chains)
    ensures r.None? <==> Stuck(vs, chains, d)
  {
    var o := Neighbours(vs, chains, d.vehicle);
    if o.None? || o.value == [] then None
    else
      NeighboursFeasible(vs, chains, d.vehicle);
      var k := if d.greedy then CheapestFleet(dist, vs, o.value) else d.neighbour % |o.value|;
      assert o.value[k] in o.value;
      Some(o.value[k])
  }

  /** A round that cannot move: no vehicle has a task, or no neighbour is offered. */
  ghost predicate Stuck(vs: seq<Vehicle>, chains: seq<seq<Action>>, d: Draw)
  {
    Feasible(vs, chains) && (Neighbours(vs, chains, d.vehicle).None? || Neighbours(vs, chains, d.vehicle).value == [])
  }

  /** A round from a feasible fleet that moves to `next`. */
  ghost predicate Moved(dist: Distance, vs: seq<Vehicle>, chains: seq<seq<Action>>, d: Draw, next: seq<seq<Action>>)
  {
    Feasible(vs, chains) && Next(dist, vs, chains, d) == Some(next)
  }

  /**
   * The fleets findBestsolution visits from `chains`: one round per draw,
   * ending early at the first round that cannot move.
   */
  function Walk(dist: Distance, vs: seq<Vehicle>, chains: seq<seq<Action>>, draws: seq<Draw>): (w: seq<seq<seq<Action>>>)
    requires Feasible(vs, chains)
    ensures 1 <= |w| <= |draws| + 1 && w[0] == chains
    decreases |draws|
  {
    if draws == [] then [chains]
    else match Next(dist, vs, chains, draws[0])
      case None => [chains]
      case Some(c) => [chains] + Walk(dist, vs, c, draws[1..])
  }

  /**
   * findBestsolution from `chains`, `best` being the cheapest fleet met so
   * far: each round's fleet replaces it only when strictly cheaper. The flag
   * is set where a round cannot move, which ends the search with the
   * exception. The answer is `best` or strictly cheaper than it.
   */
  function Search(dist: Distance, vs: seq<Vehicle>, chains: seq<seq<Action>>, draws: seq<Draw>, best: seq<seq<Action>>): (r: (seq<seq<Action>>, bool))
    requires Feasible(vs, chains)
    ensures r.0 == best || FleetCost(dist, vs, r.0) < FleetCost(dist, vs, best)
    ensures draws == [] ==> r == (best, false)
    decreases |draws|
  {
    if draws == [] then (best, false)
    else match Next(dist, vs, chains, draws[0])
      case None => (best, true)
      case Some(c) => Search(dist, vs, c, draws[1..], if FleetCost(dist, vs, c) < FleetCost(dist, vs, best) then c else best)
  }

  /**
   * build on a fleet that already carries tasks, on chains: t goes in front
   * of the first vehicle of the order that can carry it, and Search runs
   * from that fleet. The answer is the fleet the search returns, or the
   * spliced fleet itself when the search throws, paired with whether it
   * threw; None when no vehicle of the order can carry t.
   */
  ghost function Extended(dist: Distance, vs: seq<Vehicle>, chains: seq<seq<Action>>, order: seq<nat>, t: Task, draws: seq<Draw>): Option<(seq<seq<Action>>, bool)>
    requires Feasible(vs, chains) && Pickup(t) !in Carried(chains) && Delivery(t) !in Carried(chains)
    requires forall n :: 0 <= n < |order| ==> order[n] < |vs|
  {
    match FirstCarrier(vs, order, t.weight, 0)
    case None => None
    case Some(j) =>
      AddFeasible(vs, chains, j, t);
      var c := AddFront(chains, j, t);
      var r := Search(dist, vs, c, draws, c);
      Some((if r.1 then c else r.0, r.1))
  }

  /** One round of the search under draws[0] that moves from `from` to c. */
  lemma SearchStep(dist: Distance, vs: seq<Vehicle>, from: seq<seq<Action>>, draws: seq<Draw>, best: seq<seq<Action>>, c: seq<seq<Action>>)
    requires draws != [] && Feasible(vs, from) && Next(dist, vs, from, draws[0]) == Some(c)
    ensures Feasible(vs, c)
    ensures Search(dist, vs, from, draws, best)
         == Search(dist, vs, c, draws[1..], if FleetCost(dist, vs, c) < FleetCost(dist, vs, best) then c else best)
  {
  }

  /** The fleets w are visited in turn, round k moving from w[k] to w[k + 1] under draws[k]. */
  ghost predicate Walked(dist: Distance, vs: seq<Vehicle>, w: seq<seq<seq<Action>>>, draws: seq<Draw>)
  {
    && 1 <= |w| <= |draws| + 1
    && forall k :: 0 <= k < |w| - 1 ==> Moved(dist, vs, w[k], draws[k], w[k + 1])
  }

  /** Index b holds the first of the cheapest fleets met on the walk. */
  ghost predicate FirstLeast(dist: Distance, vs: seq<Vehicle>, w: seq<seq<seq<Action>>>, b: nat)
  {
    && b < |w|
    && (forall k :: 0 <= k < |w| ==> FleetCost(dist, vs, w[b]) <= FleetCost(dist, vs, w[k]))
    && (forall k :: 0 <= k < b ==> FleetCost(dist, vs, w[k]) > FleetCost(dist, vs, w[b]))
  }

  /** Every round of the walk is a move, and a walk cut short ends at a round that cannot move. */
  lemma {:induction false} WalkWalked(dist: Distance, vs: seq<Vehicle>, chains: seq<seq<Action>>, draws: seq<Draw>)
    requires Feasible(vs, chains)
    ensures Walked(dist, vs, Walk(dist, vs, chains, draws), draws)
    ensures var w := Walk(dist, vs, chains, draws);
      |w| < |draws| + 1 ==> Stuck(vs, w[|w| - 1], draws[|w| - 1])
    decreases |draws|
  {
    var w := Walk(dist, vs, chains, draws);
    if draws != [] && Next(dist, vs, chains, draws[0]).Some? {
      var c := Next(dist, vs, chains, draws[0]).value;
      var rest := Walk(dist, vs, c, draws[1..]);
      WalkWalked(dist, vs, c, draws[1..]);
      assert w == [chains] + rest;
      forall k | 0 <= k < |w| - 1
        ensures Moved(dist, vs, w[k], draws[k], w[k + 1])
      {
        if k > 0 {
          assert w[k] == rest[k - 1] && w[k + 1] == rest[k] && draws[k] == draws[1..][k - 1];
        }
      }
      if |w| < |draws| + 1 {
        assert w[|w| - 1] == rest[|rest| - 1] && draws[|w| - 1] == draws[1..][|rest| - 1];
      }
    }
  }

  /**
   * What a search answers on the fleets w with `best` met before them:
   * either `best` stays and no fleet of w is cheaper, or the answer is the
   * first cheapest fleet of w after its first one, strictly cheaper than `best`.
   */
  ghost predicate Settles(dist: Distance, vs: seq<Vehicle>, w: seq<seq<seq<Action>>>, best: seq<seq<Action>>, r: seq<seq<Action>>)
  {
    || (r == best && forall k :: 0 <= k < |w| ==> FleetCost(dist, vs, best) <= FleetCost(dist, vs, w[k]))
    || (exists j :: 0 < j < |w| && FirstLeast(dist, vs, w, j) && r == w[j] && FleetCost(dist, vs, r) < FleetCost(dist, vs, best))
  }

  /** A fleet cheaper than `chains` and than all of rest, put first in rest, is the first cheapest of [chains] + rest. */
  lemma FirstLeastHead(dist: Distance, vs: seq<Vehicle>, chains: seq<seq<Action>>, rest: seq<seq<seq<Action>>>)
    requires rest != [] && FleetCost(dist, vs, rest[0]) < FleetCost(dist, vs, chains)
    requires forall k :: 0 <= k < |rest| ==> FleetCost(dist, vs, rest[0]) <= FleetCost(dist, vs, rest[k])
    ensures FirstLeast(dist, vs, [chains] + rest, 1)
  {
    var w := [chains] + rest;
    forall k | 0 <= k < |w|
      ensures FleetCost(dist, vs, w[1]) <= FleetCost(dist, vs, w[k])
    {
      if k > 0 {
        assert w[k] == rest[k - 1];
      }
    }
  }

  /** The first cheapest of rest, cheaper than `chains`, is the first cheapest of [chains] + rest, one place on. */
  lemma FirstLeastShift(dist: Distance, vs: seq<Vehicle>, chains: seq<seq<Action>>, rest: seq<seq<seq<Action>>>, j: nat)
    requires FirstLeast(dist, vs, rest, j) && FleetCost(dist, vs, rest[j]) < FleetCost(dist, vs, chains)
    ensures FirstLeast(dist, vs, [chains] + rest, j + 1)
  {
    var w := [chains] + rest;
    assert w[j + 1] == rest[j];
    forall k | 0 < k < |w|
      ensures w[k] == rest[k - 1]
    {
    }
  }

  /** With the answer met before rest and no fleet of rest cheaper, [chains] + rest settles to it. */
  lemma SettlesStay(dist: Distance, vs: seq<Vehicle>, chains: seq<seq<Action>>, rest: seq<seq<seq<Action>>>, best: seq<seq<Action>>)
    requires rest != [] && FleetCost(dist, vs, best) <= FleetCost(dist, vs, chains)
    requires var best' := if FleetCost(dist, vs, rest[0]) < FleetCost(dist, vs, best) then rest[0] else best;
      forall k :: 0 <= k < |rest| ==> FleetCost(dist, vs, best') <= FleetCost(dist, vs, rest[k])
    ensures Settles(dist, vs, [chains] + rest, best, if FleetCost(dist, vs, rest[0]) < FleetCost(dist, vs, best) then rest[0] else best)
  {
    var w := [chains] + rest;
    if FleetCost(dist, vs, rest[0]) < FleetCost(dist, vs, best) {
      FirstLeastHead(dist, vs, chains, rest);
      assert 0 < 1 < |w| && FirstLeast(dist, vs, w, 1) && rest[0] == w[1];
    } else {
      forall k | 0 <= k < |w|
        ensures FleetCost(dist, vs, best) <= FleetCost(dist, vs, w[k])
      {
        if k > 0 {
          assert w[k] == rest[k - 1];
        }
      }
    }
  }

  /** The first cheapest fleet of rest, cheaper than anything met before, is what [chains] + rest settles to. */
  lemma SettlesMove(dist: Distance, vs: seq<Vehicle>, chains: seq<seq<Action>>, rest: seq<seq<seq<Action>>>, best: seq<seq<Action>>, j: nat)
    requires FleetCost(dist, vs, best) <= FleetCost(dist, vs, chains)
    requires 0 < j < |rest| && FirstLeast(dist, vs, rest, j)
    requires FleetCost(dist, vs, rest[j]) < FleetCost(dist, vs, best) && FleetCost(dist, vs, rest[j]) < FleetCost(dist, vs, rest[0])
    ensures Settles(dist, vs, [chains] + rest, best, rest[j])
  {
    var w := [chains] + rest;
    FirstLeastShift(dist, vs, chains, rest, j);
    assert 0 < j + 1 < |w| && FirstLeast(dist, vs, w, j + 1) && rest[j] == w[j + 1];
  }

  /**
   * Putting `chains` in front of fleets that a search settles from best'
   * (the cheaper of `best` and the next fleet c) settles them from `best`.
   */
  lemma SettlesCons(dist: Distance, vs: seq<Vehicle>, chains: seq<seq<Action>>, rest: seq<seq<seq<Action>>>, best: seq<seq<Action>>, r: seq<seq<Action>>)
    requires rest != [] && FleetCost(dist, vs, best) <= FleetCost(dist, vs, chains)
    requires Settles(dist, vs, rest, if FleetCost(dist, vs, rest[0]) < FleetCost(dist, vs, best) then rest[0] else best, r)
    ensures Settles(dist, vs, [chains] + rest, best, r)
  {
    var best' := if FleetCost(dist, vs, rest[0]) < FleetCost(dist, vs, best) then rest[0] else best;
    if r == best' && forall k :: 0 <= k < |rest| ==> FleetCost(dist, vs, best') <= FleetCost(dist, vs, rest[k]) {
      SettlesStay(dist, vs, chains, rest, best);
    } else {
      var j :| 0 < j < |rest| && FirstLeast(dist, vs, rest, j) && r == rest[j] && FleetCost(dist, vs, r) < FleetCost(dist, vs, best');
      SettlesMove(dist, vs, chains, rest, best, j);
    }
  }

  /** The search's flag is set exactly when its walk is cut short. */
  lemma {:induction false} SearchThrows(dist: Distance, vs: seq<Vehicle>, chains: seq<seq<Action>>, draws: seq<Draw>, best: seq<seq<Action>>)
    requires Feasible(vs, chains)
    ensures Search(dist, vs, chains, draws, best).1 <==> |Walk(dist, vs, chains, draws)| < |draws| + 1
    decreases |draws|
  {
    if draws != [] && Next(dist, vs, chains, draws[0]).Some? {
      var c := Next(dist, vs, chains, draws[0]).value;
      SearchThrows(dist, vs, c, draws[1..], if FleetCost(dist, vs, c) < FleetCost(dist, vs, best) then c else best);
    }
  }

  /**
   * What Search answers, read on the walk: with `best` no dearer than the
   * starting fleet, the walk settles to the answer from `best`.
   */
  lemma {:induction false} SearchOnWalk(dist: Distance, vs: seq<Vehicle>, chains: seq<seq<Action>>, draws: seq<Draw>, best: seq<seq<Action>>)
    requires Feasible(vs, chains) && FleetCost(dist, vs, best) <= FleetCost(dist, vs, chains)
    ensures Settles(dist, vs, Walk(dist, vs, chains, draws), best, Search(dist, vs, chains, draws, best).0)
    decreases |draws|
  {
    if draws != [] && Next(dist, vs, chains, draws[0]).Some? {
      var c := Next(dist, vs, chains, draws[0]).value;
      var best' := if FleetCost(dist, vs, c) < FleetCost(dist, vs, best) then c else best;
      SearchOnWalk(dist, vs, c, draws[1..], best');
      SettlesCons(dist, vs, chains, Walk(dist, vs, c, draws[1..]), best, Search(dist, vs, c, draws[1..], best').0);
    }
  }

  /** findBestsolution's answer is the first cheapest fleet of its walk. */
  lemma SearchFirstLeast(dist: Distance, vs: seq<Vehicle>, chains: seq<seq<Action>>, draws: seq<Draw>)
    requires Feasible(vs, chains)
    ensures exists b: nat ::
      FirstLeast(dist, vs, Walk(dist, vs, chains, draws), b) && Search(dist, vs, chains, draws, chains).0 == Walk(dist, vs, chains, draws)[b]
  {
    var w := Walk(dist, vs, chains, draws);
    SearchOnWalk(dist, vs, chains, draws, chains);
    if Search(dist, vs, chains, draws, chains).0 == chains && forall k :: 0 <= k < |w| ==> FleetCost(dist, vs, chains) <= FleetCost(dist, vs, w[k]) {
      assert FirstLeast(dist, vs, w, 0);
    }
  }
}
