/**
 * The centralized agent's Solution: the same linked chains as the auction
 * agent's, an `actionVehicle` map that is only copied, and the two
 * initial solutions.
 */
module CentralizedSolution {
  import opened Wrappers
  import opened Actions
  import opened Chains
  import opened Plans
  import opened CentralizedInit

  /** No vehicle occurs twice in the fleet. */
  ghost predicate FleetDistinct(vs: seq<Vehicle>)
  {
    forall i, j :: 0 <= i < j < |vs| ==> vs[i] != vs[j]
  }

  /** The capacities of the fleet, in order. */
  function Caps(vs: seq<Vehicle>): (caps: seq<nat>)
    ensures |caps| == |vs| && forall k :: 0 <= k < |vs| ==> caps[k] == vs[k].capacity
  {
    seq(|vs|, k requires 0 <= k < |vs| => vs[k].capacity)
  }

  /**
   * The vehicle index `initSolutionMultiple` gives each task; None when it
   * throws, which includes the division by an empty fleet.
   */
  function Distribution(vs: seq<Vehicle>, ts: seq<Task>): Option<seq<nat>>
  {
    if |vs| == 0 then (if ts == [] then Some([]) else None)
    else RoundRobin(Caps(vs), ts, 0)
  }

  /** The plan `initSolutionMultiple` gives a vehicle carrying `share`. */
  function SharePlan(v: Vehicle, share: seq<Task>): Plan
  {
    if share == [] then Empty else ChainPlan(v, NaiveChain(share))
  }

  /** The first task of `naivePlan`: its pickup heads the chain and links to its delivery. */
  lemma NaiveLinkFirst(next: NextMap, tasks: seq<Task>)
    requires tasks != [] && Succ(next, Pickup(tasks[0])) == Some(Delivery(tasks[0]))
    ensures Linked(next[Delivery(tasks[0]) := None], Some(Pickup(tasks[0])), NaiveChain(tasks[..1]))
  {
    var c := [Pickup(tasks[0]), Delivery(tasks[0])];
    assert tasks[..1][..0] == [];
    assert NaiveChain(tasks[..1]) == c;
  }

  /** A later task of `naivePlan`: the previous delivery now links to its pickup. */
  lemma NaiveLinkStep(next: NextMap, tasks: seq<Task>, k: nat)
    requires TaskSet(tasks) && 0 < k < |tasks|
    requires Linked(next[Delivery(tasks[k - 1]) := None], Some(Pickup(tasks[0])), NaiveChain(tasks[..k]))
    ensures Linked(next[Delivery(tasks[k - 1]) := Some(Pickup(tasks[k]))][Pickup(tasks[k]) := Some(Delivery(tasks[k]))]
                       [Delivery(tasks[k]) := None],
                   Some(Pickup(tasks[0])), NaiveChain(tasks[..k + 1]))
  {
    var task := tasks[k];
    var c := NaiveChain(tasks[..k]);
    assert tasks[..k + 1][..k] == tasks[..k];
    assert NaiveChain(tasks[..k + 1]) == c + [Pickup(task), Delivery(task)];
    assert task !in tasks[..k] by {
      forall p | 0 <= p < k ensures tasks[..k][p] != task {
        assert tasks[..k][p] == tasks[p];
      }
    }
    NaiveChainElems(tasks[..k], Pickup(task));
    NaiveChainElems(tasks[..k], Delivery(task));
    assert c[|c| - 1] == Delivery(tasks[k - 1]) by {
      NaiveChainShape(tasks[..k], k - 1);
    }
    LinkedAppend(next, Some(Pickup(tasks[0])), c, Pickup(task), Delivery(task));
  }

  /**
   * `naivePlan` after k tasks: the chain of those tasks is linked except
   * for the successor of its last delivery, and every action of another
   * task keeps its successor from `next0`.
   */
  ghost predicate Built(next: NextMap, next0: NextMap, tasks: seq<Task>, k: nat)
    requires k <= |tasks|
  {
    && (k > 0 ==> Linked(next[Delivery(tasks[k - 1]) := None], Some(Pickup(tasks[0])), NaiveChain(tasks[..k])))
    && forall x: Action :: x.task !in tasks[..k] ==> Succ(next, x) == Succ(next0, x)
  }

  /** The puts `naivePlan` makes for task k. */
  function NaiveNext(next: NextMap, tasks: seq<Task>, k: nat): NextMap
    requires k < |tasks|
  {
    if k == 0 then next[Pickup(tasks[0]) := Some(Delivery(tasks[0]))]
    else next[Delivery(tasks[k - 1]) := Some(Pickup(tasks[k]))][Pickup(tasks[k]) := Some(Delivery(tasks[k]))]
  }

  lemma BuiltStep(next: NextMap, next0: NextMap, tasks: seq<Task>, k: nat)
    requires TaskSet(tasks) && k < |tasks| && Built(next, next0, tasks, k)
    ensures Built(NaiveNext(next, tasks, k), next0, tasks, k + 1)
  {
    var next' := NaiveNext(next, tasks, k);
    if k == 0 {
      NaiveLinkFirst(next', tasks);
    } else {
      NaiveLinkStep(next, tasks, k);
    }
    NaiveNextFrame(next, next0, tasks, k);
  }

  /** The puts for task k touch only actions of task k and of task k - 1. */
  lemma NaiveNextFrame(next: NextMap, next0: NextMap, tasks: seq<Task>, k: nat)
    requires k < |tasks|
    requires forall x: Action :: x.task !in tasks[..k] ==> Succ(next, x) == Succ(next0, x)
    ensures forall x: Action :: x.task !in tasks[..k + 1] ==> Succ(NaiveNext(next, tasks, k), x) == Succ(next0, x)
  {
    assert tasks[..k + 1] == tasks[..k] + [tasks[k]];
    forall x: Action | x.task !in tasks[..k + 1] ensures Succ(NaiveNext(next, tasks, k), x) == Succ(next0, x) {
      assert x.task !in tasks[..k] && x.task != tasks[k];
      assert k > 0 ==> tasks[k - 1] in tasks[..k];
    }
  }

  lemma BuiltClose(next: NextMap, next0: NextMap, tasks: seq<Task>)
    requires tasks != [] && Built(next, next0, tasks, |tasks|)
    ensures Linked(next[Delivery(tasks[|tasks| - 1]) := None], Some(Pickup(tasks[0])), NaiveChain(tasks))
    ensures forall x: Action :: x.task !in tasks ==> Succ(next[Delivery(tasks[|tasks| - 1]) := None], x) == Succ(next0, x)
  {
    assert tasks[..|tasks|] == tasks;
  }

  /** The plan after k + 1 tasks extends the plan after k tasks by one pickup-delivery trip. */
  lemma NaiveStepsStep(home: City, tasks: seq<Task>, k: nat)
    requires k < |tasks|
    ensures RouteSteps(home, NaiveChain(tasks[..k + 1]))
      == RouteSteps(home, NaiveChain(tasks[..k]))
       + Leg(ChainEnd(home, NaiveChain(tasks[..k])), tasks[k].pickupCity) + [PickupStep(tasks[k])]
       + Leg(tasks[k].pickupCity, tasks[k].deliveryCity) + [DeliveryStep(tasks[k])]
    ensures ChainEnd(home, NaiveChain(tasks[..k + 1])) == tasks[k].deliveryCity
  {
    var task := tasks[k];
    var c := NaiveChain(tasks[..k]);
    assert tasks[..k + 1][..k] == tasks[..k];
    assert NaiveChain(tasks[..k + 1]) == c + [Pickup(task), Delivery(task)];
    RouteStepsConcat(home, c, [Pickup(task), Delivery(task)]);
    PairRoute(ChainEnd(home, c), task);
  }

  /** After k tasks `naivePlan` has driven the route of their chain and stands at its end. */
  ghost predicate Drove(home: City, tasks: seq<Task>, k: nat, steps: seq<Step>, current: City)
    requires k <= |tasks|
  {
    steps == RouteSteps(home, NaiveChain(tasks[..k])) && current == ChainEnd(home, NaiveChain(tasks[..k]))
  }

  lemma DroveStep(home: City, tasks: seq<Task>, k: nat, steps: seq<Step>, current: City)
    requires k < |tasks| && Drove(home, tasks, k, steps, current)
    ensures Drove(home, tasks, k + 1, steps + Leg(current, tasks[k].pickupCity) + [PickupStep(tasks[k])]
                   + Leg(tasks[k].pickupCity, tasks[k].deliveryCity) + [DeliveryStep(tasks[k])], tasks[k].deliveryCity)
  {
    NaiveStepsStep(home, tasks, k);
  }

  /** The share of each vehicle under assignment a, in fleet order. */
  function Shares(n: nat, ts: seq<Task>, a: seq<nat>): (shares: seq<seq<Task>>)
    requires |a| == |ts|
    ensures |shares| == n
  {
    seq(n, i requires 0 <= i < n => Assigned(ts, a, i))
  }

  /** Each share is a task set, no task is in two shares, and every share is drawn from ts. */
  ghost predicate Partitioned(shares: seq<seq<Task>>, ts: seq<Task>)
  {
    && (forall m :: 0 <= m < |shares| ==> TaskSet(shares[m]))
    && (forall m, t :: 0 <= m < |shares| && t in shares[m] ==> t in ts)
    && forall m, m', t :: 0 <= m < m' < |shares| && t in shares[m] ==> t !in shares[m']
  }

  lemma SharesPartition(n: nat, ts: seq<Task>, a: seq<nat>)
    requires |a| == |ts| && TaskSet(ts)
    ensures Partitioned(Shares(n, ts, a), ts)
  {
    var shares := Shares(n, ts, a);
    forall m | 0 <= m < n ensures TaskSet(shares[m]) {
      AssignedDistinct(ts, a, m);
    }
    forall m, t | 0 <= m < n && t in shares[m] ensures t in ts {
      AssignedMember(ts, a, m, t);
    }
    forall m, m', t | 0 <= m < m' < n && t in shares[m] ensures t !in shares[m'] {
      if t in shares[m'] {
        AssignedDisjoint(ts, a, m, m', t);
      }
    }
  }

  /** The first i plans `initSolutionMultiple` adds: a naive plan per nonempty share, `Plan.EMPTY` otherwise. */
  function SharePlans(vs: seq<Vehicle>, shares: seq<seq<Task>>, i: nat): (ps: seq<Plan>)
    requires i <= |vs| && |shares| == |vs|
    ensures |ps| == i && forall m :: 0 <= m < i ==> ps[m] == SharePlan(vs[m], shares[m])
  {
    seq(i, m requires 0 <= m < i => SharePlan(vs[m], shares[m]))
  }

  lemma SharePlansSnoc(vs: seq<Vehicle>, shares: seq<seq<Task>>, i: nat)
    requires i < |vs| && |shares| == |vs|
    ensures SharePlans(vs, shares, i + 1) == SharePlans(vs, shares, i) + [SharePlan(vs[i], shares[i])]
  {
  }

  /** Every vehicle before i with a nonempty share heads the naive chain of that share. */
  ghost predicate SharesLinked(next: NextMap, heads: map<Vehicle, Option<Action>>, vs: seq<Vehicle>,
                               shares: seq<seq<Task>>, i: nat)
    requires i <= |vs| == |shares|
  {
    forall m :: 0 <= m < i && shares[m] != [] ==> Linked(next, Head(heads, vs[m]), NaiveChain(shares[m]))
  }

  /** Linking vehicle i's share leaves the chains of the vehicles before it intact. */
  lemma SharesLinkedStep(next: NextMap, heads: map<Vehicle, Option<Action>>, next': NextMap,
                         heads': map<Vehicle, Option<Action>>, vs: seq<Vehicle>, shares: seq<seq<Task>>, ts: seq<Task>, i: nat)
    requires i < |vs| == |shares| && Partitioned(shares, ts) && FleetDistinct(vs)
    requires SharesLinked(next, heads, vs, shares, i)
    requires shares[i] != [] ==> heads' == heads[vs[i] := Some(Pickup(shares[i][0]))]
    requires shares[i] != [] ==> Linked(next', Some(Pickup(shares[i][0])), NaiveChain(shares[i]))
    requires shares[i] == [] ==> heads' == heads
    requires forall x: Action :: x.task !in shares[i] ==> Succ(next', x) == Succ(next, x)
    ensures SharesLinked(next', heads', vs, shares, i + 1)
  {
    forall m | 0 <= m < i && shares[m] != []
      ensures Linked(next', Head(heads', vs[m]), NaiveChain(shares[m]))
    {
      assert vs[m] != vs[i];
      forall x | x in NaiveChain(shares[m]) ensures Succ(next', x) == Succ(next, x) {
        NaiveChainElems(shares[m], x);
      }
      LinkedFrame(next, next', Head(heads, vs[m]), NaiveChain(shares[m]));
    }
  }

  /** The naive plan of a task set delivers each of its tasks once. */
  lemma {:induction false} NaiveDeliveries(v: Vehicle, ts: seq<Task>)
    ensures PlanDeliveries(ChainPlan(v, NaiveChain(ts))) == |ts|
    decreases |ts|
  {
    RouteDeliveries(v.home, NaiveChain(ts));
    NaiveChainDeliveries(ts);
  }

  lemma {:induction false} NaiveChainDeliveries(ts: seq<Task>)
    ensures DeliveryActions(NaiveChain(ts)) == |ts|
    decreases |ts|
  {
    if ts != [] {
      var t := ts[|ts| - 1];
      NaiveChainDeliveries(ts[..|ts| - 1]);
      DeliveryActionsConcat(NaiveChain(ts[..|ts| - 1]), [Pickup(t), Delivery(t)]);
      assert [Pickup(t), Delivery(t)][1..] == [Delivery(t)] && [Delivery(t)][1..] == [];
      assert DeliveryActions([Delivery(t)]) == 1 + DeliveryActions([]);
      assert DeliveryActions([Pickup(t), Delivery(t)]) == 1;
    }
  }

  lemma {:induction false} OnlyAtDeliveries(n: nat, b: nat, plan: Plan)
    ensures TotalDeliveries(OnlyAt(n, b, plan)) == if b < n then PlanDeliveries(plan) else 0
    decreases n
  {
    if n == 0 {
      assert OnlyAt(0, b, plan) == [];
    } else {
      OnlyAtSnoc(n - 1, b, plan);
      OnlyAtDeliveries(n - 1, b, plan);
      TotalDeliveriesSnoc(OnlyAt(n - 1, b, plan), if n - 1 == b then plan else Empty);
    }
  }

  /** The plans of `initSolutionSingle` deliver every task exactly once in total. */
  lemma SingleDeliversAll(vs: seq<Vehicle>, ts: seq<Task>)
    requires Biggest(vs) >= 0
    ensures TotalDeliveries(OnlyAt(|vs|, Biggest(vs), ChainPlan(vs[Biggest(vs)], NaiveChain(ts)))) == |ts|
  {
    OnlyAtDeliveries(|vs|, Biggest(vs), ChainPlan(vs[Biggest(vs)], NaiveChain(ts)));
    NaiveDeliveries(vs[Biggest(vs)], ts);
  }

  /** The total size of the shares of vehicles 0 .. n - 1. */
  function ShareSizes(ts: seq<Task>, a: seq<nat>, n: nat): nat
    requires |a| == |ts|
  {
    if n == 0 then 0 else ShareSizes(ts, a, n - 1) + |Assigned(ts, a, n - 1)|
  }

  lemma {:induction false} ShareSizesSnoc(ts: seq<Task>, a: seq<nat>, n: nat)
    requires |a| == |ts| && ts != []
    ensures ShareSizes(ts, a, n) == ShareSizes(ts[..|ts| - 1], a[..|ts| - 1], n) + (if a[|ts| - 1] < n then 1 else 0)
    decreases n
  {
    if n > 0 {
      ShareSizesSnoc(ts, a, n - 1);
    }
  }

  /** When every task goes to one of vehicles 0 .. n - 1, their shares add up to all tasks. */
  lemma {:induction false} ShareSizesAll(ts: seq<Task>, a: seq<nat>, n: nat)
    requires |a| == |ts| && forall k :: 0 <= k < |a| ==> a[k] < n
    ensures ShareSizes(ts, a, n) == |ts|
    decreases |ts|
  {
    if ts == [] {
      ShareSizesEmpty(ts, a, n);
    } else {
      var m := |ts| - 1;
      ShareSizesSnoc(ts, a, n);
      ShareSizesAll(ts[..m], a[..m], n);
    }
  }

  lemma {:induction false} ShareSizesEmpty(ts: seq<Task>, a: seq<nat>, n: nat)
    requires |a| == |ts| == 0
    ensures ShareSizes(ts, a, n) == 0
    decreases n
  {
    if n > 0 {
      ShareSizesEmpty(ts, a, n - 1);
    }
  }

  lemma {:induction false} SharePlansDeliveries(vs: seq<Vehicle>, ts: seq<Task>, a: seq<nat>, i: nat)
    requires |a| == |ts| && i <= |vs|
    ensures TotalDeliveries(SharePlans(vs, Shares(|vs|, ts, a), i)) == ShareSizes(ts, a, i)
    decreases i
  {
    var shares := Shares(|vs|, ts, a);
    if i == 0 {
      assert SharePlans(vs, shares, 0) == [];
    } else {
      SharePlansDeliveries(vs, ts, a, i - 1);
      SharePlansSnoc(vs, shares, i - 1);
      TotalDeliveriesSnoc(SharePlans(vs, shares, i - 1), SharePlan(vs[i - 1], shares[i - 1]));
      if shares[i - 1] != [] {
        NaiveDeliveries(vs[i - 1], shares[i - 1]);
      }
    }
  }

  /** The plans of `initSolutionMultiple` deliver every task exactly once in total. */
  lemma MultipleDeliversAll(vs: seq<Vehicle>, ts: seq<Task>)
    requires Distribution(vs, ts).Some?
    ensures var a := Distribution(vs, ts).value;
      |a| == |ts| && TotalDeliveries(SharePlans(vs, Shares(|vs|, ts, a), |vs|)) == |ts|
  {
    var a := Distribution(vs, ts).value;
    if |vs| > 0 {
      RoundRobinFits(Caps(vs), ts, 0);
    }
    SharePlansDeliveries(vs, ts, a, |vs|);
    ShareSizesAll(ts, a, |vs|);
  }

  /** n plans, `plan` at index b and `Plan.EMPTY` elsewhere. */
  function OnlyAt(n: nat, b: nat, plan: Plan): (ps: seq<Plan>)
    ensures |ps| == n && forall k :: 0 <= k < n ==> ps[k] == if k == b then plan else Empty
  {
    seq(n, k requires 0 <= k < n => if k == b then plan else Empty)
  }

  lemma OnlyAtSnoc(n: nat, b: nat, plan: Plan)
    ensures OnlyAt(n + 1, b, plan) == OnlyAt(n, b, plan) + [if n == b then plan else Empty]
  {
  }

  class Solution {
    var plans: seq<Plan>
    const vehicles: seq<Vehicle>
    var actionVehicle: map<Action, Vehicle>
    var nextAction: NextMap
    var nextActionVehicle: map<Vehicle, Option<Action>>
    /** The chain of each vehicle of the fleet, in fleet order. */
    ghost var chains: seq<seq<Action>>

    /** Every vehicle's head and the successor map spell out its chain. */
    ghost predicate Valid()
      reads this
    {
      && |chains| == |vehicles|
      && forall i :: 0 <= i < |vehicles| ==> Linked(nextAction, Head(nextActionVehicle, vehicles[i]), chains[i])
    }

    /** An empty solution for the fleet. */
    constructor (vehicles: seq<Vehicle>)
      ensures this.vehicles == vehicles && plans == []
      ensures actionVehicle == map[] && nextAction == map[] && nextActionVehicle == map[]
      ensures chains == seq(|vehicles|, _ => []) && Valid()
    {
      this.vehicles := vehicles;
      plans := [];
      actionVehicle := map[];
      nextAction := map[];
      nextActionVehicle := map[];
      chains := seq(|vehicles|, _ => []);
    }

    /**
     * Chains the tasks as P1 D1 P2 D2 ... on `vehicle` and returns the
     * plan that drives them one after the other. Successors of actions of
     * other tasks are left alone; with no task, nothing is linked.
     */
    method NaivePlan(vehicle: Vehicle, tasks: seq<Task>) returns (plan: Plan)
      requires TaskSet(tasks)
      modifies this`nextAction, this`nextActionVehicle
      ensures plan == ChainPlan(vehicle, NaiveChain(tasks))
      ensures tasks == [] ==> nextAction == old(nextAction) && nextActionVehicle == old(nextActionVehicle)
      ensures tasks != [] ==> nextActionVehicle == old(nextActionVehicle)[vehicle := Some(Pickup(tasks[0]))]
      ensures tasks != [] ==> Linked(nextAction, Some(Pickup(tasks[0])), NaiveChain(tasks))
      ensures forall x: Action :: x.task !in tasks ==> Succ(nextAction, x) == Succ(old(nextAction), x)
    {
      var next, heads;
      next, heads, plan := NaiveLinks(vehicle, tasks, nextAction, nextActionVehicle);
      nextAction := next;
      nextActionVehicle := heads;
    }

    /** The loop of `naivePlan`, on the two maps it updates. */
    static method NaiveLinks(vehicle: Vehicle, tasks: seq<Task>, next0: NextMap, heads0: map<Vehicle, Option<Action>>)
      returns (next: NextMap, heads: map<Vehicle, Option<Action>>, plan: Plan)
      requires TaskSet(tasks)
      ensures plan == ChainPlan(vehicle, NaiveChain(tasks))
      ensures tasks == [] ==> next == next0 && heads == heads0
      ensures tasks != [] ==> heads == heads0[vehicle := Some(Pickup(tasks[0]))]
      ensures tasks != [] ==> Linked(next, Some(Pickup(tasks[0])), NaiveChain(tasks))
      ensures forall x: Action :: x.task !in tasks ==> Succ(next, x) == Succ(next0, x)
    {
      var current := vehicle.home;
      var steps: seq<Step> := [];
      var lastAction: Option<Action> := None;
      next := next0;
      heads := heads0;
      var k := 0;
      while k < |tasks|
        invariant k <= |tasks|
        invariant Drove(vehicle.home, tasks, k, steps, current)
        invariant k == 0 ==> lastAction == None && heads == heads0 && next == next0
        invariant k > 0 ==> lastAction == Some(Delivery(tasks[k - 1])) && heads == heads0[vehicle := Some(Pickup(tasks[0]))]
        invariant Built(next, next0, tasks, k)
      {
        var task := tasks[k];
        var aux := Pickup(task);
        BuiltStep(next, next0, tasks, k);
        ghost var next' := NaiveNext(next, tasks, k);
        if lastAction != None {
          next := next[lastAction.value := Some(aux)];
          lastAction := Some(Delivery(task));
          next := next[aux := lastAction];
        } else {
          lastAction := Some(Delivery(task));
          heads := heads[vehicle := Some(aux)];
          next := next[aux := lastAction];
        }
        assert next == next';
        DroveStep(vehicle.home, tasks, k, steps, current);
        steps := steps + Leg(current, task.pickupCity) + [PickupStep(task)]
                       + Leg(task.pickupCity, task.deliveryCity) + [DeliveryStep(task)];
        current := task.deliveryCity;
        k := k + 1;
      }
      assert k == |tasks| && tasks[..k] == tasks;
      assert steps == RouteSteps(vehicle.home, NaiveChain(tasks));
      if lastAction != None {
        assert lastAction.value == Delivery(tasks[|tasks| - 1]);
        BuiltClose(next, next0, tasks);
        next := next[lastAction.value := None];
      }
      plan := Route(vehicle.home, steps);
    }

    /** The first loop of `initSolutionSingle`: the index of the first vehicle of largest capacity, -1 if none. */
    method IndexBiggestVehicle() returns (indexBiggestVehicle: int)
      ensures indexBiggestVehicle == Biggest(vehicles)
    {
      indexBiggestVehicle := -1;
      var maxCapacity := 0;
      var i := 0;
      while i < |vehicles|
        invariant i <= |vehicles| && indexBiggestVehicle == Biggest(vehicles[..i])
        invariant maxCapacity == if indexBiggestVehicle < 0 then 0 else vehicles[indexBiggestVehicle].capacity
      {
        BiggestStep(vehicles, i);
        if vehicles[i].capacity > maxCapacity {
          indexBiggestVehicle := i;
          maxCapacity := vehicles[i].capacity;
        }
        i := i + 1;
      }
      assert vehicles[..i] == vehicles;
    }

    /** The second loop of `initSolutionSingle`: the plan of vehicle b, and `Plan.EMPTY` and a null head for the others. */
    method PlanBiggest(b: nat, planBiggestVehicle: Plan)
      requires b < |vehicles| && FleetDistinct(vehicles)
      modifies this`plans, this`nextActionVehicle
      ensures plans == old(plans) + OnlyAt(|vehicles|, b, planBiggestVehicle)
      ensures forall k :: 0 <= k < |vehicles| && k != b ==> Head(nextActionVehicle, vehicles[k]) == None
      ensures Head(nextActionVehicle, vehicles[b]) == Head(old(nextActionVehicle), vehicles[b])
    {
      var i := 0;
      while i < |vehicles|
        invariant i <= |vehicles|
        invariant plans == old(plans) + OnlyAt(i, b, planBiggestVehicle)
        invariant forall k :: 0 <= k < i && k != b ==> Head(nextActionVehicle, vehicles[k]) == None
        invariant Head(nextActionVehicle, vehicles[b]) == Head(old(nextActionVehicle), vehicles[b])
      {
        OnlyAtSnoc(i, b, planBiggestVehicle);
        if i == b {
          plans := plans + [planBiggestVehicle];
        } else {
          assert vehicles[i] != vehicles[b];
          plans := plans + [Empty];
          nextActionVehicle := nextActionVehicle[vehicles[i] := None];
        }
        i := i + 1;
      }
    }

    /**
     * Puts every task on the first vehicle of strictly largest capacity and
     * gives every other vehicle a null head and `Plan.EMPTY`. When no vehicle
     * has a positive capacity the source indexes the fleet at -1 and throws;
     * `ok` is then false and nothing has changed.
     */
    method InitSolutionSingle(tasks: seq<Task>) returns (ok: bool)
      requires TaskSet(tasks) && FleetDistinct(vehicles)
      modifies this
      ensures ok <==> Biggest(vehicles) >= 0
      ensures !ok ==> plans == old(plans) && nextAction == old(nextAction) && nextActionVehicle == old(nextActionVehicle)
      ensures ok ==>
        var b := Biggest(vehicles);
        && plans == old(plans) + OnlyAt(|vehicles|, b, ChainPlan(vehicles[b], NaiveChain(tasks)))
        && (forall k :: 0 <= k < |vehicles| && k != b ==> Head(nextActionVehicle, vehicles[k]) == None)
        && (tasks != [] ==> Linked(nextAction, Head(nextActionVehicle, vehicles[b]), NaiveChain(tasks)))
        && (tasks == [] ==> Head(nextActionVehicle, vehicles[b]) == Head(old(nextActionVehicle), vehicles[b]))
      ensures ok && (tasks != [] || Head(old(nextActionVehicle), vehicles[Biggest(vehicles)]) == None) ==>
        && chains == seq(|vehicles|, k requires 0 <= k < |vehicles| => (if k == Biggest(vehicles) then NaiveChain(tasks) else []))
        && Valid()
    {
      var indexBiggestVehicle := IndexBiggestVehicle();
      if indexBiggestVehicle < 0 {
        return false;
      }
      var b := indexBiggestVehicle;
      var planBiggestVehicle := NaivePlan(vehicles[b], tasks);
      PlanBiggest(b, planBiggestVehicle);
      chains := seq(|vehicles|, k requires 0 <= k < |vehicles| => (if k == b then NaiveChain(tasks) else []));
      ok := true;
      if tasks != [] || Head(old(nextActionVehicle), vehicles[b]) == None {
        forall k | 0 <= k < |vehicles|
          ensures Linked(nextAction, Head(nextActionVehicle, vehicles[k]), chains[k])
        {
          if k != b {
            assert Head(nextActionVehicle, vehicles[k]) == None && chains[k] == [];
          } else if tasks == [] {
            assert chains[k] == [];
          }
        }
      }
    }
  
    /** The first loop of `initSolutionMultiple`: an empty share and the capacity of each vehicle. */
    method EmptyShares() returns (capacities: seq<nat>, taskVehicle: seq<seq<Task>>)
      ensures capacities == Caps(vehicles)
      ensures |taskVehicle| == |vehicles| && forall m :: 0 <= m < |vehicles| ==> taskVehicle[m] == []
    {
      capacities := [];
      taskVehicle := [];
      var i := 0;
      while i < |vehicles|
        invariant i <= |vehicles| && |capacities| == i && |taskVehicle| == i
        invariant forall m :: 0 <= m < i ==> capacities[m] == vehicles[m].capacity && taskVehicle[m] == []
      {
        taskVehicle := taskVehicle + [[]];
        capacities := capacities + [vehicles[i].capacity];
        i := i + 1;
      }
    }

    /**
     * The inner loop of `initSolutionMultiple`: advances the counter past
     * vehicles too small for weight w; `check` reaches n exactly when all
     * n of them were too small.
     */
    static method SkipSmall(capacities: seq<nat>, w: nat, j0: nat) returns (j: nat, check: nat)
      requires |capacities| > 0
      ensures check <= |capacities|
      ensures check == |capacities| <==> FirstFit(capacities, w, j0, 0).None?
      ensures check < |capacities| ==> FirstFit(capacities, w, j0, 0) == Some(j)
    {
      var numVehicles := |capacities|;
      j := j0;
      check := 0;
      while capacities[j % numVehicles] < w && check < numVehicles
        invariant check <= numVehicles && j == j0 + check
        invariant FirstFit(capacities, w, j0, 0) == FirstFit(capacities, w, j, check)
        decreases numVehicles - check
      {
        j := j + 1;
        check := check + 1;
      }
    }

    /**
     * The first two loops of `initSolutionMultiple`: one share per vehicle,
     * filled round robin. `ok` is false where the source throws: a task no
     * vehicle can carry ("Non feasible solution"), or any task at all for
     * an empty fleet (the remainder by zero).
     */
    method DistributeTasks(tasks: seq<Task>) returns (ok: bool, taskVehicle: seq<seq<Task>>)
      ensures ok <==> Distribution(vehicles, tasks).Some?
      ensures ok ==>
        var a := Distribution(vehicles, tasks).value;
        && |a| == |tasks|
        && |taskVehicle| == |vehicles|
        && forall i :: 0 <= i < |vehicles| ==> taskVehicle[i] == Assigned(tasks, a, i)
    {
      var numVehicles := |vehicles|;
      var capacities;
      capacities, taskVehicle := EmptyShares();
      ghost var assign: seq<nat> := [];
      assert tasks[..0] == [] && tasks[0..] == tasks;
      var k := 0;
      var j: nat := 0;
      if numVehicles > 0 {
        PrependNil(RoundRobin(capacities, tasks, 0));
      }
      while k < |tasks|
        invariant k <= |tasks| && |assign| == k && |taskVehicle| == numVehicles
        invariant numVehicles == 0 ==> k == 0
        invariant numVehicles > 0 ==> RoundRobin(capacities, tasks, 0) == Prepend(assign, RoundRobin(capacities, tasks[k..], j))
        invariant forall m :: 0 <= m < numVehicles ==> taskVehicle[m] == Assigned(tasks[..k], assign, m)
      {
        var task := tasks[k];
        if numVehicles == 0 {
          assert Distribution(vehicles, tasks) == None;
          return false, taskVehicle;
        }
        ghost var j0 := j;
        var check;
        j, check := SkipSmall(capacities, task.weight, j);
        if check == numVehicles {
          RoundRobinStuck(capacities, tasks, k, j0, assign);
          assert Distribution(vehicles, tasks) == None;
          return false, taskVehicle;
        }
        RoundRobinStep(capacities, tasks, k, j0, j, assign);
        var slot := j % numVehicles;
        forall m | 0 <= m < numVehicles
          ensures Assigned(tasks[..k + 1], assign + [slot], m) == taskVehicle[m] + (if slot == m then [task] else [])
        {
          AssignedSnoc(tasks, assign, k, slot, m);
        }
        taskVehicle := taskVehicle[slot := taskVehicle[slot] + [task]];
        assign := assign + [slot];
        j := j + 1;
        k := k + 1;
      }
      assert tasks[..k] == tasks && tasks[k..] == [];
      if numVehicles > 0 {
        assert assign + [] == assign;
        assert Distribution(vehicles, tasks) == Some(assign);
      }
      ok := true;
    }

    /** The last loop of `initSolutionMultiple`: one plan per share, linking the nonempty ones. */
    method PlanShares(ghost tasks: seq<Task>, taskVehicle: seq<seq<Task>>)
      requires |taskVehicle| == |vehicles| && Partitioned(taskVehicle, tasks) && FleetDistinct(vehicles)
      modifies this`plans, this`nextAction, this`nextActionVehicle
      ensures plans == old(plans) + SharePlans(vehicles, taskVehicle, |vehicles|)
      ensures SharesLinked(nextAction, nextActionVehicle, vehicles, taskVehicle, |vehicles|)
      ensures forall m :: 0 <= m < |vehicles| && taskVehicle[m] == [] ==>
        Head(nextActionVehicle, vehicles[m]) == Head(old(nextActionVehicle), vehicles[m])
      ensures forall x: Action :: x.task !in tasks ==> Succ(nextAction, x) == Succ(old(nextAction), x)
    {
      var numVehicles := |vehicles|;
      var i := 0;
      while i < numVehicles
        invariant i <= numVehicles
        invariant plans == old(plans) + SharePlans(vehicles, taskVehicle, i)
        invariant SharesLinked(nextAction, nextActionVehicle, vehicles, taskVehicle, i)
        invariant forall m :: 0 <= m < numVehicles && (i <= m || taskVehicle[m] == []) ==>
          Head(nextActionVehicle, vehicles[m]) == Head(old(nextActionVehicle), vehicles[m])
        invariant forall x: Action :: x.task !in tasks ==> Succ(nextAction, x) == Succ(old(nextAction), x)
      {
        ghost var next := nextAction;
        ghost var heads := nextActionVehicle;
        var plan;
        if |taskVehicle[i]| > 0 {
          plan := NaivePlan(vehicles[i], taskVehicle[i]);
        } else {
          plan := Empty;
        }
        SharesLinkedStep(next, heads, nextAction, nextActionVehicle, vehicles, taskVehicle, tasks, i);
        forall m | 0 <= m < numVehicles && m != i ensures Head(nextActionVehicle, vehicles[m]) == Head(heads, vehicles[m]) {
          assert vehicles[m] != vehicles[i];
        }
        SharePlansSnoc(vehicles, taskVehicle, i);
        plans := plans + [plan];
        i := i + 1;
      }
    }

    /**
     * Distributes the tasks round robin over the fleet, skipping vehicles
     * too small for a task, and gives each vehicle the naive plan of its
     * share, `Plan.EMPTY` for an empty one. Where the source throws, `ok`
     * is false and nothing has changed.
     */
    method InitSolutionMultiple(tasks: seq<Task>) returns (ok: bool)
      requires TaskSet(tasks) && FleetDistinct(vehicles)
      modifies this
      ensures ok <==> Distribution(vehicles, tasks).Some?
      ensures !ok ==> plans == old(plans) && nextAction == old(nextAction) && nextActionVehicle == old(nextActionVehicle)
      ensures ok ==>
        var shares := Shares(|vehicles|, tasks, Distribution(vehicles, tasks).value);
        && plans == old(plans) + SharePlans(vehicles, shares, |vehicles|)
        && SharesLinked(nextAction, nextActionVehicle, vehicles, shares, |vehicles|)
        && (forall i :: 0 <= i < |vehicles| && shares[i] == [] ==>
              Head(nextActionVehicle, vehicles[i]) == Head(old(nextActionVehicle), vehicles[i]))
        && forall x: Action :: x.task !in tasks ==> Succ(nextAction, x) == Succ(old(nextAction), x)
      ensures ok && (forall i :: 0 <= i < |vehicles| ==> Head(old(nextActionVehicle), vehicles[i]) == None) ==>
        && chains == seq(|vehicles|, i requires 0 <= i < |vehicles| =>
             NaiveChain(Shares(|vehicles|, tasks, Distribution(vehicles, tasks).value)[i]))
        && Valid()
    {
      var taskVehicle;
      ok, taskVehicle := DistributeTasks(tasks);
      if !ok {
        return;
      }
      ghost var a := Distribution(vehicles, tasks).value;
      assert taskVehicle == Shares(|vehicles|, tasks, a);
      SharesPartition(|vehicles|, tasks, a);
      PlanShares(tasks, taskVehicle);
      var numVehicles := |vehicles|;
      chains := seq(numVehicles, m requires 0 <= m < numVehicles => NaiveChain(taskVehicle[m]));
      if forall m :: 0 <= m < numVehicles ==> Head(old(nextActionVehicle), vehicles[m]) == None {
        forall m | 0 <= m < numVehicles
          ensures Linked(nextAction, Head(nextActionVehicle, vehicles[m]), chains[m])
        {
          if taskVehicle[m] == [] {
            assert chains[m] == [];
          }
        }
      }
    }

    /** A copy with the same plans and maps; the copy is a new object. */
    method Clone() returns (A: Solution)
      ensures fresh(A)
      ensures A.vehicles == vehicles && A.plans == plans && A.actionVehicle == actionVehicle
      ensures A.nextAction == nextAction && A.nextActionVehicle == nextActionVehicle
      ensures A.chains == chains
      ensures Valid() ==> A.Valid()
    {
      A := new Solution(vehicles);
      A.plans := [];
      var k := 0;
      while k < |plans|
        invariant k <= |plans| && A.plans == plans[..k]
        modifies A
      {
        A.plans := A.plans + [plans[k]];
        k := k + 1;
      }
      assert plans[..k] == plans;
      A.actionVehicle := actionVehicle;
      A.nextAction := nextAction;
      A.nextActionVehicle := nextActionVehicle;
      A.chains := chains;
    }

    /** Recomputes v's plan by walking its chain; only `plans[v.id]` changes. */
    method UpdatePlan(v: Vehicle, ghost i: nat)
      requires Valid() && i < |vehicles| && vehicles[i] == v && v.id < |plans|
      modifies this`plans
      ensures plans == old(plans)[v.id := ChainPlan(v, chains[i])]
    {
      var c := chains[i];
      var a := Head(nextActionVehicle, v);
      var steps: seq<Step> := [];
      var currentCity := v.home;
      ghost var k := 0;
      while a != None
        invariant k <= |c| && a == At(c, k) && plans == old(plans)
        invariant steps + RouteSteps(currentCity, c[k..]) == RouteSteps(v.home, c)
        decreases |c| - k
      {
        var x := a.value;
        RouteStep(currentCity, c, k, steps, RouteSteps(v.home, c));
        steps := steps + Leg(currentCity, x.City());
        currentCity := x.City();
        if x.Pickup? {
          steps := steps + [PickupStep(x.task)];
        } else {
          steps := steps + [DeliveryStep(x.task)];
        }
        a := Succ(nextAction, x);
        k := k + 1;
      }
      assert c[k..] == [] && RouteSteps(currentCity, []) == [];
      assert steps == steps + RouteSteps(currentCity, c[k..]);
      plans := plans[v.id := Route(v.home, steps)];
    }

    /** `totalCost(vehicles)`: the cost of the plans zipped with the given vehicles. */
    method TotalCost(dist: Distance, vehicles: seq<Vehicle>) returns (cost: nat)
      ensures cost == Plans.TotalCost(dist, vehicles, plans)
    {
      cost := 0;
      var k := 0;
      while k < |vehicles| && k < |plans|
        invariant k <= |vehicles| && k <= |plans|
        invariant cost + Plans.TotalCost(dist, vehicles[k..], plans[k..]) == Plans.TotalCost(dist, vehicles, plans)
      {
        assert vehicles[k..][1..] == vehicles[k + 1..] && plans[k..][1..] == plans[k + 1..];
        cost := cost + PlanDistance(dist, plans[k]) * vehicles[k].costPerKm;
        k := k + 1;
      }
    }

    /** The number of delivery steps over all plans. */
    method PrintNumberOfTasks() returns (n: nat)
      ensures n == TotalDeliveries(plans)
    {
      n := 0;
      var k := 0;
      while k < |plans|
        invariant k <= |plans| && n + TotalDeliveries(plans[k..]) == TotalDeliveries(plans)
      {
        assert plans[k..][1..] == plans[k + 1..];
        var steps := if plans[k].Empty? then [] else plans[k].steps;
        ghost var n0 := n;
        var m := 0;
        while m < |steps|
          invariant m <= |steps| && n + Deliveries(steps[m..]) == n0 + PlanDeliveries(plans[k])
        {
          assert steps[m..][1..] == steps[m + 1..];
          if steps[m].DeliveryStep? {
            n := n + 1;
          }
          m := m + 1;
        }
        k := k + 1;
      }
    }
  }
}

