/**
 * The auction agent's Solution: per-vehicle action chains stored as a
 * successor map plus a head per vehicle, and the plans computed from them.
 */
module AuctionSolution {
  import opened Wrappers
  import opened Actions
  import opened Chains
  import opened Plans

  /** The plan `initSolutionSingle` gives vehicle u when v carries task t alone. */
  function SinglePlan(u: Vehicle, v: Vehicle, t: Task): Plan
  {
    if u == v then ChainPlan(v, [Pickup(t), Delivery(t)]) else Empty
  }

  /** `finalPlan`'s relabelling: a task is replaced by the one of the same id. */
  function Rename(intTask: map<nat, Task>, t: Task): Task
  {
    if t.id in intTask then intTask[t.id] else t
  }

  /** Steps with every task relabelled; moves are kept. */
  function Retask(intTask: map<nat, Task>, s: seq<Step>): (r: seq<Step>)
    ensures |r| == |s|
    decreases |s|
  {
    if s == [] then []
    else
      var x := match s[0]
        case Move(to) => Move(to)
        case PickupStep(t) => PickupStep(Rename(intTask, t))
        case DeliveryStep(t) => DeliveryStep(Rename(intTask, t));
      [x] + Retask(intTask, s[1..])
  }

  /** Relabelling tasks leaves a plan's length unchanged: the final plan costs what the cached plan costs. */
  lemma {:induction false} RetaskDistance(dist: Distance, intTask: map<nat, Task>, at: City, s: seq<Step>)
    ensures StepsDistance(dist, at, Retask(intTask, s)) == StepsDistance(dist, at, s)
    decreases |s|
  {
    if s != [] {
      var r := Retask(intTask, s);
      assert r[1..] == Retask(intTask, s[1..]);
      RetaskDistance(dist, intTask, if s[0].Move? then s[0].to else at, s[1..]);
    }
  }

  /** Relabelling tasks keeps the number of deliveries. */
  lemma {:induction false} RetaskDeliveries(intTask: map<nat, Task>, s: seq<Step>)
    ensures Deliveries(Retask(intTask, s)) == Deliveries(s)
    decreases |s|
  {
    if s != [] {
      var r := Retask(intTask, s);
      assert r[1..] == Retask(intTask, s[1..]);
      RetaskDeliveries(intTask, s[1..]);
    }
  }

  /** The head `initSolutionSingle` leaves for u once the vehicles in `seen` are done. */
  function InitHead(oldHeads: map<Vehicle, Option<Action>>, seen: seq<Vehicle>, v: Vehicle, t: Task, u: Vehicle): Option<Action>
  {
    if u == v && v in seen then Some(Pickup(t))
    else if u in seen then None
    else Head(oldHeads, u)
  }

  lemma InitHeadStep(oldHeads: map<Vehicle, Option<Action>>, heads: map<Vehicle, Option<Action>>, seen: seq<Vehicle>, v: Vehicle, t: Task, w: Vehicle)
    requires forall u :: Head(heads, u) == InitHead(oldHeads, seen, v, t, u)
    ensures var heads' := if w == v then heads[v := Some(Pickup(t))] else heads[w := None];
      forall u :: Head(heads', u) == InitHead(oldHeads, seen + [w], v, t, u)
  {
    var heads' := if w == v then heads[v := Some(Pickup(t))] else heads[w := None];
    forall u ensures Head(heads', u) == InitHead(oldHeads, seen + [w], v, t, u) {
      assert u in seen + [w] <==> u in seen || u == w;
      assert v in seen + [w] <==> v in seen || v == w;
      if u == w {
        assert u in heads';
      } else {
        assert Head(heads', u) == Head(heads, u);
      }
    }
  }

  lemma {:induction false} RetaskConcat(intTask: map<nat, Task>, a: seq<Step>, b: seq<Step>)
    ensures Retask(intTask, a + b) == Retask(intTask, a) + Retask(intTask, b)
    decreases |a|
  {
    if a != [] {
      assert (a + b)[1..] == a[1..] + b;
      RetaskConcat(intTask, a[1..], b);
    } else {
      assert a + b == b;
    }
  }

  /** One round of `finalPlan`'s walk: the leg to the action, then the relabelled action. */
  lemma FinalStep(intTask: map<nat, Task>, at: City, c: seq<Action>, k: nat)
    requires k < |c| && c[k].task.id in intTask
    ensures Retask(intTask, RouteSteps(at, c[k..]))
      == Leg(at, c[k].City())
       + [if c[k].Pickup? then PickupStep(intTask[c[k].task.id]) else DeliveryStep(intTask[c[k].task.id])]
       + Retask(intTask, RouteSteps(c[k].City(), c[k + 1..]))
  {
    var x := c[k];
    assert c[k..][1..] == c[k + 1..];
    var leg := Leg(at, x.City());
    var rest := RouteSteps(x.City(), c[k + 1..]);
    RetaskConcat(intTask, leg + [ActionStep(x)], rest);
    RetaskConcat(intTask, leg, [ActionStep(x)]);
    assert Retask(intTask, leg) == leg;
  }

  /** The walk's invariant survives one round: the steps so far plus the relabelled rest. */
  lemma WalkStep(intTask: map<nat, Task>, at: City, c: seq<Action>, k: nat, steps: seq<Step>, goal: seq<Step>)
    requires k < |c| && c[k].task.id in intTask
    requires steps + Retask(intTask, RouteSteps(at, c[k..])) == goal
    ensures steps + Leg(at, c[k].City())
      + [if c[k].Pickup? then PickupStep(intTask[c[k].task.id]) else DeliveryStep(intTask[c[k].task.id])]
      + Retask(intTask, RouteSteps(c[k].City(), c[k + 1..])) == goal
  {
    FinalStep(intTask, at, c, k);
  }

  /** `finalPlan`'s walk along the chain starting at `head`, from city `home`. */
  method WalkRenamed(next: NextMap, head: Option<Action>, home: City, intTask: map<nat, Task>, ghost c: seq<Action>)
    returns (steps: seq<Step>)
    requires Linked(next, head, c)
    requires forall x :: x in c ==> x.task.id in intTask
    ensures steps == Retask(intTask, RouteSteps(home, c))
  {
    ghost var goal := Retask(intTask, RouteSteps(home, c));
    var a := head;
    steps := [];
    var currentCity := home;
    ghost var k := 0;
    while a != None
      invariant k <= |c| && a == At(c, k)
      invariant steps + Retask(intTask, RouteSteps(currentCity, c[k..])) == goal
      decreases |c| - k
    {
      var x := a.value;
      assert x == c[k] && x in c;
      var tk := intTask[x.task.id];
      WalkStep(intTask, currentCity, c, k, steps, goal);
      steps := steps + Leg(currentCity, x.City()) + [if x.Pickup? then PickupStep(tk) else DeliveryStep(tk)];
      currentCity := x.City();
      a := Succ(next, x);
      k := k + 1;
    }
    assert k == |c| && c[k..] == [];
    assert Retask(intTask, RouteSteps(currentCity, c[k..])) == [];
  }

  class Solution {
    var plans: seq<Plan>
    const vehicles: seq<Vehicle>
    var nextAction: NextMap
    var nextActionVehicle: map<Vehicle, Option<Action>>
    /** The chain of each vehicle of the fleet, in fleet order. */
    ghost var chains: seq<seq<Action>>

    /** Every vehicle's head and the successor map spell out its chain. */
    ghost predicate Valid()
      reads this
    {
      && |chains| == |vehicles|
      && forall i :: 0 <= i < |vehicles| ==> Linked(nextAction, Head(nextActionVehicle, vehicles[i]), chains[i])
    }

    /** An empty solution for the fleet: no plans, no actions. */
    constructor (vehicles: seq<Vehicle>)
      ensures this.vehicles == vehicles && plans == []
      ensures nextAction == map[] && nextActionVehicle == map[]
      ensures chains == seq(|vehicles|, _ => []) && Valid()
    {
      this.vehicles := vehicles;
      plans := [];
      nextAction := map[];
      nextActionVehicle := map[];
      chains := seq(|vehicles|, _ => []);
    }

    /** Links pickup then delivery of t as v's whole chain and returns the matching plan. */
    method NaivePlan(v: Vehicle, t: Task) returns (plan: Plan)
      modifies this
      ensures nextActionVehicle == old(nextActionVehicle)[v := Some(Pickup(t))]
      ensures nextAction == old(nextAction)[Pickup(t) := Some(Delivery(t))][Delivery(t) := None]
      ensures plans == old(plans) && chains == old(chains)
      ensures plan == ChainPlan(v, [Pickup(t), Delivery(t)])
      ensures Linked(nextAction, Head(nextActionVehicle, v), [Pickup(t), Delivery(t)])
    {
      var lastAction := Delivery(t);
      var aux := Pickup(t);
      nextActionVehicle := nextActionVehicle[v := Some(aux)];
      nextAction := nextAction[aux := Some(lastAction)];
      nextAction := nextAction[lastAction := None];
      var steps := Leg(v.home, t.pickupCity);
      steps := steps + [PickupStep(t)];
      steps := steps + Leg(t.pickupCity, t.deliveryCity);
      steps := steps + [DeliveryStep(t)];
      plan := Route(v.home, steps);
      PairRoute(v.home, t);
    }
  
    /**
     * Gives v the chain [pickup, delivery] of t and every other vehicle an
     * empty chain, appending one plan per vehicle in fleet order.
     */
    method InitSolutionSingle(v: Vehicle, t: Task)
      modifies this
      ensures plans == old(plans) + seq(|vehicles|, k requires 0 <= k < |vehicles| => SinglePlan(vehicles[k], v, t))
      ensures v in vehicles ==> nextAction == old(nextAction)[Pickup(t) := Some(Delivery(t))][Delivery(t) := None]
      ensures v !in vehicles ==> nextAction == old(nextAction)
      ensures forall u :: Head(nextActionVehicle, u) == InitHead(old(nextActionVehicle), vehicles, v, t, u)
      ensures chains == seq(|vehicles|, k requires 0 <= k < |vehicles| => (if vehicles[k] == v then [Pickup(t), Delivery(t)] else []))
      ensures Valid()
    {
      var k := 0;
      while k < |vehicles|
        invariant k <= |vehicles|
        invariant plans == old(plans) + seq(k, j requires 0 <= j < k => SinglePlan(vehicles[j], v, t))
        invariant v in vehicles[..k] ==> nextAction == old(nextAction)[Pickup(t) := Some(Delivery(t))][Delivery(t) := None]
        invariant v !in vehicles[..k] ==> nextAction == old(nextAction)
        invariant forall u :: Head(nextActionVehicle, u) == InitHead(old(nextActionVehicle), vehicles[..k], v, t, u)
        invariant chains == old(chains)
      {
        var u := vehicles[k];
        assert vehicles[..k + 1] == vehicles[..k] + [u];
        assert v in vehicles[..k + 1] <==> v in vehicles[..k] || u == v;
        InitHeadStep(old(nextActionVehicle), nextActionVehicle, vehicles[..k], v, t, u);
        if u == v {
          var plan := NaivePlan(v, t);
          plans := plans + [plan];
        } else {
          plans := plans + [Empty];
          nextActionVehicle := nextActionVehicle[u := None];
        }
        k := k + 1;
      }
      assert vehicles[..k] == vehicles;
      chains := seq(|vehicles|, k requires 0 <= k < |vehicles| => (if vehicles[k] == v then [Pickup(t), Delivery(t)] else []));
      forall i | 0 <= i < |vehicles|
        ensures Linked(nextAction, Head(nextActionVehicle, vehicles[i]), chains[i])
      {
        if vehicles[i] == v {
          var c := [Pickup(t), Delivery(t)];
          assert Succ(nextAction, c[0]) == At(c, 1) && Succ(nextAction, c[1]) == At(c, 2);
        }
      }
    }

    /** A copy with its own plan list and maps over the same fleet. */
    method Clone() returns (A: Solution)
      ensures fresh(A)
      ensures A.vehicles == vehicles && A.plans == plans
      ensures A.nextAction == nextAction && A.nextActionVehicle == nextActionVehicle
      ensures A.chains == chains
      ensures Valid() ==> A.Valid()
    {
      A := new Solution(vehicles);
      A.plans := [];
      var k := 0;
      while k < |plans|
        invariant k <= |plans| && A.plans == plans[..k]
        modifies A
      {
        A.plans := A.plans + [plans[k]];
        k := k + 1;
      }
      assert plans[..k] == plans;
      A.nextAction := nextAction;
      A.nextActionVehicle := nextActionVehicle;
      A.chains := chains;
    }

    /** Recomputes v's plan by walking its chain; only `plans[v.id]` changes. */
    method UpdatePlan(v: Vehicle, ghost i: nat)
      requires Valid() && i < |vehicles| && vehicles[i] == v && v.id < |plans|
      modifies this`plans
      ensures plans == old(plans)[v.id := ChainPlan(v, chains[i])]
    {
      var c := chains[i];
      var a := Head(nextActionVehicle, v);
      var steps: seq<Step> := [];
      var currentCity := v.home;
      ghost var k := 0;
      while a != None
        invariant k <= |c| && a == At(c, k) && plans == old(plans)
        invariant steps + RouteSteps(currentCity, c[k..]) == RouteSteps(v.home, c)
        decreases |c| - k
      {
        var x := a.value;
        RouteStep(currentCity, c, k, steps, RouteSteps(v.home, c));
        steps := steps + Leg(currentCity, x.City());
        currentCity := x.City();
        if x.Pickup? {
          steps := steps + [PickupStep(x.task)];
        } else {
          steps := steps + [DeliveryStep(x.task)];
        }
        a := Succ(nextAction, x);
        k := k + 1;
      }
      assert c[k..] == [] && RouteSteps(currentCity, []) == [];
      assert steps == steps + RouteSteps(currentCity, c[k..]);
      plans := plans[v.id := Route(v.home, steps)];
    }

    /** Like `UpdatePlan`, with each task replaced by the task of the same id in `intTask`. */
    method FinalPlan(v: Vehicle, intTask: map<nat, Task>, ghost i: nat)
      requires Valid() && i < |vehicles| && vehicles[i] == v && v.id < |plans|
      requires forall x :: x in chains[i] ==> x.task.id in intTask
      modifies this`plans
      ensures plans == old(plans)[v.id := Route(v.home, Retask(intTask, RouteSteps(v.home, chains[i])))]
    {
      var steps := WalkRenamed(nextAction, Head(nextActionVehicle, v), v.home, intTask, chains[i]);
      plans := plans[v.id := Route(v.home, steps)];
    }

    /** `totalCost(vehicles)`: the cost of the plans zipped with the given vehicles. */
    method TotalCost(dist: Distance, vehicles: seq<Vehicle>) returns (cost: nat)
      ensures cost == Plans.TotalCost(dist, vehicles, plans)
    {
      cost := 0;
      var k := 0;
      while k < |vehicles| && k < |plans|
        invariant k <= |vehicles| && k <= |plans|
        invariant cost + Plans.TotalCost(dist, vehicles[k..], plans[k..]) == Plans.TotalCost(dist, vehicles, plans)
      {
        assert vehicles[k..][1..] == vehicles[k + 1..] && plans[k..][1..] == plans[k + 1..];
        cost := cost + PlanDistance(dist, plans[k]) * vehicles[k].costPerKm;
        k := k + 1;
      }
    }
  }
}
