/**
 * The concrete per-vehicle plans (logist's Plan) that a Solution caches,
 * and their cost. Path finding is collapsed: travelling between two
 * different cities is one Move step to the destination, and the length of
 * a move is given by an abstract distance function.
 */
module Plans {
  import opened Actions

  /** One primitive step of a plan. */
  datatype Step = Move(to: City) | PickupStep(task: Task) | DeliveryStep(task: Task)

  /** A vehicle's plan: `Plan.EMPTY`, or a route from a start city. */
  datatype Plan = Empty | Route(start: City, steps: seq<Step>)

  /** Distance between two cities (Topology's `distanceTo`), as a whole number. */
  type Distance = (City, City) -> nat

  /** The moves from one city to another: none when already there. */
  function Leg(from: City, to: City): seq<Step>
  {
    if from == to then [] else [Move(to)]
  }

  /** The pickup or delivery step an action performs. */
  function ActionStep(a: Action): Step
  {
    if a.Pickup? then PickupStep(a.task) else DeliveryStep(a.task)
  }

  /** The steps of walking chain c from city `at`: move to each action's city, then act. */
  function RouteSteps(at: City, c: seq<Action>): seq<Step>
    decreases |c|
  {
    if c == [] then []
    else Leg(at, c[0].City()) + [ActionStep(c[0])] + RouteSteps(c[0].City(), c[1..])
  }

  /** One round of `updatePlan`'s walk keeps "steps so far, then the rest of the chain" equal to the whole walk. */
  lemma RouteStep(at: City, c: seq<Action>, k: nat, steps: seq<Step>, goal: seq<Step>)
    requires k < |c| && steps + RouteSteps(at, c[k..]) == goal
    ensures steps + Leg(at, c[k].City()) + [ActionStep(c[k])] + RouteSteps(c[k].City(), c[k + 1..]) == goal
  {
    assert c[k..][1..] == c[k + 1..];
    var leg, rest := Leg(at, c[k].City()), RouteSteps(c[k].City(), c[k + 1..]);
    assert RouteSteps(at, c[k..]) == leg + [ActionStep(c[k])] + rest;
    assert steps + leg + [ActionStep(c[k])] + rest == steps + (leg + [ActionStep(c[k])] + rest);
  }

  /** The plan `updatePlan` builds for vehicle v from its chain. */
  function ChainPlan(v: Vehicle, c: seq<Action>): Plan
  {
    Route(v.home, RouteSteps(v.home, c))
  }

  /** The non-move steps of a step sequence, in order. */
  function ActOnly(s: seq<Step>): seq<Step>
    decreases |s|
  {
    if s == [] then [] else (if s[0].Move? then [] else [s[0]]) + ActOnly(s[1..])
  }

  lemma {:induction false} ActionsConcat(a: seq<Step>, b: seq<Step>)
    ensures ActOnly(a + b) == ActOnly(a) + ActOnly(b)
    decreases |a|
  {
    if a == [] {
      assert a + b == b;
    } else {
      assert (a + b)[1..] == a[1..] + b;
      ActionsConcat(a[1..], b);
    }
  }

  /** The walk emits exactly one pickup or delivery step per action, in chain order. */
  lemma {:induction false} RouteStepsActions(at: City, c: seq<Action>)
    ensures ActOnly(RouteSteps(at, c)) == seq(|c|, k requires 0 <= k < |c| => ActionStep(c[k]))
    decreases |c|
  {
    if c != [] {
      var leg := Leg(at, c[0].City());
      ActionsConcat(leg + [ActionStep(c[0])], RouteSteps(c[0].City(), c[1..]));
      ActionsConcat(leg, [ActionStep(c[0])]);
      assert ActOnly(leg) == [];
      assert ActOnly([ActionStep(c[0])]) == [ActionStep(c[0])];
      RouteStepsActions(c[0].City(), c[1..]);
    }
  }

  /** Length of a step sequence started at `at`: the sum of its moves. */
  function StepsDistance(dist: Distance, at: City, s: seq<Step>): nat
    decreases |s|
  {
    if s == [] then 0
    else if s[0].Move? then dist(at, s[0].to) + StepsDistance(dist, s[0].to, s[1..])
    else StepsDistance(dist, at, s[1..])
  }

  /** `Plan.totalDistance()`; the empty plan has length 0. */
  function PlanDistance(dist: Distance, p: Plan): nat
  {
    if p.Empty? then 0 else StepsDistance(dist, p.start, p.steps)
  }

  /** A distance function that is 0 from a city to itself. */
  ghost predicate ZeroOnDiagonal(dist: Distance)
  {
    forall x: City :: dist(x, x) == 0
  }

  /** Sum over the travelled legs of a chain walked from `at`. */
  function ChainDistance(dist: Distance, at: City, c: seq<Action>): nat
    decreases |c|
  {
    if c == [] then 0 else dist(at, c[0].City()) + ChainDistance(dist, c[0].City(), c[1..])
  }

  lemma {:induction false} StepsDistanceConcat(dist: Distance, at: City, a: seq<Step>, b: seq<Step>)
    ensures StepsDistance(dist, at, a + b) == StepsDistance(dist, at, a) + StepsDistance(dist, EndCity(at, a), b)
    decreases |a|
  {
    if a == [] {
      assert a + b == b;
    } else {
      assert (a + b)[1..] == a[1..] + b;
      StepsDistanceConcat(dist, if a[0].Move? then a[0].to else at, a[1..], b);
    }
  }

  /** The city a step sequence started at `at` ends in. */
  function EndCity(at: City, s: seq<Step>): City
    decreases |s|
  {
    if s == [] then at else EndCity(if s[0].Move? then s[0].to else at, s[1..])
  }

  lemma {:induction false} RouteStepsEnd(at: City, c: seq<Action>)
    requires c != []
    ensures EndCity(at, RouteSteps(at, c)) == c[|c| - 1].City()
    decreases |c|
  {
    var leg := Leg(at, c[0].City());
    EndCityConcat(at, leg + [ActionStep(c[0])], RouteSteps(c[0].City(), c[1..]));
    EndCityConcat(at, leg, [ActionStep(c[0])]);
    if |c| > 1 {
      RouteStepsEnd(c[0].City(), c[1..]);
    }
  }

  lemma {:induction false} EndCityConcat(at: City, a: seq<Step>, b: seq<Step>)
    ensures EndCity(at, a + b) == EndCity(EndCity(at, a), b)
    decreases |a|
  {
    if a == [] {
      assert a + b == b;
    } else {
      assert (a + b)[1..] == a[1..] + b;
      EndCityConcat(if a[0].Move? then a[0].to else at, a[1..], b);
    }
  }

  /** With a zero self-distance, a plan's length is the sum of the legs its chain travels. */
  lemma {:induction false} RouteDistance(dist: Distance, at: City, c: seq<Action>)
    requires ZeroOnDiagonal(dist)
    ensures StepsDistance(dist, at, RouteSteps(at, c)) == ChainDistance(dist, at, c)
    decreases |c|
  {
    if c != [] {
      var leg := Leg(at, c[0].City());
      var head := leg + [ActionStep(c[0])];
      StepsDistanceConcat(dist, at, head, RouteSteps(c[0].City(), c[1..]));
      StepsDistanceConcat(dist, at, leg, [ActionStep(c[0])]);
      EndCityConcat(at, leg, [ActionStep(c[0])]);
      assert dist(at, at) == 0;
      assert StepsDistance(dist, at, leg) == dist(at, c[0].City());
      assert EndCity(at, head) == c[0].City();
      RouteDistance(dist, c[0].City(), c[1..]);
    }
  }

  /** `totalCost`: distance times cost per unit, over vehicles and plans zipped. */
  function TotalCost(dist: Distance, fleet: seq<Vehicle>, plans: seq<Plan>): nat
    decreases |fleet|
  {
    if fleet == [] || plans == [] then 0
    else PlanDistance(dist, plans[0]) * fleet[0].costPerKm + TotalCost(dist, fleet[1..], plans[1..])
  }

  /** One vehicle's term of the total cost. */
  function VehicleCost(dist: Distance, v: Vehicle, p: Plan): nat
  {
    PlanDistance(dist, p) * v.costPerKm
  }

  /** A fleet whose plans are all `Plan.EMPTY` costs nothing. */
  lemma {:induction false} TotalCostAllEmpty(dist: Distance, fleet: seq<Vehicle>, plans: seq<Plan>)
    requires forall k :: 0 <= k < |plans| ==> plans[k].Empty?
    ensures TotalCost(dist, fleet, plans) == 0
    decreases |fleet|
  {
    if fleet != [] && plans != [] {
      TotalCostAllEmpty(dist, fleet[1..], plans[1..]);
    }
  }

  /**
   * Replacing vehicle i's plan changes the total cost by exactly the
   * difference of that vehicle's terms; plans past the end of the fleet
   * are not counted.
   */
  lemma {:induction false} TotalCostUpdate(dist: Distance, fleet: seq<Vehicle>, plans: seq<Plan>, i: nat, p: Plan)
    requires i < |plans|
    ensures i < |fleet| ==>
      TotalCost(dist, fleet, plans[i := p]) + VehicleCost(dist, fleet[i], plans[i])
        == TotalCost(dist, fleet, plans) + VehicleCost(dist, fleet[i], p)
    ensures i >= |fleet| ==> TotalCost(dist, fleet, plans[i := p]) == TotalCost(dist, fleet, plans)
    decreases |fleet|
  {
    if fleet != [] {
      if i == 0 {
        assert plans[i := p][1..] == plans[1..];
      } else {
        assert plans[i := p][1..] == plans[1..][i - 1 := p];
        TotalCostUpdate(dist, fleet[1..], plans[1..], i - 1, p);
      }
    }
  }

  /** Number of delivery steps in a step sequence. */
  function Deliveries(s: seq<Step>): nat
    decreases |s|
  {
    if s == [] then 0 else (if s[0].DeliveryStep? then 1 else 0) + Deliveries(s[1..])
  }

  /** Number of deliveries in a plan; the empty plan has none. */
  function PlanDeliveries(p: Plan): nat
  {
    if p.Empty? then 0 else Deliveries(p.steps)
  }

  /** Number of deliveries over all plans. */
  function TotalDeliveries(plans: seq<Plan>): nat
    decreases |plans|
  {
    if plans == [] then 0 else PlanDeliveries(plans[0]) + TotalDeliveries(plans[1..])
  }

  /** Number of delivery actions in a chain. */
  function DeliveryActions(c: seq<Action>): nat
    decreases |c|
  {
    if c == [] then 0 else (if c[0].Delivery? then 1 else 0) + DeliveryActions(c[1..])
  }

  lemma {:induction false} DeliveriesConcat(a: seq<Step>, b: seq<Step>)
    ensures Deliveries(a + b) == Deliveries(a) + Deliveries(b)
    decreases |a|
  {
    if a == [] {
      assert a + b == b;
    } else {
      assert (a + b)[1..] == a[1..] + b;
      DeliveriesConcat(a[1..], b);
    }
  }

  /** A plan built from a chain delivers once per delivery action of the chain. */
  lemma {:induction false} RouteDeliveries(at: City, c: seq<Action>)
    ensures Deliveries(RouteSteps(at, c)) == DeliveryActions(c)
    decreases |c|
  {
    if c != [] {
      var leg := Leg(at, c[0].City());
      DeliveriesConcat(leg + [ActionStep(c[0])], RouteSteps(c[0].City(), c[1..]));
      DeliveriesConcat(leg, [ActionStep(c[0])]);
      assert Deliveries(leg) == 0;
      RouteDeliveries(c[0].City(), c[1..]);
    }
  }

  lemma {:induction false} DeliveryActionsConcat(a: seq<Action>, b: seq<Action>)
    ensures DeliveryActions(a + b) == DeliveryActions(a) + DeliveryActions(b)
    decreases |a|
  {
    if a == [] {
      assert a + b == b;
    } else {
      assert (a + b)[1..] == a[1..] + b;
      DeliveryActionsConcat(a[1..], b);
    }
  }

  lemma {:induction false} TotalDeliveriesSnoc(plans: seq<Plan>, p: Plan)
    ensures TotalDeliveries(plans + [p]) == TotalDeliveries(plans) + PlanDeliveries(p)
    decreases |plans|
  {
    if plans == [] {
      assert [] + [p] == [p];
      assert [p][1..] == [];
    } else {
      assert (plans + [p])[1..] == plans[1..] + [p];
      TotalDeliveriesSnoc(plans[1..], p);
    }
  }

  /** The city a walk over chain c from `at` ends in. */
  function ChainEnd(at: City, c: seq<Action>): City
  {
    if c == [] then at else c[|c| - 1].City()
  }

  /** Walking two chains one after the other is walking their concatenation. */
  lemma {:induction false} RouteStepsConcat(at: City, a: seq<Action>, b: seq<Action>)
    ensures RouteSteps(at, a + b) == RouteSteps(at, a) + RouteSteps(ChainEnd(at, a), b)
    decreases |a|
  {
    if a == [] {
      assert a + b == b;
    } else {
      assert (a + b)[1..] == a[1..] + b;
      RouteStepsConcat(a[0].City(), a[1..], b);
      assert a[1..] != [] ==> a[1..][|a[1..]| - 1] == a[|a| - 1];
    }
  }

  /** The steps of the chain [pickup, delivery] of one task, spelled out. */
  lemma PairRoute(home: City, t: Task)
    ensures RouteSteps(home, [Pickup(t), Delivery(t)])
      == Leg(home, t.pickupCity) + [PickupStep(t)] + Leg(t.pickupCity, t.deliveryCity) + [DeliveryStep(t)]
  {
    var c := [Pickup(t), Delivery(t)];
    assert c[1..] == [Delivery(t)] && c[1..][1..] == [];
    assert RouteSteps(t.pickupCity, c[1..]) == Leg(t.pickupCity, t.deliveryCity) + [DeliveryStep(t)] + RouteSteps(t.deliveryCity, []);
  }
}
