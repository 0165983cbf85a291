/**
 * The deliberative agent's plan under construction. The class behind it is
 * not part of this model; only what the planner relies on is kept: a plan
 * is the city it has reached, its steps in order, and the distance
 * travelled so far.
 */
module CustomPlans {
  import opened Actions
  import Plans

  datatype Step = Travel(to: City) | PickupAt(task: Task) | DeliverAt(task: Task)

  datatype CustomPlan = CustomPlan(current: City, steps: seq<Step>, distance: nat)

  /** A fresh plan standing at the vehicle's city. */
  function Start(home: City): CustomPlan
  {
    CustomPlan(home, [], 0)
  }

  /** `appendMove`: travel to a neighbouring city, adding the distance to it. */
  function AppendMove(dist: Plans.Distance, p: CustomPlan, to: City): CustomPlan
  {
    CustomPlan(to, p.steps + [Travel(to)], p.distance + dist(p.current, to))
  }

  /** The step that picks up (pickup) or delivers (otherwise) a task. */
  function Handle(t: Task, pickup: bool): Step
  {
    if pickup then PickupAt(t) else DeliverAt(t)
  }

  /** `appendPickup` / `appendDelivery` for each task in turn. */
  function Appended(p: CustomPlan, ts: seq<Task>, pickup: bool): CustomPlan
  {
    if ts == [] then p
    else
      var n := |ts| - 1;
      var q := Appended(p, ts[..n], pickup);
      q.(steps := q.steps + [Handle(ts[n], pickup)])
  }

  /** Handling tasks adds exactly one step per task, in order, and neither moves the plan nor adds distance. */
  lemma {:induction false} AppendedSteps(p: CustomPlan, ts: seq<Task>, pickup: bool)
    ensures Appended(p, ts, pickup).current == p.current
    ensures Appended(p, ts, pickup).distance == p.distance
    ensures Appended(p, ts, pickup).steps == p.steps + seq(|ts|, k requires 0 <= k < |ts| => Handle(ts[k], pickup))
  {
    if ts != [] {
      var n := |ts| - 1;
      AppendedSteps(p, ts[..n], pickup);
    }
  }

  /** The tasks the steps pick up, with multiplicity. */
  function PickedUp(steps: seq<Step>): multiset<Task>
  {
    if steps == [] then multiset{}
    else
      var n := |steps| - 1;
      PickedUp(steps[..n]) + if steps[n].PickupAt? then multiset{steps[n].task} else multiset{}
  }

  /** The tasks the steps deliver, with multiplicity. */
  function DroppedOff(steps: seq<Step>): multiset<Task>
  {
    if steps == [] then multiset{}
    else
      var n := |steps| - 1;
      DroppedOff(steps[..n]) + if steps[n].DeliverAt? then multiset{steps[n].task} else multiset{}
  }

  /** One more step adds at most its own task to what is picked up or delivered. */
  lemma CountsSnoc(steps: seq<Step>, x: Step)
    ensures PickedUp(steps + [x]) == PickedUp(steps) + if x.PickupAt? then multiset{x.task} else multiset{}
    ensures DroppedOff(steps + [x]) == DroppedOff(steps) + if x.DeliverAt? then multiset{x.task} else multiset{}
  {
    assert (steps + [x])[..|steps|] == steps;
  }

  /** A move picks up and delivers nothing. */
  lemma MoveCounts(dist: Plans.Distance, p: CustomPlan, to: City)
    ensures PickedUp(AppendMove(dist, p, to).steps) == PickedUp(p.steps)
    ensures DroppedOff(AppendMove(dist, p, to).steps) == DroppedOff(p.steps)
  {
    CountsSnoc(p.steps, Travel(to));
  }

  /** The tasks of ts with a last task added, as a multiset. */
  lemma MultisetSnoc(ts: seq<Task>)
    requires ts != []
    ensures multiset(ts) == multiset(ts[..|ts| - 1]) + multiset{ts[|ts| - 1]}
  {
    assert ts == ts[..|ts| - 1] + [ts[|ts| - 1]];
  }

  /** Appending pickups of ts picks up exactly the tasks of ts more; appending deliveries picks up nothing more. */
  lemma {:induction false} AppendedPickedUp(p: CustomPlan, ts: seq<Task>, pickup: bool)
    ensures PickedUp(Appended(p, ts, pickup).steps) == PickedUp(p.steps) + if pickup then multiset(ts) else multiset{}
  {
    if ts != [] {
      var n := |ts| - 1;
      var q := Appended(p, ts[..n], pickup);
      AppendedPickedUp(p, ts[..n], pickup);
      CountsSnoc(q.steps, Handle(ts[n], pickup));
      MultisetSnoc(ts);
    }
  }

  /** Appending deliveries of ts delivers exactly the tasks of ts more; appending pickups delivers nothing more. */
  lemma {:induction false} AppendedDroppedOff(p: CustomPlan, ts: seq<Task>, pickup: bool)
    ensures DroppedOff(Appended(p, ts, pickup).steps) == DroppedOff(p.steps) + if pickup then multiset{} else multiset(ts)
  {
    if ts != [] {
      var n := |ts| - 1;
      var q := Appended(p, ts[..n], pickup);
      AppendedDroppedOff(p, ts[..n], pickup);
      CountsSnoc(q.steps, Handle(ts[n], pickup));
      MultisetSnoc(ts);
    }
  }

  /** Appending pickups (deliveries) of ts picks up (delivers) exactly the tasks of ts more, and nothing else. */
  lemma AppendedCounts(p: CustomPlan, ts: seq<Task>, pickup: bool)
    ensures PickedUp(Appended(p, ts, pickup).steps) == PickedUp(p.steps) + if pickup then multiset(ts) else multiset{}
    ensures DroppedOff(Appended(p, ts, pickup).steps) == DroppedOff(p.steps) + if pickup then multiset{} else multiset(ts)
  {
    AppendedPickedUp(p, ts, pickup);
    AppendedDroppedOff(p, ts, pickup);
  }
}
