/**
 * The auction agent's stochastic local search (5-auction/src/template/SLS.java):
 * it keeps the solution for the tasks won so far (`best`) and the one that
 * would result from also winning the task on auction (`potential`), and
 * improves solutions by moving tasks between and within vehicles. The
 * random generator and the clock are replaced by explicit draws: the
 * shuffled vehicle order and one `Draw` per search round.
 */
module Sls {
  import opened Wrappers
  import opened Actions
  import opened Chains
  import opened Feasibility
  import opened Plans
  import opened Moves
  import opened AuctionSolution
  import opened SlsState

  class SLS {
    const vehicles: seq<Vehicle>
    /** The topology's distances, `City.distanceTo`. */
    const dist: Distance
    var best: Solution
    var potential: Solution?

    /** The two solutions are sound for the fleet and carry a task, or are still blank. */
    ghost predicate Valid()
      reads this, best, potential
    {
      && Numbered(vehicles)
      && (Started(best, vehicles) || Blank(best, vehicles))
      && (potential != null ==> Started(potential, vehicles) || Blank(potential, vehicles))
    }

    /** Both solutions start blank. */
    constructor (vehicles: seq<Vehicle>, dist: Distance)
      requires Numbered(vehicles)
      ensures this.vehicles == vehicles && this.dist == dist
      ensures potential != null && Blank(best, vehicles) && Blank(potential, vehicles)
      ensures Valid()
    {
      this.vehicles := vehicles;
      this.dist := dist;
      best := new Solution(vehicles);
      potential := new Solution(vehicles);
    }

    /**
     * The first half of changingVehicles: v's first action and the first
     * later action of the same task (its delivery) leave v's chain, whose
     * head becomes the next action.
     */
    static method UnlinkFirst(s: Solution, v: Vehicle, ghost i: nat) returns (delivery: Action)
      requires s.Valid() && Keyed(s.nextAction, s.chains) && Feasible(s.vehicles, s.chains) && Numbered(s.vehicles)
      requires i < |s.vehicles| && s.vehicles[i] == v && s.chains[i] != []
      modifies s
      ensures Delivery(old(s.chains[i][0]).task) in old(s.chains[i][1..])
      ensures delivery == Delivery(old(s.chains[i][0]).task)
      ensures s.chains == old(s.chains)[i := Remainder(old(s.chains[i]))]
      ensures s.Valid() && old(s.nextAction).Keys <= s.nextAction.Keys && s.plans == old(s.plans)
    {
      ghost var c := s.chains[i];
      ghost var next0 := s.nextAction;
      UnlinkRelinks(s.vehicles, next0, s.nextActionVehicle, s.chains, i);
      ghost var r := c[1..];
      ghost var m := TaskIndex(r, c[0].task);
      var pickup1 := Head(s.nextActionVehicle, v).value;
      var a := Succ(s.nextAction, pickup1).value;
      delivery := a;
      if a.task == pickup1.task {
        // delivered right away: the action after it heads the chain
        s.nextActionVehicle := s.nextActionVehicle[v := Succ(s.nextAction, a)];
      } else {
        s.nextActionVehicle := s.nextActionVehicle[v := Some(a)];
        a := WalkToDelivery(s.nextAction, a, pickup1.task, r);
        delivery := Succ(s.nextAction, a).value;
        assert a in next0 by {
          assert a == c[m] && a in s.chains[i];
        }
        s.nextAction := Replace(s.nextAction, a, Succ(s.nextAction, delivery));
      }
      s.chains := s.chains[i := Remainder(c)];
    }

    /**
     * The search loop of changingVehicles: walking the chain r from its
     * first action a, the action just before the first one of task t.
     */
    static method WalkToDelivery(next: NextMap, a: Action, t: Task, ghost r: seq<Action>) returns (before: Action)
      requires Linked(next, Some(a), r) && Delivery(t) in r && a.task != t
      ensures 0 < TaskIndex(r, t) && before == r[TaskIndex(r, t) - 1]
      ensures Succ(next, before) == Some(r[TaskIndex(r, t)])
    {
      ghost var m := TaskIndex(r, t);
      before := a;
      ghost var k := 0;
      var found := false;
      while !found
        invariant k < m && before == r[k]
        invariant found ==> k + 1 == m
        decreases m - k, if found then 0 else 1
      {
        var n := Succ(next, before).value;
        assert n == r[k + 1];
        if n.task == t {
          if k + 1 < m {
            TaskIndexFirst(r, t, k + 1);
          }
          found := true;
        } else {
          before := n;
          k := k + 1;
        }
      }
    }

    /**
     * The second half of changingVehicles: the pair goes in front of v's
     * chain, whose old head (`pickup2`, possibly null) follows the delivery.
     */
    static method LinkFront(s: Solution, v: Vehicle, ghost j: nat, pickup1: Action, delivery1: Action, pickup2: Option<Action>)
      requires s.Valid() && Numbered(s.vehicles) && j < |s.vehicles| && s.vehicles[j] == v
      requires pickup2 == Head(s.nextActionVehicle, v)
      requires pickup1 != delivery1 && pickup1 in s.nextAction && delivery1 in s.nextAction
      requires forall k :: 0 <= k < |s.chains| ==> pickup1 !in s.chains[k] && delivery1 !in s.chains[k]
      modifies s
      ensures s.chains == old(s.chains)[j := [pickup1, delivery1] + old(s.chains[j])]
      ensures s.Valid() && old(s.nextAction).Keys <= s.nextAction.Keys && s.plans == old(s.plans)
    {
      ghost var vs := s.vehicles;
      ghost var next0 := s.nextAction;
      ghost var cj := s.chains[j];
      if pickup2 == None {
        s.nextActionVehicle := s.nextActionVehicle[v := Some(pickup1)];
        s.nextAction := s.nextAction[pickup1 := Some(delivery1)][delivery1 := None];
      } else {
        s.nextActionVehicle := Replace(s.nextActionVehicle, v, Some(pickup1));
        s.nextAction := Replace(s.nextAction, pickup1, Some(delivery1));
        s.nextAction := Replace(s.nextAction, delivery1, pickup2);
      }
      LinkedPrepend(next0, pickup2, cj, pickup1, delivery1);
      s.chains := s.chains[j := [pickup1, delivery1] + cj];
      forall k | 0 <= k < |vs| && k != j ensures Head(s.nextActionVehicle, vs[k]) == Head(old(s.nextActionVehicle), vs[k]) {
        NumberedDistinct(vs, j, k);
      }
      RelinkOne(vs, next0, old(s.nextActionVehicle), old(s.chains), j, s.nextAction, s.nextActionVehicle, [pickup1, delivery1] + cj);
    }

    /**
     * changingVehicles: a copy of A in which v_i's first task has moved to
     * the front of v_j's chain, both plans recomputed; null when the task
     * is heavier than v_j's capacity.
     */
    method ChangingVehicles(A: Solution, vi: Vehicle, vj: Vehicle, ghost i: nat, ghost j: nat) returns (A1: Solution?)
      requires Numbered(vehicles) && Sound(A, vehicles)
      requires i < |vehicles| && j < |vehicles| && i != j && vehicles[i] == vi && vehicles[j] == vj
      requires A.chains[i] != []
      ensures A.chains[i][0].task.weight > vj.capacity ==> A1 == null
      ensures A.chains[i][0].task.weight <= vj.capacity ==>
        && Delivery(A.chains[i][0].task) in A.chains[i][1..]
        && A1 != null && fresh(A1) && Sound(A1, vehicles) && A1.chains == Transfer(A.chains, i, j)
    {
      var s := A.Clone();
      var pickup1 := Head(s.nextActionVehicle, vi).value;
      var pickup2 := Head(s.nextActionVehicle, vj);
      if pickup1.task.weight > vj.capacity {
        return null;
      }
      HeadPaired(vi.capacity, A.chains[i]);
      TransferFeasible(vehicles, A.chains, i, j);
      TransferCarried(vehicles, A.chains, i, j);
      MoveFirst(s, vi, vj, i, j, pickup1, pickup2);
      KeyedGrow(A.nextAction, s.nextAction, A.chains, s.chains);
      RecomputeTwo(s, A.chains, A.plans, vi, vj, i, j);
      A1 := s;
    }

    /** The relinking of changingVehicles on a copy s: v_i's first task moves to the front of v_j's chain. */
    static method MoveFirst(s: Solution, vi: Vehicle, vj: Vehicle, ghost i: nat, ghost j: nat, pickup1: Action, pickup2: Option<Action>)
      requires s.Valid() && Keyed(s.nextAction, s.chains) && Feasible(s.vehicles, s.chains) && Numbered(s.vehicles)
      requires i < |s.vehicles| && j < |s.vehicles| && i != j && s.vehicles[i] == vi && s.vehicles[j] == vj
      requires s.chains[i] != [] && pickup1 == s.chains[i][0] && pickup2 == Head(s.nextActionVehicle, vj)
      modifies s
      ensures Delivery(old(s.chains[i][0]).task) in old(s.chains[i][1..])
      ensures s.chains == Transfer(old(s.chains), i, j)
      ensures s.Valid() && old(s.nextAction).Keys <= s.nextAction.Keys && s.plans == old(s.plans)
    {
      ghost var chains0 := s.chains;
      HeadPaired(s.vehicles[i].capacity, chains0[i]);
      var delivery1 := UnlinkFirst(s, vi, i);
      assert pickup1 in chains0[i] && delivery1 in chains0[i];
      assert pickup1 in old(s.nextAction) && delivery1 in old(s.nextAction);
      RemainderFree(s.vehicles, chains0, i);
      assert Head(s.nextActionVehicle, vj) == pickup2;
      LinkFront(s, vj, j, pickup1, delivery1, pickup2);
    }

    /** The plans of v_i and v_j recomputed on s, whose other chains and plans are those of a sound solution. */
    static method RecomputeTwo(s: Solution, ghost chains0: seq<seq<Action>>, ghost plans0: seq<Plan>,
                               vi: Vehicle, vj: Vehicle, ghost i: nat, ghost j: nat)
      requires s.Valid() && Numbered(s.vehicles) && Keyed(s.nextAction, s.chains) && Feasible(s.vehicles, s.chains)
      requires i < |s.vehicles| && j < |s.vehicles| && s.vehicles[i] == vi && s.vehicles[j] == vj
      requires |chains0| == |s.vehicles| && s.plans == plans0 && |plans0| == |s.vehicles|
      requires forall k :: 0 <= k < |s.vehicles| && k != i && k != j ==> AgreeAt(s.vehicles, chains0, plans0, k)
      requires forall k :: 0 <= k < |s.vehicles| && k != i && k != j ==> s.chains[k] == chains0[k]
      modifies s`plans
      ensures Sound(s, s.vehicles) && s.chains == old(s.chains)
    {
      assert vi.id == i && vj.id == j;
      s.UpdatePlan(vi, i);
      s.UpdatePlan(vj, j);
      AgreeRecomputed(s.vehicles, chains0, plans0, s.chains, s.plans, i, j);
    }

    /**
     * One solution of changingOrder's inner loop: a copy of A1 whose
     * delivery is put right after aux2, the action at index e of v's chain
     * ca, with v's plan recomputed.
     */
    method DropAfter(A1: Solution, v: Vehicle, ghost i: nat, aux2: Action, drop: Action,
                     ghost chains0: seq<seq<Action>>, ghost ca: seq<Action>, ghost e: nat, ghost o: seq<Action>)
      returns (A2: Solution)
      requires Numbered(vehicles) && RowReady(A1, vehicles, chains0, i, ca) && vehicles[i] == v && Feasible(vehicles, chains0)
      requires e < |ca| && aux2 == ca[e] && drop !in ca
      requires o == ca[..e + 1] + [drop] + ca[e + 1..] && ChainOk(v.capacity, o) && Elems(o) == Elems(chains0[i])
      ensures fresh(A2) && Sound(A2, vehicles) && A2.chains == chains0[i := o]
    {
      A2 := A1.Clone();
      A2.nextAction := A2.nextAction[aux2 := Some(drop)];
      A2.nextAction := A2.nextAction[drop := Succ(A1.nextAction, aux2)];
      assert aux2 in Elems(o) && drop in Elems(o) by {
        assert o[e] == aux2 && o[e + 1] == drop;
      }
      OnlyOn(vehicles, chains0, i, aux2);
      OnlyOn(vehicles, chains0, i, drop);
      InsertRelinks(vehicles, A1.nextAction, A1.nextActionVehicle, A1.chains, i, e, drop);
      A2.chains := chains0[i := o];
      ReplaceFeasible(vehicles, chains0, i, o);
      KeyedGrow(A1.nextAction, A2.nextAction, chains0, A2.chains);
      A2.UpdatePlan(v, i);
      AgreeRecomputed(vehicles, chains0, A1.plans, A2.chains, A2.plans, i, i);
    }

    /**
     * The body of changingOrder's inner loop once the delivery fits after
     * aux2 = ca[e] (free, the free space after aux2, is non-negative): the
     * copy of A1 with drop placed there joins the solutions, and the places
     * still to come end in the same row.
     */
    method AddDrop(solutions: seq<Solution>, A1: Solution, v: Vehicle, ghost i: nat, aux2: Action, ghost pick: Action, drop: Action,
                   ghost chains0: seq<seq<Action>>, ghost rest: seq<Action>, ghost a: nat, ghost e: nat,
                   ghost free: int, ghost done: seq<seq<Action>>, ghost row: seq<seq<Action>>, ghost after: int, ghost all: seq<seq<Action>>)
      returns (solutions': seq<Solution>)
      requires RowSetting(A1, vehicles, i, pick, drop, chains0, rest, a, all) && vehicles[i] == v
      requires a <= e <= |rest| && aux2 == (rest[..a] + [pick] + rest[a..])[e]
      requires 0 <= free && Drops(rest, a, e, pick, drop, free, done) == row && RowEnds(rest, a, pick, drop, after, row, all)
      requires Offers(solutions, vehicles, Lift(chains0, i, done))
      ensures Offers(solutions', vehicles, Lift(chains0, i, done + [Place(rest, a, e, pick, drop)]))
      ensures e < |rest| ==> Drops(rest, a, e + 1, pick, drop, free + rest[e].Delta(), done + [Place(rest, a, e, pick, drop)]) == row
      ensures e == |rest| ==> done + [Place(rest, a, e, pick, drop)] == row
    {
      ghost var o := Place(rest, a, e, pick, drop);
      ghost var ca := rest[..a] + [pick] + rest[a..];
      DropsNext(rest, a, e, pick, drop, free, done, row, after, all);
      PlaceInsert(rest, a, e, pick, drop);
      var A2 := DropAfter(A1, v, i, aux2, drop, chains0, ca, e, o);
      OffersSnoc(solutions, vehicles, Lift(chains0, i, done), A2);
      LiftSnoc(chains0, i, done, o);
      solutions' := solutions + [A2];
    }

    /**
     * The inner loop of changingOrder for the pickup placed after rest[..a]
     * (in A1), with `capacity` the free space after rest[..a]: the delivery
     * goes after the pickup and then after each later action, until the
     * free space would be negative; the solutions found are added to those
     * found before.
     */
    method DropRow(solutions: seq<Solution>, A1: Solution, v: Vehicle, ghost i: nat, pick: Action, drop: Action, capacity: int,
                   ghost chains0: seq<seq<Action>>, ghost rest: seq<Action>, ghost a: nat,
                   ghost done0: seq<seq<Action>>, ghost after: int, ghost all: seq<seq<Action>>)
      returns (solutions': seq<Solution>)
      requires RowSetting(A1, vehicles, i, pick, drop, chains0, rest, a, all) && vehicles[i] == v
      requires RowEnds(rest, a, pick, drop, after, Drops(rest, a, a, pick, drop, capacity + pick.Delta(), done0), all)
      requires Offers(solutions, vehicles, Lift(chains0, i, done0))
      ensures Offers(solutions', vehicles, Lift(chains0, i, Drops(rest, a, a, pick, drop, capacity + pick.Delta(), done0)))
    {
      ghost var ca := rest[..a] + [pick] + rest[a..];
      RowShape(rest, a, pick);
      ghost var row := Drops(rest, a, a, pick, drop, capacity + pick.Delta(), done0);
      ghost var done := done0;
      ghost var e := a;
      ghost var free := capacity + pick.Delta();
      assert Linked(A1.nextAction, Head(A1.nextActionVehicle, vehicles[i]), ca);
      var auxCapacity := capacity;
      var aux2 := Some(pick);
      solutions' := solutions;
      while aux2 != None
        invariant a <= e <= |rest| + 1 && aux2 == At(ca, e)
        invariant e <= |rest| ==> free == auxCapacity + ca[e].Delta() && Drops(rest, a, e, pick, drop, free, done) == row
        invariant e == |rest| + 1 ==> done == row
        invariant Offers(solutions', vehicles, Lift(chains0, i, done))
        decreases |rest| + 1 - e
      {
        auxCapacity := auxCapacity + aux2.value.Delta();
        if auxCapacity < 0 {
          assert done == row;
          break;
        }
        ghost var o := Place(rest, a, e, pick, drop);
        solutions' := AddDrop(solutions', A1, v, i, aux2.value, pick, drop, chains0, rest, a, e, free, done, row, after, all);
        done := done + [o];
        aux2 := Succ(A1.nextAction, aux2.value);
        if e < |rest| {
          free := free + rest[e].Delta();
        }
        e := e + 1;
      }
    }

    /**
     * A11 of changingOrder: in a copy of A, v's chain [pick, d] + rest
     * starts at aux, the first action of rest.
     */
    static method HeadAfterPair(A11: Solution, v: Vehicle, ghost i: nat, aux: Action, ghost chains0: seq<seq<Action>>)
      requires Numbered(A11.vehicles) && Feasible(A11.vehicles, chains0) && i < |chains0|
      requires RowReady(A11, A11.vehicles, chains0, i, chains0[i])
      requires A11.vehicles[i] == v && |chains0[i]| >= 3 && aux == chains0[i][2]
      modifies A11
      ensures RowReady(A11, A11.vehicles, chains0, i, chains0[i][2..]) && A11.plans == old(A11.plans)
      ensures A11.nextAction == old(A11.nextAction)
    {
      OrderRelinks(A11.vehicles, A11.nextAction, A11.nextActionVehicle, chains0, i);
      A11.nextActionVehicle := A11.nextActionVehicle[v := Some(aux)];
      A11.chains := chains0[i := chains0[i][2..]];
    }

    /**
     * The first round of changingOrder: in A1, a copy of A, v's chain
     * [pick, d] + rest loses its delivery, so the pickup is followed by
     * aux, the first action of rest.
     */
    static method PickFirst(A1: Solution, v: Vehicle, ghost i: nat, pick: Action, aux: Action, ghost chains0: seq<seq<Action>>)
      requires Numbered(A1.vehicles) && Feasible(A1.vehicles, chains0) && i < |chains0|
      requires RowReady(A1, A1.vehicles, chains0, i, chains0[i])
      requires A1.vehicles[i] == v && |chains0[i]| >= 3 && pick == chains0[i][0] && aux == chains0[i][2]
      modifies A1
      ensures RowReady(A1, A1.vehicles, chains0, i, [pick] + chains0[i][2..]) && A1.plans == old(A1.plans)
    {
      ghost var vs := A1.vehicles;
      OrderRelinks(vs, A1.nextAction, A1.nextActionVehicle, chains0, i);
      KeyedGrow(A1.nextAction, A1.nextAction[pick := Some(aux)], chains0, chains0);
      A1.nextActionVehicle := A1.nextActionVehicle[v := Some(pick)];
      A1.nextAction := A1.nextAction[pick := Some(aux)];
      A1.chains := chains0[i := [pick] + chains0[i][2..]];
    }

    /**
     * A later round of changingOrder: a copy of A11, whose chain for v is
     * rest, with the pickup put after aux = rest[a - 1].
     */
    static method PickAfter(A11: Solution, v: Vehicle, ghost i: nat, pick: Action, aux: Action, follow: Option<Action>,
                            ghost chains0: seq<seq<Action>>, ghost rest: seq<Action>, ghost a: nat)
      returns (A1: Solution)
      requires Numbered(A11.vehicles) && RowReady(A11, A11.vehicles, chains0, i, rest) && Feasible(A11.vehicles, chains0)
      requires A11.vehicles[i] == v && |chains0[i]| >= 2 && chains0[i][2..] == rest && pick == chains0[i][0]
      requires 0 < a <= |rest| && aux == rest[a - 1] && follow == At(rest, a)
      ensures fresh(A1) && RowReady(A1, A11.vehicles, chains0, i, rest[..a] + [pick] + rest[a..]) && A1.plans == A11.plans
    {
      ghost var vs := A11.vehicles;
      ghost var c := chains0[i];
      A1 := A11.Clone();
      A1.nextAction := A1.nextAction[aux := Some(pick)];
      A1.nextAction := A1.nextAction[pick := follow];
      assert aux == c[a + 1] && c[0] == pick;
      OnlyOn(vs, chains0, i, pick);
      OnlyOn(vs, chains0, i, aux);
      assert pick !in rest by {
        assert Distinct(c);
        forall q | 0 <= q < |rest| ensures rest[q] != pick {
          assert rest[q] == c[q + 2];
        }
      }
      assert Linked(A11.nextAction, Head(A11.nextActionVehicle, vs[i]), rest);
      InsertRelinks(vs, A11.nextAction, A11.nextActionVehicle, A11.chains, i, a - 1, pick);
      assert rest[..a - 1 + 1] == rest[..a];
      A1.chains := chains0[i := rest[..a] + [pick] + rest[a..]];
      KeyedGrow(A11.nextAction, A1.nextAction, chains0, chains0);
    }

    /**
     * The head of one pass of changingOrder's outer loop over v's chain
     * [pick, d] + rest: pick goes in front of rest[a] (the first pass edits
     * A1 itself, later ones a copy of A11) and the free space moves past
     * rest[a - 1]. follow is the next aux.
     */
    static method PlacePick(A1: Solution, A11: Solution, v: Vehicle, ghost i: nat, next: NextMap, ghost head: Option<Action>,
                            pick: Action, aux: Action, capacity: int, pickFirst: bool,
                            ghost chains0: seq<seq<Action>>, ghost rest: seq<Action>, ghost a: nat)
      returns (B1: Solution, follow: Option<Action>, capacity': int)
      requires Numbered(A11.vehicles) && i < |chains0| == |A11.vehicles| && A11.vehicles[i] == v && Feasible(A11.vehicles, chains0)
      requires |chains0[i]| >= 2 && chains0[i][0] == pick && chains0[i][2..] == rest && Linked(next, head, chains0[i])
      requires 0 < |rest| && a <= |rest| && pickFirst == (a == 0)
      requires A1 != A11 && RowReady(A11, A11.vehicles, chains0, i, rest)
      requires a == 0 ==> aux == rest[0] && capacity == v.capacity && RowReady(A1, A11.vehicles, chains0, i, chains0[i])
      requires 0 < a ==> aux == rest[a - 1] && capacity == v.capacity + SumDelta(rest[..a - 1])
      modifies A1
      ensures B1 != A11 && (B1 == A1 || fresh(B1)) && (!pickFirst ==> unchanged(A1))
      ensures RowReady(B1, A11.vehicles, chains0, i, rest[..a] + [pick] + rest[a..])
      ensures follow == At(rest, a) && capacity' == v.capacity + SumDelta(rest[..a])
    {
      if pickFirst {
        PickFirst(A1, v, i, pick, aux, chains0);
        assert rest[..0] + [pick] + rest[0..] == [pick] + rest;
        assert rest[..0] == [];
        B1, follow, capacity' := A1, Some(aux), capacity;
      } else {
        follow := Succ(next, aux);
        FollowRest(next, head, chains0[i], a);
        B1 := PickAfter(A11, v, i, pick, aux, follow, chains0, rest, a);
        SumDeltaStep(rest, a - 1);
        capacity' := capacity + aux.Delta();
      }
    }

    /**
     * The tail of one pass of changingOrder's outer loop: the solutions
     * DropRow finds for the pickup in front of rest[a] are added to those of
     * the earlier passes, and the rows still to come end in all.
     */
    method AddRow(solutions: seq<Solution>, A1: Solution, v: Vehicle, ghost i: nat, pick: Action, drop: Action, capacity: int,
                  ghost chains0: seq<seq<Action>>, ghost rest: seq<Action>, ghost a: nat,
                  ghost done: seq<seq<Action>>, ghost all: seq<seq<Action>>)
      returns (solutions': seq<Solution>, ghost done': seq<seq<Action>>)
      requires Numbered(vehicles) && i < |vehicles| && vehicles[i] == v && Feasible(vehicles, chains0)
      requires chains0[i] == [pick, drop] + rest && a <= |rest|
      requires RowReady(A1, vehicles, chains0, i, rest[..a] + [pick] + rest[a..])
      requires forall o :: o in all ==> ChainOk(v.capacity, o) && Elems(o) == Elems(chains0[i])
      requires capacity == v.capacity + SumDelta(rest[..a]) && Rows(rest, a, pick, drop, capacity, done) == all
      requires Offers(solutions, vehicles, Lift(chains0, i, done))
      ensures a < |rest| ==> Rows(rest, a + 1, pick, drop, v.capacity + SumDelta(rest[..a + 1]), done') == all
      ensures a == |rest| ==> done' == all
      ensures Offers(solutions', vehicles, Lift(chains0, i, done'))
    {
      ghost var after := capacity;
      if a < |rest| {
        SumDeltaStep(rest, a);
        after := capacity + rest[a].Delta();
      }
      done' := Drops(rest, a, a, pick, drop, capacity + pick.Delta(), done);
      assert RowEnds(rest, a, pick, drop, after, done', all);
      RowFree(chains0[i], pick, drop, rest, a);
      solutions' := DropRow(solutions, A1, v, i, pick, drop, capacity, chains0, rest, a, done, after, all);
    }

    /**
     * The outer loop of changingOrder over v's chain [pick, drop] + rest,
     * from its first pass (A1 a copy of the solution, A11 a copy whose
     * chain for v is rest, first the first action of rest): the solutions
     * stand for the chains of Rows, in order.
     */
    method OrderRows(A1: Solution, A11: Solution, v: Vehicle, ghost i: nat, next: NextMap, ghost head: Option<Action>,
                     pick: Action, drop: Action, first: Action, ghost chains0: seq<seq<Action>>, ghost rest: seq<Action>)
      returns (solutions: seq<Solution>)
      requires Numbered(vehicles) && i < |vehicles| && vehicles[i] == v && Feasible(vehicles, chains0)
      requires chains0[i] == [pick, drop] + rest && Linked(next, head, chains0[i])
      requires 0 < |rest| && first == rest[0]
      requires A1 != A11 && RowReady(A11, vehicles, chains0, i, rest) && RowReady(A1, vehicles, chains0, i, chains0[i])
      requires forall o :: o in Rows(rest, 0, pick, drop, v.capacity, []) ==> ChainOk(v.capacity, o) && Elems(o) == Elems(chains0[i])
      modifies A1
      ensures Offers(solutions, vehicles, Lift(chains0, i, Rows(rest, 0, pick, drop, v.capacity, [])))
    {
      ghost var all := Rows(rest, 0, pick, drop, v.capacity, []);
      ghost var done: seq<seq<Action>> := [];
      var A1' := A1;
      var aux := Some(first);
      var capacity := v.capacity;
      var pickFirst := true;
      ghost var a := 0;
      solutions := [];
      assert rest[..0] == [];
      while aux != None
        invariant 0 <= a <= |rest| + 1 && pickFirst == (a == 0)
        invariant a == 0 ==> aux == At(rest, 0) && capacity == v.capacity
        invariant 0 < a ==> aux == At(rest, a - 1) && capacity == v.capacity + SumDelta(rest[..a - 1])
        invariant a <= |rest| ==> Rows(rest, a, pick, drop, v.capacity + SumDelta(rest[..a]), done) == all
        invariant a == |rest| + 1 ==> done == all
        invariant Offers(solutions, vehicles, Lift(chains0, i, done))
        invariant (A1' == A1 || fresh(A1')) && A1' != A11 && RowReady(A11, vehicles, chains0, i, rest)
        invariant a == 0 ==> A1' == A1 && RowReady(A1, vehicles, chains0, i, chains0[i]) && solutions == []
        decreases |rest| + 1 - a
      {
        A1', aux, capacity, solutions, done := OrderRow(A1', A11, v, i, next, head, pick, drop, aux.value, capacity,
                                                       pickFirst, chains0, rest, a, solutions, done, all);
        pickFirst := false;
        a := a + 1;
      }
    }

    /** One pass of the outer loop of changingOrder: place the pickup at position a, then add the row. */
    method OrderRow(A1: Solution, A11: Solution, v: Vehicle, ghost i: nat, next: NextMap, ghost head: Option<Action>,
                    pick: Action, drop: Action, aux: Action, capacity: int, pickFirst: bool,
                    ghost chains0: seq<seq<Action>>, ghost rest: seq<Action>, ghost a: nat,
                    solutions: seq<Solution>, ghost done: seq<seq<Action>>, ghost all: seq<seq<Action>>)
      returns (B1: Solution, follow: Option<Action>, capacity': int, solutions': seq<Solution>, ghost done': seq<seq<Action>>)
      requires Numbered(vehicles) && i < |vehicles| && vehicles[i] == v && Feasible(vehicles, chains0)
      requires chains0[i] == [pick, drop] + rest && Linked(next, head, chains0[i])
      requires 0 < |rest| && a <= |rest| && pickFirst == (a == 0)
      requires A1 != A11 && RowReady(A11, vehicles, chains0, i, rest)
      requires a == 0 ==> aux == rest[0] && capacity == v.capacity && RowReady(A1, vehicles, chains0, i, chains0[i]) && solutions == []
      requires 0 < a ==> aux == rest[a - 1] && capacity == v.capacity + SumDelta(rest[..a - 1])
      requires forall o :: o in all ==> ChainOk(v.capacity, o) && Elems(o) == Elems(chains0[i])
      requires Rows(rest, a, pick, drop, v.capacity + SumDelta(rest[..a]), done) == all
      requires Offers(solutions, vehicles, Lift(chains0, i, done))
      modifies A1
      ensures B1 != A11 && (B1 == A1 || fresh(B1))
      ensures follow == At(rest, a) && capacity' == v.capacity + SumDelta(rest[..a])
      ensures a < |rest| ==> Rows(rest, a + 1, pick, drop, v.capacity + SumDelta(rest[..a + 1]), done') == all
      ensures a == |rest| ==> done' == all
      ensures Offers(solutions', vehicles, Lift(chains0, i, done'))
    {
      B1, follow, capacity' := PlacePick(A1, A11, v, i, next, head, pick, aux, capacity, pickFirst, chains0, rest, a);
      solutions', done' := AddRow(solutions, B1, v, i, pick, drop, capacity', chains0, rest, a, done, all);
    }

    /**
     * changingOrder, with the running free space corrected: the solutions
     * in which the task heading v's chain (its pickup, then its delivery)
     * is put back at every pair of positions that keeps the load within
     * capacity, in the order the loops find them; none when the chain has
     * fewer than three actions.
     */
    method ChangingOrder(A: Solution, v: Vehicle, ghost i: nat) returns (solutions: seq<Solution>)
      requires Numbered(vehicles) && A.vehicles == vehicles && A.Valid() && Keyed(A.nextAction, A.chains)
      requires Feasible(vehicles, A.chains) && |A.plans| == |vehicles| && i < |vehicles| && vehicles[i] == v
      requires forall k :: 0 <= k < |vehicles| && k != i ==> AgreeAt(vehicles, A.chains, A.plans, k)
      requires |A.chains[i]| >= 2 ==> A.chains[i][1] == Delivery(A.chains[i][0].task)
      ensures Offers(solutions, vehicles, Lift(A.chains, i, Reorderings(A.chains[i], v.capacity)))
    {
      ghost var c := A.chains[i];
      solutions := [];
      var A1 := A.Clone();
      var A11 := A.Clone();
      var pick := Head(A.nextActionVehicle, v);
      var drop := Follow(A.nextAction, pick);
      var aux := Follow(A.nextAction, drop);
      ghost var head := Head(A.nextActionVehicle, vehicles[i]);
      assert Linked(A.nextAction, head, c);
      if c != [] {
        HeadPaired(v.capacity, c);
      }
      if aux == None {
        return;
      }
      assert c == [pick.value, drop.value] + c[2..];
      assert RowReady(A1, vehicles, A.chains, i, c);
      ReorderingsFeasible(v.capacity, c);
      HeadAfterPair(A11, v, i, aux.value, A.chains);
      solutions := OrderRows(A1, A11, v, i, A.nextAction, head, pick.value, drop.value, aux.value, A.chains, c[2..]);
    }

    // ------------------------------------------------------------ changeOneVehicle

    /** The actions of a linked chain, read off by walking it from its head. */
    static method ChainOf(next: NextMap, head: Option<Action>, ghost c: seq<Action>) returns (cs: seq<Action>)
      requires Linked(next, head, c)
      ensures cs == c
    {
      cs := [];
      var a := head;
      while a != None
        invariant |cs| <= |c| && cs == c[..|cs|] && a == At(c, |cs|)
        decreases |c| - |cs|
      {
        var x := a.value;
        assert x == c[|cs|];
        assert c[..|cs| + 1] == cs + [x];
        cs := cs + [x];
        a := Succ(next, x);
      }
      assert cs == c[..|c|] == c;
    }

    /**
     * The successor map with each action of o pointing to the next one of o
     * (`replace`, on keys that are all present); every other action keeps
     * its successor.
     */
    static method RelinkMap(next: NextMap, o: seq<Action>) returns (next': NextMap)
      requires Distinct(o) && forall x :: x in o ==> x in next
      ensures next'.Keys == next.Keys
      ensures forall n :: 0 <= n < |o| ==> Succ(next', o[n]) == At(o, n + 1)
      ensures forall x :: x !in o ==> Succ(next', x) == Succ(next, x)
    {
      next' := next;
      var k := 0;
      while k < |o|
        invariant k <= |o| && next'.Keys == next.Keys
        invariant forall n :: 0 <= n < k ==> Succ(next', o[n]) == At(o, n + 1)
        invariant forall x :: x !in o ==> Succ(next', x) == Succ(next, x)
      {
        forall n | 0 <= n < k ensures o[n] != o[k] {
          assert IndexOf(o, o[n]) == n && IndexOf(o, o[k]) == k;
        }
        next' := Replace(next', o[k], At(o, k + 1));
        k := k + 1;
      }
    }

    /**
     * Relinks v's chain on s into the order o of the same actions: v's head
     * becomes o's first action and each action of o points to the next one;
     * the successors of the other chains' actions are untouched.
     */
    static method Relink(s: Solution, v: Vehicle, ghost i: nat, o: seq<Action>)
      requires s.Valid() && Numbered(s.vehicles) && Keyed(s.nextAction, s.chains) && Feasible(s.vehicles, s.chains)
      requires i < |s.vehicles| && s.vehicles[i] == v
      requires Distinct(o) && Elems(o) == Elems(s.chains[i])
      modifies s
      ensures s.chains == old(s.chains)[i := o]
      ensures s.Valid() && s.nextAction.Keys == old(s.nextAction).Keys && s.plans == old(s.plans)
    {
      ghost var vs := s.vehicles;
      ghost var next0 := s.nextAction;
      ghost var heads0 := s.nextActionVehicle;
      forall x | x in o ensures x in next0 {
        assert x in Elems(s.chains[i]);
      }
      s.nextActionVehicle := s.nextActionVehicle[v := At(o, 0)];
      s.nextAction := RelinkMap(s.nextAction, o);
      forall n | 0 <= n < |vs| && n != i ensures Head(s.nextActionVehicle, vs[n]) == Head(heads0, vs[n]) {
        NumberedDistinct(vs, i, n);
      }
      forall n, x | 0 <= n < |vs| && n != i && x in s.chains[n] ensures Succ(s.nextAction, x) == Succ(next0, x) {
        assert x !in Elems(s.chains[i]);
      }
      RelinkOne(vs, next0, heads0, s.chains, i, s.nextAction, s.nextActionVehicle, o);
      s.chains := s.chains[i := o];
    }

    /**
     * One pickup of changeOneVehicle: a copy of A in which the pickup at
     * index q of v's chain and its delivery come first, then the solutions
     * changingOrder finds from that copy.
     */
    method FrontOrders(A: Solution, v: Vehicle, ghost i: nat, cs: seq<Action>, q: nat) returns (M: seq<Solution>)
      requires Numbered(vehicles) && Sound(A, vehicles) && i < |vehicles| && vehicles[i] == v
      requires cs == A.chains[i] && q < |cs| && cs[q].Pickup?
      ensures Delivery(cs[q].task) in cs[q + 1..]
      ensures Offers(M, vehicles, Lift(A.chains, i, Reorderings(Front(cs, q), v.capacity)))
    {
      FrontOk(v.capacity, cs, q);
      var o := Front(cs, q);
      var A1 := A.Clone();
      Relink(A1, v, i, o);
      ReplaceFeasible(vehicles, A.chains, i, o);
      KeyedGrow(A.nextAction, A1.nextAction, A.chains, A1.chains);
      assert A1.plans == A.plans;
      forall k | 0 <= k < |vehicles| && k != i ensures AgreeAt(vehicles, A1.chains, A1.plans, k) {
        assert AgreeAt(vehicles, A.chains, A.plans, k) && A1.chains[k] == A.chains[k];
      }
      M := ChangingOrder(A1, v, i);
      LiftReplace(A.chains, i, o, Reorderings(o, v.capacity));
    }

    /**
     * changeOneVehicle: for every pickup of v's chain, in chain order, the
     * reorderings of the chain with that task brought to the front.
     */
    method ChangeOneVehicle(A: Solution, v: Vehicle, ghost i: nat) returns (N: seq<Solution>)
      requires Numbered(vehicles) && Sound(A, vehicles) && i < |vehicles| && vehicles[i] == v
      ensures Offers(N, vehicles, Lift(A.chains, i, OneVehicle(A.chains[i], v.capacity, |A.chains[i]|)))
    {
      ghost var c := A.chains[i];
      var cs := ChainOf(A.nextAction, Head(A.nextActionVehicle, v), c);
      N := [];
      var pickup := Head(A.nextActionVehicle, v);
      var q := 0;
      while pickup != None
        invariant q <= |c| && pickup == At(c, q)
        invariant Offers(N, vehicles, Lift(A.chains, i, OneVehicle(c, v.capacity, q)))
        decreases |c| - q
      {
        var x := pickup.value;
        if x.Pickup? {
          var M := FrontOrders(A, v, i, cs, q);
          ghost var here := Reorderings(Front(c, q), v.capacity);
          LiftConcat(A.chains, i, OneVehicle(c, v.capacity, q), here);
          OffersConcat(N, M, vehicles, Lift(A.chains, i, OneVehicle(c, v.capacity, q)), Lift(A.chains, i, here));
          N := N + M;
        } else {
          assert OneVehicle(c, v.capacity, q + 1) == OneVehicle(c, v.capacity, q) + [];
        }
        pickup := Succ(A.nextAction, x);
        q := q + 1;
      }
    }

    // ------------------------------------------------------------ chooseNeighbors

    /** The indices, in fleet order, of the vehicles of A that have a first action. */
    static method UsedVehicles(A: Solution) returns (used: seq<nat>)
      requires A.Valid()
      ensures used == Used(A.chains, |A.chains|)
    {
      used := [];
      var k := 0;
      while k < |A.vehicles|
        invariant k <= |A.vehicles| && used == Used(A.chains, k)
      {
        if Head(A.nextActionVehicle, A.vehicles[k]) != None {
          used := used + [k];
        }
        k := k + 1;
      }
    }

    /**
     * One round of chooseNeighbors' loop over v_j: when v_j is not v_i and
     * can carry v_i's first task, the copy with that task moved to v_j,
     * then changingOrder's solutions for v_j from that copy.
     */
    method CandidatesFor(A: Solution, vi: Vehicle, vj: Vehicle, ghost i: nat, j: nat) returns (M: seq<Solution>)
      requires Numbered(vehicles) && Sound(A, vehicles)
      requires i < |vehicles| && j < |vehicles| && vehicles[i] == vi && vehicles[j] == vj
      requires A.chains[i] != [] && Delivery(A.chains[i][0].task) in A.chains[i][1..]
      ensures Offers(M, vehicles, CandidatesAt(vehicles, A.chains, i, j))
    {
      M := [];
      if vj != vi {
        var a := Head(A.nextActionVehicle, vi).value;
        if a.task.weight <= vj.capacity {
          var A1 := ChangingVehicles(A, vi, vj, i, j);
          var moved := Transfer(A.chains, i, j);
          OffersSnoc(M, vehicles, [], A1);
          M := M + [A1];
          var newN := ChangingOrder(A1, vj, j);
          OffersConcat(M, newN, vehicles, [moved], Lift(moved, j, Reorderings(moved[j], vj.capacity)));
          M := M + newN;
        }
      }
    }

    /**
     * chooseNeighbors: with a single vehicle, changeOneVehicle; otherwise
     * the vehicle `draw % |used|` among those with a task gives its first
     * task to every other vehicle that can carry it, each time followed by
     * changingOrder on the receiver. `thrown` stands for the exception of
     * `Random.nextInt(0)` when no vehicle has a task.
     */
    method ChooseNeighbors(A: Solution, draw: nat) returns (N: seq<Solution>, thrown: bool)
      requires Numbered(vehicles) && Sound(A, vehicles)
      ensures thrown <==> Neighbours(vehicles, A.chains, draw).None?
      ensures !thrown ==> Offers(N, vehicles, Neighbours(vehicles, A.chains, draw).value)
    {
      N := [];
      if |vehicles| == 1 {
        N := ChangeOneVehicle(A, vehicles[0], 0);
        return N, false;
      }
      var used := UsedVehicles(A);
      if |used| == 0 {
        return N, true;
      }
      var i := used[draw % |used|];
      HeadPaired(vehicles[i].capacity, A.chains[i]);
      N := CandidatesOf(A, vehicles[i], i);
      thrown := false;
    }

    /** chooseNeighbors' loop over v_j for the chosen vehicle v_i, which has a task. */
    method CandidatesOf(A: Solution, vi: Vehicle, i: nat) returns (N: seq<Solution>)
      requires Numbered(vehicles) && Sound(A, vehicles) && i < |vehicles| && vehicles[i] == vi
      requires A.chains[i] != [] && Delivery(A.chains[i][0].task) in A.chains[i][1..]
      ensures Offers(N, vehicles, Candidates(vehicles, A.chains, i, |vehicles|))
    {
      N := [];
      var j := 0;
      while j < |vehicles|
        invariant j <= |vehicles|
        invariant Offers(N, vehicles, Candidates(vehicles, A.chains, i, j))
      {
        ghost var before, at := Candidates(vehicles, A.chains, i, j), CandidatesAt(vehicles, A.chains, i, j);
        var M := CandidatesFor(A, vi, vehicles[j], i, j);
        OffersConcat(N, M, vehicles, before, at);
        assert Candidates(vehicles, A.chains, i, j + 1) == before + at;
        N := N + M;
        j := j + 1;
      }
    }

    // ------------------------------------------------------------ localChoice and findBestsolution

    /** `totalCost(vehicles)` of a solution. */
    ghost function CostOf(s: Solution): nat
      reads s
    {
      Plans.TotalCost(dist, vehicles, s.plans)
    }

    /** Index b holds the first of the cheapest solutions of N. */
    ghost predicate FirstMinimum(N: seq<Solution>, b: nat)
      reads N
    {
      && b < |N|
      && (forall k :: 0 <= k < |N| ==> CostOf(N[b]) <= CostOf(N[k]))
      && (forall k :: 0 <= k < b ==> CostOf(N[b]) < CostOf(N[k]))
    }

    /**
     * localChoice: the first cheapest neighbour when the coin says greedy
     * (`nextDouble() < p`), otherwise neighbour `pick % |N|`. `thrown`
     * stands for the exception of `neighbors.get(0)` on an empty list.
     */
    method LocalChoice(N: seq<Solution>, greedy: bool, pick: nat) returns (s: Solution?, thrown: bool)
      ensures thrown <==> N == []
      ensures !thrown ==> s != null && s in N
      ensures !thrown && greedy ==> exists b: nat :: FirstMinimum(N, b) && s == N[b]
      ensures !thrown && !greedy ==> s == N[pick % |N|]
    {
      if N == [] {
        return null, true;
      }
      var bestSolution := N[0];
      var bestCost := N[0].TotalCost(dist, vehicles);
      ghost var b := 0;
      var k := 0;
      while k < |N|
        invariant k <= |N| && b < |N| && b <= k && bestSolution == N[b] && bestCost == CostOf(N[b])
        invariant forall n :: 0 <= n < k ==> bestCost <= CostOf(N[n])
        invariant forall n :: 0 <= n < b ==> bestCost < CostOf(N[n])
      {
        var cost := N[k].TotalCost(dist, vehicles);
        if cost < bestCost {
          bestCost := cost;
          bestSolution := N[k];
          b := k;
        }
        k := k + 1;
      }
      thrown := false;
      if greedy {
        assert FirstMinimum(N, b);
        s := bestSolution;
      } else {
        s := N[pick % |N|];
      }
    }

    /**
     * findBestsolution with one round per draw: each round moves to a
     * neighbour chosen by localChoice, and the cheapest solution met is kept,
     * replaced only by a strictly cheaper one; `thrown` stands for the
     * exception that ends the search at a round that cannot move. On chains
     * this is Search from initSol's fleet, whose answer is the first cheapest
     * fleet of the Walk (SearchFirstLeast, SearchOnWalk, WalkWalked). Every
     * solution met carries the same tasks as initSol, and with no round
     * initSol itself is returned.
     */
    method FindBestSolution(initSol: Solution, draws: seq<Draw>) returns (bestSolution: Solution, thrown: bool)
      requires Numbered(vehicles) && Sound(initSol, vehicles)
      ensures Sound(bestSolution, vehicles) && Carried(bestSolution.chains) == Carried(initSol.chains)
      ensures (bestSolution.chains, thrown) == Search(dist, vehicles, initSol.chains, draws, initSol.chains)
      ensures CostOf(bestSolution) == FleetCost(dist, vehicles, bestSolution.chains)
      ensures bestSolution == initSol || CostOf(bestSolution) < CostOf(initSol)
      ensures draws == [] ==> bestSolution == initSol && !thrown
    {
      var bestCost := initSol.TotalCost(dist, vehicles);
      bestSolution := initSol;
      var current: Solution := initSol;
      thrown := false;
      SoundCost(dist, initSol, vehicles);
      ghost var answer := Search(dist, vehicles, initSol.chains, draws, initSol.chains);
      var rest := draws;
      while rest != []
        invariant |rest| <= |draws| && !thrown
        invariant Sound(current, vehicles) && Carried(current.chains) == Carried(initSol.chains)
        invariant Sound(bestSolution, vehicles) && Carried(bestSolution.chains) == Carried(initSol.chains)
        invariant bestCost == CostOf(bestSolution) == FleetCost(dist, vehicles, bestSolution.chains)
        invariant draws == [] ==> bestSolution == initSol
        invariant bestSolution == initSol || CostOf(bestSolution) < CostOf(initSol)
        invariant Search(dist, vehicles, current.chains, rest, bestSolution.chains) == answer
        decreases |rest|
      {
        ghost var from, best := current.chains, bestSolution.chains;
        var next, stuck := Round(current, rest[0]);
        if stuck {
          return bestSolution, true;
        }
        SearchStep(dist, vehicles, from, rest, best, next.chains);
        current := next;
        var cost := current.TotalCost(dist, vehicles);
        if cost < bestCost {
          bestCost := cost;
          bestSolution := current;
        }
        rest := rest[1..];
      }
    }

    /**
     * One round of findBestsolution: chooseNeighbors from the current
     * solution, then localChoice among the neighbours; on chains, Next.
     * `stuck` stands for the exception either throws when there is no
     * neighbour to take.
     */
    method Round(current: Solution, d: Draw) returns (next: Solution?, stuck: bool)
      requires Numbered(vehicles) && Sound(current, vehicles)
      ensures !stuck ==> next != null && Sound(next, vehicles) && CostOf(next) == FleetCost(dist, vehicles, next.chains)
      ensures Next(dist, vehicles, current.chains, d) == if stuck then None else Some(next.chains)
    {
      var N, noVehicle := ChooseNeighbors(current, d.vehicle);
      if noVehicle {
        return null, true;
      }
      ghost var fleets := Neighbours(vehicles, current.chains, d.vehicle).value;
      NeighboursFeasible(vehicles, current.chains, d.vehicle);
      var empty;
      next, empty := LocalChoice(N, d.greedy, d.neighbour);
      if empty {
        return null, true;
      }
      stuck := false;
      ChosenCarries(N, next, fleets, current.chains);
      ChoiceMoves(N, fleets, current.chains, d, next);
      SoundCost(dist, next, vehicles);
    }

    /**
     * What localChoice takes from chooseNeighbors' solutions is, on chains,
     * one round of the walk: the first cheapest fleet or the drawn one.
     */
    lemma ChoiceMoves(N: seq<Solution>, fleets: seq<seq<seq<Action>>>, chains: seq<seq<Action>>, d: Draw, next: Solution)
      requires Feasible(vehicles, chains) && Neighbours(vehicles, chains, d.vehicle) == Some(fleets)
      requires Offers(N, vehicles, fleets) && N != []
      requires d.greedy ==> exists b: nat :: FirstMinimum(N, b) && next == N[b]
      requires !d.greedy ==> next == N[d.neighbour % |N|]
      ensures Next(dist, vehicles, chains, d) == Some(next.chains)
    {
      forall k | 0 <= k < |N|
        ensures CostOf(N[k]) == FleetCost(dist, vehicles, fleets[k])
      {
        SoundCost(dist, N[k], vehicles);
      }
      if d.greedy {
        var b: nat :| FirstMinimum(N, b) && next == N[b];
        assert FirstCheapestFleet(dist, vehicles, fleets, b);
        FirstCheapestUnique(dist, vehicles, fleets, b, CheapestFleet(dist, vehicles, fleets));
      }
    }

    /** A solution taken from offered neighbours is sound and carries what the fleet they came from carries. */
    lemma ChosenCarries(N: seq<Solution>, s: Solution, fleets: seq<seq<seq<Action>>>, chains: seq<seq<Action>>)
      requires Offers(N, vehicles, fleets) && s in N
      requires forall f :: f in fleets ==> Feasible(vehicles, f) && Carried(f) == Carried(chains)
      ensures Sound(s, vehicles) && Carried(s.chains) == Carried(chains)
    {
      var k :| 0 <= k < |N| && N[k] == s;
      assert fleets[k] in fleets;
    }

    // ------------------------------------------------------------ build, addTask and consolidatePlan

    /** Whether no vehicle of s has a first action, i.e. s carries no task. */
    static method NoTasks(s: Solution) returns (empty: bool)
      requires s.Valid()
      ensures empty <==> forall k :: 0 <= k < |s.chains| ==> s.chains[k] == []
    {
      empty := true;
      var k := 0;
      while k < |s.vehicles|
        invariant k <= |s.vehicles|
        invariant empty <==> forall n :: 0 <= n < k ==> s.chains[n] == []
      {
        if Head(s.nextActionVehicle, s.vehicles[k]) != None {
          empty := false;
        }
        k := k + 1;
      }
    }

    /**
     * build's search for the first task's vehicle: among the vehicles that
     * can carry t, the first of the cheapest to drive home to pickup to
     * delivery; none when no vehicle can carry t.
     */
    static method Cheapest(dist: Distance, vs: seq<Vehicle>, t: Task) returns (b: Option<nat>)
      ensures b.Some? ==> FirstCheapest(dist, vs, t, b.value)
      ensures b.None? <==> forall k :: 0 <= k < |vs| ==> vs[k].capacity < t.weight
    {
      b := None;
      var minCost := 0;
      var k := 0;
      while k < |vs|
        invariant k <= |vs|
        invariant b.None? <==> forall n :: 0 <= n < k ==> vs[n].capacity < t.weight
        invariant b.Some? ==> b.value < k && t.weight <= vs[b.value].capacity && minCost == StartCost(dist, vs[b.value], t)
        invariant b.Some? ==> forall n :: 0 <= n < k && t.weight <= vs[n].capacity ==> minCost <= StartCost(dist, vs[n], t)
        invariant b.Some? ==> forall n :: 0 <= n < b.value && t.weight <= vs[n].capacity ==> minCost < StartCost(dist, vs[n], t)
      {
        var v := vs[k];
        if t.weight <= v.capacity {
          var cost := dist(v.home, t.pickupCity) * v.costPerKm + dist(t.pickupCity, t.deliveryCity) * v.costPerKm;
          if b.None? || cost < minCost {
            minCost := cost;
            b := Some(k);
          }
        }
        k := k + 1;
      }
    }

    /** build's walk over the shuffled vehicles: the first that can carry weight w. */
    static method FirstFit(vs: seq<Vehicle>, order: seq<nat>, w: nat) returns (j: Option<nat>)
      requires forall n :: 0 <= n < |order| ==> order[n] < |vs|
      ensures j == FirstCarrier(vs, order, w, 0)
    {
      j := None;
      var n := 0;
      while n < |order| && j.None?
        invariant n <= |order|
        invariant j.None? ==> FirstCarrier(vs, order, w, n) == FirstCarrier(vs, order, w, 0)
        invariant j.Some? ==> j == FirstCarrier(vs, order, w, 0)
      {
        if vs[order[n]].capacity >= w {
          j := Some(order[n]);
        }
        n := n + 1;
      }
    }

    /** The first task of an agent: a blank solution gets t's pair on v and nothing elsewhere. */
    static method StartSingle(s: Solution, v: Vehicle, ghost b: nat, t: Task)
      requires Numbered(s.vehicles) && Blank(s, s.vehicles)
      requires b < |s.vehicles| && s.vehicles[b] == v && t.weight <= v.capacity
      modifies s
      ensures Started(s, s.vehicles) && s.chains == SingleChains(s.vehicles, v, t)
    {
      ghost var vs := s.vehicles;
      s.InitSolutionSingle(v, t);
      assert s.chains == SingleChains(vs, v, t);
      forall k | 0 <= k < |vs| && k != b ensures vs[k] != vs[b] {
        NumberedDistinct(vs, b, k);
      }
      SingleFeasible(vs, b, t);
      assert v in vs;
      assert forall k :: 0 <= k < |vs| ==> AgreeAt(vs, s.chains, s.plans, k);
    }

    /**
     * The splice of build: t's pickup, then its delivery, then v's old first
     * action, all by `put`; only the successors of the two new actions and
     * v's head change.
     */
    static method LinkNew(s: Solution, v: Vehicle, ghost j: nat, t: Task)
      requires s.Valid() && Numbered(s.vehicles) && j < |s.vehicles| && s.vehicles[j] == v
      requires forall k :: 0 <= k < |s.chains| ==> Pickup(t) !in s.chains[k] && Delivery(t) !in s.chains[k]
      modifies s
      ensures s.chains == AddFront(old(s.chains), j, t)
      ensures s.Valid() && s.nextAction.Keys == old(s.nextAction).Keys + {Pickup(t), Delivery(t)} && s.plans == old(s.plans)
    {
      ghost var vs := s.vehicles;
      ghost var next0 := s.nextAction;
      ghost var heads0 := s.nextActionVehicle;
      ghost var cj := s.chains[j];
      var prevPickup := Head(s.nextActionVehicle, v);
      var pickup := Pickup(t);
      var delivery := Delivery(t);
      s.nextActionVehicle := s.nextActionVehicle[v := Some(pickup)];
      s.nextAction := s.nextAction[pickup := Some(delivery)];
      s.nextAction := s.nextAction[delivery := prevPickup];
      LinkedPrepend(next0, prevPickup, cj, pickup, delivery);
      forall k | 0 <= k < |vs| && k != j ensures Head(s.nextActionVehicle, vs[k]) == Head(heads0, vs[k]) {
        NumberedDistinct(vs, j, k);
      }
      RelinkOne(vs, next0, heads0, s.chains, j, s.nextAction, s.nextActionVehicle, [pickup, delivery] + cj);
      s.chains := AddFront(s.chains, j, t);
    }

    /**
     * build's step for a solution that already has tasks: t goes in front of
     * v's chain and v's plan is recomputed.
     */
    static method AddFirst(s: Solution, v: Vehicle, ghost j: nat, t: Task)
      requires Sound(s, s.vehicles) && Numbered(s.vehicles) && j < |s.vehicles| && s.vehicles[j] == v
      requires t.weight <= v.capacity && Pickup(t) !in Carried(s.chains) && Delivery(t) !in Carried(s.chains)
      modifies s
      ensures Sound(s, s.vehicles) && s.chains == AddFront(old(s.chains), j, t)
      ensures Carried(s.chains) == Carried(old(s.chains)) + {Pickup(t), Delivery(t)}
    {
      ghost var vs := s.vehicles;
      ghost var chains0 := s.chains;
      ghost var plans0 := s.plans;
      ghost var next0 := s.nextAction;
      LinkNew(s, v, j, t);
      AddFeasible(vs, chains0, j, t);
      forall k, x | 0 <= k < |s.chains| && x in s.chains[k] ensures x in s.nextAction {
        if x != Pickup(t) && x != Delivery(t) {
          assert x in Elems(s.chains[k]);
          assert x in chains0[k];
        }
      }
      assert v.id == j;
      s.UpdatePlan(v, j);
      forall k | 0 <= k < |vs| ensures AgreeAt(vs, s.chains, s.plans, k) {
        if k != j {
          assert AgreeAt(vs, chains0, plans0, k);
        }
      }
    }

    /**
     * build, with the bootstrap taken when the solution carries no task:
     * potential starts as a copy of best. The first task goes to the first
     * cheapest vehicle that can carry it; a later one goes in front of the
     * first vehicle of the shuffled order that can carry it, and the search
     * then improves that solution. potential is null when no vehicle can
     * carry the task; `thrown` stands for an exception of the search, which
     * leaves potential as spliced.
     */
    method Build(task: Task, order: seq<nat>, draws: seq<Draw>) returns (thrown: bool)
      requires Valid()
      requires Pickup(task) !in Carried(best.chains) && Delivery(task) !in Carried(best.chains)
      requires forall n :: 0 <= n < |order| ==> order[n] < |vehicles|
      requires forall k :: 0 <= k < |vehicles| ==> k in order
      modifies this
      ensures Valid() && best == old(best) && unchanged(best)
      ensures potential == null <==> forall k :: 0 <= k < |vehicles| ==> vehicles[k].capacity < task.weight
      ensures potential == null ==> !thrown
      ensures potential != null ==> Carried(potential.chains) == Carried(best.chains) + {Pickup(task), Delivery(task)}
      ensures potential != null && Carried(best.chains) == {} ==>
        exists b: nat :: FirstCheapest(dist, vehicles, task, b) && potential.chains == SingleChains(vehicles, vehicles[b], task)
      ensures Started(best, vehicles) ==> Extended(dist, vehicles, best.chains, order, task, draws) == if potential == null then None else Some((potential.chains, thrown))
    {
      ghost var started := Started(best, vehicles);
      potential, thrown := NewPotential(best, task, order, draws);
      assert Started(best, vehicles) == started;
    }

    /** The solution build computes from a copy of b, which it leaves untouched. */
    method NewPotential(b: Solution, task: Task, order: seq<nat>, draws: seq<Draw>) returns (p: Solution?, thrown: bool)
      requires Numbered(vehicles) && (Started(b, vehicles) || Blank(b, vehicles))
      requires Pickup(task) !in Carried(b.chains) && Delivery(task) !in Carried(b.chains)
      requires forall n :: 0 <= n < |order| ==> order[n] < |vehicles|
      requires forall k :: 0 <= k < |vehicles| ==> k in order
      ensures p == null <==> forall k :: 0 <= k < |vehicles| ==> vehicles[k].capacity < task.weight
      ensures p == null ==> !thrown
      ensures p != null ==> Started(p, vehicles) && Carried(p.chains) == Carried(b.chains) + {Pickup(task), Delivery(task)}
      ensures p != null && Carried(b.chains) == {} ==>
        exists k: nat :: FirstCheapest(dist, vehicles, task, k) && p.chains == SingleChains(vehicles, vehicles[k], task)
      ensures Started(b, vehicles) ==> Extended(dist, vehicles, b.chains, order, task, draws) == if p == null then None else Some((p.chains, thrown))
    {
      var s := b.Clone();
      var empty := NoTasks(s);
      CarriedNone(b.chains);
      thrown := false;
      if empty {
        assert Blank(s, vehicles) by {
          assert !Started(b, vehicles);
        }
        p := Bootstrap(s, task);
      } else {
        assert Sound(s, vehicles) by {
          assert Started(b, vehicles);
        }
        p, thrown := Extend(s, task, order, draws, Carried(b.chains));
      }
    }

    /** build's bootstrap on a blank copy s: the first task on the first cheapest vehicle that can carry it. */
    method Bootstrap(s: Solution, task: Task) returns (p: Solution?)
      requires Numbered(vehicles) && Blank(s, vehicles)
      modifies s
      ensures p == null <==> forall k :: 0 <= k < |vehicles| ==> vehicles[k].capacity < task.weight
      ensures p != null ==> p == s && Started(s, vehicles) && Carried(s.chains) == {Pickup(task), Delivery(task)}
      ensures p != null ==> exists b: nat :: FirstCheapest(dist, vehicles, task, b) && s.chains == SingleChains(vehicles, vehicles[b], task)
    {
      var b := Cheapest(dist, vehicles, task);
      if b.Some? {
        StartSingle(s, vehicles[b.value], b.value, task);
        SingleFeasible(vehicles, b.value, task);
        p := s;
      } else {
        p := null;
      }
    }

    /**
     * build on a copy s that has tasks: the task goes in front of the first
     * vehicle of the shuffled order that can carry it, then the search runs
     * from there; null when no vehicle can carry it.
     */
    method Extend(s: Solution, task: Task, order: seq<nat>, draws: seq<Draw>, ghost carried: set<Action>) returns (p: Solution?, thrown: bool)
      requires Numbered(vehicles) && Sound(s, vehicles) && Carried(s.chains) == carried
      requires Pickup(task) !in carried && Delivery(task) !in carried
      requires forall n :: 0 <= n < |order| ==> order[n] < |vehicles|
      requires forall k :: 0 <= k < |vehicles| ==> k in order
      modifies s
      ensures p == null <==> forall k :: 0 <= k < |vehicles| ==> vehicles[k].capacity < task.weight
      ensures p == null ==> !thrown
      ensures p != null ==> Started(p, vehicles) && Carried(p.chains) == carried + {Pickup(task), Delivery(task)}
      ensures Extended(dist, vehicles, old(s.chains), order, task, draws) == if p == null then None else Some((p.chains, thrown))
    {
      var j := FirstFit(vehicles, order, task.weight);
      FirstCarrierFound(vehicles, order, task.weight, 0);
      thrown := false;
      if j.Some? {
        AddFirst(s, vehicles[j.value], j.value, task);
        var found, failed := FindBestSolution(s, draws);
        thrown := failed;
        p := if failed then s else found;
      } else {
        forall k | 0 <= k < |vehicles| ensures vehicles[k].capacity < task.weight {
          assert k in order;
          var n :| 0 <= n < |order| && order[n] == k;
        }
        p := null;
      }
    }

    /**
     * addTask: the marginal cost of the task, potential's cost minus best's
     * cast to long, or Long.MAX_VALUE when no vehicle can carry it.
     */
    method AddTask(task: Task, order: seq<nat>, draws: seq<Draw>) returns (bid: int, thrown: bool)
      requires Valid()
      requires Pickup(task) !in Carried(best.chains) && Delivery(task) !in Carried(best.chains)
      requires forall n :: 0 <= n < |order| ==> order[n] < |vehicles|
      requires forall k :: 0 <= k < |vehicles| ==> k in order
      modifies this
      ensures Valid() && best == old(best) && unchanged(best)
      ensures !thrown && potential == null ==> bid == LONG_MAX
      ensures !thrown && potential != null ==> bid == ToLong(CostOf(potential) - CostOf(best))
    {
      thrown := Build(task, order, draws);
      bid := 0;
      if !thrown {
        bid := Bid(potential, best);
      }
    }

    /** The bid for a potential solution against the current best one. */
    method Bid(p: Solution?, b: Solution) returns (bid: int)
      ensures p == null ==> bid == LONG_MAX
      ensures p != null ==> bid == ToLong(CostOf(p) - CostOf(b))
    {
      if p != null {
        var potentialCost := p.TotalCost(dist, vehicles);
        var bestCost := b.TotalCost(dist, vehicles);
        bid := ToLong(potentialCost as int - bestCost as int);
      } else {
        bid := LONG_MAX;
      }
    }

    /**
     * consolidatePlan: best becomes a copy of potential; `thrown` stands for
     * the NullPointerException when no vehicle could carry the last task.
     */
    method ConsolidatePlan() returns (thrown: bool)
      requires Valid()
      modifies this
      ensures Valid() && potential == old(potential)
      ensures thrown <==> potential == null
      ensures thrown ==> best == old(best)
      ensures !thrown ==> fresh(best) && best.plans == potential.plans && best.chains == potential.chains
      ensures !thrown ==> best.nextAction == potential.nextAction && best.nextActionVehicle == potential.nextActionVehicle
    {
      if potential == null {
        return true;
      }
      best := potential.Clone();
      thrown := false;
    }
  }
}
