/**
 * The local-search moves of the auction agent, stated on the chains
 * themselves: `changingVehicles` hands the first task of one vehicle to
 * another, `changingOrder` re-places the first pickup/delivery pair of a
 * chain, and `changeOneVehicle` brings each pair to the front before
 * re-placing it. Every move keeps the fleet feasible.
 */
module Moves {
  import opened Wrappers
  import opened Actions
  import opened Chains
  import opened Feasibility
  import opened FeasibilityLoad
  import opened PairSplice

  /**
   * The invariants of a fleet's chains: each chain is distinct, well paired
   * and within its vehicle's capacity, and no action is on two chains; so
   * every task appears on no chain or twice on exactly one.
   */
  ghost predicate Feasible(vs: seq<Vehicle>, chains: seq<seq<Action>>)
  {
    && |chains| == |vs|
    && (forall i :: 0 <= i < |chains| ==> ChainOk(vs[i].capacity, chains[i]))
    && forall i, j, x :: 0 <= i < |chains| && 0 <= j < |chains| && i != j && x in chains[i] ==> x !in chains[j]
  }

  /** The invariants of one chain for a vehicle of capacity cap. */
  ghost predicate ChainOk(cap: nat, c: seq<Action>)
  {
    Distinct(c) && WellPaired(c) && Fits(cap, c)
  }

  /** Each action of a feasible chain has its partner on the same chain. */
  lemma PartnerOnChain(cap: nat, c: seq<Action>, q: nat)
    requires ChainOk(cap, c) && q < |c|
    ensures c[q].Partner() in c
  {
    assert PickedBefore(c, q) && DeliveredAfter(c, q);
    if c[q].Pickup? {
      assert c[q].Partner() == Delivery(c[q].task);
    } else {
      assert c[q].Partner() == Pickup(c[q].task);
    }
  }

  /** An empty chain is feasible on any vehicle. */
  lemma EmptyChainOk(cap: nat)
    ensures ChainOk(cap, [])
  {
    var e: seq<Action> := [];
    assert e[..0] == e;
  }

  /** The chains of a fresh solution, all empty, are feasible for any fleet. */
  lemma EmptyFeasible(vs: seq<Vehicle>)
    ensures Feasible(vs, seq(|vs|, _ => []))
  {
    var chains: seq<seq<Action>> := seq(|vs|, _ => []);
    forall i | 0 <= i < |chains| ensures ChainOk(vs[i].capacity, chains[i]) {
      EmptyChainOk(vs[i].capacity);
    }
  }

  // ---------------------------------------------------------------- changingVehicles

  /** Index in r of the first action of task t: the walk of changingVehicles. */
  function TaskIndex(r: seq<Action>, t: Task): (k: nat)
    requires Delivery(t) in r
    ensures k < |r| && r[k].task == t
    decreases |r|
  {
    if r[0].task == t then 0 else 1 + TaskIndex(r[1..], t)
  }

  /** No action of task t comes before its first one. */
  lemma {:induction false} TaskIndexFirst(r: seq<Action>, t: Task, q: nat)
    requires Delivery(t) in r && q < TaskIndex(r, t)
    ensures r[q].task != t
    decreases |r|
  {
    if q > 0 {
      TaskIndexFirst(r[1..], t, q - 1);
    }
  }

  /** The first action of a feasible chain is a pickup, and its delivery follows it. */
  lemma HeadPaired(cap: nat, c: seq<Action>)
    requires ChainOk(cap, c) && c != []
    ensures c[0] == Pickup(c[0].task) && Delivery(c[0].task) in c[1..]
    ensures c[1..][TaskIndex(c[1..], c[0].task)] == Delivery(c[0].task)
  {
    assert PickedBefore(c, 0);
    assert DeliveredAfter(c, 0);
    var r := c[1..];
    var m := TaskIndex(r, c[0].task);
    assert r[m] != c[0] by {
      assert r[m] == c[m + 1];
    }
  }

  /**
   * `changingVehicles(A, v_i, v_j)` on chains: the first task of chain i,
   * its pickup and its delivery, leaves chain i (the rest keeps its order)
   * and becomes the first two actions of chain j.
   */
  function Transfer(chains: seq<seq<Action>>, i: nat, j: nat): seq<seq<Action>>
    requires i < |chains| && j < |chains| && chains[i] != [] && Delivery(chains[i][0].task) in chains[i][1..]
  {
    var c := chains[i];
    var r := c[1..];
    chains[i := Remainder(c)][j := [c[0], r[TaskIndex(r, c[0].task)]] + chains[j]]
  }

  /** A chain without its first action and the first later action of the same task. */
  function Remainder(c: seq<Action>): seq<Action>
    requires c != [] && Delivery(c[0].task) in c[1..]
  {
    var r := c[1..];
    var m := TaskIndex(r, c[0].task);
    r[..m] + r[m + 1..]
  }

  /** A chain with the pair of t at q and q + 1 + m is that pair spliced back into the chain without it. */
  lemma SpliceBack(c: seq<Action>, q: nat, m: nat, t: Task)
    requires q + 1 + m < |c| && c[q] == Pickup(t) && c[q + 1 + m] == Delivery(t)
    ensures var r := c[q + 1..]; var rest := c[..q] + r[..m] + r[m + 1..];
      |rest| + 2 == |c| && c == Splice(rest, q, q + m, t) && [Pickup(t), Delivery(t)] + rest == Splice(rest, 0, 0, t)
  {
    var r := c[q + 1..];
    var rest := c[..q] + r[..m] + r[m + 1..];
    assert rest[..q] == c[..q] && rest[q..q + m] == r[..m] && rest[q + m..] == r[m + 1..];
    assert r == r[..m] + [Delivery(t)] + r[m + 1..];
    assert c == c[..q] + [Pickup(t)] + r;
    assert rest[..0] == [] && rest[0..0] == [] && rest[0..] == rest;
  }

  /** A chain headed by t's pickup is t's pair spliced back into the chain without it. */
  lemma SpliceFront(c: seq<Action>, m: nat, t: Task)
    requires 1 + m < |c| && c[0] == Pickup(t) && c[1 + m] == Delivery(t)
    ensures var r := c[1..]; c == Splice(r[..m] + r[m + 1..], 0, m, t)
  {
    var r := c[1..];
    var rest := r[..m] + r[m + 1..];
    assert rest[..0] == [] && rest[0..m] == r[..m] && rest[m..] == r[m + 1..];
    assert r == r[..m] + [Delivery(t)] + r[m + 1..];
    assert c == [Pickup(t)] + r;
  }

  /** The chain left behind by Transfer, with the moved pair spliced back, is the old chain. */
  lemma TransferSplit(cap: nat, c: seq<Action>)
    requires ChainOk(cap, c) && c != []
    ensures Delivery(c[0].task) in c[1..]
    ensures var r := c[1..]; var m := TaskIndex(r, c[0].task);
      c == Splice(r[..m] + r[m + 1..], 0, m, c[0].task)
  {
    HeadPaired(cap, c);
    var m := TaskIndex(c[1..], c[0].task);
    assert c[1 + m] == c[1..][m];
    SpliceFront(c, m, c[0].task);
  }

  /** The chain left behind by Transfer is feasible and holds the old chain's actions but the moved pair. */
  lemma RemainderOk(cap: nat, c: seq<Action>)
    requires ChainOk(cap, c) && c != []
    ensures c[0] == Pickup(c[0].task) && Delivery(c[0].task) in c[1..]
    ensures c[1..][TaskIndex(c[1..], c[0].task)] == Delivery(c[0].task)
    ensures Pickup(c[0].task) in c && Delivery(c[0].task) in c
    ensures var t := c[0].task; var left := Remainder(c);
      && ChainOk(cap, left) && Pickup(t) !in left && Delivery(t) !in left
      && Elems(left) == Elems(c) - {Pickup(t), Delivery(t)}
  {
    var t := c[0].task;
    TransferSplit(cap, c);
    HeadPaired(cap, c);
    var r := c[1..];
    var m := TaskIndex(r, t);
    RemovePair(cap, c, Remainder(c), 0, m, t);
    assert c[0] == Pickup(t) && c[m + 1] == Delivery(t);
  }

  /** Putting a task's pair in front of a feasible chain without it keeps it feasible when the task fits. */
  lemma PrependOk(cap: nat, c: seq<Action>, t: Task)
    requires ChainOk(cap, c) && Pickup(t) !in c && Delivery(t) !in c && t.weight <= cap
    ensures ChainOk(cap, [Pickup(t), Delivery(t)] + c)
    ensures Elems([Pickup(t), Delivery(t)] + c) == Elems(c) + {Pickup(t), Delivery(t)}
  {
    assert [Pickup(t), Delivery(t)] + c == Splice(c, 0, 0, t) by {
      assert c[..0] == [] && c[0..0] == [] && c[0..] == c;
    }
    InsertPairShape(c, 0, 0, t);
    assert c[..0] == [];
    InsertPairFits(cap, c, 0, 0, t);
  }

  /** Moving the first task of chain i to the front of chain j keeps the fleet feasible when it fits v_j. */
  lemma TransferFeasible(vs: seq<Vehicle>, chains: seq<seq<Action>>, i: nat, j: nat)
    requires Feasible(vs, chains) && i < |vs| && j < |vs| && i != j && chains[i] != []
    requires chains[i][0].task.weight <= vs[j].capacity
    ensures Delivery(chains[i][0].task) in chains[i][1..]
    ensures Feasible(vs, Transfer(chains, i, j))
  {
    var c := chains[i];
    var t := c[0].task;
    RemainderOk(vs[i].capacity, c);
    var left := Remainder(c);
    var cj := chains[j];
    assert Pickup(t) !in cj && Delivery(t) !in cj;
    PrependOk(vs[j].capacity, cj, t);
    var chains' := Transfer(chains, i, j);
    assert chains'[i] == left && chains'[j] == [Pickup(t), Delivery(t)] + cj;
    forall a, b, x | 0 <= a < |chains'| && 0 <= b < |chains'| && a != b && x in chains'[a]
      ensures x !in chains'[b]
    {
      assert x in Elems(chains'[a]);
      if a == j {
        assert x in cj || x == Pickup(t) || x == Delivery(t);
        if b != i {
          assert x !in chains[b];
        }
      } else if a == i {
        assert x in Elems(c) && x != Pickup(t) && x != Delivery(t);
        assert x !in chains[b];
      } else {
        assert x !in chains[b];
        assert b == i ==> x !in Elems(c);
      }
    }
  }

  // ---------------------------------------------------------------- changingOrder

  /** The chain with pick at index a and drop at index e + 1, around rest[a..e]. */
  function Place(rest: seq<Action>, a: nat, e: nat, pick: Action, drop: Action): (c: seq<Action>)
    requires a <= e <= |rest|
    ensures |c| == |rest| + 2
  {
    rest[..a] + [pick] + rest[a..e] + [drop] + rest[e..]
  }

  /**
   * Where the inner loop of changingOrder stops when it reaches position e
   * with running free space `free`: at the first position whose free space
   * is negative, or past the last one.
   */
  function DropEnd(rest: seq<Action>, e: nat, free: int): (r: nat)
    requires e <= |rest|
    ensures e <= r <= |rest| + 1
    ensures r == e <==> free < 0
    decreases |rest| - e
  {
    if free < 0 then e
    else if e == |rest| then e + 1
    else DropEnd(rest, e + 1, free + rest[e].Delta())
  }

  /** The chains with the pickup at index a and the delivery after rest[e'] for e' = e .. stop - 1. */
  function Span(rest: seq<Action>, a: nat, e: nat, stop: nat, pick: Action, drop: Action): (os: seq<seq<Action>>)
    requires a <= e <= stop <= |rest| + 1
    ensures |os| == stop - e
  {
    seq(stop - e, k requires 0 <= k < stop - e => Place(rest, a, e + k, pick, drop))
  }

  /**
   * The inner loop of changingOrder for a fixed pickup position a: the
   * delivery goes after each action from the pickup on (position e), as
   * long as the running free space `free` after that action is
   * non-negative; the chains are appended to the list `acc` found so far.
   */
  function Drops(rest: seq<Action>, a: nat, e: nat, pick: Action, drop: Action, free: int, acc: seq<seq<Action>>): seq<seq<Action>>
    requires a <= e <= |rest|
  {
    acc + Span(rest, a, e, DropEnd(rest, e, free), pick, drop)
  }

  /** One step of the inner loop: it stops, or adds the chain with the delivery after rest[e] and goes on. */
  lemma DropsStep(rest: seq<Action>, a: nat, e: nat, pick: Action, drop: Action, free: int, acc: seq<seq<Action>>)
    requires a <= e <= |rest|
    ensures free < 0 ==> Drops(rest, a, e, pick, drop, free, acc) == acc
    ensures 0 <= free && e == |rest| ==> Drops(rest, a, e, pick, drop, free, acc) == acc + [Place(rest, a, e, pick, drop)]
    ensures 0 <= free && e < |rest| ==>
      Drops(rest, a, e, pick, drop, free, acc) == Drops(rest, a, e + 1, pick, drop, free + rest[e].Delta(), acc + [Place(rest, a, e, pick, drop)])
  {
    var stop := DropEnd(rest, e, free);
    if 0 <= free {
      var o := Place(rest, a, e, pick, drop);
      if e == |rest| {
        assert Span(rest, a, e, stop, pick, drop) == [o];
      } else {
        var tail := Span(rest, a, e + 1, stop, pick, drop);
        assert Span(rest, a, e, stop, pick, drop) == [o] + tail;
        assert (acc + [o]) + tail == acc + ([o] + tail);
      }
    }
  }

  /**
   * The outer loop of changingOrder, corrected: the pickup after rest[..a]
   * for a = 0 .. |rest|, with `free` the free space after rest[..a].
   */
  function Rows(rest: seq<Action>, a: nat, pick: Action, drop: Action, free: int, acc: seq<seq<Action>>): seq<seq<Action>>
    requires a <= |rest|
    decreases |rest| - a
  {
    var acc' := Drops(rest, a, a, pick, drop, free + pick.Delta(), acc);
    if a == |rest| then acc' else Rows(rest, a + 1, pick, drop, free + rest[a].Delta(), acc')
  }

  /**
   * The chains changingOrder offers for a chain c = [pick, drop] + rest on a
   * vehicle of capacity cap (corrected running free space), in the order
   * it finds them; none when c has fewer than three actions.
   */
  function Reorderings(c: seq<Action>, cap: nat): seq<seq<Action>>
  {
    if |c| < 3 then [] else Rows(c[2..], 0, c[0], c[1], cap, [])
  }

  /**
   * The outer loop of changingOrder as written, from its second round on:
   * round m puts the pickup after rest[m] and adds rest[m]'s delta.
   */
  function RowsAsWritten(rest: seq<Action>, m: nat, pick: Action, drop: Action, capacity: int, acc: seq<seq<Action>>): seq<seq<Action>>
    requires m <= |rest|
    decreases |rest| - m
  {
    if m == |rest| then acc
    else
      var capacity' := capacity + rest[m].Delta();
      RowsAsWritten(rest, m + 1, pick, drop, capacity', Drops(rest, m + 1, m + 1, pick, drop, capacity' + pick.Delta(), acc))
  }

  /**
   * changingOrder as written: the first round adds the pickup's delta to the
   * running value, and the inner loop adds it again; the position right
   * after rest[0] is never tried and rest[0]'s delta never counted.
   */
  function ReorderingsAsWritten(c: seq<Action>, cap: nat): seq<seq<Action>>
  {
    if |c| < 3 then []
    else
      var capacity := cap + c[0].Delta();
      RowsAsWritten(c[2..], 1, c[0], c[1], capacity, Drops(c[2..], 0, 0, c[0], c[1], capacity + c[0].Delta(), []))
  }

  /** The placements with the pair of task t are splices. */
  lemma PlaceSplice(rest: seq<Action>, a: nat, e: nat, t: Task)
    requires a <= e <= |rest|
    ensures Place(rest, a, e, Pickup(t), Delivery(t)) == Splice(rest, a, e, t)
  {
  }

  /** o is the pair of task t spliced into rest somewhere, within capacity cap. */
  ghost predicate SpliceOk(cap: nat, rest: seq<Action>, t: Task, o: seq<Action>)
  {
    && ChainOk(cap, o) && Elems(o) == Elems(rest) + {Pickup(t), Delivery(t)}
    && exists a, e :: 0 <= a <= e <= |rest| && o == Splice(rest, a, e, t)
  }

  /** A placement whose free space stays non-negative from pickup to delivery is a feasible splice. */
  lemma PlaceOk(cap: nat, rest: seq<Action>, a: nat, e: nat, t: Task, o: seq<Action>)
    requires a <= e <= |rest| && Distinct(rest) && WellPaired(rest) && Fits(cap, rest)
    requires Pickup(t) !in rest && Delivery(t) !in rest
    requires forall k :: a <= k <= e ==> cap + SumDelta(rest[..k]) - t.weight >= 0
    requires o == Place(rest, a, e, Pickup(t), Delivery(t))
    ensures SpliceOk(cap, rest, t, o)
  {
    PlaceSplice(rest, a, e, t);
    InsertPairShape(rest, a, e, t);
    InsertPairFits(cap, rest, a, e, t);
  }

  /** The inner loop stops at the first position where the free space after the pickup is negative. */
  lemma {:induction false} DropEndFree(rest: seq<Action>, e: nat, free: int, base: int)
    requires e <= |rest| && free == base + SumDelta(rest[..e])
    ensures forall k :: e <= k < DropEnd(rest, e, free) ==> base + SumDelta(rest[..k]) >= 0
    decreases |rest| - e
  {
    if 0 <= free && e < |rest| {
      SumDeltaStep(rest, e);
      DropEndFree(rest, e + 1, free + rest[e].Delta(), base);
    }
  }

  /**
   * The inner loop only adds splices of the pair at (a, e') for e' >= e
   * with free space non-negative from the pickup to the delivery.
   */
  lemma DropsFeasible(cap: nat, rest: seq<Action>, a: nat, e: nat, t: Task, free: int, acc: seq<seq<Action>>)
    requires a <= e <= |rest| && Distinct(rest) && WellPaired(rest) && Fits(cap, rest)
    requires Pickup(t) !in rest && Delivery(t) !in rest
    requires free == cap + SumDelta(rest[..e]) - t.weight
    requires forall k :: a <= k < e ==> cap + SumDelta(rest[..k]) - t.weight >= 0
    requires forall o :: o in acc ==> SpliceOk(cap, rest, t, o)
    ensures forall o :: o in Drops(rest, a, e, Pickup(t), Delivery(t), free, acc) ==> SpliceOk(cap, rest, t, o)
  {
    DropEndFree(rest, e, free, cap - t.weight);
    var os := Span(rest, a, e, DropEnd(rest, e, free), Pickup(t), Delivery(t));
    forall k | 0 <= k < |os| ensures SpliceOk(cap, rest, t, os[k]) {
      PlaceOk(cap, rest, a, e + k, t, os[k]);
    }
  }

  /** Every chain the corrected outer loop adds from position a on is feasible. */
  lemma {:induction false} RowsFeasible(cap: nat, rest: seq<Action>, a: nat, t: Task, free: int, acc: seq<seq<Action>>)
    requires a <= |rest| && Distinct(rest) && WellPaired(rest) && Fits(cap, rest)
    requires Pickup(t) !in rest && Delivery(t) !in rest
    requires free == cap + SumDelta(rest[..a])
    requires forall o :: o in acc ==> SpliceOk(cap, rest, t, o)
    ensures forall o :: o in Rows(rest, a, Pickup(t), Delivery(t), free, acc) ==> SpliceOk(cap, rest, t, o)
    decreases |rest| - a
  {
    DropsFeasible(cap, rest, a, a, t, free + Pickup(t).Delta(), acc);
    if a < |rest| {
      SumDeltaStep(rest, a);
      RowsFeasible(cap, rest, a + 1, t, free + rest[a].Delta(), Drops(rest, a, a, Pickup(t), Delivery(t), free + Pickup(t).Delta(), acc));
    }
  }

  /** A chain that starts with a pickup and its delivery is that pair spliced in front of the rest. */
  lemma FrontPair(cap: nat, c: seq<Action>)
    requires ChainOk(cap, c) && |c| >= 2 && c[1] == Delivery(c[0].task)
    ensures c[0] == Pickup(c[0].task) && c == Splice(c[2..], 0, 0, c[0].task)
    ensures ChainOk(cap, c[2..]) && Pickup(c[0].task) !in c[2..] && Delivery(c[0].task) !in c[2..]
    ensures Elems(c) == Elems(c[2..]) + {Pickup(c[0].task), Delivery(c[0].task)}
  {
    var t := c[0].task;
    HeadPaired(cap, c);
    var rest := c[2..];
    assert c == Splice(rest, 0, 0, t) by {
      assert rest[..0] == [] && rest[0..0] == [] && rest[0..] == rest;
    }
    RemovePair(cap, c, rest, 0, 0, t);
    SpliceElems(rest, 0, 0, t);
  }

  /**
   * changingOrder, corrected, only offers feasible chains: each keeps the
   * actions of the original chain and stays within capacity.
   */
  lemma ReorderingsFeasible(cap: nat, c: seq<Action>)
    requires ChainOk(cap, c) && |c| >= 2 && c[1] == Delivery(c[0].task)
    ensures forall o :: o in Reorderings(c, cap) ==> ChainOk(cap, o) && Elems(o) == Elems(c)
    ensures forall o :: o in Reorderings(c, cap) ==>
      exists a, e :: 0 <= a <= e <= |c| - 2 && o == Splice(c[2..], a, e, c[0].task)
  {
    if |c| >= 3 {
      FrontPair(cap, c);
      var rest := c[2..];
      assert rest[..0] == [];
      RowsFeasible(cap, rest, 0, c[0].task, cap, []);
      assert forall o :: o in Reorderings(c, cap) ==> SpliceOk(cap, rest, c[0].task, o);
    }
  }

  /** The inner loop keeps what was found before it. */
  lemma DropsKeeps(rest: seq<Action>, a: nat, e: nat, pick: Action, drop: Action, free: int, acc: seq<seq<Action>>)
    requires a <= e <= |rest|
    ensures forall x :: x in acc ==> x in Drops(rest, a, e, pick, drop, free, acc)
  {
  }

  /** The corrected outer loop keeps what was found before it. */
  lemma {:induction false} RowsKeeps(rest: seq<Action>, a: nat, pick: Action, drop: Action, free: int, acc: seq<seq<Action>>)
    requires a <= |rest|
    ensures forall x :: x in acc ==> x in Rows(rest, a, pick, drop, free, acc)
    decreases |rest| - a
  {
    var acc' := Drops(rest, a, a, pick, drop, free + pick.Delta(), acc);
    DropsKeeps(rest, a, a, pick, drop, free + pick.Delta(), acc);
    if a < |rest| {
      RowsKeeps(rest, a + 1, pick, drop, free + rest[a].Delta(), acc');
    }
  }

  /** The inner loop runs past every position up to which the free space stays non-negative. */
  lemma {:induction false} DropEndPast(rest: seq<Action>, e: nat, e': nat, free: int, base: int)
    requires e <= e' <= |rest| && free == base + SumDelta(rest[..e])
    requires forall k :: e <= k <= e' ==> base + SumDelta(rest[..k]) >= 0
    ensures e' < DropEnd(rest, e, free)
    decreases e' - e
  {
    if e < e' {
      SumDeltaStep(rest, e);
      DropEndPast(rest, e + 1, e', free + rest[e].Delta(), base);
    }
  }

  /**
   * Every delivery position from e on whose free space stays non-negative
   * up to it is offered by the inner loop.
   */
  lemma DropsComplete(cap: nat, rest: seq<Action>, a: nat, e: nat, e': nat, t: Task, free: int, acc: seq<seq<Action>>)
    requires a <= e <= e' <= |rest|
    requires free == cap + SumDelta(rest[..e]) - t.weight
    requires forall k :: e <= k <= e' ==> cap + SumDelta(rest[..k]) - t.weight >= 0
    ensures Splice(rest, a, e', t) in Drops(rest, a, e, Pickup(t), Delivery(t), free, acc)
  {
    DropEndPast(rest, e, e', free, cap - t.weight);
    var os := Span(rest, a, e, DropEnd(rest, e, free), Pickup(t), Delivery(t));
    PlaceSplice(rest, a, e', t);
    assert os[e' - e] == Splice(rest, a, e', t);
    assert (acc + os)[|acc| + e' - e] == os[e' - e];
  }

  /** Every placement at or after pickup position a that fits is offered by the outer loop. */
  lemma {:induction false} RowsComplete(cap: nat, rest: seq<Action>, a: nat, a': nat, e': nat, t: Task, free: int, acc: seq<seq<Action>>)
    requires a <= a' <= e' <= |rest|
    requires free == cap + SumDelta(rest[..a])
    requires forall k :: a' <= k <= e' ==> cap + SumDelta(rest[..k]) - t.weight >= 0
    ensures Splice(rest, a', e', t) in Rows(rest, a, Pickup(t), Delivery(t), free, acc)
    decreases a' - a
  {
    var acc' := Drops(rest, a, a, Pickup(t), Delivery(t), free + Pickup(t).Delta(), acc);
    if a == a' {
      DropsComplete(cap, rest, a, a, e', t, free + Pickup(t).Delta(), acc);
      if a < |rest| {
        RowsKeeps(rest, a + 1, Pickup(t), Delivery(t), free + rest[a].Delta(), acc');
      }
    } else {
      SumDeltaStep(rest, a);
      RowsComplete(cap, rest, a + 1, a', e', t, free + rest[a].Delta(), acc');
    }
  }

  /**
   * changingOrder, corrected, misses no feasible placement: every splice of
   * the front pair back into the rest that stays within capacity is offered.
   */
  lemma ReorderingsComplete(cap: nat, c: seq<Action>, a: nat, e: nat)
    requires |c| >= 3 && c[0] == Pickup(c[0].task) && c[1] == Delivery(c[0].task)
    requires a <= e <= |c| - 2 && Fits(cap, Splice(c[2..], a, e, c[0].task))
    ensures Splice(c[2..], a, e, c[0].task) in Reorderings(c, cap)
  {
    var t := c[0].task;
    var rest := c[2..];
    SplicedFits(cap, rest, a, e, t);
    assert rest[..0] == [];
    RowsComplete(cap, rest, 0, a, e, t, cap, []);
  }

  /** The outer loop as written keeps what was found before it. */
  lemma {:induction false} RowsAsWrittenKeeps(rest: seq<Action>, m: nat, pick: Action, drop: Action, capacity: int, acc: seq<seq<Action>>)
    requires m <= |rest|
    ensures forall x :: x in acc ==> x in RowsAsWritten(rest, m, pick, drop, capacity, acc)
    decreases |rest| - m
  {
    if m < |rest| {
      var capacity' := capacity + rest[m].Delta();
      DropsKeeps(rest, m + 1, m + 1, pick, drop, capacity' + pick.Delta(), acc);
      RowsAsWrittenKeeps(rest, m + 1, pick, drop, capacity', Drops(rest, m + 1, m + 1, pick, drop, capacity' + pick.Delta(), acc));
    }
  }

  /**
   * changingOrder as written can offer a chain over capacity: a vehicle of
   * capacity 10 with chain [P(t, 1), D(t), P(t0, 8), P(t1, 2), D(t0), D(t1)]
   * is offered [P(t0), P(t1), P(t), D(t), D(t0), D(t1)], whose free space is
   * -1 after its third action.
   */
  lemma AsWrittenOverCapacity()
    ensures var t, t0, t1 := Task(0, 0, 0, 1), Task(1, 0, 0, 8), Task(2, 0, 0, 2);
      var c := [Pickup(t), Delivery(t), Pickup(t0), Pickup(t1), Delivery(t0), Delivery(t1)];
      var o := [Pickup(t0), Pickup(t1), Pickup(t), Delivery(t), Delivery(t0), Delivery(t1)];
      && ChainOk(10, c)
      && o in ReorderingsAsWritten(c, 10)
      && !Fits(10, o)
  {
    var t, t0, t1 := Task(0, 0, 0, 1), Task(1, 0, 0, 8), Task(2, 0, 0, 2);
    var c := [Pickup(t), Delivery(t), Pickup(t0), Pickup(t1), Delivery(t0), Delivery(t1)];
    var o := [Pickup(t0), Pickup(t1), Pickup(t), Delivery(t), Delivery(t0), Delivery(t1)];
    var rest := c[2..];
    assert rest == [Pickup(t0), Pickup(t1), Delivery(t0), Delivery(t1)];
    // round m = 1 puts the pickup after rest[1] with running value 10 - 1 - 2 = 7
    var first := Drops(rest, 0, 0, c[0], c[1], 8, []);
    var row := Drops(rest, 2, 2, c[0], c[1], 6, first);
    assert Place(rest, 2, 2, c[0], c[1]) == o;
    DropsStep(rest, 2, 2, c[0], c[1], 6, first);
    DropsKeeps(rest, 2, 3, c[0], c[1], 6 + rest[2].Delta(), first + [o]);
    assert ReorderingsAsWritten(c, 10) == RowsAsWritten(rest, 2, c[0], c[1], 7, row);
    RowsAsWrittenKeeps(rest, 2, c[0], c[1], 7, row);
    assert o[..3] == [Pickup(t0), Pickup(t1), Pickup(t)];
    assert SumDelta(o[..3]) == -11 by {
      assert o[..3] == [Pickup(t0)] + [Pickup(t1)] + [Pickup(t)];
      SumDeltaConcat([Pickup(t0)] + [Pickup(t1)], [Pickup(t)]);
      SumDeltaConcat([Pickup(t0)], [Pickup(t1)]);
      SumDeltaSingle(Pickup(t0));
      SumDeltaSingle(Pickup(t1));
      SumDeltaSingle(Pickup(t));
    }
    assert !FitsAt(10, o, 3);
    assert ChainOk(10, c) by {
      CounterInputOk(t, t0, t1, c);
    }
  }

  /** The input of the counterexample is itself a feasible chain. */
  lemma CounterInputOk(t: Task, t0: Task, t1: Task, c: seq<Action>)
    requires t == Task(0, 0, 0, 1) && t0 == Task(1, 0, 0, 8) && t1 == Task(2, 0, 0, 2)
    requires c == [Pickup(t), Delivery(t), Pickup(t0), Pickup(t1), Delivery(t0), Delivery(t1)]
    ensures ChainOk(10, c)
  {
    var rest := [Pickup(t0), Pickup(t1), Delivery(t0), Delivery(t1)];
    CounterRestOk(t0, t1, rest);
    PrependOk(10, rest, t);
    assert c == [Pickup(t), Delivery(t)] + rest;
  }

  /** The counterexample's chain after its first pair is feasible. */
  lemma CounterRestOk(t0: Task, t1: Task, rest: seq<Action>)
    requires t0 == Task(1, 0, 0, 8) && t1 == Task(2, 0, 0, 2)
    requires rest == [Pickup(t0), Pickup(t1), Delivery(t0), Delivery(t1)]
    ensures ChainOk(10, rest)
  {
    var inner := [Pickup(t1), Delivery(t1)];
    var e: seq<Action> := [];
    EmptyChainOk(10);
    PrependOk(10, e, t1);
    assert inner == [Pickup(t1), Delivery(t1)] + e;
    assert rest == Splice(inner, 0, 1, t0);
    assert inner[..0] == [] && inner[..1] == [Pickup(t1)];
    assert SumDelta([Pickup(t1)]) == -2 by {
      assert [Pickup(t1)][..0] == [];
    }
    InsertPairShape(inner, 0, 1, t0);
    InsertPairFits(10, inner, 0, 1, t0);
  }

  /** Every chain the inner loop adds puts the pickup at index a. */
  lemma DropsFrom(rest: seq<Action>, a: nat, e: nat, pick: Action, drop: Action, free: int, acc: seq<seq<Action>>)
    requires a <= e <= |rest|
    ensures forall x :: x in Drops(rest, a, e, pick, drop, free, acc) ==>
      x in acc || exists e' :: a <= e' <= |rest| && x == Place(rest, a, e', pick, drop)
  {
    var sp := Span(rest, a, e, DropEnd(rest, e, free), pick, drop);
    forall x | x in acc + sp && x !in acc
      ensures exists e' :: a <= e' <= |rest| && x == Place(rest, a, e', pick, drop)
    {
      var k :| 0 <= k < |sp| && sp[k] == x;
      assert x == Place(rest, a, e + k, pick, drop);
    }
  }

  /**
   * Every chain the outer loop as written adds from round m on puts the
   * pickup after rest[m] or later.
   */
  lemma {:induction false} RowsAsWrittenFrom(rest: seq<Action>, m: nat, pick: Action, drop: Action, capacity: int, acc: seq<seq<Action>>)
    requires m <= |rest|
    ensures forall x :: x in RowsAsWritten(rest, m, pick, drop, capacity, acc) ==>
      x in acc || exists a', e' :: m < a' <= e' <= |rest| && x == Place(rest, a', e', pick, drop)
    decreases |rest| - m
  {
    if m < |rest| {
      var capacity' := capacity + rest[m].Delta();
      var acc' := Drops(rest, m + 1, m + 1, pick, drop, capacity' + pick.Delta(), acc);
      DropsFrom(rest, m + 1, m + 1, pick, drop, capacity' + pick.Delta(), acc);
      RowsAsWrittenFrom(rest, m + 1, pick, drop, capacity', acc');
    }
  }

  /**
   * changingOrder as written also misses a feasible placement: for the chain
   * of AsWrittenOverCapacity, putting the front pair right after P(t0) stays
   * within capacity 10, the corrected loop offers it, the loop as written
   * does not.
   */
  lemma AsWrittenMissesPlacement()
    ensures var t, t0, t1 := Task(0, 0, 0, 1), Task(1, 0, 0, 8), Task(2, 0, 0, 2);
      var c := [Pickup(t), Delivery(t), Pickup(t0), Pickup(t1), Delivery(t0), Delivery(t1)];
      var o := [Pickup(t0), Pickup(t), Delivery(t), Pickup(t1), Delivery(t0), Delivery(t1)];
      && ChainOk(10, c)
      && Fits(10, o)
      && o in Reorderings(c, 10)
      && o !in ReorderingsAsWritten(c, 10)
  {
    var t, t0, t1 := Task(0, 0, 0, 1), Task(1, 0, 0, 8), Task(2, 0, 0, 2);
    var c := [Pickup(t), Delivery(t), Pickup(t0), Pickup(t1), Delivery(t0), Delivery(t1)];
    var o := [Pickup(t0), Pickup(t), Delivery(t), Pickup(t1), Delivery(t0), Delivery(t1)];
    CounterInputOk(t, t0, t1, c);
    CorrectedOffersPlacement(t, t0, t1, c, o);
    AsWrittenNeverSecond(t, t0, t1, c);
    assert o[1] == Pickup(t);
  }

  /** On the counterexample, the corrected loop offers the front pair right after P(t0), within capacity. */
  lemma CorrectedOffersPlacement(t: Task, t0: Task, t1: Task, c: seq<Action>, o: seq<Action>)
    requires t == Task(0, 0, 0, 1) && t0 == Task(1, 0, 0, 8) && t1 == Task(2, 0, 0, 2)
    requires c == [Pickup(t), Delivery(t), Pickup(t0), Pickup(t1), Delivery(t0), Delivery(t1)]
    requires o == [Pickup(t0), Pickup(t), Delivery(t), Pickup(t1), Delivery(t0), Delivery(t1)]
    ensures Fits(10, o) && o in Reorderings(c, 10)
  {
    var rest := c[2..];
    assert rest == [Pickup(t0), Pickup(t1), Delivery(t0), Delivery(t1)];
    CounterInputOk(t, t0, t1, c);
    CounterRestOk(t0, t1, rest);
    assert Splice(rest, 1, 1, t) == o;
    assert rest[..1] == [Pickup(t0)];
    SumDeltaSingle(Pickup(t0));
    InsertPairFits(10, rest, 1, 1, t);
    ReorderingsComplete(10, c, 1, 1);
  }

  /** On the counterexample, the loop as written puts the front pickup first or after rest[1], never second. */
  lemma AsWrittenNeverSecond(t: Task, t0: Task, t1: Task, c: seq<Action>)
    requires t == Task(0, 0, 0, 1) && t0 == Task(1, 0, 0, 8) && t1 == Task(2, 0, 0, 2)
    requires c == [Pickup(t), Delivery(t), Pickup(t0), Pickup(t1), Delivery(t0), Delivery(t1)]
    ensures forall x :: x in ReorderingsAsWritten(c, 10) ==> |x| > 1 && x[1] != Pickup(t)
  {
    var rest := c[2..];
    assert rest == [Pickup(t0), Pickup(t1), Delivery(t0), Delivery(t1)];
    var capacity := 10 + c[0].Delta();
    var first := Drops(rest, 0, 0, c[0], c[1], capacity + c[0].Delta(), []);
    DropsFrom(rest, 0, 0, c[0], c[1], capacity + c[0].Delta(), []);
    RowsAsWrittenFrom(rest, 1, c[0], c[1], capacity, first);
    forall x | x in ReorderingsAsWritten(c, 10) ensures |x| > 1 && x[1] != Pickup(t) {
      if x in first {
        var e' :| 0 <= e' <= |rest| && x == Place(rest, 0, e', c[0], c[1]);
        assert x[1] == if e' == 0 then Delivery(t) else Pickup(t0);
      } else {
        var a', e' :| 1 < a' <= e' <= |rest| && x == Place(rest, a', e', c[0], c[1]);
        assert x[1] == Pickup(t1);
      }
    }
  }

  // ---------------------------------------------------------------- changeOneVehicle

  /** The chain without the pickup at index q and its delivery. */
  function FrontRest(c: seq<Action>, q: nat): seq<Action>
    requires q < |c| && Delivery(c[q].task) in c[q + 1..]
  {
    var r := c[q + 1..];
    var m := TaskIndex(r, c[q].task);
    c[..q] + r[..m] + r[m + 1..]
  }

  /**
   * changeOneVehicle's surgery for the pickup at index q: the pickup and its
   * delivery (the first later action of its task) become the first two
   * actions, the others keep their order.
   */
  function Front(c: seq<Action>, q: nat): seq<Action>
    requires q < |c| && Delivery(c[q].task) in c[q + 1..]
  {
    var r := c[q + 1..];
    [c[q], r[TaskIndex(r, c[q].task)]] + FrontRest(c, q)
  }

  /** The chain is the pair spliced into FrontRest at q, and Front is it spliced at 0. */
  lemma FrontSplit(c: seq<Action>, q: nat)
    requires Distinct(c) && q < |c| && c[q] == Pickup(c[q].task) && Delivery(c[q].task) in c[q + 1..]
    ensures var t := c[q].task; var rest := FrontRest(c, q);
      && |rest| + 2 == |c|
      && c == Splice(rest, q, q + TaskIndex(c[q + 1..], t), t)
      && Front(c, q) == Splice(rest, 0, 0, t)
  {
    var t := c[q].task;
    var r := c[q + 1..];
    var m := TaskIndex(r, t);
    assert r[m] == Delivery(t) by {
      assert r[m] == c[q + 1 + m];
    }
    SpliceBack(c, q, m, t);
  }

  /** Taking out the pair of the pickup at q leaves a feasible chain, and its task fits the empty vehicle. */
  lemma FrontRestOk(cap: nat, c: seq<Action>, q: nat)
    requires ChainOk(cap, c) && q < |c| && c[q].Pickup?
    ensures Delivery(c[q].task) in c[q + 1..]
    ensures var t := c[q].task; var rest := FrontRest(c, q);
      && ChainOk(cap, rest) && Pickup(t) !in rest && Delivery(t) !in rest
      && Elems(c) == Elems(rest) + {Pickup(t), Delivery(t)}
      && t.weight <= cap && Front(c, q) == Splice(rest, 0, 0, t)
  {
    var t := c[q].task;
    assert DeliveredAfter(c, q);
    FrontSplit(c, q);
    var rest := FrontRest(c, q);
    var m := TaskIndex(c[q + 1..], t);
    RemovePair(cap, c, rest, q, q + m, t);
    SpliceElems(rest, q, q + m, t);
    assert FitsAt(cap, c, q + 1);
    SumDeltaStep(c, q);
    PairedPrefixLoad(c, q);
  }

  /** Bringing a pair to the front keeps the chain feasible and its actions. */
  lemma FrontOk(cap: nat, c: seq<Action>, q: nat)
    requires ChainOk(cap, c) && q < |c| && c[q].Pickup?
    ensures Delivery(c[q].task) in c[q + 1..]
    ensures var f := Front(c, q);
      && ChainOk(cap, f) && Elems(f) == Elems(c)
      && |f| == |c| && f[0] == c[q] && f[1] == Delivery(c[q].task)
  {
    var t := c[q].task;
    FrontRestOk(cap, c, q);
    var rest := FrontRest(c, q);
    assert rest[..0] == [];
    InsertPairShape(rest, 0, 0, t);
    InsertPairFits(cap, rest, 0, 0, t);
  }

  /**
   * changeOneVehicle on chains: for each pickup before index n, in chain
   * order, the reorderings of the chain with that pickup's pair in front.
   */
  function OneVehicle(c: seq<Action>, cap: nat, n: nat): seq<seq<Action>>
    requires WellPaired(c) && n <= |c|
  {
    if n == 0 then []
    else
      OneVehicle(c, cap, n - 1)
      + (if c[n - 1].Pickup? then assert DeliveredAfter(c, n - 1); Reorderings(Front(c, n - 1), cap) else [])
  }

  /** Every chain changeOneVehicle offers is feasible and has the same actions. */
  lemma {:induction false} OneVehicleFeasible(cap: nat, c: seq<Action>, n: nat)
    requires ChainOk(cap, c) && n <= |c|
    ensures forall o :: o in OneVehicle(c, cap, n) ==> ChainOk(cap, o) && Elems(o) == Elems(c)
  {
    if n > 0 {
      if c[n - 1].Pickup? {
        FrontOk(cap, c, n - 1);
        ReorderingsFeasible(cap, Front(c, n - 1));
      }
      OneVehicleFeasible(cap, c, n - 1);
    }
  }

  // ---------------------------------------------------------------- chooseNeighbors

  /** The actions carried by the fleet. */
  ghost function Carried(chains: seq<seq<Action>>): set<Action>
  {
    set i, x | 0 <= i < |chains| && x in chains[i] :: x
  }

  /** Replacing a chain by a feasible one with the same actions keeps the fleet feasible. */
  lemma ReplaceFeasible(vs: seq<Vehicle>, chains: seq<seq<Action>>, j: nat, o: seq<Action>)
    requires Feasible(vs, chains) && j < |vs|
    requires ChainOk(vs[j].capacity, o) && Elems(o) == Elems(chains[j])
    ensures Feasible(vs, chains[j := o]) && Carried(chains[j := o]) == Carried(chains)
  {
    var chains' := chains[j := o];
    forall i, k, x | 0 <= i < |chains'| && 0 <= k < |chains'| && i != k && x in chains'[i]
      ensures x !in chains'[k]
    {
      assert x in Elems(chains'[i]);
      assert x in chains[i];
      if k == j {
        assert x !in Elems(chains[j]);
      }
    }
    forall x ensures x in Carried(chains') <==> x in Carried(chains) {
      if x in Carried(chains') {
        var i :| 0 <= i < |chains'| && x in chains'[i];
        assert x in Elems(chains'[i]);
        assert x in chains[i];
      }
      if x in Carried(chains) {
        var i :| 0 <= i < |chains| && x in chains[i];
        assert x in Elems(chains[i]);
        assert x in chains'[i];
      }
    }
  }

  /** Moving a task between vehicles keeps the actions the fleet carries. */
  lemma TransferCarried(vs: seq<Vehicle>, chains: seq<seq<Action>>, i: nat, j: nat)
    requires Feasible(vs, chains) && i < |vs| && j < |vs| && i != j && chains[i] != []
    ensures Delivery(chains[i][0].task) in chains[i][1..]
    ensures Carried(Transfer(chains, i, j)) == Carried(chains)
  {
    var c := chains[i];
    var t := c[0].task;
    RemainderOk(vs[i].capacity, c);
    var left := Remainder(c);
    var chains' := Transfer(chains, i, j);
    forall x ensures x in Carried(chains') <==> x in Carried(chains) {
      if x in Carried(chains') {
        var k :| 0 <= k < |chains'| && x in chains'[k];
        assert x in Elems(chains'[k]);
        if k == i {
          assert x in chains[i];
        } else if k == j {
          assert x in chains[j] || x in chains[i];
        } else {
          assert x in chains[k];
        }
      }
      if x in Carried(chains) {
        var k :| 0 <= k < |chains| && x in chains[k];
        assert x in Elems(chains[k]);
        if k == i {
          if x == Pickup(t) || x == Delivery(t) {
            assert x in chains'[j];
          } else {
            assert x in Elems(left);
            assert x in chains'[i];
          }
        } else if k == j {
          assert x in chains'[j];
        } else {
          assert x in chains'[k];
        }
      }
    }
  }

  /** The pair taken from the front of chain i is on none of the chains left behind. */
  lemma RemainderFree(vs: seq<Vehicle>, chains: seq<seq<Action>>, i: nat)
    requires Feasible(vs, chains) && i < |vs| && chains[i] != []
    ensures Delivery(chains[i][0].task) in chains[i][1..]
    ensures var chains' := chains[i := Remainder(chains[i])];
      forall k :: 0 <= k < |chains'| ==> chains[i][0] !in chains'[k] && Delivery(chains[i][0].task) !in chains'[k]
  {
    RemainderOk(vs[i].capacity, chains[i]);
  }

  /** The fleets giving vehicle j each chain of os in turn. */
  function Lift(chains: seq<seq<Action>>, j: nat, os: seq<seq<Action>>): seq<seq<seq<Action>>>
    requires j < |chains|
  {
    seq(|os|, k requires 0 <= k < |os| => chains[j := os[k]])
  }

  /**
   * The neighbours chooseNeighbors builds for the chosen vehicle i and the
   * other vehicle j: when j can carry i's first task, the fleet with that
   * task moved to j, then that fleet's reorderings of j's chain.
   */
  function CandidatesAt(vs: seq<Vehicle>, chains: seq<seq<Action>>, i: nat, j: nat): seq<seq<seq<Action>>>
    requires |chains| == |vs| && i < |vs| && j < |vs| && chains[i] != [] && Delivery(chains[i][0].task) in chains[i][1..]
  {
    if vs[j] != vs[i] && chains[i][0].task.weight <= vs[j].capacity then
      var moved := Transfer(chains, i, j);
      [moved] + Lift(moved, j, Reorderings(moved[j], vs[j].capacity))
    else []
  }

  /** The neighbours chooseNeighbors builds for the chosen vehicle i, over the vehicles below n. */
  function Candidates(vs: seq<Vehicle>, chains: seq<seq<Action>>, i: nat, n: nat): seq<seq<seq<Action>>>
    requires |chains| == |vs| && i < |vs| && n <= |vs| && chains[i] != [] && Delivery(chains[i][0].task) in chains[i][1..]
  {
    if n == 0 then [] else Candidates(vs, chains, i, n - 1) + CandidatesAt(vs, chains, i, n - 1)
  }

  /** Indices, in fleet order, of the vehicles below n with a non-empty chain. */
  function Used(chains: seq<seq<Action>>, n: nat): (u: seq<nat>)
    requires n <= |chains|
    ensures forall k :: 0 <= k < |u| ==> u[k] < n && chains[u[k]] != []
  {
    if n == 0 then []
    else Used(chains, n - 1) + (if chains[n - 1] != [] then [n - 1] else [])
  }

  /** A vehicle with a non-empty chain is among the used ones. */
  lemma {:induction false} UsedComplete(chains: seq<seq<Action>>, n: nat, k: nat)
    requires k < n <= |chains| && chains[k] != []
    ensures k in Used(chains, n)
  {
    if k < n - 1 {
      UsedComplete(chains, n - 1, k);
    }
  }

  /**
   * chooseNeighbors on chains: with a single vehicle, changeOneVehicle;
   * otherwise the candidates for the used vehicle that `draw` selects.
   * None when no vehicle has a task, where `Random.nextInt(0)` throws.
   */
  function Neighbours(vs: seq<Vehicle>, chains: seq<seq<Action>>, draw: nat): Option<seq<seq<seq<Action>>>>
    requires Feasible(vs, chains)
  {
    if |vs| == 1 then
      Some(Lift(chains, 0, OneVehicle(chains[0], vs[0].capacity, |chains[0]|)))
    else
      var used := Used(chains, |chains|);
      if used == [] then None
      else
        var i := used[draw % |used|];
        HeadPaired(vs[i].capacity, chains[i]);
        Some(Candidates(vs, chains, i, |vs|))
  }

  /** Every fleet of a lifted set of feasible replacement chains is feasible and carries the same actions. */
  lemma LiftFeasible(vs: seq<Vehicle>, chains: seq<seq<Action>>, j: nat, os: seq<seq<Action>>)
    requires Feasible(vs, chains) && j < |vs|
    requires forall o :: o in os ==> ChainOk(vs[j].capacity, o) && Elems(o) == Elems(chains[j])
    ensures forall f :: f in Lift(chains, j, os) ==> Feasible(vs, f) && Carried(f) == Carried(chains)
  {
    forall k | 0 <= k < |os| ensures Feasible(vs, chains[j := os[k]]) && Carried(chains[j := os[k]]) == Carried(chains) {
      assert os[k] in os;
      ReplaceFeasible(vs, chains, j, os[k]);
    }
  }

  /** The candidates for moving vehicle i's first task to vehicle j are feasible and carry the same actions. */
  lemma TransferCandidates(vs: seq<Vehicle>, chains: seq<seq<Action>>, i: nat, j: nat)
    requires Feasible(vs, chains) && i < |vs| && j < |vs| && i != j && chains[i] != []
    requires chains[i][0].task.weight <= vs[j].capacity
    ensures Delivery(chains[i][0].task) in chains[i][1..]
    ensures var moved := Transfer(chains, i, j);
      forall f :: f in [moved] + Lift(moved, j, Reorderings(moved[j], vs[j].capacity)) ==>
        Feasible(vs, f) && Carried(f) == Carried(chains)
  {
    TransferFeasible(vs, chains, i, j);
    TransferCarried(vs, chains, i, j);
    var moved := Transfer(chains, i, j);
    ReorderingsFeasible(vs[j].capacity, moved[j]);
    LiftFeasible(vs, moved, j, Reorderings(moved[j], vs[j].capacity));
  }

  /** Every candidate fleet built for vehicle j is feasible and carries the same actions. */
  lemma CandidatesAtFeasible(vs: seq<Vehicle>, chains: seq<seq<Action>>, i: nat, j: nat)
    requires Feasible(vs, chains) && i < |vs| && j < |vs| && chains[i] != []
    requires Delivery(chains[i][0].task) in chains[i][1..]
    ensures forall f :: f in CandidatesAt(vs, chains, i, j) ==> Feasible(vs, f) && Carried(f) == Carried(chains)
  {
    if vs[j] != vs[i] && chains[i][0].task.weight <= vs[j].capacity {
      TransferCandidates(vs, chains, i, j);
    }
  }

  /** Every candidate fleet is feasible and carries the same actions. */
  lemma {:induction false} CandidatesFeasible(vs: seq<Vehicle>, chains: seq<seq<Action>>, i: nat, n: nat)
    requires Feasible(vs, chains) && i < |vs| && n <= |vs| && chains[i] != []
    requires Delivery(chains[i][0].task) in chains[i][1..]
    ensures forall f :: f in Candidates(vs, chains, i, n) ==> Feasible(vs, f) && Carried(f) == Carried(chains)
  {
    if n > 0 {
      var before, at := Candidates(vs, chains, i, n - 1), CandidatesAt(vs, chains, i, n - 1);
      CandidatesAtFeasible(vs, chains, i, n - 1);
      CandidatesFeasible(vs, chains, i, n - 1);
      FleetsConcat(vs, chains, before, at);
    }
  }

  /** Two lists of feasible fleets carrying the actions of `chains` make one. */
  lemma FleetsConcat(vs: seq<Vehicle>, chains: seq<seq<Action>>, a: seq<seq<seq<Action>>>, b: seq<seq<seq<Action>>>)
    requires forall f :: f in a ==> Feasible(vs, f) && Carried(f) == Carried(chains)
    requires forall f :: f in b ==> Feasible(vs, f) && Carried(f) == Carried(chains)
    ensures forall f :: f in a + b ==> Feasible(vs, f) && Carried(f) == Carried(chains)
  {
  }

  /**
   * Every neighbour chooseNeighbors offers is a feasible fleet carrying the
   * same actions, and a fleet with a task always has neighbours to offer
   * from (no exception).
   */
  lemma NeighboursFeasible(vs: seq<Vehicle>, chains: seq<seq<Action>>, draw: nat)
    requires Feasible(vs, chains)
    ensures Carried(chains) != {} ==> Neighbours(vs, chains, draw).Some?
    ensures Neighbours(vs, chains, draw).Some? ==>
      forall f :: f in Neighbours(vs, chains, draw).value ==> Feasible(vs, f) && Carried(f) == Carried(chains)
  {
    if |vs| == 1 {
      OneVehicleFeasible(vs[0].capacity, chains[0], |chains[0]|);
      LiftFeasible(vs, chains, 0, OneVehicle(chains[0], vs[0].capacity, |chains[0]|));
    } else {
      var used := Used(chains, |chains|);
      if Carried(chains) != {} {
        var x :| x in Carried(chains);
        var k :| 0 <= k < |chains| && x in chains[k];
        UsedComplete(chains, |chains|, k);
      }
      if used != [] {
        var i := used[draw % |used|];
        HeadPaired(vs[i].capacity, chains[i]);
        CandidatesFeasible(vs, chains, i, |vs|);
      }
    }
  }

  /** Lifting two lists of chains one after the other. */
  lemma LiftConcat(chains: seq<seq<Action>>, j: nat, a: seq<seq<Action>>, b: seq<seq<Action>>)
    requires j < |chains|
    ensures Lift(chains, j, a + b) == Lift(chains, j, a) + Lift(chains, j, b)
  {
    var l, r := Lift(chains, j, a + b), Lift(chains, j, a) + Lift(chains, j, b);
    forall k | 0 <= k < |l| ensures l[k] == r[k] {
      if k < |a| {
        assert (a + b)[k] == a[k];
      } else {
        assert (a + b)[k] == b[k - |a|];
      }
    }
  }

  /** Lifting into chain j does not look at what chain j held. */
  lemma LiftReplace(chains: seq<seq<Action>>, j: nat, o: seq<Action>, os: seq<seq<Action>>)
    requires j < |chains|
    ensures Lift(chains[j := o], j, os) == Lift(chains, j, os)
  {
    var l, r := Lift(chains[j := o], j, os), Lift(chains, j, os);
    forall k | 0 <= k < |os| ensures l[k] == r[k] {
      assert chains[j := o][j := os[k]] == chains[j := os[k]];
    }
  }

  // ---------------------------------------------------------------- build

  /** The fleet's chains after build puts task t's pair in front of vehicle j's chain. */
  function AddFront(chains: seq<seq<Action>>, j: nat, t: Task): seq<seq<Action>>
    requires j < |chains|
  {
    chains[j := [Pickup(t), Delivery(t)] + chains[j]]
  }

  /**
   * Adding a task that no chain holds in front of a vehicle that can carry
   * it keeps the fleet feasible, and the fleet then carries exactly one
   * task more.
   */
  lemma AddFeasible(vs: seq<Vehicle>, chains: seq<seq<Action>>, j: nat, t: Task)
    requires Feasible(vs, chains) && j < |vs| && t.weight <= vs[j].capacity
    requires Pickup(t) !in Carried(chains) && Delivery(t) !in Carried(chains)
    ensures Feasible(vs, AddFront(chains, j, t))
    ensures Carried(AddFront(chains, j, t)) == Carried(chains) + {Pickup(t), Delivery(t)}
  {
    var p, d := Pickup(t), Delivery(t);
    var cj := chains[j];
    assert p !in cj && d !in cj;
    PrependOk(vs[j].capacity, cj, t);
    var chains' := AddFront(chains, j, t);
    forall a, b, x | 0 <= a < |chains'| && 0 <= b < |chains'| && a != b && x in chains'[a]
      ensures x !in chains'[b]
    {
      assert x in Elems(chains'[a]);
      if a == j {
        if x == p || x == d {
          assert x !in chains[b];
        } else {
          assert x in cj;
        }
      } else {
        assert x in chains[a];
        assert x != p && x != d;
        assert b == j ==> x !in Elems(cj);
      }
    }
    forall x ensures x in Carried(chains') <==> x in Carried(chains) || x == p || x == d {
      if x in Carried(chains') {
        var k :| 0 <= k < |chains'| && x in chains'[k];
        assert x in Elems(chains'[k]);
        if k != j || (x != p && x != d) {
          assert x in chains[k];
        }
      }
      if x in Carried(chains) {
        var k :| 0 <= k < |chains| && x in chains[k];
        assert x in Elems(chains[k]) && (k == j ==> x in Elems(chains'[j]));
        assert x in chains'[k];
      }
      if x == p || x == d {
        assert x in chains'[j];
      }
    }
  }

  /** The chains initSolutionSingle gives the fleet: t's pair on vehicle v, nothing elsewhere. */
  function SingleChains(vs: seq<Vehicle>, v: Vehicle, t: Task): seq<seq<Action>>
  {
    seq(|vs|, k requires 0 <= k < |vs| => if vs[k] == v then [Pickup(t), Delivery(t)] else [])
  }

  /** A single task on one vehicle that can carry it, of a fleet without duplicates, is a feasible fleet carrying just that task. */
  lemma SingleFeasible(vs: seq<Vehicle>, b: nat, t: Task)
    requires b < |vs| && t.weight <= vs[b].capacity
    requires forall k :: 0 <= k < |vs| && k != b ==> vs[k] != vs[b]
    ensures Feasible(vs, SingleChains(vs, vs[b], t))
    ensures Carried(SingleChains(vs, vs[b], t)) == {Pickup(t), Delivery(t)}
  {
    var chains := SingleChains(vs, vs[b], t);
    var e: seq<Action> := [];
    EmptyChainOk(vs[b].capacity);
    PrependOk(vs[b].capacity, e, t);
    assert [Pickup(t), Delivery(t)] + e == chains[b];
    forall k | 0 <= k < |chains| ensures ChainOk(vs[k].capacity, chains[k]) {
      if k != b {
        EmptyChainOk(vs[k].capacity);
      }
    }
    assert Pickup(t) in chains[b] && Delivery(t) in chains[b];
  }
}
