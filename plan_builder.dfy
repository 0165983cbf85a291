/**
 * The deliberative planners (3-deliberative/src/template/PlanBuilder.java
 * and PlanBuilderBFS.java): a frontier of search states, a map from each
 * state's hash to the shortest distance it was reached at, and the
 * successor generation that both planners share. The two classes differ
 * only in how they take states off the frontier, so they are modelled as
 * one class with both search loops.
 */
module PlanBuilders {
  import opened Wrappers
  import opened Actions
  import opened Mappings
  import opened CustomPlans
  import opened States
  import Plans

  /** What a search state stands for, apart from its heuristic and its hash. */
  datatype Node = Node(plan: CustomPlan, city: City, pickups: Lists, deliveries: Lists, freeSpace: int)

  /** The hash of a node: its delivery mapping, its pickup mapping and its city. */
  function KeyOf(n: Node): Key
  {
    Key(n.deliveries, n.pickups, n.city)
  }

  // ---------------------------------------------------------------------
  // Combinations of tasks
  // ---------------------------------------------------------------------

  /**
   * The sub-lists of l with `size` elements: those that hold l's first
   * task come first, followed by those that do not.
   */
  function Choose(l: seq<Task>, size: nat): seq<seq<Task>>
    decreases |l|
  {
    if size == 0 then [[]]
    else if l == [] then []
    else
      Prefixed(l[0], Choose(l[1..], size - 1)) + Choose(l[1..], size)
  }

  /** Each list of ls with t in front. */
  function Prefixed(t: Task, ls: seq<seq<Task>>): (r: seq<seq<Task>>)
    ensures |r| == |ls| && forall j :: 0 <= j < |ls| ==> r[j] == [t] + ls[j]
  {
    if ls == [] then [] else [[t] + ls[0]] + Prefixed(t, ls[1..])
  }

  /** The number of ways to choose k of n things. */
  function Binomial(n: nat, k: nat): nat
  {
    if k == 0 then 1 else if n == 0 then 0 else Binomial(n - 1, k - 1) + Binomial(n - 1, k)
  }

  /** ts is l with some tasks left out, in l's order. */
  predicate SubList(ts: seq<Task>, l: seq<Task>)
    decreases |l|
  {
    if ts == [] then true
    else if l == [] then false
    else (ts[0] == l[0] && SubList(ts[1..], l[1..])) || SubList(ts, l[1..])
  }

  /** A sub-list takes no task more often than the list holds it. */
  lemma {:induction false} SubListMultiset(ts: seq<Task>, l: seq<Task>)
    requires SubList(ts, l)
    ensures multiset(ts) <= multiset(l)
    decreases |l|
  {
    if ts != [] {
      assert l == [l[0]] + l[1..];
      if ts[0] == l[0] && SubList(ts[1..], l[1..]) {
        SubListMultiset(ts[1..], l[1..]);
        assert ts == [ts[0]] + ts[1..];
      } else {
        SubListMultiset(ts, l[1..]);
      }
    }
  }

  /** Every chosen sub-list has `size` tasks and is a sub-list of l. */
  lemma {:induction false} ChooseSound(l: seq<Task>, size: nat)
    ensures forall j :: 0 <= j < |Choose(l, size)| ==> |Choose(l, size)[j]| == size && SubList(Choose(l, size)[j], l)
    decreases |l|
  {
    if size != 0 && l != [] {
      var with := Choose(l[1..], size - 1);
      var heads := Prefixed(l[0], with);
      var rest := Choose(l[1..], size);
      var all := Choose(l, size);
      assert all == heads + rest;
      ChooseSound(l[1..], size - 1);
      ChooseSound(l[1..], size);
      forall j | 0 <= j < |all|
        ensures |all[j]| == size && SubList(all[j], l)
      {
        if j < |heads| {
          assert all[j] == [l[0]] + with[j];
          assert all[j][1..] == with[j];
        } else {
          assert all[j] == rest[j - |heads|];
        }
      }
    }
  }

  /** There are as many sub-lists of `size` tasks as the binomial coefficient says. */
  lemma {:induction false} ChooseCount(l: seq<Task>, size: nat)
    ensures |Choose(l, size)| == Binomial(|l|, size)
    decreases |l|
  {
    if size != 0 && l != [] {
      ChooseCount(l[1..], size - 1);
      ChooseCount(l[1..], size);
    }
  }

  /** The combinations of sizes 1 to n, smallest first. */
  function UpTo(l: seq<Task>, n: nat): seq<seq<Task>>
  {
    if n == 0 then [] else UpTo(l, n - 1) + Choose(l, n)
  }

  /** The power set the planners walk: every non-empty combination of the available tasks. */
  function Combinations(l: seq<Task>): seq<seq<Task>>
  {
    UpTo(l, |l|)
  }

  /** Every combination is a non-empty sub-list of the available tasks. */
  lemma {:induction false} CombinationsSound(l: seq<Task>, n: nat)
    ensures forall j :: 0 <= j < |UpTo(l, n)| ==> UpTo(l, n)[j] != [] && SubList(UpTo(l, n)[j], l)
  {
    if n != 0 {
      var prev := UpTo(l, n - 1);
      var all := UpTo(l, n);
      CombinationsSound(l, n - 1);
      ChooseSound(l, n);
      forall j | 0 <= j < |all|
        ensures all[j] != [] && SubList(all[j], l)
      {
        if j >= |prev| {
          assert all[j] == Choose(l, n)[j - |prev|];
        }
      }
    }
  }

  /** There are C(m, 1) + ... + C(m, n) combinations of sizes 1 to n: 2^m - 1 for the whole power set. */
  lemma {:induction false} CombinationsCount(l: seq<Task>, n: nat)
    ensures |UpTo(l, n)| == SumBinomials(|l|, n)
  {
    if n != 0 {
      CombinationsCount(l, n - 1);
      ChooseCount(l, n);
    }
  }

  /** C(m, 1) + ... + C(m, n). */
  function SumBinomials(m: nat, n: nat): nat
  {
    if n == 0 then 0 else SumBinomials(m, n - 1) + Binomial(m, n)
  }

  // ---------------------------------------------------------------------
  // Successor states
  // ---------------------------------------------------------------------

  /** `removeTask(c, t)` for each task in turn. */
  function Taken(m: Lists, c: City, ts: seq<Task>): Lists
  {
    if ts == [] then m
    else
      var r := Taken(m, c, ts[..|ts| - 1]);
      if c in r then Removed(r, c, ts[|ts| - 1]) else r
  }

  /** `add(t.deliveryCity, t)` for each task in turn. */
  function Filed(m: Lists, ts: seq<Task>): Lists
  {
    if ts == [] then m
    else
      var n := |ts| - 1;
      Added(Filed(m, ts[..n]), ts[n].deliveryCity, ts[n])
  }

  /**
   * Removing a selection of c's tasks one by one always finds c still a
   * key, so removeTask never meets a missing list: c's list loses exactly
   * the selected tasks, c goes once nothing is left, other keys stay.
   */
  lemma {:induction false} TakenCount(m: Lists, c: City, ts: seq<Task>)
    requires c in m && m[c] != [] && multiset(ts) <= multiset(m[c])
    ensures Taken(m, c, ts) - {c} == m - {c}
    ensures c in Taken(m, c, ts) <==> multiset(ts) != multiset(m[c])
    ensures c in Taken(m, c, ts) ==> multiset(Taken(m, c, ts)[c]) == multiset(m[c]) - multiset(ts)
  {
    if ts == [] {
      assert m[c][0] in multiset(m[c]);
    } else {
      var n := |ts| - 1;
      var pre := ts[..n];
      var t := ts[n];
      assert ts == pre + [t];
      assert multiset(ts) == multiset(pre) + multiset{t};
      assert multiset(ts)[t] == multiset(pre)[t] + 1;
      TakenCount(m, c, pre);
      var r := Taken(m, c, pre);
      TakenStep(multiset(m[c]), multiset(pre), t, r[c]);
      RemovedElsewhere(r, c, t);
    }
  }

  /** removeTask on c leaves the other keys as they are. */
  lemma RemovedElsewhere(m: Lists, c: City, t: Task)
    requires c in m
    ensures Removed(m, c, t) - {c} == m - {c}
  {
    var l := Without(m[c], t);
    if l != [] {
      assert m[c := l] - {c} == m - {c};
    }
  }

  /** One removal in multiset terms: the task is present, and the list empties exactly when the whole selection is out. */
  lemma TakenStep(all: multiset<Task>, pre: multiset<Task>, t: Task, l: seq<Task>)
    requires pre + multiset{t} <= all && multiset(l) == all - pre
    ensures t in l
    ensures multiset(Without(l, t)) == all - (pre + multiset{t})
    ensures Without(l, t) == [] <==> pre + multiset{t} == all
  {
    assert t in multiset(l);
    WithoutPresent(l, t);
    var w := Without(l, t);
    assert w == [] <==> multiset(w) == multiset{} by {
      if w != [] {
        assert w[0] in multiset(w);
      }
    }
  }

  /** Removing a selection of c's tasks files exactly that many tasks fewer. */
  lemma {:induction false} TakenSize(m: Lists, c: City, ts: seq<Task>)
    requires c in m && m[c] != [] && multiset(ts) <= multiset(m[c])
    ensures Size(Taken(m, c, ts)) == Size(m) - |ts|
  {
    if ts != [] {
      var n := |ts| - 1;
      var pre := ts[..n];
      MultisetSnoc(ts);
      assert multiset(ts)[ts[n]] == multiset(pre)[ts[n]] + 1;
      TakenCount(m, c, pre);
      TakenSize(m, c, pre);
      var r := Taken(m, c, pre);
      TakenStep(multiset(m[c]), multiset(pre), ts[n], r[c]);
      RemovedSize(r, c, ts[n]);
    }
  }

  /** Before the last selected task is removed, c is still a key. */
  lemma TakenKeepsKey(m: Lists, c: City, ts: seq<Task>, k: nat)
    requires c in m && m[c] != [] && multiset(ts) <= multiset(m[c]) && k < |ts|
    ensures c in Taken(m, c, ts[..k])
  {
    assert ts == ts[..k] + ts[k..];
    assert multiset(ts) == multiset(ts[..k]) + multiset(ts[k..]);
    assert ts[k] in multiset(ts[k..]);
    assert multiset(ts)[ts[k]] > multiset(ts[..k])[ts[k]];
    TakenCount(m, c, ts[..k]);
  }

  /** Filing tasks under their destination keeps every list non-empty and every task under its own destination, and adds one task each. */
  lemma {:induction false} FiledShape(m: Lists, ts: seq<Task>)
    requires NoEmpty(m) && FiledBy(m, false)
    ensures NoEmpty(Filed(m, ts)) && FiledBy(Filed(m, ts), false)
    ensures Size(Filed(m, ts)) == Size(m) + |ts|
  {
    if ts != [] {
      var n := |ts| - 1;
      FiledShape(m, ts[..n]);
      UpdatesKeepShape(Filed(m, ts[..n]), ts[n].deliveryCity, ts[n], false);
      AddedSize(Filed(m, ts[..n]), ts[n].deliveryCity, ts[n]);
    }
  }

  /**
   * The state offered for a neighbour and a selection of tasks: when the
   * selection fits the free space, its tasks are picked up (moved from the
   * pickup mapping to the delivery mapping) before the move; the free space
   * loses the selection's weight whether or not it fits.
   */
  function Successor(dist: Plans.Distance, s: Node, to: City, ts: seq<Task>): Node
  {
    var w := WeightSum(ts);
    if w <= s.freeSpace then
      Node(AppendMove(dist, Appended(s.plan, ts, true), to), to,
           Taken(s.pickups, s.city, ts), Filed(s.deliveries, ts), s.freeSpace - w)
    else
      Node(AppendMove(dist, s.plan, to), to, s.pickups, s.deliveries, s.freeSpace - w)
  }

  /** The state offered for a neighbour with no pickup. */
  function NoPickup(dist: Plans.Distance, s: Node, to: City): Node
  {
    Node(AppendMove(dist, s.plan, to), to, s.pickups, s.deliveries, s.freeSpace)
  }

  /** The states offered for a neighbour, one per selection of tasks, in the order of the selections. */
  function Each(dist: Plans.Distance, s: Node, to: City, cs: seq<seq<Task>>): seq<Node>
  {
    if cs == [] then []
    else
      var n := |cs| - 1;
      Each(dist, s, to, cs[..n]) + [Successor(dist, s, to, cs[n])]
  }

  /** One more selection: its state follows those of the earlier ones. */
  lemma EachPrefix(dist: Plans.Distance, s: Node, to: City, cs: seq<seq<Task>>, j: nat, gen: seq<Node>)
    requires j < |cs|
    ensures gen + Each(dist, s, to, cs[..j + 1]) == gen + Each(dist, s, to, cs[..j]) + [Successor(dist, s, to, cs[j])]
  {
    assert cs[..j + 1][..j] == cs[..j];
  }

  /** The states offered for one neighbour: one per combination of the tasks waiting here, then the no-pickup state. */
  function Offers(dist: Plans.Distance, s: Node, to: City): seq<Node>
  {
    (if s.city in s.pickups then Each(dist, s, to, Combinations(s.pickups[s.city])) else [])
    + [NoPickup(dist, s, to)]
  }

  /** The offers for a neighbour are the pickup selections followed by the move alone. */
  lemma OffersSplit(dist: Plans.Distance, s: Node, to: City, gen: seq<Node>, picked: seq<Node>)
    requires picked == if s.city in s.pickups then Each(dist, s, to, Combinations(s.pickups[s.city])) else []
    ensures gen + picked + [NoPickup(dist, s, to)] == gen + Offers(dist, s, to)
  {
  }

  /** The states offered for each neighbour in turn. */
  function Successors(dist: Plans.Distance, s: Node, ns: seq<City>): seq<Node>
  {
    if ns == [] then []
    else
      var n := |ns| - 1;
      Successors(dist, s, ns[..n]) + Offers(dist, s, ns[n])
  }

  /** One more neighbour: its states follow those of the earlier neighbours. */
  lemma SuccessorsPrefix(dist: Plans.Distance, s: Node, ns: seq<City>, k: nat)
    requires k < |ns|
    ensures Successors(dist, s, ns[..k + 1]) == Successors(dist, s, ns[..k]) + Offers(dist, s, ns[k])
  {
    assert ns[..k + 1][..k] == ns[..k];
  }

  /**
   * The shape every state of the frontier keeps: no mapping holds an
   * empty list, and every task on board is filed under its destination.
   */
  ghost predicate Sound(n: Node)
  {
    NoEmpty(n.pickups) && NoEmpty(n.deliveries) && FiledBy(n.deliveries, false)
  }

  /** Removing a selection of c's tasks leaves no empty list behind. */
  lemma TakenNoEmpty(m: Lists, c: City, ts: seq<Task>)
    requires NoEmpty(m) && c in m && multiset(ts) <= multiset(m[c])
    ensures NoEmpty(Taken(m, c, ts))
  {
    TakenCount(m, c, ts);
    var r := Taken(m, c, ts);
    if c in r {
      assert multiset(r[c]) != multiset{};
    }
    forall d | d in r
      ensures r[d] != []
    {
      if d != c {
        assert d in r - {c};
      }
    }
  }

  /**
   * A selection of the tasks waiting at the current city is picked up
   * exactly when its weight fits the free space: the tasks then leave the
   * pickup mapping and are filed under their destinations, otherwise both
   * mappings stay. Either way the vehicle moves to the neighbour, the
   * free space drops by the selection's weight, and the state stays sound.
   */
  lemma PickupRule(dist: Plans.Distance, s: Node, to: City, ts: seq<Task>)
    requires Sound(s) && s.city in s.pickups && SubList(ts, s.pickups[s.city])
    ensures Sound(Successor(dist, s, to, ts))
    ensures Successor(dist, s, to, ts).city == to
    ensures Successor(dist, s, to, ts).freeSpace == s.freeSpace - WeightSum(ts)
    ensures Successor(dist, s, to, ts).plan.distance == s.plan.distance + dist(s.plan.current, to)
    ensures WeightSum(ts) > s.freeSpace ==>
      Successor(dist, s, to, ts).pickups == s.pickups && Successor(dist, s, to, ts).deliveries == s.deliveries
    ensures WeightSum(ts) <= s.freeSpace ==>
      && Size(Successor(dist, s, to, ts).pickups) == Size(s.pickups) - |ts|
      && Size(Successor(dist, s, to, ts).deliveries) == Size(s.deliveries) + |ts|
      && Successor(dist, s, to, ts).pickups - {s.city} == s.pickups - {s.city}
  {
    AppendedSteps(s.plan, ts, true);
    if WeightSum(ts) <= s.freeSpace {
      SubListMultiset(ts, s.pickups[s.city]);
      TakenCount(s.pickups, s.city, ts);
      TakenSize(s.pickups, s.city, ts);
      TakenNoEmpty(s.pickups, s.city, ts);
      FiledShape(s.deliveries, ts);
    }
  }

  /** For every neighbour, a state that keeps both mappings and the free space and only moves is offered. */
  lemma {:induction false} NoPickupOffered(dist: Plans.Distance, s: Node, ns: seq<City>, to: City)
    requires to in ns
    ensures exists n :: (n in Successors(dist, s, ns) && n.city == to && n.pickups == s.pickups &&
                         n.deliveries == s.deliveries && n.freeSpace == s.freeSpace && n.plan == AppendMove(dist, s.plan, to))
  {
    var k := |ns| - 1;
    var n := NoPickup(dist, s, to);
    if ns[k] == to {
      assert Offers(dist, s, to)[|Offers(dist, s, to)| - 1] == n;
      assert n in Successors(dist, s, ns);
    } else {
      assert to in ns[..k] by {
        var i :| 0 <= i < |ns| && ns[i] == to;
        assert ns[..k][i] == to;
      }
      NoPickupOffered(dist, s, ns[..k], to);
    }
  }

  /** The states offered for the selections are sound when each selection is a sub-list of the tasks waiting here. */
  lemma {:induction false} EachSound(dist: Plans.Distance, s: Node, to: City, cs: seq<seq<Task>>)
    requires Sound(s) && s.city in s.pickups
    requires forall j :: 0 <= j < |cs| ==> SubList(cs[j], s.pickups[s.city])
    ensures forall n :: n in Each(dist, s, to, cs) ==> Sound(n)
  {
    if cs != [] {
      var k := |cs| - 1;
      EachSound(dist, s, to, cs[..k]);
      PickupRule(dist, s, to, cs[k]);
    }
  }

  /** Every state offered from a sound state is sound: the frontier keeps its shape. */
  lemma {:induction false} SuccessorsSound(dist: Plans.Distance, s: Node, ns: seq<City>)
    requires Sound(s)
    ensures forall n :: n in Successors(dist, s, ns) ==> Sound(n)
  {
    if ns != [] {
      var k := |ns| - 1;
      SuccessorsSound(dist, s, ns[..k]);
      if s.city in s.pickups {
        var l := s.pickups[s.city];
        CombinationsSound(l, |l|);
        EachSound(dist, s, ns[k], Combinations(l));
      }
    }
  }

  // ---------------------------------------------------------------------
  // Every task accounted for
  // ---------------------------------------------------------------------

  /** Removing a selection of c's tasks files exactly those tasks fewer. */
  lemma {:induction false} TakenBag(m: Lists, c: City, ts: seq<Task>)
    requires c in m && m[c] != [] && multiset(ts) <= multiset(m[c])
    ensures Bag(Taken(m, c, ts)) + multiset(ts) == Bag(m)
  {
    if ts != [] {
      var n := |ts| - 1;
      var pre := ts[..n];
      MultisetSnoc(ts);
      assert multiset(ts)[ts[n]] == multiset(pre)[ts[n]] + 1;
      TakenCount(m, c, pre);
      TakenBag(m, c, pre);
      var r := Taken(m, c, pre);
      TakenStep(multiset(m[c]), multiset(pre), ts[n], r[c]);
      RemovedBag(r, c, ts[n]);
    }
  }

  /** Filing tasks under their destinations files exactly those tasks more. */
  lemma {:induction false} FiledBag(m: Lists, ts: seq<Task>)
    ensures Bag(Filed(m, ts)) == Bag(m) + multiset(ts)
  {
    if ts != [] {
      var n := |ts| - 1;
      var pre := Filed(m, ts[..n]);
      assert Filed(m, ts) == Added(pre, ts[n].deliveryCity, ts[n]);
      FiledBag(m, ts[..n]);
      AddedBag(pre, ts[n].deliveryCity, ts[n]);
      MultisetSnoc(ts);
    }
  }

  /**
   * Every task of the problem is accounted for in a node: the tasks its
   * plan has picked up and those still waiting are the tasks to pick up,
   * and the tasks on board and those its plan has delivered are the ones
   * picked up and the ones carried from the start.
   */
  ghost predicate Accounts(n: Node, tasks: seq<Task>, carried: seq<Task>)
  {
    && PickedUp(n.plan.steps) + Bag(n.pickups) == multiset(tasks)
    && Bag(n.deliveries) + DroppedOff(n.plan.steps) == PickedUp(n.plan.steps) + multiset(carried)
  }

  /** A complete plan picks up every task once and delivers every task, picked up or carried, once. */
  ghost predicate Completes(p: CustomPlan, tasks: seq<Task>, carried: seq<Task>)
  {
    PickedUp(p.steps) == multiset(tasks) && DroppedOff(p.steps) == multiset(tasks) + multiset(carried)
  }

  /** Tasks moved from one side of a balance to the other keep it. */
  lemma Shifted(a: multiset<Task>, b: multiset<Task>, b': multiset<Task>, x: multiset<Task>, total: multiset<Task>)
    requires a + b == total && b' + x == b
    ensures (a + x) + b' == total
  {
  }

  /** Tasks added to both sides of a balance keep it. */
  lemma Grown(a: multiset<Task>, b: multiset<Task>, total: multiset<Task>, x: multiset<Task>)
    requires a + b == total
    ensures (a + x) + b == total + x
  {
  }

  /** Tasks moved from on board to delivered keep the balance. */
  lemma Delivering(b: multiset<Task>, b': multiset<Task>, x: multiset<Task>, down: multiset<Task>, total: multiset<Task>)
    requires b + down == total && b == x + b'
    ensures b' + (down + x) == total
  {
  }

  /** The node a search starts from accounts for every task. */
  lemma StartAccounts(home: City, capacity: int, tasks: seq<Task>, carried: seq<Task>)
    ensures Accounts(Node(Start(home), home, Grouped(tasks, true), Grouped(carried, false), capacity), tasks, carried)
  {
    GroupedBag(tasks, true);
    GroupedBag(carried, false);
  }

  /** Tasks x moved from waiting to picked up and on board keep every task accounted for. */
  lemma LoadedAccounts(s: Node, n: Node, x: multiset<Task>, tasks: seq<Task>, carried: seq<Task>)
    requires Accounts(s, tasks, carried)
    requires PickedUp(n.plan.steps) == PickedUp(s.plan.steps) + x && DroppedOff(n.plan.steps) == DroppedOff(s.plan.steps)
    requires Bag(n.pickups) + x == Bag(s.pickups) && Bag(n.deliveries) == Bag(s.deliveries) + x
    ensures Accounts(n, tasks, carried)
  {
    var up, down := PickedUp(s.plan.steps), DroppedOff(s.plan.steps);
    Shifted(up, Bag(s.pickups), Bag(n.pickups), x, multiset(tasks));
    Grown(Bag(s.deliveries), down, up + multiset(carried), x);
    assert (up + multiset(carried)) + x == (up + x) + multiset(carried);
  }

  /** The state offered for a neighbour and a selection of waiting tasks still accounts for every task. */
  lemma SuccessorAccounts(dist: Plans.Distance, s: Node, to: City, ts: seq<Task>, tasks: seq<Task>, carried: seq<Task>)
    requires Sound(s) && s.city in s.pickups && SubList(ts, s.pickups[s.city])
    requires Accounts(s, tasks, carried)
    ensures Accounts(Successor(dist, s, to, ts), tasks, carried)
  {
    var n := Successor(dist, s, to, ts);
    if WeightSum(ts) <= s.freeSpace {
      var p := Appended(s.plan, ts, true);
      assert n.plan == AppendMove(dist, p, to);
      assert n.pickups == Taken(s.pickups, s.city, ts) && n.deliveries == Filed(s.deliveries, ts);
      AppendedCounts(s.plan, ts, true);
      MoveCounts(dist, p, to);
      assert PickedUp(n.plan.steps) == PickedUp(s.plan.steps) + multiset(ts);
      assert DroppedOff(n.plan.steps) == DroppedOff(s.plan.steps);
      SubListMultiset(ts, s.pickups[s.city]);
      TakenBag(s.pickups, s.city, ts);
      FiledBag(s.deliveries, ts);
      LoadedAccounts(s, n, multiset(ts), tasks, carried);
    } else {
      MoveCounts(dist, s.plan, to);
    }
  }

  /** The states offered for the selections account for every task. */
  lemma {:induction false} EachAccounts(dist: Plans.Distance, s: Node, to: City, cs: seq<seq<Task>>, tasks: seq<Task>, carried: seq<Task>)
    requires Sound(s) && s.city in s.pickups && Accounts(s, tasks, carried)
    requires forall j :: 0 <= j < |cs| ==> SubList(cs[j], s.pickups[s.city])
    ensures forall n :: n in Each(dist, s, to, cs) ==> Accounts(n, tasks, carried)
  {
    if cs != [] {
      var k := |cs| - 1;
      EachAccounts(dist, s, to, cs[..k], tasks, carried);
      SuccessorAccounts(dist, s, to, cs[k], tasks, carried);
    }
  }

  /** Every state offered from a sound state that accounts for every task does so too. */
  lemma {:induction false} SuccessorsAccounts(dist: Plans.Distance, s: Node, ns: seq<City>, tasks: seq<Task>, carried: seq<Task>)
    requires Sound(s) && Accounts(s, tasks, carried)
    ensures forall n :: n in Successors(dist, s, ns) ==> Accounts(n, tasks, carried)
  {
    if ns != [] {
      var k := |ns| - 1;
      SuccessorsAccounts(dist, s, ns[..k], tasks, carried);
      MoveCounts(dist, s.plan, ns[k]);
      if s.city in s.pickups {
        var l := s.pickups[s.city];
        CombinationsSound(l, |l|);
        EachAccounts(dist, s, ns[k], Combinations(l), tasks, carried);
      }
    }
  }

  /** `deliverTasks` on a node: the tasks filed under the current city are delivered in order, freeing their weight. */
  function Delivered(n: Node): Node
  {
    if n.city in n.deliveries then
      var l := n.deliveries[n.city];
      n.(plan := Appended(n.plan, l, false), deliveries := n.deliveries - {n.city}, freeSpace := n.freeSpace + WeightSum(l))
    else n
  }

  /**
   * Delivering leaves nothing filed under the current city, keeps the
   * city and the pickups, keeps the node sound and every task accounted for.
   */
  lemma DeliveredKeeps(n: Node, tasks: seq<Task>, carried: seq<Task>)
    requires Sound(n)
    ensures n.city !in Delivered(n).deliveries
    ensures Delivered(n).city == n.city && Delivered(n).pickups == n.pickups
    ensures Sound(Delivered(n))
    ensures Accounts(n, tasks, carried) ==> Accounts(Delivered(n), tasks, carried)
  {
    if n.city in n.deliveries {
      var l := n.deliveries[n.city];
      var d := Delivered(n);
      assert d.plan == Appended(n.plan, l, false) && d.deliveries == n.deliveries - {n.city};
      BagAt(n.deliveries, n.city);
      AppendedCounts(n.plan, l, false);
      if Accounts(n, tasks, carried) {
        Delivering(Bag(n.deliveries), Bag(d.deliveries), multiset(l), DroppedOff(n.plan.steps), PickedUp(n.plan.steps) + multiset(carried));
      }
    }
  }

  /** A polled node after delivery: sound, every task accounted for, nothing left to deliver where it stands. */
  ghost predicate Settled(n: Node, tasks: seq<Task>, carried: seq<Task>)
  {
    Sound(n) && Accounts(n, tasks, carried) && n.city !in n.deliveries
  }

  /** Every node of the trail is settled and has something left to do. */
  ghost predicate Explored(trail: seq<Node>, tasks: seq<Task>, carried: seq<Task>)
  {
    forall j :: 0 <= j < |trail| ==> Settled(trail[j], tasks, carried) && !Terminal(trail[j])
  }

  /** Every node of the trail is settled. */
  ghost predicate AllSettled(trail: seq<Node>, tasks: seq<Task>, carried: seq<Task>)
  {
    forall j :: 0 <= j < |trail| ==> Settled(trail[j], tasks, carried)
  }

  /** One more settled node keeps the trail settled. */
  lemma AllSettledSnoc(trail: seq<Node>, n: Node, tasks: seq<Task>, carried: seq<Task>)
    requires AllSettled(trail, tasks, carried) && Settled(n, tasks, carried)
    ensures AllSettled(trail + [n], tasks, carried)
  {
  }

  /** A settled trail, spelled out: every node is settled, and every plan collected from it is complete. */
  lemma AllSettledMeans(trail: seq<Node>, tasks: seq<Task>, carried: seq<Task>)
    requires AllSettled(trail, tasks, carried)
    ensures forall j :: 0 <= j < |trail| ==> Settled(trail[j], tasks, carried)
    ensures forall p :: p in FinalPlans(trail) ==> Completes(p, tasks, carried)
  {
    FinalPlansComplete(trail, tasks, carried);
  }

  /** An explored trail, spelled out. */
  lemma ExploredMeans(trail: seq<Node>, tasks: seq<Task>, carried: seq<Task>)
    requires Explored(trail, tasks, carried)
    ensures forall j :: 0 <= j < |trail| ==> Settled(trail[j], tasks, carried)
    ensures forall j :: 0 <= j < |trail| ==> !Terminal(trail[j])
  {
  }

  /** One more settled node with something left to do keeps the trail explored. */
  lemma ExploredSnoc(trail: seq<Node>, n: Node, tasks: seq<Task>, carried: seq<Task>)
    requires Explored(trail, tasks, carried) && Settled(n, tasks, carried) && !Terminal(n)
    ensures Explored(trail + [n], tasks, carried)
  {
  }

  /**
   * A trail explored so far and ended by a settled terminal node: every
   * node is settled, only the last is terminal, and its plan is complete.
   */
  lemma EndedTrail(trail: seq<Node>, n: Node, tasks: seq<Task>, carried: seq<Task>)
    requires Explored(trail, tasks, carried) && Settled(n, tasks, carried) && Terminal(n)
    ensures var t := trail + [n];
      && (forall j :: 0 <= j < |t| ==> Settled(t[j], tasks, carried))
      && Completes(n.plan, tasks, carried)
      && t != [] && Terminal(t[|t| - 1]) && n.plan == t[|t| - 1].plan
      && (forall j :: 0 <= j < |t| - 1 ==> !Terminal(t[j]))
  {
    TerminalCompletes(n, tasks, carried);
  }

  /** A node with nothing left to pick up or deliver holds a complete plan. */
  lemma TerminalCompletes(n: Node, tasks: seq<Task>, carried: seq<Task>)
    requires Accounts(n, tasks, carried) && Terminal(n)
    ensures Completes(n.plan, tasks, carried)
  {
  }

  /** Every plan collected from nodes that account for every task is complete. */
  lemma {:induction false} FinalPlansComplete(trail: seq<Node>, tasks: seq<Task>, carried: seq<Task>)
    requires forall k :: 0 <= k < |trail| ==> Accounts(trail[k], tasks, carried)
    ensures forall p :: p in FinalPlans(trail) ==> Completes(p, tasks, carried)
  {
    if trail != [] {
      var n := |trail| - 1;
      FinalPlansComplete(trail[..n], tasks, carried);
      if Terminal(trail[n]) {
        TerminalCompletes(trail[n], tasks, carried);
      }
    }
  }

  // ---------------------------------------------------------------------
  // The visited map
  // ---------------------------------------------------------------------

  /** `appendToQueue`'s decision for a state with hash h reached at distance d, and the visited map after it. */
  function Admit(visited: map<Key, nat>, h: Key, d: nat): (bool, map<Key, nat>)
  {
    if h !in visited || d < visited[h] then (true, visited[h := d]) else (false, visited)
  }

  /**
   * A state is admitted exactly when its hash is new or its distance
   * improves on the recorded one; afterwards its hash is recorded at its
   * distance or less, no recorded distance has increased, and the records
   * of other hashes are unchanged.
   */
  lemma AdmitRule(visited: map<Key, nat>, h: Key, d: nat)
    ensures var r := Admit(visited, h, d);
      && (r.0 <==> h !in visited || d < visited[h])
      && r.1.Keys == visited.Keys + {h} && r.1[h] <= d
      && (forall k :: k in visited ==> r.1[k] <= visited[k])
      && (forall k :: k in visited && k != h ==> r.1[k] == visited[k])
  {
  }

  /** Offering the nodes of gen in turn: the visited map after them, and the nodes admitted to the frontier. */
  function Offered(visited: map<Key, nat>, gen: seq<Node>): (map<Key, nat>, seq<Node>)
  {
    if gen == [] then (visited, [])
    else
      var n := |gen| - 1;
      var r := Offered(visited, gen[..n]);
      var a := Admit(r.0, KeyOf(gen[n]), gen[n].plan.distance);
      (a.1, r.1 + if a.0 then [gen[n]] else [])
  }

  /**
   * After offering any nodes, every hash seen before or offered is
   * recorded, no record grew, each offered node's hash is recorded at
   * its distance or less, and only offered nodes were admitted.
   */
  lemma {:induction false} OfferedLowers(visited: map<Key, nat>, gen: seq<Node>)
    ensures forall k :: k in visited ==> k in Offered(visited, gen).0 && Offered(visited, gen).0[k] <= visited[k]
    ensures forall n :: n in gen ==> KeyOf(n) in Offered(visited, gen).0 && Offered(visited, gen).0[KeyOf(n)] <= n.plan.distance
    ensures forall n :: n in Offered(visited, gen).1 ==> n in gen
  {
    if gen != [] {
      var n := |gen| - 1;
      OfferedLowers(visited, gen[..n]);
      AdmitRule(Offered(visited, gen[..n]).0, KeyOf(gen[n]), gen[n].plan.distance);
      forall x | x in gen
        ensures KeyOf(x) in Offered(visited, gen).0 && Offered(visited, gen).0[KeyOf(x)] <= x.plan.distance
      {
        if x != gen[n] {
          assert x in gen[..n] by {
            var i :| 0 <= i < |gen| && gen[i] == x;
            assert gen[..n][i] == x;
          }
        }
      }
    }
  }

  // ---------------------------------------------------------------------
  // The planners' loops
  // ---------------------------------------------------------------------

  /** The loop that gathers `Utils.combination(l, i)` for i = 1 .. |l|. */
  method PowerSet(l: seq<Task>) returns (r: seq<seq<Task>>)
    ensures r == Combinations(l)
  {
    r := [];
    for i := 1 to |l| + 1
      invariant r == UpTo(l, i - 1)
    {
      r := r + Choose(l, i);
    }
  }

  /** The feasibility loop: the summed weight of a selection. */
  method WeightOf(ts: seq<Task>) returns (w: nat)
    ensures w == WeightSum(ts)
  {
    w := 0;
    for k := 0 to |ts|
      invariant w == WeightSum(ts[..k])
    {
      assert ts[..k + 1][..k] == ts[..k];
      w := w + ts[k].weight;
    }
    assert ts[..|ts|] == ts;
  }

  /**
   * The pickup loop for a selection that fits: each task is appended to
   * the plan as a pickup, removed from the city's pickup list and filed
   * under its destination. The removal always finds the city's list, so
   * removeTask's NullPointerException cannot occur here.
   */
  method PickUp(c: City, ts: seq<Task>, plan: CustomPlan, pickups: Lists, deliveries: Lists)
    returns (plan': CustomPlan, pickups': Lists, deliveries': Lists)
    requires c in pickups && pickups[c] != [] && SubList(ts, pickups[c])
    ensures plan' == Appended(plan, ts, true) && pickups' == Taken(pickups, c, ts) && deliveries' == Filed(deliveries, ts)
  {
    SubListMultiset(ts, pickups[c]);
    plan', pickups', deliveries' := plan, pickups, deliveries;
    for k := 0 to |ts|
      invariant plan' == Appended(plan, ts[..k], true)
      invariant pickups' == Taken(pickups, c, ts[..k]) && deliveries' == Filed(deliveries, ts[..k])
    {
      var t := ts[k];
      assert ts[..k + 1][..k] == ts[..k];
      TakenKeepsKey(pickups, c, ts, k);
      plan' := plan'.(steps := plan'.steps + [PickupAt(t)]);
      pickups' := Removed(pickups', c, t);
      deliveries' := Added(deliveries', t.deliveryCity, t);
    }
    assert ts[..|ts|] == ts;
  }

  /**
   * BFS's final choice: the first collected plan of least distance, found
   * by a running minimum with strict comparison. None stands for the
   * NullPointerException when no plan was collected.
   */
  method MinPlan(plans: seq<CustomPlan>) returns (best: Option<CustomPlan>)
    ensures best.None? <==> plans == []
    ensures best.Some? ==> best.value in plans && forall p :: p in plans ==> best.value.distance <= p.distance
    ensures best.Some? ==> exists k :: 0 <= k < |plans| && plans[k] == best.value &&
                                       forall j :: 0 <= j < k ==> plans[j].distance > best.value.distance
  {
    if plans == [] {
      return None;
    }
    var b := plans[0];
    ghost var bi := 0;
    for k := 1 to |plans|
      invariant 0 <= bi < k && plans[bi] == b
      invariant forall j :: 0 <= j < k ==> b.distance <= plans[j].distance
      invariant forall j :: 0 <= j < bi ==> plans[j].distance > b.distance
    {
      if plans[k].distance < b.distance {
        b, bi := plans[k], k;
      }
    }
    best := Some(b);
  }

  /** The outcome of a search: the plan found, an exception thrown, or the iteration budget spent. */
  datatype Outcome = Found(plan: CustomPlan) | Thrown | OutOfFuel

  /** The node a state stands for. */
  ghost function NodeOf(st: State): Node
    reads st
  {
    Node(st.plan, st.currentCity, st.pickupMapping, st.deliveryMapping, st.freeSpace)
  }

  /** The entry a state stands for on the frontier. */
  ghost function EntryOf(st: State): (e: Entry)
    reads st
    ensures e.Priority() == st.Priority()
  {
    Entry(NodeOf(st), st.futureCost)
  }

  /** Nothing is left to pick up or deliver. */
  predicate Terminal(n: Node)
  {
    n.pickups == map[] && n.deliveries == map[]
  }

  /** The plans of the terminal nodes, in order. */
  function FinalPlans(trail: seq<Node>): seq<CustomPlan>
  {
    if trail == [] then []
    else
      var n := |trail| - 1;
      FinalPlans(trail[..n]) + if Terminal(trail[n]) then [trail[n].plan] else []
  }

  lemma FinalPlansSnoc(trail: seq<Node>, n: Node)
    ensures FinalPlans(trail + [n]) == FinalPlans(trail) + if Terminal(n) then [n.plan] else []
  {
    assert (trail + [n])[..|trail|] == trail;
  }

  /** Offering one more node: the visited map and the admitted nodes after it. */
  lemma OfferedSnoc(visited: map<Key, nat>, gen: seq<Node>, n: Node)
    ensures var r := Offered(visited, gen);
      var a := Admit(r.0, KeyOf(n), n.plan.distance);
      Offered(visited, gen + [n]) == (a.1, if a.0 then r.1 + [n] else r.1)
  {
    assert (gen + [n])[..|gen|] == gen;
    var r := Offered(visited, gen);
    assert r.1 + [] == r.1;
  }

  /** No element occurs twice. */
  ghost predicate Unique<T>(q: seq<T>)
  {
    forall i, j :: 0 <= i < j < |q| ==> q[i] != q[j]
  }

  /** Taking an element out keeps the rest unique, and the element is no longer among them. */
  lemma UniqueWithout<T>(q: seq<T>, j: nat)
    requires Unique(q) && j < |q|
    ensures Unique(q[..j] + q[j + 1..]) && q[j] !in q[..j] + q[j + 1..]
  {
    var w := q[..j] + q[j + 1..];
    assert forall i :: 0 <= i < |w| ==> w[i] == if i < j then q[i] else q[i + 1];
  }

  lemma UniqueSnoc<T>(q: seq<T>, x: T)
    requires Unique(q) && x !in q
    ensures Unique(q + [x])
  {
  }

  /** The states qs stand for the nodes ns, in order, each with an estimate the heuristic allows. */
  ghost predicate Stands(dist: Plans.Distance, qs: seq<State>, ns: seq<Node>)
    reads qs
  {
    && |qs| == |ns|
    && forall j :: 0 <= j < |qs| ==>
      NodeOf(qs[j]) == ns[j] && Heuristic(dist, ns[j].pickups, ns[j].deliveries, qs[j].futureCost)
  }

  lemma StandsSnoc(dist: Plans.Distance, qs: seq<State>, ns: seq<Node>, st: State, n: Node)
    requires Stands(dist, qs, ns) && NodeOf(st) == n && Heuristic(dist, n.pickups, n.deliveries, st.futureCost)
    ensures Stands(dist, qs + [st], ns + [n])
  {
  }

  /** Appending an element leaves a prefix alone and extends the suffix after it. */
  lemma SnocSlices<T>(q: seq<T>, x: T, k: nat)
    requires k <= |q|
    ensures (q + [x])[..k] == q[..k] && (q + [x])[k..] == q[k..] + [x]
  {
  }

  lemma SplitAt<T>(q: seq<T>, k: nat)
    requires k <= |q|
    ensures q == q[..k] + q[k..]
  {
  }

  /** The entries the states qs stand for, in order. */
  ghost function EntriesOf(qs: seq<State>): seq<Entry>
    reads qs
  {
    seq(|qs|, j requires 0 <= j < |qs| reads qs => EntryOf(qs[j]))
  }

  lemma EntriesOfConcat(a: seq<State>, b: seq<State>)
    ensures EntriesOf(a + b) == EntriesOf(a) + EntriesOf(b)
  {
    assert forall j :: 0 <= j < |a| + |b| ==> (a + b)[j] == if j < |a| then a[j] else b[j - |a|];
  }

  lemma EntriesOfWithout(q: seq<State>, j: nat)
    requires j < |q|
    ensures EntriesOf(q[..j] + q[j + 1..]) == EntriesOf(q)[..j] + EntriesOf(q)[j + 1..]
  {
    var w := q[..j] + q[j + 1..];
    assert forall i :: 0 <= i < |w| ==> w[i] == if i < j then q[i] else q[i + 1];
  }

  /** The entries of states standing for nodes ns carry those nodes, with estimates the heuristic allows. */
  lemma StandsEntries(dist: Plans.Distance, qs: seq<State>, ns: seq<Node>)
    requires Stands(dist, qs, ns)
    ensures |EntriesOf(qs)| == |ns|
    ensures forall j :: 0 <= j < |ns| ==>
      EntriesOf(qs)[j].node == ns[j] && Heuristic(dist, ns[j].pickups, ns[j].deliveries, EntriesOf(qs)[j].h)
  {
  }

  /** A frontier state as a value: its node and its estimate of the cost still to come. */
  datatype Entry = Entry(node: Node, h: nat)
  {
    /** The priority `compareTo` orders by: the distance so far plus the estimate. */
    function Priority(): nat
    {
      node.plan.distance + h
    }
  }

  /** The frontier as a value: its entries in insertion order and the visited map. */
  datatype Frontier = Frontier(entries: seq<Entry>, visited: map<Key, nat>)

  /** The frontier without its m-th entry. */
  function Rest(f: Frontier, m: nat): Frontier
    requires m < |f.entries|
  {
    Frontier(f.entries[..m] + f.entries[m + 1..], f.visited)
  }

  /** Entry m is the first of least priority. */
  predicate FirstLeast(entries: seq<Entry>, m: nat)
  {
    && m < |entries|
    && (forall j :: 0 <= j < |entries| ==> entries[m].Priority() <= entries[j].Priority())
    && (forall j :: 0 <= j < m ==> entries[j].Priority() > entries[m].Priority())
  }

  /**
   * One iteration of either search, from frontier f to frontier g: entry m
   * is polled and delivered, giving `polled`. A terminal node offers
   * nothing. Any other node offers its successors: those the visited map
   * admits join the end of the frontier, in order, each with an estimate
   * the heuristic allows, and the visited map is the one after the offers.
   */
  ghost predicate Iteration(dist: Plans.Distance, neighbours: City -> seq<City>, f: Frontier, m: nat, polled: Node, g: Frontier)
  {
    && m < |f.entries| && polled == Delivered(f.entries[m].node)
    && var rest := Rest(f, m).entries;
      if Terminal(polled) then g == Rest(f, m)
      else
        var r := Offered(f.visited, Successors(dist, polled, neighbours(polled.city)));
        Joins(dist, rest, r.1, r.0, g)
  }

  /** Polling a node that is terminal once delivered leaves the rest of the frontier. */
  lemma TerminalIteration(dist: Plans.Distance, neighbours: City -> seq<City>, f: Frontier, m: nat, polled: Node)
    requires m < |f.entries| && polled == Delivered(f.entries[m].node) && Terminal(polled)
    ensures Iteration(dist, neighbours, f, m, polled, Rest(f, m))
  {
  }

  /** Polling a node that is not terminal once delivered appends the entries Joins describes. */
  lemma ExpandedIteration(dist: Plans.Distance, neighbours: City -> seq<City>, f: Frontier, m: nat, polled: Node, g: Frontier)
    requires m < |f.entries| && polled == Delivered(f.entries[m].node) && !Terminal(polled)
    requires var r := Offered(f.visited, Successors(dist, polled, neighbours(polled.city)));
      Joins(dist, Rest(f, m).entries, r.1, r.0, g)
    ensures Iteration(dist, neighbours, f, m, polled, g)
  {
  }

  /**
   * g holds the entries `rest` followed by one entry per node of `adm`, in
   * order, each with an estimate the heuristic allows, and the visited map v.
   */
  ghost predicate Joins(dist: Plans.Distance, rest: seq<Entry>, adm: seq<Node>, v: map<Key, nat>, g: Frontier)
  {
    && g.visited == v && |g.entries| == |rest| + |adm| && g.entries[..|rest|] == rest
    && forall j :: 0 <= j < |adm| ==>
      g.entries[|rest| + j].node == adm[j] && Heuristic(dist, adm[j].pickups, adm[j].deliveries, g.entries[|rest| + j].h)
  }

  lemma JoinsConcat(dist: Plans.Distance, rest: seq<Entry>, adm: seq<Node>, v: map<Key, nat>, news: seq<Entry>)
    requires |news| == |adm|
    requires forall j :: 0 <= j < |adm| ==> news[j].node == adm[j] && Heuristic(dist, adm[j].pickups, adm[j].deliveries, news[j].h)
    ensures Joins(dist, rest, adm, v, Frontier(rest + news, v))
  {
    var g := rest + news;
    assert g[..|rest|] == rest;
    assert forall j :: 0 <= j < |news| ==> g[|rest| + j] == news[j];
  }

  /** The polled nodes `trail` come from the frontiers `fronts`, one Iteration each, polling entry picks[j] of fronts[j]. */
  ghost predicate Iterations(dist: Plans.Distance, neighbours: City -> seq<City>, fronts: seq<Frontier>, picks: seq<nat>, trail: seq<Node>)
  {
    && |fronts| == |trail| + 1 && |picks| == |trail|
    && forall j :: 0 <= j < |trail| ==> Iteration(dist, neighbours, fronts[j], picks[j], trail[j], fronts[j + 1])
  }

  lemma IterationsSnoc(dist: Plans.Distance, neighbours: City -> seq<City>, fronts: seq<Frontier>, picks: seq<nat>, trail: seq<Node>,
                  m: nat, polled: Node, g: Frontier)
    requires Iterations(dist, neighbours, fronts, picks, trail) && Iteration(dist, neighbours, fronts[|trail|], m, polled, g)
    ensures Iterations(dist, neighbours, fronts + [g], picks + [m], trail + [polled])
  {
    var fronts', picks', trail' := fronts + [g], picks + [m], trail + [polled];
    forall j | 0 <= j < |trail'|
      ensures Iteration(dist, neighbours, fronts'[j], picks'[j], trail'[j], fronts'[j + 1])
    {
      if j < |trail| {
        assert fronts'[j] == fronts[j] && fronts'[j + 1] == fronts[j + 1] && picks'[j] == picks[j] && trail'[j] == trail[j];
      }
    }
  }

  /** Each pick is the first entry of least priority on the frontier it was polled from. */
  predicate LeastPicks(fronts: seq<Frontier>, picks: seq<nat>)
  {
    forall j :: 0 <= j < |picks| && j < |fronts| ==> FirstLeast(fronts[j].entries, picks[j])
  }

  lemma LeastPicksSnoc(fronts: seq<Frontier>, picks: seq<nat>, g: Frontier, m: nat)
    requires LeastPicks(fronts, picks) && |picks| < |fronts| && FirstLeast(fronts[|picks|].entries, m)
    ensures LeastPicks(fronts + [g], picks + [m])
  {
    var fronts', picks' := fronts + [g], picks + [m];
    forall j | 0 <= j < |picks'| && j < |fronts'|
      ensures FirstLeast(fronts'[j].entries, picks'[j])
    {
      assert fronts'[j] == fronts[j];
    }
  }

  /** Each pick is the oldest entry of its frontier. */
  predicate Oldest(picks: seq<nat>)
  {
    forall j :: 0 <= j < |picks| ==> picks[j] == 0
  }

  class PlanBuilder {
    /** The topology: the distance between two cities and each city's neighbours. */
    const dist: Plans.Distance
    const neighbours: City -> seq<City>
    /** The frontier, in insertion order. */
    var queue: seq<State>
    /** The shortest distance each hash has been enqueued at. */
    var visited: map<Key, nat>
    /** The tasks to pick up and the tasks on board when the search started. */
    ghost const tasks: seq<Task>
    ghost const carried: seq<Task>

    /** Every state on the frontier is sound and accounts for every task, and no state is on it twice. */
    ghost predicate Valid()
      reads this, queue
    {
      AllSound(queue) && Unique(queue)
    }

    /** Every state of qs is sound and accounts for every task. */
    ghost predicate AllSound(qs: seq<State>)
      reads qs
    {
      forall st :: st in qs ==> Sound(NodeOf(st)) && Accounts(NodeOf(st), tasks, carried)
    }

    /** The frontier as a value: the entries its states stand for, and the visited map. */
    ghost function Front(): Frontier
      reads this, queue
    {
      Frontier(EntriesOf(queue), visited)
    }

    /**
     * Since the frontier was q0 and the visited map v0, the nodes gen have
     * been offered in turn: the visited map is the one Offered computes,
     * and the frontier is q0 followed by states standing for exactly the
     * admitted nodes, in order, each with an estimate the heuristic
     * allows; no state is on the frontier twice.
     */
    ghost predicate Extends(q0: seq<State>, v0: map<Key, nat>, gen: seq<Node>)
      reads this, queue
    {
      var r := Offered(v0, gen);
      && |q0| <= |queue| && queue[..|q0|] == q0
      && visited == r.0 && Stands(dist, queue[|q0|..], r.1)
      && Unique(queue)
    }

    /**
     * The frontier starts with the vehicle at its city, the tasks to pick
     * up grouped by pickup city, the carried tasks grouped by destination,
     * and the capacity left over by the carried tasks; nothing is visited.
     */
    constructor (dist: Plans.Distance, neighbours: City -> seq<City>, home: City, capacity: int, tasks: seq<Task>, carried: seq<Task>)
      ensures this.dist == dist && this.neighbours == neighbours && visited == map[]
      ensures this.tasks == tasks && this.carried == carried
      ensures |queue| == 1 && fresh(queue[0])
      ensures NodeOf(queue[0]) == Node(Start(home), home, Grouped(tasks, true), Grouped(carried, false), capacity - WeightSum(carried))
      ensures Valid()
    {
      var pickups := new Mapping(tasks, true);
      var deliveries := new Mapping(carried, false);
      GroupedShape(tasks, true);
      GroupedShape(carried, false);
      StartAccounts(home, capacity - WeightSum(carried), tasks, carried);
      var s := new State(dist, Start(home), home, pickups.m, deliveries.m, capacity - WeightSum(carried));
      this.dist := dist;
      this.neighbours := neighbours;
      this.tasks := tasks;
      this.carried := carried;
      queue := [s];
      visited := map[];
    }

    /**
     * `appendToQueue`: the state joins the frontier when its hash is new or
     * its distance improves on the recorded one, and the record is updated;
     * otherwise nothing changes.
     */
    method AppendToQueue(st: State)
      modifies this
      ensures var a := Admit(old(visited), st.hash, st.plan.distance);
        visited == a.1 && queue == old(queue) + if a.0 then [st] else []
    {
      if st.hash in visited {
        if visited[st.hash] > st.plan.distance {
          visited := visited[st.hash := st.plan.distance];
          queue := queue + [st];
        }
      } else {
        visited := visited[st.hash := st.plan.distance];
        queue := queue + [st];
      }
    }

    /** `appendToQueue(new State(...))` for one offered node. */
    method Offer(n: Node, ghost q0: seq<State>, ghost v0: map<Key, nat>, ghost gen: seq<Node>)
      requires Extends(q0, v0, gen)
      modifies this
      ensures forall st :: st in queue ==> st in old(queue) || fresh(st)
      ensures Extends(q0, v0, gen + [n])
    {
      ghost var q1, r0 := queue, Offered(v0, gen);
      ghost var tail := q1[|q0|..];
      var st := NewState(n);
      AppendToQueue(st);
      assert Stands(dist, tail, r0.1);
      OfferedSnoc(v0, gen, n);
      if queue != q1 {
        UniqueSnoc(q1, st);
        StandsSnoc(dist, tail, r0.1, st, n);
        SnocSlices(q1, st, |q0|);
      }
    }

    /** The state standing for a node, as `new State(...)` builds it. */
    method NewState(n: Node) returns (st: State)
      ensures fresh(st) && NodeOf(st) == n && st.hash == KeyOf(n)
      ensures Heuristic(dist, n.pickups, n.deliveries, st.futureCost)
    {
      st := new State(dist, n.plan, n.city, n.pickups, n.deliveries, n.freeSpace);
    }

    /**
     * `pickupTasks` for one neighbour: for each combination of the tasks
     * waiting at the current city, the state that picks it up (when it
     * fits) and moves; then the state that only moves.
     */
    method OfferNeighbour(s: State, neigh: City, ghost q0: seq<State>, ghost v0: map<Key, nat>, ghost gen: seq<Node>)
      requires Sound(NodeOf(s)) && Extends(q0, v0, gen)
      modifies this
      ensures Extends(q0, v0, gen + Offers(dist, NodeOf(s), neigh))
      ensures forall st :: st in queue ==> st in old(queue) || fresh(st)
    {
      ghost var picked: seq<Node> := [];
      assert gen + picked == gen;
      if s.currentCity in s.pickupMapping {
        var available := s.pickupMapping[s.currentCity];
        var powerSet := PowerSet(available);
        CombinationsSound(available, |available|);
        OfferCombinations(s, neigh, powerSet, q0, v0, gen);
        picked := Each(dist, NodeOf(s), neigh, powerSet);
      }
      var n := Node(AppendMove(dist, s.plan, neigh), neigh, s.pickupMapping, s.deliveryMapping, s.freeSpace);
      Offer(n, q0, v0, gen + picked);
      OffersSplit(dist, NodeOf(s), neigh, gen, picked);
    }

    /** The loop of `pickupTasks` over the combinations of the tasks waiting at the current city. */
    method OfferCombinations(s: State, neigh: City, powerSet: seq<seq<Task>>, ghost q0: seq<State>, ghost v0: map<Key, nat>, ghost gen: seq<Node>)
      requires Sound(NodeOf(s)) && s.currentCity in s.pickupMapping
      requires forall j :: 0 <= j < |powerSet| ==> SubList(powerSet[j], s.pickupMapping[s.currentCity])
      requires Extends(q0, v0, gen)
      modifies this
      ensures Extends(q0, v0, gen + Each(dist, NodeOf(s), neigh, powerSet))
      ensures forall st :: st in queue ==> st in old(queue) || fresh(st)
    {
      ghost var node := NodeOf(s);
      assert gen + Each(dist, node, neigh, powerSet[..0]) == gen;
      for j := 0 to |powerSet|
        invariant Extends(q0, v0, gen + Each(dist, node, neigh, powerSet[..j]))
        invariant forall st :: st in queue ==> st in old(queue) || fresh(st)
      {
        OfferCombination(s, neigh, powerSet[j], q0, v0, gen + Each(dist, node, neigh, powerSet[..j]));
        EachPrefix(dist, node, neigh, powerSet, j, gen);
      }
      assert powerSet[..|powerSet|] == powerSet;
    }

    /**
     * The body of `pickupTasks` for one combination of the waiting tasks:
     * the combination is picked up when its weight fits the free space, and
     * the state after the move is offered to the frontier.
     */
    method OfferCombination(s: State, neigh: City, toDo: seq<Task>, ghost q0: seq<State>, ghost v0: map<Key, nat>, ghost gen: seq<Node>)
      requires Sound(NodeOf(s)) && s.currentCity in s.pickupMapping && SubList(toDo, s.pickupMapping[s.currentCity])
      requires Extends(q0, v0, gen)
      modifies this
      ensures Extends(q0, v0, gen + [Successor(dist, NodeOf(s), neigh, toDo)])
      ensures forall st :: st in queue ==> st in old(queue) || fresh(st)
    {
      var weightSum := WeightOf(toDo);
      var plan, pickups, deliveries := s.plan, s.pickupMapping, s.deliveryMapping;
      if weightSum <= s.freeSpace {
        plan, pickups, deliveries := PickUp(s.currentCity, toDo, plan, pickups, deliveries);
      }
      plan := AppendMove(dist, plan, neigh);
      assert Node(plan, neigh, pickups, deliveries, s.freeSpace - weightSum) == Successor(dist, NodeOf(s), neigh, toDo);
      Offer(Node(plan, neigh, pickups, deliveries, s.freeSpace - weightSum), q0, v0, gen);
    }

    /**
     * `pickupTasks`: the states offered for each neighbour of the current
     * city in turn are those of Successors, each admitted or not by the
     * visited map; admitted ones are new states appended to the frontier,
     * so the frontier's entries are the old ones followed by one per
     * admitted node.
     */
    method PickupTasks(s: State)
      requires Sound(NodeOf(s)) && Accounts(NodeOf(s), tasks, carried) && Valid()
      modifies this
      ensures forall st :: st in queue ==> st in old(queue) || fresh(st)
      ensures var r := Offered(old(visited), Successors(dist, NodeOf(s), neighbours(s.currentCity)));
        Joins(dist, old(EntriesOf(queue)), r.1, r.0, Front())
      ensures Valid()
    {
      ghost var q0, v0 := queue, visited;
      var ns := neighbours(s.currentCity);
      assert ns[..0] == [];
      for k := 0 to |ns|
        invariant Extends(q0, v0, Successors(dist, NodeOf(s), ns[..k]))
        invariant forall st :: st in queue ==> st in q0 || fresh(st)
      {
        SuccessorsPrefix(dist, NodeOf(s), ns, k);
        OfferNeighbour(s, ns[k], q0, v0, Successors(dist, NodeOf(s), ns[..k]));
      }
      assert ns[..|ns|] == ns;
      ghost var gen := Successors(dist, NodeOf(s), ns);
      assert AllSound(q0) && EntriesOf(q0) == old(EntriesOf(queue));
      ghost var tail := queue[|q0|..];
      EntriesOfConcat(q0, tail);
      AllSoundAdmitted(NodeOf(s), ns, v0, tail);
      AllSoundConcat(q0, tail);
      SplitAt(queue, |q0|);
      StandsEntries(dist, tail, Offered(v0, gen).1);
      JoinsConcat(dist, EntriesOf(q0), Offered(v0, gen).1, Offered(v0, gen).0, EntriesOf(tail));
    }

    /**
     * Takes the j-th state off the frontier and delivers what it can. The
     * delivery never throws, because every frontier state files its tasks
     * under their destinations; the state stays sound and keeps every task
     * accounted for.
     */
    method TakeAt(j: nat, ghost f: Frontier) returns (s: State)
      requires Valid() && j < |queue| && f == Front()
      modifies this, queue[j]
      ensures s == old(queue[j]) && queue == old(queue[..j] + queue[j + 1..]) && visited == old(visited)
      ensures NodeOf(s) == Delivered(f.entries[j].node) && Rest(f, j) == Front()
      ensures Valid() && Settled(NodeOf(s), tasks, carried)
      ensures forall st :: st in queue ==> st in old(queue)
    {
      s := queue[j];
      assert s in queue;
      ghost var n := NodeOf(s);
      DeliveredKeeps(n, tasks, carried);
      ghost var q := queue;
      UniqueWithout(q, j);
      EntriesOfWithout(q, j);
      AllSoundWithout(q, j);
      queue := queue[..j] + queue[j + 1..];
      var thrown := s.DeliverTasks();
      assert !thrown;
      assert NodeOf(s) == Delivered(n);
    }

    /** States standing for the admitted successors of a sound node that accounts for every task do so too. */
    lemma AllSoundAdmitted(n: Node, ns: seq<City>, v0: map<Key, nat>, tail: seq<State>)
      requires Sound(n) && Accounts(n, tasks, carried)
      requires Stands(dist, tail, Offered(v0, Successors(dist, n, ns)).1)
      ensures AllSound(tail)
    {
      var gen := Successors(dist, n, ns);
      SuccessorsSound(dist, n, ns);
      SuccessorsAccounts(dist, n, ns, tasks, carried);
      OfferedLowers(v0, gen);
      forall st | st in tail
        ensures Sound(NodeOf(st)) && Accounts(NodeOf(st), tasks, carried)
      {
        var j :| 0 <= j < |tail| && tail[j] == st;
        assert NodeOf(st) == Offered(v0, gen).1[j];
      }
    }

    lemma AllSoundConcat(a: seq<State>, b: seq<State>)
      requires AllSound(a) && AllSound(b)
      ensures AllSound(a + b)
    {
    }

    lemma AllSoundWithout(q: seq<State>, j: nat)
      requires AllSound(q) && j < |q|
      ensures AllSound(q[..j] + q[j + 1..])
    {
      var w := q[..j] + q[j + 1..];
      forall st | st in w
        ensures st in q
      {
        var i :| 0 <= i < |w| && w[i] == st;
        assert st == if i < j then q[i] else q[i + 1];
      }
    }

    /** The index the priority queue polls: the first state that no state precedes in `compareTo`. */
    method MinIndex() returns (m: nat)
      requires queue != []
      ensures m < |queue|
      ensures forall j :: 0 <= j < |queue| ==> queue[m].Priority() <= queue[j].Priority()
      ensures forall j :: 0 <= j < m ==> queue[j].Priority() > queue[m].Priority()
    {
      m := 0;
      for k := 1 to |queue|
        invariant m < k
        invariant forall j :: 0 <= j < k ==> queue[m].Priority() <= queue[j].Priority()
        invariant forall j :: 0 <= j < m ==> queue[j].Priority() > queue[m].Priority()
      {
        if queue[k].CompareTo(queue[m]) < 0 {
          m := k;
        }
      }
    }

    /**
     * `queue.poll()` on the priority queue, then `deliverTasks`: takes the
     * first state of least priority off the frontier and delivers what it can.
     */
    method Poll(ghost f: Frontier) returns (s: State, ghost m: nat)
      requires Valid() && queue != [] && f == Front()
      modifies this, set st | st in queue
      ensures m < |old(queue)| && s == old(queue[m]) && queue == old(queue[..m] + queue[m + 1..]) && visited == old(visited)
      ensures FirstLeast(f.entries, m)
      ensures NodeOf(s) == Delivered(f.entries[m].node) && Rest(f, m) == Front()
      ensures Valid() && Settled(NodeOf(s), tasks, carried)
      ensures forall st :: st in queue ==> st in old(queue)
    {
      var k := MinIndex();
      assert queue[k] in queue;
      assert forall j :: 0 <= j < |queue| ==> f.entries[j].Priority() == queue[j].Priority();
      m := k;
      s := TakeAt(k, f);
    }

    /**
     * `ASTARPlan`: polls a state of least priority, delivers what it can,
     * and returns its plan once nothing is left to pick up or deliver;
     * otherwise offers its successors. An empty frontier throws. The
     * delivery never throws, because every frontier state files its tasks
     * under their destinations. `trail` lists the polled states after
     * delivery and `fronts` the frontier before each poll and after the
     * last: each polled node is the first entry of least priority,
     * delivered, and the frontiers follow one Iteration at a time from the
     * frontier the search started with to the one it leaves. The plan
     * returned is that of the first terminal node, and it picks up every
     * task and delivers every task, picked up or carried.
     */
    method ASTARPlan(fuel: nat) returns (r: Outcome, ghost trail: seq<Node>, ghost fronts: seq<Frontier>, ghost picks: seq<nat>)
      requires Valid()
      modifies this, queue
      ensures Valid()
      ensures Iterations(dist, neighbours, fronts, picks, trail) && fronts[0] == old(Front()) && fronts[|trail|] == Front()
      ensures LeastPicks(fronts, picks)
      ensures forall j :: 0 <= j < |trail| ==> Settled(trail[j], tasks, carried)
      ensures r.Found? ==> Completes(r.plan, tasks, carried)
      ensures r.Found? ==> trail != [] && Terminal(trail[|trail| - 1]) && r.plan == trail[|trail| - 1].plan
      ensures r.Found? ==> forall j :: 0 <= j < |trail| - 1 ==> !Terminal(trail[j])
      ensures !r.Found? ==> forall j :: 0 <= j < |trail| ==> !Terminal(trail[j])
      ensures r.Thrown? ==> queue == [] && fronts[|trail|].entries == []
      ensures r.OutOfFuel? ==> |trail| == fuel
    {
      trail, fronts, picks := [], [Front()], [];
      ghost var f0 := fronts[0];
      r := OutOfFuel;
      var n := 0;
      while n < fuel
        invariant Valid() && n == |trail| <= fuel
        invariant forall st :: st in queue ==> st in old(queue) || fresh(st)
        invariant Explored(trail, tasks, carried)
        invariant Iterations(dist, neighbours, fronts, picks, trail) && fronts[0] == f0 && fronts[n] == Front()
        invariant LeastPicks(fronts, picks)
      {
        if queue == [] {
          ExploredMeans(trail, tasks, carried);
          return Thrown, trail, fronts, picks;
        }
        var plan, polled, m, g := Visit(true, fronts[n]);
        IterationsSnoc(dist, neighbours, fronts, picks, trail, m, polled, g);
        LeastPicksSnoc(fronts, picks, g, m);
        if plan.Some? {
          EndedTrail(trail, polled, tasks, carried);
          return Found(plan.value), trail + [polled], fronts + [g], picks + [m];
        }
        ExploredSnoc(trail, polled, tasks, carried);
        trail, fronts, picks := trail + [polled], fronts + [g], picks + [m];
        n := n + 1;
      }
      ExploredMeans(trail, tasks, carried);
    }

    /**
     * `BFSPlan`: polls the oldest state, delivers what it can, collects its
     * plan when nothing is left to do and otherwise offers its successors,
     * until the frontier is empty; then picks the first collected plan of
     * least distance. No collected plan stands for the NullPointerException.
     * `trail` lists the polled states after delivery and `fronts` the
     * frontier before each poll and after the last: each polled node is
     * the oldest entry, delivered, and the frontiers follow one Iteration at a
     * time from the frontier the search started with to the one it
     * leaves, which is empty unless the budget ran out. The plan returned
     * picks up every task and delivers every task, picked up or carried.
     */
    method BFSPlan(fuel: nat) returns (r: Outcome, ghost trail: seq<Node>, ghost fronts: seq<Frontier>, ghost picks: seq<nat>)
      requires Valid()
      modifies this, queue
      ensures Valid()
      ensures Iterations(dist, neighbours, fronts, picks, trail) && fronts[0] == old(Front()) && fronts[|trail|] == Front()
      ensures Oldest(picks)
      ensures forall j :: 0 <= j < |trail| ==> Settled(trail[j], tasks, carried)
      ensures r.Found? ==> Completes(r.plan, tasks, carried)
      ensures r.OutOfFuel? <==> fronts[|trail|].entries != []
      ensures r.OutOfFuel? <==> queue != []
      ensures r.Thrown? <==> queue == [] && FinalPlans(trail) == []
      ensures r.Found? ==> r.plan in FinalPlans(trail)
      ensures r.Found? ==> forall p :: p in FinalPlans(trail) ==> r.plan.distance <= p.distance
      ensures r.Found? ==> exists k :: (0 <= k < |FinalPlans(trail)| && FinalPlans(trail)[k] == r.plan &&
        forall j :: 0 <= j < k ==> FinalPlans(trail)[j].distance > r.plan.distance)
    {
      var finalPlans: seq<CustomPlan> := [];
      trail, fronts, picks := [], [Front()], [];
      ghost var f0 := fronts[0];
      var n := 0;
      while queue != [] && n < fuel
        invariant Valid() && finalPlans == FinalPlans(trail) && AllSettled(trail, tasks, carried)
        invariant forall st :: st in queue ==> st in old(queue) || fresh(st)
        invariant Iterations(dist, neighbours, fronts, picks, trail) && fronts[0] == f0 && fronts[|trail|] == Front()
        invariant Oldest(picks)
        decreases fuel - n
      {
        var plan, polled, m, g := Visit(false, fronts[|trail|]);
        FinalPlansSnoc(trail, polled);
        AllSettledSnoc(trail, polled, tasks, carried);
        IterationsSnoc(dist, neighbours, fronts, picks, trail, 0, polled, g);
        if plan.Some? {
          finalPlans := finalPlans + [plan.value];
        }
        trail, fronts, picks := trail + [polled], fronts + [g], picks + [0];
        n := n + 1;
      }
      AllSettledMeans(trail, tasks, carried);
      if queue != [] {
        return OutOfFuel, trail, fronts, picks;
      }
      var best := MinPlan(finalPlans);
      r := if best.Some? then Found(best.value) else Thrown;
    }

    /**
     * The body of the search loops: polls the first state of least
     * priority (`ASTARPlan`) or the oldest state (`BFSPlan`) and delivers
     * what it can, giving `polled`; returns its plan when nothing is left
     * to do, and offers its successors otherwise. The frontier goes from f
     * to g by one Iteration polling entry m.
     */
    method Visit(byPriority: bool, ghost f: Frontier) returns (plan: Option<CustomPlan>, ghost polled: Node, ghost m: nat, ghost g: Frontier)
      requires Valid() && queue != [] && f == Front()
      modifies this, set st | st in queue
      ensures Valid() && g == Front() && Iteration(dist, neighbours, f, m, polled, g)
      ensures if byPriority then FirstLeast(f.entries, m) else m == 0
      ensures Settled(polled, tasks, carried)
      ensures plan == if Terminal(polled) then Some(polled.plan) else None
      ensures forall st :: st in queue ==> st in old(queue) || fresh(st)
    {
      var s;
      if byPriority {
        s, m := Poll(f);
      } else {
        assert queue[0] in queue;
        s := TakeAt(0, f);
        m := 0;
      }
      polled := NodeOf(s);
      if s.deliveryMapping == map[] && s.pickupMapping == map[] {
        TerminalIteration(dist, neighbours, f, m, polled);
        return Some(s.plan), polled, m, Rest(f, m);
      }
      PickupTasks(s);
      ExpandedIteration(dist, neighbours, f, m, polled, Front());
      plan, g := None, Front();
    }
  }
}
