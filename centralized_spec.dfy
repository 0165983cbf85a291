/**
 * The initial solutions of the centralized agent: the naive chain that
 * carries tasks one after the other, the choice of the largest vehicle,
 * and the round-robin distribution of tasks over the fleet.
 */
module CentralizedInit {
  import opened Wrappers
  import opened Actions
  import opened Chains

  /** A TaskSet, in its iteration order: no task twice. */
  ghost predicate TaskSet(ts: seq<Task>)
  {
    forall i, j :: 0 <= i < j < |ts| ==> ts[i] != ts[j]
  }

  /** Pickup then delivery of each task in turn: P1 D1 P2 D2 ... */
  function NaiveChain(ts: seq<Task>): (c: seq<Action>)
    ensures |c| == 2 * |ts|
    decreases |ts|
  {
    if ts == [] then []
    else NaiveChain(ts[..|ts| - 1]) + [Pickup(ts[|ts| - 1]), Delivery(ts[|ts| - 1])]
  }

  /** The naive chain holds exactly the pickup and delivery of every task. */
  lemma {:induction false} NaiveChainElems(ts: seq<Task>, x: Action)
    ensures x in NaiveChain(ts) <==> x.task in ts
    decreases |ts|
  {
    if ts != [] {
      var init := ts[..|ts| - 1];
      NaiveChainElems(init, x);
      assert ts == init + [ts[|ts| - 1]];
      assert x.task in ts <==> x.task in init || x.task == ts[|ts| - 1];
    }
  }

  /** The naive chain of a task set is well paired and carries one task at a time. */
  lemma {:induction false} NaiveChainShape(ts: seq<Task>, k: nat)
    requires k < |ts|
    ensures NaiveChain(ts)[2 * k] == Pickup(ts[k]) && NaiveChain(ts)[2 * k + 1] == Delivery(ts[k])
    decreases |ts|
  {
    var init := ts[..|ts| - 1];
    if k < |ts| - 1 {
      NaiveChainShape(init, k);
    }
  }

  /**
   * `initSolutionSingle`'s choice: the first vehicle of largest capacity,
   * or -1 when no vehicle has a positive capacity.
   */
  function Biggest(vs: seq<Vehicle>): (b: int)
    ensures -1 <= b < |vs|
    decreases |vs|
  {
    if vs == [] then -1
    else
      var b := Biggest(vs[..|vs| - 1]);
      var best := if b < 0 then 0 else vs[b].capacity;
      if vs[|vs| - 1].capacity > best then |vs| - 1 else b
  }

  /**
   * The choice is -1 exactly when every capacity is 0; otherwise it has a
   * positive capacity that no vehicle exceeds and that every earlier
   * vehicle falls short of.
   */
  lemma {:induction false} BiggestIsFirstMax(vs: seq<Vehicle>)
    ensures var b := Biggest(vs);
      && (b == -1 <==> forall k :: 0 <= k < |vs| ==> vs[k].capacity == 0)
      && (b >= 0 ==>
        && vs[b].capacity > 0
        && (forall k :: 0 <= k < |vs| ==> vs[k].capacity <= vs[b].capacity)
        && (forall k :: 0 <= k < b ==> vs[k].capacity < vs[b].capacity))
    decreases |vs|
  {
    if vs != [] {
      var n := |vs| - 1;
      var init := vs[..n];
      BiggestIsFirstMax(init);
      assert forall k :: 0 <= k < n ==> init[k] == vs[k];
    }
  }

  /** One more vehicle considered: it becomes the choice only if strictly larger. */
  lemma BiggestStep(vs: seq<Vehicle>, i: nat)
    requires i < |vs|
    ensures var b := Biggest(vs[..i]);
      Biggest(vs[..i + 1]) == if vs[i].capacity > (if b < 0 then 0 else vs[b].capacity) then i else b
  {
    assert vs[..i + 1][..i] == vs[..i];
  }

  /** `capacities.get(j % numVehicles)`. */
  function CapAt(caps: seq<nat>, j: nat): nat
    requires |caps| > 0
  {
    caps[j % |caps|]
  }

  /**
   * The inner loop of `initSolutionMultiple`: from counter j, skip vehicles
   * (taken modulo n) too small for weight w, giving up after n of them.
   */
  function FirstFit(caps: seq<nat>, w: nat, j: nat, check: nat): (r: Option<nat>)
    requires |caps| > 0 && check <= |caps|
    ensures r.Some? ==> j <= r.value && CapAt(caps, r.value) >= w
    decreases |caps| - check
  {
    if check == |caps| then None
    else if CapAt(caps, j) >= w then Some(j)
    else FirstFit(caps, w, j + 1, check + 1)
  }

  /** Giving up means the n - check counters from j were all too small. */
  lemma {:induction false} FirstFitMisses(caps: seq<nat>, w: nat, j: nat, check: nat)
    requires |caps| > 0 && check <= |caps| && FirstFit(caps, w, j, check).None?
    ensures forall m :: j <= m < j + |caps| - check ==> CapAt(caps, m) < w
    decreases |caps| - check
  {
    if check < |caps| {
      FirstFitMisses(caps, w, j + 1, check + 1);
    }
  }

  lemma MulBound(d: int, n: int)
    requires n > 0
    ensures d >= 1 ==> d * n >= n
    ensures d <= -1 ==> d * n <= -n
  {
    if d >= 1 {
      assert d * n == (d - 1) * n + n;
      assert (d - 1) * n >= 0;
    } else if d <= -1 {
      assert d * n == (d + 1) * n - n;
      assert (d + 1) * n <= 0;
    }
  }

  /** The remainder is determined by any quotient-remainder decomposition. */
  lemma ModUnique(x: int, n: int, q: int, r: int)
    requires n > 0 && 0 <= r < n && x == q * n + r
    ensures x % n == r
  {
    assert x == (x / n) * n + x % n;
    assert (x / n - q) * n == r - x % n;
    MulBound(x / n - q, n);
  }

  /** n consecutive counters from j meet every vehicle index. */
  lemma ModCover(j: nat, i: nat, n: nat)
    requires 0 <= i < n
    ensures j <= j + (i - j) % n < j + n && (j + (i - j) % n) % n == i
  {
    var d := (i - j) / n;
    var k := (i - j) % n;
    assert i - j == d * n + k;
    ModUnique(j + k, n, -d, i);
  }

  /** Giving up happens exactly when no vehicle at all can carry weight w. */
  lemma FirstFitNone(caps: seq<nat>, w: nat, j: nat)
    requires |caps| > 0
    ensures FirstFit(caps, w, j, 0).None? <==> forall i :: 0 <= i < |caps| ==> caps[i] < w
  {
    var n := |caps|;
    if FirstFit(caps, w, j, 0).None? {
      FirstFitMisses(caps, w, j, 0);
      forall i | 0 <= i < n ensures caps[i] < w {
        ModCover(j, i, n);
        assert CapAt(caps, j + (i - j) % n) < w;
      }
    }
  }

  /**
   * The vehicle index `initSolutionMultiple` gives each task, in order,
   * continuing from counter j; None when some task fits no vehicle.
   */
  function RoundRobin(caps: seq<nat>, ts: seq<Task>, j: nat): (r: Option<seq<nat>>)
    requires |caps| > 0
    ensures r.Some? ==> |r.value| == |ts|
    decreases |ts|
  {
    if ts == [] then Some([])
    else
      match FirstFit(caps, ts[0].weight, j, 0)
      case None => None
      case Some(j') =>
        match RoundRobin(caps, ts[1..], j' + 1)
        case None => None
        case Some(rest) => Some([j' % |caps|] + rest)
  }

  /** Each task is given a vehicle index whose capacity is at least its weight. */
  lemma {:induction false} RoundRobinFits(caps: seq<nat>, ts: seq<Task>, j: nat)
    requires |caps| > 0 && RoundRobin(caps, ts, j).Some?
    ensures var a := RoundRobin(caps, ts, j).value;
      forall k :: 0 <= k < |ts| ==> a[k] < |caps| && caps[a[k]] >= ts[k].weight
    decreases |ts|
  {
    if ts != [] {
      var j' := FirstFit(caps, ts[0].weight, j, 0).value;
      RoundRobinFits(caps, ts[1..], j' + 1);
      var a := RoundRobin(caps, ts, j).value;
      forall k | 0 <= k < |ts| ensures a[k] < |caps| && caps[a[k]] >= ts[k].weight {
        if k > 0 {
          assert ts[1..][k - 1] == ts[k];
        }
      }
    }
  }

  /** The distribution fails exactly when some task is heavier than every vehicle's capacity. */
  lemma {:induction false} RoundRobinFails(caps: seq<nat>, ts: seq<Task>, j: nat)
    requires |caps| > 0
    ensures RoundRobin(caps, ts, j).None? <==>
      exists k :: 0 <= k < |ts| && forall i :: 0 <= i < |caps| ==> caps[i] < ts[k].weight
    decreases |ts|
  {
    if ts != [] {
      FirstFitNone(caps, ts[0].weight, j);
      match FirstFit(caps, ts[0].weight, j, 0)
      case None =>
        assert forall i :: 0 <= i < |caps| ==> caps[i] < ts[0].weight;
      case Some(j') =>
        RoundRobinFails(caps, ts[1..], j' + 1);
        if RoundRobin(caps, ts[1..], j' + 1).None? {
          var k :| 0 <= k < |ts[1..]| && forall i :: 0 <= i < |caps| ==> caps[i] < ts[1..][k].weight;
          assert ts[1..][k] == ts[k + 1];
        } else {
          forall k | 0 <= k < |ts| ensures exists i :: 0 <= i < |caps| && caps[i] >= ts[k].weight {
            if k == 0 {
              assert caps[j' % |caps|] >= ts[0].weight;
            } else {
              var r := RoundRobin(caps, ts[1..], j' + 1).value;
              RoundRobinFits(caps, ts[1..], j' + 1);
              assert ts[1..][k - 1] == ts[k];
              assert caps[r[k - 1]] >= ts[k].weight;
            }
          }
        }
    }
  }

  /** The tasks assigned to vehicle i, in the order of ts. */
  function Assigned(ts: seq<Task>, a: seq<nat>, i: nat): seq<Task>
    requires |a| == |ts|
    decreases |ts|
  {
    if ts == [] then []
    else
      var n := |ts| - 1;
      Assigned(ts[..n], a[..n], i) + (if a[n] == i then [ts[n]] else [])
  }

  /** A task is assigned to vehicle i exactly when its own entry of a says i. */
  lemma {:induction false} AssignedMember(ts: seq<Task>, a: seq<nat>, i: nat, t: Task)
    requires |a| == |ts|
    ensures t in Assigned(ts, a, i) <==> exists p :: 0 <= p < |ts| && ts[p] == t && a[p] == i
    decreases |ts|
  {
    if ts != [] {
      var n := |ts| - 1;
      AssignedMember(ts[..n], a[..n], i, t);
      if t in Assigned(ts[..n], a[..n], i) {
        var p :| 0 <= p < n && ts[..n][p] == t && a[..n][p] == i;
        assert ts[p] == t && a[p] == i;
      }
      if exists p :: 0 <= p < |ts| && ts[p] == t && a[p] == i {
        var p :| 0 <= p < |ts| && ts[p] == t && a[p] == i;
        if p < n {
          assert ts[..n][p] == t && a[..n][p] == i;
        }
      }
    }
  }

  /** Each vehicle's share of a task set is a task set. */
  lemma {:induction false} AssignedDistinct(ts: seq<Task>, a: seq<nat>, i: nat)
    requires |a| == |ts| && TaskSet(ts)
    ensures TaskSet(Assigned(ts, a, i))
    decreases |ts|
  {
    if ts != [] {
      var n := |ts| - 1;
      assert TaskSet(ts[..n]) by {
        forall p, q | 0 <= p < q < n ensures ts[..n][p] != ts[..n][q] {
          assert ts[..n][p] == ts[p] && ts[..n][q] == ts[q];
        }
      }
      AssignedDistinct(ts[..n], a[..n], i);
      if a[n] == i {
        var r := Assigned(ts[..n], a[..n], i);
        assert ts[n] !in r by {
          AssignedMember(ts[..n], a[..n], i, ts[n]);
          forall p | 0 <= p < n ensures ts[..n][p] != ts[n] {
            assert ts[..n][p] == ts[p];
          }
        }
        var r' := r + [ts[n]];
        forall p, q | 0 <= p < q < |r'| ensures r'[p] != r'[q] {
          if q == |r| {
            assert r'[p] == r[p] && r[p] in r;
          } else {
            assert r'[p] == r[p] && r'[q] == r[q];
          }
        }
      }
    }
  }

  /** Two vehicles never share a task of a task set. */
  lemma AssignedDisjoint(ts: seq<Task>, a: seq<nat>, i: nat, m: nat, t: Task)
    requires |a| == |ts| && TaskSet(ts)
    requires t in Assigned(ts, a, i) && t in Assigned(ts, a, m)
    ensures i == m
  {
    AssignedMember(ts, a, i, t);
    AssignedMember(ts, a, m, t);
    var p :| 0 <= p < |ts| && ts[p] == t && a[p] == i;
    var q :| 0 <= q < |ts| && ts[q] == t && a[q] == m;
    assert p == q;
  }

  /** Prefixing the assignments already made to the outcome of the rest. */
  function Prepend(a: seq<nat>, r: Option<seq<nat>>): Option<seq<nat>>
  {
    match r
    case None => None
    case Some(rest) => Some(a + rest)
  }

  lemma PrependNil(r: Option<seq<nat>>)
    ensures Prepend([], r) == r
  {
    if r.Some? {
      assert [] + r.value == r.value;
    }
  }

  /** Assigning one more task appends it to its vehicle's share only. */
  lemma AssignedSnoc(ts: seq<Task>, a: seq<nat>, k: nat, v: nat, i: nat)
    requires |a| == k < |ts|
    ensures Assigned(ts[..k + 1], a + [v], i) == Assigned(ts[..k], a, i) + (if v == i then [ts[k]] else [])
  {
    assert ts[..k + 1][..k] == ts[..k];
    assert (a + [v])[..k] == a;
  }

  /** Every task lands on a vehicle whose capacity is at least its weight. */
  lemma AssignedFits(caps: seq<nat>, ts: seq<Task>, i: nat, t: Task)
    requires |caps| > 0 && RoundRobin(caps, ts, 0).Some?
    requires t in Assigned(ts, RoundRobin(caps, ts, 0).value, i)
    ensures i < |caps| && t.weight <= caps[i]
  {
    var a := RoundRobin(caps, ts, 0).value;
    AssignedMember(ts, a, i, t);
    RoundRobinFits(caps, ts, 0);
  }

  /** The task at k fits from counter j: it is assigned to j mod n and the rest continue from j + 1. */
  lemma RoundRobinStep(caps: seq<nat>, ts: seq<Task>, k: nat, j0: nat, j: nat, a: seq<nat>)
    requires |caps| > 0 && k < |ts| && FirstFit(caps, ts[k].weight, j0, 0) == Some(j)
    ensures Prepend(a, RoundRobin(caps, ts[k..], j0)) == Prepend(a + [j % |caps|], RoundRobin(caps, ts[k + 1..], j + 1))
  {
    assert ts[k..][0] == ts[k] && ts[k..][1..] == ts[k + 1..];
    match RoundRobin(caps, ts[k + 1..], j + 1)
    case None =>
    case Some(rest) =>
      assert a + ([j % |caps|] + rest) == (a + [j % |caps|]) + rest;
  }

  /** The task at k fits nowhere from counter j0: the whole distribution fails. */
  lemma RoundRobinStuck(caps: seq<nat>, ts: seq<Task>, k: nat, j0: nat, a: seq<nat>)
    requires |caps| > 0 && k < |ts| && FirstFit(caps, ts[k].weight, j0, 0).None?
    ensures Prepend(a, RoundRobin(caps, ts[k..], j0)).None?
  {
    assert ts[k..][0] == ts[k];
  }
}

