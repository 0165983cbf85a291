/**
 * The feasibility invariants of one action chain: the free space stays in
 * [0, capacity] after every prefix, and every task's pickup comes strictly
 * before its delivery on the same chain. Splicing a pickup/delivery pair
 * into a chain, and taking one out, are characterised here.
 */
module Feasibility {
  import opened Actions
  import opened Chains

  /** Net change of free space over `s`: Java's running `capacity += a.capacity`. */
  function SumDelta(s: seq<Action>): int
  {
    if s == [] then 0 else SumDelta(s[..|s| - 1]) + s[|s| - 1].Delta()
  }

  lemma {:induction false} SumDeltaConcat(a: seq<Action>, b: seq<Action>)
    ensures SumDelta(a + b) == SumDelta(a) + SumDelta(b)
    decreases |b|
  {
    if b == [] {
      assert a + b == a;
    } else {
      assert (a + b)[..|a + b| - 1] == a + b[..|b| - 1];
      SumDeltaConcat(a, b[..|b| - 1]);
    }
  }

  /** Invariant 1 for one chain: after every prefix the free space is in [0, cap]. */
  ghost predicate Fits(cap: nat, c: seq<Action>)
  {
    forall k :: 0 <= k <= |c| ==> FitsAt(cap, c, k)
  }

  /** The free space after the first k actions is in [0, cap]. */
  ghost predicate FitsAt(cap: nat, c: seq<Action>, k: nat)
    requires k <= |c|
  {
    0 <= cap + SumDelta(c[..k]) <= cap
  }

  /** Every delivery of `s` is preceded by the pickup of its task. */
  ghost predicate Closed(s: seq<Action>)
  {
    forall q :: 0 <= q < |s| ==> PickedBefore(s, q)
  }

  /** If the action at q is a delivery, its task's pickup occurs before q. */
  ghost predicate PickedBefore(s: seq<Action>, q: nat)
    requires q < |s|
  {
    s[q].Delivery? ==> Pickup(s[q].task) in s[..q]
  }

  /** If the action at q is a pickup, its task's delivery occurs after q. */
  ghost predicate DeliveredAfter(s: seq<Action>, q: nat)
    requires q < |s|
  {
    s[q].Pickup? ==> Delivery(s[q].task) in s[q + 1..]
  }

  /** Invariant 2 for one chain: pickup strictly before delivery, on this chain. */
  ghost predicate WellPaired(c: seq<Action>)
  {
    && Closed(c)
    && forall q :: 0 <= q < |c| ==> DeliveredAfter(c, q)
  }

  /** The pickup and delivery of `t` put at indices a and e + 1 around r[a..e]. */
  function Splice(r: seq<Action>, a: nat, e: nat, t: Task): (c: seq<Action>)
    requires a <= e <= |r|
    ensures |c| == |r| + 2 && c[a] == Pickup(t) && c[e + 1] == Delivery(t)
  {
    r[..a] + [Pickup(t)] + r[a..e] + [Delivery(t)] + r[e..]
  }

  /** Where the action at index k of r lands in Splice(r, a, e, t). */
  function Up(a: nat, e: nat, k: nat): nat
  {
    if k < a then k else if k < e then k + 1 else k + 2
  }

  /** Where the action at index i of Splice(r, a, e, t) came from, for i != a, e + 1. */
  function Down(a: nat, e: nat, i: nat): nat
  {
    if i <= a then i else if i <= e + 1 then i - 1 else i - 2
  }

  lemma SpliceIndex(r: seq<Action>, a: nat, e: nat, t: Task)
    requires a <= e <= |r|
    ensures forall k :: 0 <= k < |r| ==> Up(a, e, k) < |r| + 2 && Splice(r, a, e, t)[Up(a, e, k)] == r[k]
    ensures forall i :: 0 <= i < |r| + 2 && i != a && i != e + 1 ==>
              Down(a, e, i) < |r| && Up(a, e, Down(a, e, i)) == i && Splice(r, a, e, t)[i] == r[Down(a, e, i)]
  {
    var c := Splice(r, a, e, t);
    forall k | 0 <= k < |r| ensures c[Up(a, e, k)] == r[k] {
      if k < a {
      } else if k < e {
        assert c[k + 1] == r[a..e][k - a];
      } else {
        assert c[k + 2] == r[e..][k - e];
      }
    }
    forall i | 0 <= i < |r| + 2 && i != a && i != e + 1
      ensures Down(a, e, i) < |r| && c[i] == r[Down(a, e, i)]
    {
      assert Up(a, e, Down(a, e, i)) == i;
    }
  }

  lemma SumDeltaSingle(x: Action)
    ensures SumDelta([x]) == x.Delta()
  {
    assert [x][..0] == [];
  }

  /** The free space after rest[..k + 1] extends the one after rest[..k] by rest[k]. */
  lemma SumDeltaStep(rest: seq<Action>, k: nat)
    requires k < |rest|
    ensures SumDelta(rest[..k + 1]) == SumDelta(rest[..k]) + rest[k].Delta()
  {
    assert rest[..k + 1][..k] == rest[..k];
  }

  /** Free space after a prefix of the spliced chain, in terms of r. */
  lemma SplicePrefix(r: seq<Action>, a: nat, e: nat, t: Task, k: nat)
    requires a <= e <= |r| && k <= |r| + 2
    ensures var c := Splice(r, a, e, t);
      SumDelta(c[..k]) ==
        if k <= a then SumDelta(r[..k])
        else if k <= e + 1 then SumDelta(r[..k - 1]) - t.weight
        else SumDelta(r[..k - 2])
  {
    if k <= a {
      assert Splice(r, a, e, t)[..k] == r[..k];
    } else if k <= e + 1 {
      SplicePrefixInside(r, a, e, t, k);
    } else {
      SplicePrefixAfter(r, a, e, t, k);
    }
  }

  lemma SplicePrefixInside(r: seq<Action>, a: nat, e: nat, t: Task, k: nat)
    requires a < k <= e + 1 && e <= |r|
    ensures SumDelta(Splice(r, a, e, t)[..k]) == SumDelta(r[..k - 1]) - t.weight
  {
    var front := r[..a];
    var mid := r[a..k - 1];
    var p := [Pickup(t)];
    assert Splice(r, a, e, t)[..k] == (front + p) + mid;
    assert r[..k - 1] == front + mid;
    SumDeltaConcat(front + p, mid);
    SumDeltaConcat(front, p);
    SumDeltaConcat(front, mid);
    SumDeltaSingle(Pickup(t));
  }

  lemma SplicePrefixAfter(r: seq<Action>, a: nat, e: nat, t: Task, k: nat)
    requires a <= e && e + 1 < k <= |r| + 2
    ensures SumDelta(Splice(r, a, e, t)[..k]) == SumDelta(r[..k - 2])
  {
    var front := r[..a];
    var mid := r[a..e];
    var back := r[e..k - 2];
    var p := [Pickup(t)];
    var d := [Delivery(t)];
    assert Splice(r, a, e, t)[..k] == (((front + p) + mid) + d) + back;
    assert r[..k - 2] == (front + mid) + back;
    SumDeltaConcat(((front + p) + mid) + d, back);
    SumDeltaConcat((front + p) + mid, d);
    SumDeltaConcat(front + p, mid);
    SumDeltaConcat(front, p);
    SumDeltaConcat(front + mid, back);
    SumDeltaConcat(front, mid);
    SumDeltaSingle(Pickup(t));
    SumDeltaSingle(Delivery(t));
  }
}

module FeasibilityLoad {
  import opened Actions
  import opened Chains
  import opened Feasibility

  /** Prefixes of a closed, distinct sequence are closed and distinct. */
  lemma PrefixClosed(s: seq<Action>, k: nat)
    requires Distinct(s) && Closed(s) && k <= |s|
    ensures Distinct(s[..k]) && Closed(s[..k])
  {
    var p := s[..k];
    forall q | 0 <= q < k ensures PickedBefore(p, q) {
      if p[q].Delivery? {
        assert PickedBefore(s, q);
        assert p[q] == s[q] && p[..q] == s[..q];
      }
    }
  }

  /** Taking out a pickup whose delivery is absent keeps a sequence closed and distinct. */
  lemma RemoveOpenPickup(s: seq<Action>, m: nat)
    requires m < |s| && Distinct(s) && Closed(s) && s[m].Pickup? && Delivery(s[m].task) !in s
    ensures Distinct(s[..m] + s[m + 1..]) && Closed(s[..m] + s[m + 1..])
  {
    var s' := s[..m] + s[m + 1..];
    assert forall q :: 0 <= q < |s'| ==> s'[q] == s[if q < m then q else q + 1];
    forall q | 0 <= q < |s'| ensures PickedBefore(s', q) {
      if s'[q].Delivery? {
        var q' := if q < m then q else q + 1;
        assert s[q'] == s'[q] && s[q'] == Delivery(s[q'].task) && s[q'] in s;
        assert PickedBefore(s, q');
        var r :| 0 <= r < q' && s[..q'][r] == Pickup(s[q'].task);
        assert r != m;
        if r < m {
          assert s'[..q][r] == s[r];
        } else {
          assert s'[..q][r - 1] == s[r];
        }
      }
    }
  }

  /** A sequence nets what its two sides of any cut net together. */
  lemma SumDeltaSplit(s: seq<Action>, k: nat)
    requires k <= |s|
    ensures SumDelta(s) == SumDelta(s[..k]) + SumDelta(s[k..])
  {
    assert s == s[..k] + s[k..];
    SumDeltaConcat(s[..k], s[k..]);
  }

  /** Removing one action changes the net free space by exactly its delta. */
  lemma SumDeltaRemove(s: seq<Action>, m: nat)
    requires m < |s|
    ensures SumDelta(s) == SumDelta(s[..m] + s[m + 1..]) + s[m].Delta()
  {
    SumDeltaSplit(s, m + 1);
    SumDeltaStep(s, m);
    SumDeltaConcat(s[..m], s[m + 1..]);
  }

  /** In a closed, distinct sequence the last action, if a delivery, has its pickup earlier and nowhere else. */
  lemma LastDelivery(s: seq<Action>) returns (m: nat)
    requires s != [] && Distinct(s) && Closed(s) && s[|s| - 1].Delivery?
    ensures m < |s| - 1 && s[m] == Pickup(s[|s| - 1].task)
    ensures Delivery(s[|s| - 1].task) !in s[..|s| - 1]
  {
    var n := |s| - 1;
    var t := s[n].task;
    assert PickedBefore(s, n);
    m :| 0 <= m < n && s[..n][m] == Pickup(t);
    forall q | 0 <= q < n ensures s[..n][q] != Delivery(t) {
      assert s[q] != s[n];
    }
  }

  /**
   * If every delivery is preceded by its pickup, at least as much weight has
   * been picked up as delivered: the free space never exceeds the capacity.
   */
  lemma {:induction false} ClosedLoad(s: seq<Action>)
    requires Distinct(s) && Closed(s)
    ensures SumDelta(s) <= 0
    decreases |s|
  {
    if s != [] {
      var n := |s| - 1;
      var s0 := s[..n];
      PrefixClosed(s, n);
      if s[n].Pickup? {
        ClosedLoad(s0);
      } else {
        var m := LastDelivery(s);
        RemoveOpenPickup(s0, m);
        ClosedLoad(s0[..m] + s0[m + 1..]);
        SumDeltaRemove(s0, m);
      }
    }
  }

  /** Every prefix of a distinct, well-paired chain has free space at most the capacity. */
  lemma PairedPrefixLoad(c: seq<Action>, k: nat)
    requires Distinct(c) && WellPaired(c) && k <= |c|
    ensures SumDelta(c[..k]) <= 0
  {
    PrefixClosed(c, k);
    ClosedLoad(c[..k]);
  }
}

module PairSplice {
  import opened Actions
  import opened Chains
  import opened Feasibility
  import opened FeasibilityLoad

  lemma InsertDistinct(r: seq<Action>, a: nat, e: nat, t: Task)
    requires a <= e <= |r| && Distinct(r) && Pickup(t) !in r && Delivery(t) !in r
    ensures Distinct(Splice(r, a, e, t))
  {
    var c := Splice(r, a, e, t);
    SpliceIndex(r, a, e, t);
    forall i, j | 0 <= i < j < |c| ensures c[i] != c[j] {
      if i != a && i != e + 1 && j != a && j != e + 1 {
        assert Down(a, e, i) < Down(a, e, j);
      } else if i != a && i != e + 1 {
        assert c[i] in r;
      } else if j != a && j != e + 1 {
        assert c[j] in r;
      }
    }
  }

  lemma InsertClosed(r: seq<Action>, a: nat, e: nat, t: Task)
    requires a <= e <= |r| && Closed(r)
    ensures Closed(Splice(r, a, e, t))
  {
    var c := Splice(r, a, e, t);
    SpliceIndex(r, a, e, t);
    forall q | 0 <= q < |c| ensures PickedBefore(c, q) {
      if c[q].Delivery? {
        if q == e + 1 {
          assert c[..q][a] == Pickup(t);
        } else {
          var k := Down(a, e, q);
          assert PickedBefore(r, k);
          var i :| 0 <= i < k && r[..k][i] == Pickup(r[k].task);
          assert c[..q][Up(a, e, i)] == r[i];
        }
      }
    }
  }

  lemma InsertDelivered(r: seq<Action>, a: nat, e: nat, t: Task)
    requires a <= e <= |r| && WellPaired(r)
    ensures var c := Splice(r, a, e, t);
      forall q :: 0 <= q < |c| ==> DeliveredAfter(c, q)
  {
    var c := Splice(r, a, e, t);
    SpliceIndex(r, a, e, t);
    forall q | 0 <= q < |c| ensures DeliveredAfter(c, q) {
      if c[q].Pickup? {
        if q == a {
          assert c[q + 1..][e - a] == Delivery(t);
        } else {
          var k := Down(a, e, q);
          assert DeliveredAfter(r, k);
          var i :| 0 <= i < |r| - k - 1 && r[k + 1..][i] == Delivery(r[k].task);
          assert c[q + 1..][Up(a, e, k + 1 + i) - q - 1] == r[k + 1 + i];
        }
      }
    }
  }

  lemma SpliceElems(r: seq<Action>, a: nat, e: nat, t: Task)
    requires a <= e <= |r|
    ensures Elems(Splice(r, a, e, t)) == Elems(r) + {Pickup(t), Delivery(t)}
  {
    var c := Splice(r, a, e, t);
    SpliceIndex(r, a, e, t);
    forall x | x in Elems(c) ensures x in Elems(r) + {Pickup(t), Delivery(t)} {
      var i :| 0 <= i < |c| && c[i] == x;
      if i != a && i != e + 1 {
        assert r[Down(a, e, i)] == x;
      }
    }
    forall x | x in Elems(r) ensures x in Elems(c) {
      var k :| 0 <= k < |r| && r[k] == x;
      assert c[Up(a, e, k)] == x;
    }
    assert c[a] == Pickup(t) && c[e + 1] == Delivery(t);
  }

  /** Splicing a fresh task's pair into a distinct, well-paired chain keeps it so. */
  lemma InsertPairShape(r: seq<Action>, a: nat, e: nat, t: Task)
    requires a <= e <= |r| && Distinct(r) && WellPaired(r)
    requires Pickup(t) !in r && Delivery(t) !in r
    ensures var c := Splice(r, a, e, t);
      Distinct(c) && WellPaired(c) && Elems(c) == Elems(r) + {Pickup(t), Delivery(t)}
  {
    InsertDistinct(r, a, e, t);
    InsertClosed(r, a, e, t);
    InsertDelivered(r, a, e, t);
    SpliceElems(r, a, e, t);
  }

  /**
   * Splicing a pair into a chain that keeps invariant 1 keeps it exactly
   * when the free space is at least the weight from the pickup up to the
   * delivery, the check changingOrder makes.
   */
  lemma InsertPairFits(cap: nat, r: seq<Action>, a: nat, e: nat, t: Task)
    requires a <= e <= |r| && Fits(cap, r)
    ensures Fits(cap, Splice(r, a, e, t)) <==> forall k :: a <= k <= e ==> cap + SumDelta(r[..k]) - t.weight >= 0
  {
    var c := Splice(r, a, e, t);
    if forall k :: a <= k <= e ==> cap + SumDelta(r[..k]) - t.weight >= 0 {
      forall k | 0 <= k <= |c| ensures FitsAt(cap, c, k) {
        SplicePrefix(r, a, e, t, k);
        if k <= a {
          assert FitsAt(cap, r, k);
        } else if k <= e + 1 {
          assert FitsAt(cap, r, k - 1);
        } else {
          assert FitsAt(cap, r, k - 2);
        }
      }
    }
    if Fits(cap, c) {
      SplicedFits(cap, r, a, e, t);
    }
  }

  /** A splice within capacity leaves at least the weight free from the pickup up to the delivery. */
  lemma SplicedFits(cap: nat, r: seq<Action>, a: nat, e: nat, t: Task)
    requires a <= e <= |r| && Fits(cap, Splice(r, a, e, t))
    ensures forall k :: a <= k <= e ==> cap + SumDelta(r[..k]) - t.weight >= 0
  {
    forall k | a <= k <= e ensures cap + SumDelta(r[..k]) - t.weight >= 0 {
      SplicePrefixInside(r, a, e, t, k + 1);
      assert FitsAt(cap, Splice(r, a, e, t), k + 1);
    }
  }

  lemma RemoveDistinct(r: seq<Action>, a: nat, e: nat, t: Task)
    requires a <= e <= |r| && Distinct(Splice(r, a, e, t))
    ensures Distinct(r) && Pickup(t) !in r && Delivery(t) !in r
  {
    var c := Splice(r, a, e, t);
    SpliceIndex(r, a, e, t);
    forall i, j | 0 <= i < j < |r| ensures r[i] != r[j] {
      assert Up(a, e, i) < Up(a, e, j);
    }
    forall k | 0 <= k < |r| ensures r[k] != Pickup(t) && r[k] != Delivery(t) {
      assert c[Up(a, e, k)] == r[k];
    }
  }

  lemma RemoveClosed(r: seq<Action>, a: nat, e: nat, t: Task)
    requires a <= e <= |r| && Distinct(Splice(r, a, e, t)) && Closed(Splice(r, a, e, t))
    ensures Closed(r)
  {
    var c := Splice(r, a, e, t);
    SpliceIndex(r, a, e, t);
    forall k | 0 <= k < |r| ensures PickedBefore(r, k) {
      var q := Up(a, e, k);
      assert c[q] == r[k] && q != e + 1;
      assert PickedBefore(c, q);
      RemovePickedBefore(r, a, e, t, k);
    }
  }

  lemma RemovePickedBefore(r: seq<Action>, a: nat, e: nat, t: Task, k: nat)
    requires a <= e <= |r| && k < |r| && r[k] != Delivery(t)
    requires PickedBefore(Splice(r, a, e, t), Up(a, e, k))
    requires Splice(r, a, e, t)[Up(a, e, k)] == r[k]
    ensures PickedBefore(r, k)
  {
    if r[k].Delivery? {
      var c := Splice(r, a, e, t);
      var q := Up(a, e, k);
      var i :| 0 <= i < q && c[..q][i] == Pickup(r[k].task);
      assert c[i] == Pickup(r[k].task);
      assert i != a;
      assert i != e + 1;
      SpliceIndex(r, a, e, t);
      assert r[..k][Down(a, e, i)] == c[i];
    }
  }

  lemma RemoveDeliveredAt(r: seq<Action>, a: nat, e: nat, t: Task, k: nat)
    requires a <= e <= |r| && k < |r| && r[k].Pickup? && r[k] != Pickup(t)
    requires DeliveredAfter(Splice(r, a, e, t), Up(a, e, k))
    requires Splice(r, a, e, t)[Up(a, e, k)] == r[k]
    ensures DeliveredAfter(r, k)
  {
    var c := Splice(r, a, e, t);
    var q := Up(a, e, k);
    var i :| 0 <= i < |c| - q - 1 && c[q + 1..][i] == Delivery(r[k].task);
    var j := q + 1 + i;
    assert c[j] == Delivery(r[k].task);
    assert j != a;
    assert j != e + 1;
    SpliceIndex(r, a, e, t);
    assert r[k + 1..][Down(a, e, j) - k - 1] == c[j];
  }

  lemma RemoveDelivered(r: seq<Action>, a: nat, e: nat, t: Task)
    requires a <= e <= |r| && Distinct(Splice(r, a, e, t)) && WellPaired(Splice(r, a, e, t))
    ensures forall k :: 0 <= k < |r| ==> DeliveredAfter(r, k)
  {
    var c := Splice(r, a, e, t);
    SpliceIndex(r, a, e, t);
    forall k | 0 <= k < |r| ensures DeliveredAfter(r, k) {
      if r[k].Pickup? {
        assert DeliveredAfter(c, Up(a, e, k));
        assert r[k] != Pickup(t) by {
          RemoveDistinct(r, a, e, t);
        }
        RemoveDeliveredAt(r, a, e, t, k);
      }
    }
  }

  lemma RemoveFits(cap: nat, r: seq<Action>, a: nat, e: nat, t: Task)
    requires a <= e <= |r| && Fits(cap, Splice(r, a, e, t)) && Distinct(r) && WellPaired(r)
    ensures Fits(cap, r)
  {
    forall k | 0 <= k <= |r| ensures FitsAt(cap, r, k) {
      var k' := if k <= a then k else if k <= e then k + 1 else k + 2;
      SplicePrefix(r, a, e, t, k');
      assert FitsAt(cap, Splice(r, a, e, t), k');
      PairedPrefixLoad(r, k);
    }
  }

  /** Taking a task's pair out of a feasible chain leaves a feasible chain. */
  lemma RemovePair(cap: nat, c: seq<Action>, r: seq<Action>, a: nat, e: nat, t: Task)
    requires a <= e <= |r| && c == Splice(r, a, e, t)
    requires Distinct(c) && WellPaired(c) && Fits(cap, c)
    ensures Distinct(r) && WellPaired(r) && Fits(cap, r)
    ensures Pickup(t) !in r && Delivery(t) !in r
    ensures Elems(r) == Elems(c) - {Pickup(t), Delivery(t)}
  {
    RemoveDistinct(r, a, e, t);
    RemoveClosed(r, a, e, t);
    RemoveDelivered(r, a, e, t);
    RemoveFits(cap, r, a, e, t);
    SpliceElems(r, a, e, t);
  }
}
