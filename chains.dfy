/**
 * The linked representation of a vehicle's action chain used by both
 * Solution classes: `nextActionVehicle` gives a vehicle's first action and
 * `nextAction` maps an action to its successor, null at the end.
 */
module Chains {
  import opened Wrappers
  import opened Actions

  /** The successor map `nextAction`; a value None is a stored null. */
  type NextMap = map<Action, Option<Action>>

  /** `nextAction.get(a)`: a missing key reads as null, like a stored null. */
  function Succ(next: NextMap, a: Action): Option<Action>
  {
    if a in next then next[a] else None
  }

  /** `nextAction.get(a)` for an action that may itself be null. */
  function Follow(next: NextMap, a: Option<Action>): Option<Action>
  {
    if a.None? then None else Succ(next, a.value)
  }

  /** `nextActionVehicle.get(v)`. */
  function Head(heads: map<Vehicle, Option<Action>>, v: Vehicle): Option<Action>
  {
    if v in heads then heads[v] else None
  }

  /** An index at which x occurs in c. */
  ghost function IndexOf(c: seq<Action>, x: Action): (i: nat)
    requires x in c
    ensures i < |c| && c[i] == x
  {
    var i :| 0 <= i < |c| && c[i] == x; i
  }

  /**
   * No action occurs twice in `c`: each action's index is the only one.
   * (Stated through IndexOf so that it unfolds once per index, not per pair.)
   */
  ghost predicate Distinct(c: seq<Action>)
  {
    forall i :: 0 <= i < |c| ==> IndexOf(c, c[i]) == i
  }

  /** Pairwise different actions make a distinct chain. */
  lemma DistinctIntro(c: seq<Action>)
    requires forall i, j :: 0 <= i < j < |c| ==> c[i] != c[j]
    ensures Distinct(c)
  {
    forall i | 0 <= i < |c| ensures IndexOf(c, c[i]) == i {
      var k := IndexOf(c, c[i]);
      assert k < i || k == i || i < k;
    }
  }

  /** The actions of a chain, as a set. */
  ghost function Elems(c: seq<Action>): set<Action>
  {
    set x | x in c
  }

  /**
   * Walking `next` from `head` meets exactly the actions of `c`, in order,
   * and then null: `c` is the chain that starts at `head`.
   */
  ghost predicate Linked(next: NextMap, head: Option<Action>, c: seq<Action>)
  {
    && head == At(c, 0)
    && forall i {:trigger Succ(next, c[i])} :: 0 <= i < |c| ==> Succ(next, c[i]) == At(c, i + 1)
  }

  /** The action at index i of a chain, null past its end. */
  function At(c: seq<Action>, i: nat): Option<Action>
  {
    if i < |c| then Some(c[i]) else None
  }

  lemma {:induction false} NoRepeat(next: NextMap, head: Option<Action>, c: seq<Action>, i: nat, j: nat)
    requires Linked(next, head, c) && i < j < |c|
    ensures c[i] != c[j]
    decreases |c| - j
  {
    if j + 1 == |c| {
      assert Succ(next, c[j]) == None && Succ(next, c[i]) == Some(c[i + 1]);
    } else {
      assert Succ(next, c[i]) == Some(c[i + 1]);
      assert Succ(next, c[j]) == Some(c[j + 1]);
      NoRepeat(next, head, c, i + 1, j + 1);
    }
  }

  /** A chain that ends in null has no cycle: its actions are pairwise distinct. */
  lemma LinkedDistinct(next: NextMap, head: Option<Action>, c: seq<Action>)
    requires Linked(next, head, c)
    ensures Distinct(c)
  {
    forall i: nat, j: nat | i < j < |c| ensures c[i] != c[j] {
      NoRepeat(next, head, c, i, j);
    }
  }

  /** Updates to actions off the chain do not disturb it. */
  lemma LinkedFrame(next: NextMap, next': NextMap, head: Option<Action>, c: seq<Action>)
    requires Linked(next, head, c)
    requires forall x :: x in c ==> Succ(next', x) == Succ(next, x)
    ensures Linked(next', head, c)
  {
    forall i | 0 <= i < |c|
      ensures Succ(next', c[i]) == At(c, i + 1)
    {
      assert c[i] in c;
    }
  }

  /** Dropping the first action: the successor of the head starts the rest. */
  lemma LinkedTail(next: NextMap, c: seq<Action>)
    requires |c| > 0 && Linked(next, Some(c[0]), c)
    ensures Linked(next, Succ(next, c[0]), c[1..])
  {
    var c' := c[1..];
    forall i | 0 <= i < |c'|
      ensures Succ(next, c'[i]) == At(c', i + 1)
    {
      assert c'[i] == c[i + 1];
    }
  }

  /**
   * Two puts splice a pickup and its delivery in front of a chain:
   * `head := p`, `next(p) := d`, `next(d) := old head`.
   */
  lemma LinkedPrepend(next: NextMap, head: Option<Action>, c: seq<Action>, p: Action, d: Action)
    requires Linked(next, head, c) && p !in c && d !in c && p != d
    ensures Linked(next[p := Some(d)][d := head], Some(p), [p, d] + c)
  {
    var next' := next[p := Some(d)][d := head];
    var c' := [p, d] + c;
    forall i | 0 <= i < |c'|
      ensures Succ(next', c'[i]) == At(c', i + 1)
    {
      if i == 0 {
        assert c'[i] == p && c'[1] == d;
      } else if i == 1 {
        assert c'[i] == d;
        assert c != [] ==> c'[2] == c[0];
      } else {
        assert c'[i] == c[i - 2] && c[i - 2] in c;
        assert i + 1 < |c'| ==> c'[i + 1] == c[i - 1];
        assert Succ(next, c[i - 2]) == At(c, i - 1);
      }
    }
  }

  /**
   * Unlinking the action at index j > 0: its predecessor is redirected to
   * its successor, `next(c[j-1]) := next(c[j])`.
   */
  lemma LinkedSkip(next: NextMap, c: seq<Action>, j: nat)
    requires 0 < j < |c| && Linked(next, Some(c[0]), c)
    ensures Linked(next[c[j - 1] := Succ(next, c[j])], Some(c[0]), c[..j] + c[j + 1..])
  {
    LinkedDistinct(next, Some(c[0]), c);
    var next' := next[c[j - 1] := Succ(next, c[j])];
    var c' := c[..j] + c[j + 1..];
    forall i | 0 <= i < |c'|
      ensures Succ(next', c'[i]) == At(c', i + 1)
    {
      if i < j - 1 {
        assert c'[i] == c[i] && c'[i + 1] == c[i + 1];
        assert Succ(next, c[i]) == At(c, i + 1);
      } else if i == j - 1 {
        assert c'[i] == c[j - 1];
        assert i + 1 < |c'| ==> c'[i + 1] == c[j + 1];
        assert Succ(next, c[j]) == At(c, j + 1);
      } else {
        assert c'[i] == c[i + 1];
        assert i + 1 < |c'| ==> c'[i + 1] == c[i + 2];
        assert Succ(next, c[i + 1]) == At(c, i + 2);
      }
    }
  }

  /**
   * Appending a pickup and its delivery after the last action `c[|c|-1]`,
   * whose successor is not yet written: `next(last) := p`, `next(p) := d`;
   * the chain is complete once `next(d)` is null.
   */
  lemma LinkedAppend(next: NextMap, head: Option<Action>, c: seq<Action>, p: Action, d: Action)
    requires c != [] && Linked(next[c[|c| - 1] := None], head, c)
    requires p !in c && d !in c && p != d
    ensures Linked(next[c[|c| - 1] := Some(p)][p := Some(d)][d := None], head, c + [p, d])
  {
    var last := c[|c| - 1];
    var old' := next[last := None];
    var next' := next[last := Some(p)][p := Some(d)][d := None];
    var c' := c + [p, d];
    assert At(c', 0) == At(c, 0);
    forall i | 0 <= i < |c'|
      ensures Succ(next', c'[i]) == At(c', i + 1)
    {
      if i < |c| - 1 {
        assert c'[i] == c[i] && c[i] in c && c'[i + 1] == c[i + 1];
        assert Succ(old', c[i]) == At(c, i + 1);
      } else if i == |c| - 1 {
        assert c'[i] == last && c'[i + 1] == p;
      } else if i == |c| {
        assert c'[i] == p && c'[i + 1] == d;
      } else {
        assert c'[i] == d;
      }
    }
  }

  /**
   * Two puts insert x right after the action at index e:
   * `next(c[e]) := x`, `next(x) := old next(c[e])`.
   */
  lemma LinkedInsert(next: NextMap, head: Option<Action>, c: seq<Action>, e: nat, x: Action)
    requires Linked(next, head, c) && e < |c| && x !in c
    ensures Linked(next[c[e] := Some(x)][x := Succ(next, c[e])], head, c[..e + 1] + [x] + c[e + 1..])
  {
    LinkedDistinct(next, head, c);
    var next' := next[c[e] := Some(x)][x := Succ(next, c[e])];
    var c' := c[..e + 1] + [x] + c[e + 1..];
    assert c'[0] == c[0];
    forall i | 0 <= i < |c'|
      ensures Succ(next', c'[i]) == At(c', i + 1)
    {
      if i < e {
        assert c'[i] == c[i] && c'[i + 1] == c[i + 1] && c[i] != c[e] && c[i] in c;
        assert Succ(next, c[i]) == At(c, i + 1);
      } else if i == e {
        assert c'[i] == c[e] && c'[i + 1] == x;
      } else if i == e + 1 {
        assert c'[i] == x;
        assert i + 1 < |c'| ==> c'[i + 1] == c[e + 1];
        assert Succ(next, c[e]) == At(c, e + 1);
      } else {
        assert c'[i] == c[i - 1] && c[i - 1] != c[e] && c[i - 1] in c;
        assert i + 1 < |c'| ==> c'[i + 1] == c[i];
        assert Succ(next, c[i - 1]) == At(c, i);
      }
    }
  }
}
