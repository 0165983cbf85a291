/**
 * The union-find over cities used by the MST heuristic
 * (3-deliberative/src/template/Set.java): `fromInt` lists the members of
 * each set under its identifier, `toInt` records each member's identifier,
 * and `i` is the next fresh identifier.
 */
module UnionFind {
  import opened Wrappers

  /** The two maps agree: x is recorded under k exactly when x is listed in set k. */
  ghost predicate Inv<T>(i: int, fromInt: map<int, seq<T>>, toInt: map<T, int>)
  {
    && (forall x :: x in toInt ==> toInt[x] in fromInt && x in fromInt[toInt[x]])
    && (forall k, x :: k in fromInt && x in fromInt[k] ==> x in toInt && toInt[x] == k)
    && (forall k :: k in fromInt ==> 0 <= k < i && fromInt[k] != [])
    && 0 <= i
  }

  /** Every set holds one of the recorded identifiers. */
  lemma IdsInUse<T>(i: int, fromInt: map<int, seq<T>>, toInt: map<T, int>)
    requires Inv(i, fromInt, toInt)
    ensures forall k :: k in fromInt ==> exists x :: x in toInt && toInt[x] == k
  {
    forall k | k in fromInt
      ensures exists x :: x in toInt && toInt[x] == k
    {
      var x := fromInt[k][0];
      assert x in fromInt[k];
      assert x in toInt && toInt[x] == k;
    }
  }

  /** When every element is recorded under the same identifier there is exactly one set. */
  lemma {:induction false} OneSet<T>(i: int, fromInt: map<int, seq<T>>, toInt: map<T, int>, a: T)
    requires Inv(i, fromInt, toInt) && a in toInt
    requires forall x :: x in toInt ==> toInt[x] == toInt[a]
    ensures |fromInt| == 1
  {
    IdsInUse(i, fromInt, toInt);
    forall k | k in fromInt
      ensures k == toInt[a]
    {
      var x :| x in toInt && toInt[x] == k;
    }
    assert fromInt.Keys == {toInt[a]};
  }

  /** `toInt` after union: b's old identifier is replaced by a's everywhere, and nothing else moves. */
  function Relabelled<T>(toInt: map<T, int>, from: int, to: int): map<T, int>
  {
    map x | x in toInt :: if toInt[x] == from then to else toInt[x]
  }

  /** `fromInt` after union: b's members appended to a's list and b's identifier gone. */
  function Merged<T>(fromInt: map<int, seq<T>>, ka: int, kb: int): map<int, seq<T>>
    requires ka in fromInt && kb in fromInt
  {
    fromInt[ka := fromInt[ka] + fromInt[kb]] - {kb}
  }

  /** Merging two different sets and relabelling b's members keeps the maps in agreement and removes one set. */
  lemma Joined<T>(i: int, fromInt: map<int, seq<T>>, toInt: map<T, int>, ka: int, kb: int)
    requires Inv(i, fromInt, toInt) && ka in fromInt && kb in fromInt && ka != kb
    ensures Inv(i, Merged(fromInt, ka, kb), Relabelled(toInt, kb, ka))
    ensures |Merged(fromInt, ka, kb)| == |fromInt| - 1
  {
    var f := Merged(fromInt, ka, kb);
    assert f.Keys == fromInt.Keys - {kb};
  }

  class Set<T(==)> {
    var i: int
    var fromInt: map<int, seq<T>>
    var toInt: map<T, int>

    ghost predicate Valid()
      reads this
    {
      Inv(i, fromInt, toInt)
    }

    /** The empty union-find. */
    constructor ()
      ensures Valid() && i == 0 && fromInt == map[] && toInt == map[]
    {
      i := 0;
      fromInt := map[];
      toInt := map[];
    }

    /**
     * Adds the singleton {a} under the fresh identifier i and increments i.
     * A fresh element keeps the two maps in agreement; making an element a
     * second time would leave it listed in its old set too.
     */
    method MakeSet(a: T)
      modifies this
      ensures i == old(i) + 1
      ensures fromInt == old(fromInt)[old(i) := [a]] && toInt == old(toInt)[a := old(i)]
      ensures old(Valid()) && a !in old(toInt) ==> Valid() && |fromInt| == |old(fromInt)| + 1
    {
      fromInt := fromInt[i := [a]];
      toInt := toInt[a := i];
      i := i + 1;
    }

    /** `findSet`: a's identifier; None stands for the NullPointerException on an element never made. */
    function FindSet(a: T): (r: Option<int>)
      reads this
      ensures r.Some? <==> a in toInt
      ensures Valid() && r.Some? ==> r.value in fromInt && a in fromInt[r.value]
    {
      if a in toInt then Some(toInt[a]) else None
    }

    /**
     * Joins the sets of a and b under a's identifier; `thrown` stands for the
     * NullPointerException when either was never made.
     */
    method Union(a: T, b: T) returns (thrown: bool)
      requires Valid()
      modifies this
      ensures Valid() && i == old(i)
      ensures thrown <==> a !in old(toInt) || b !in old(toInt)
      ensures thrown || old(toInt)[a] == old(toInt)[b] ==> fromInt == old(fromInt) && toInt == old(toInt)
      ensures !thrown ==> toInt == Relabelled(old(toInt), old(toInt)[b], old(toInt)[a]) && toInt[a] == toInt[b]
      ensures !thrown && old(toInt)[a] != old(toInt)[b] ==>
        fromInt == Merged(old(fromInt), old(toInt)[a], old(toInt)[b])
      ensures !thrown && old(toInt)[a] != old(toInt)[b] ==> |fromInt| == |old(fromInt)| - 1
    {
      var ia := FindSet(a);
      if ia.None? {
        return true;
      }
      var ib := FindSet(b);
      if ib.None? {
        return true;
      }
      thrown := false;
      var ka, kb := ia.value, ib.value;
      if ka != kb {
        ghost var f0, t0 := fromInt, toInt;
        var members := fromInt[kb];
        fromInt := fromInt[ka := fromInt[ka] + members];
        toInt := Relabel(toInt, members, ka);
        fromInt := fromInt - {kb};
        assert fromInt == Merged(f0, ka, kb);
        forall x | x in t0
          ensures (x in members) == (t0[x] == kb)
        {
        }
        assert toInt == Relabelled(t0, kb, ka);
        Joined(i, f0, t0, ka, kb);
      } else {
        assert toInt == Relabelled(toInt, kb, ka);
      }
    }

    /** The loop of union: every listed member is re-recorded under `to` when it is a key. */
    static method Relabel(toInt: map<T, int>, members: seq<T>, to: int) returns (r: map<T, int>)
      ensures r.Keys == toInt.Keys
      ensures forall x :: x in toInt ==> r[x] == if x in members then to else toInt[x]
    {
      r := toInt;
      var k := 0;
      while k < |members|
        invariant k <= |members| && r.Keys == toInt.Keys
        invariant forall x :: x in toInt ==> r[x] == if x in members[..k] then to else toInt[x]
      {
        if members[k] in r {
          r := r[members[k] := to];
        }
        assert members[..k + 1] == members[..k] + [members[k]];
        k := k + 1;
      }
      assert members[..k] == members;
    }
  }
}
