/**
 * The deliberative agent's multimap from a city to the tasks filed under it
 * (3-deliberative/src/template/Mapping.java): a pickup mapping files every
 * task under its pickup city, a delivery mapping under its delivery city.
 * The lists are values, so a copy never shares a list with its original.
 */
module Mappings {
  import opened Actions

  /** The contents of a mapping: each key's task list, in insertion order. */
  type Lists = map<City, seq<Task>>

  /** The city a task is filed under in a pickup (true) or delivery (false) mapping. */
  function CityOf(t: Task, pickup: bool): City
  {
    if pickup then t.pickupCity else t.deliveryCity
  }

  /** `add`: the task appended to c's list, which starts as a singleton when c is not a key. */
  function Added(m: Lists, c: City, t: Task): Lists
  {
    m[c := (if c in m then m[c] else []) + [t]]
  }

  /** `List.remove(Object)`: the first occurrence of t removed; the list is unchanged without one. */
  function Without(l: seq<Task>, t: Task): seq<Task>
  {
    if l == [] then []
    else if l[0] == t then l[1..]
    else [l[0]] + Without(l[1..], t)
  }

  /** `removeTask` on a key that is present: t leaves c's list, and c leaves the map once its list is empty. */
  function Removed(m: Lists, c: City, t: Task): Lists
    requires c in m
  {
    var l := Without(m[c], t);
    if l == [] then m - {c} else m[c := l]
  }

  /** The constructor's mapping: the tasks added one by one, in iteration order. */
  function Grouped(tasks: seq<Task>, pickup: bool): Lists
  {
    if tasks == [] then map[]
    else
      var n := |tasks| - 1;
      Added(Grouped(tasks[..n], pickup), CityOf(tasks[n], pickup), tasks[n])
  }

  /** Reference definition of one group: the tasks filed under c, in their original order. */
  function Filter(tasks: seq<Task>, c: City, pickup: bool): seq<Task>
  {
    if tasks == [] then []
    else
      var n := |tasks| - 1;
      Filter(tasks[..n], c, pickup) + (if CityOf(tasks[n], pickup) == c then [tasks[n]] else [])
  }

  /** No key maps to an empty list. */
  ghost predicate NoEmpty(m: Lists)
  {
    forall c :: c in m ==> m[c] != []
  }

  /** Every task sits under the city it is filed by. */
  ghost predicate FiledBy(m: Lists, pickup: bool)
  {
    forall c, t :: c in m && t in m[c] ==> CityOf(t, pickup) == c
  }

  /** The number of tasks over all lists. */
  ghost function Size(m: Lists): nat
    decreases m.Keys
  {
    if m == map[] then 0
    else
      var c :| c in m;
      |m[c]| + Size(m - {c})
  }

  /** Size may take any key first. */
  lemma {:induction false} SizeAt(m: Lists, c: City)
    requires c in m
    ensures Size(m) == |m[c]| + Size(m - {c})
    decreases m.Keys
  {
    var d :| d in m && Size(m) == |m[d]| + Size(m - {d});
    if d != c {
      SizeAt(m - {d}, c);
      SizeAt(m - {c}, d);
      assert m - {d} - {c} == m - {c} - {d};
    }
  }

  /** `add` files exactly one more task. */
  lemma AddedSize(m: Lists, c: City, t: Task)
    ensures Size(Added(m, c, t)) == Size(m) + 1
  {
    var m' := Added(m, c, t);
    SizeAt(m', c);
    assert m' - {c} == m - {c};
    if c in m {
      SizeAt(m, c);
    } else {
      assert m - {c} == m;
    }
  }

  /** Removing a task that is present shortens the list by one and leaves the other tasks in order. */
  lemma {:induction false} WithoutPresent(l: seq<Task>, t: Task)
    requires t in l
    ensures |Without(l, t)| == |l| - 1
    ensures multiset(Without(l, t)) == multiset(l) - multiset{t}
  {
    if l[0] != t {
      WithoutPresent(l[1..], t);
      assert l == [l[0]] + l[1..];
    } else {
      assert l == [l[0]] + l[1..];
    }
  }

  /** Removing a task keeps only tasks that were listed. */
  lemma {:induction false} WithoutSubset(l: seq<Task>, t: Task)
    ensures forall x :: x in Without(l, t) ==> x in l
  {
    if l != [] && l[0] != t {
      WithoutSubset(l[1..], t);
    }
  }

  /** `removeTask` of a listed task files exactly one task fewer. */
  lemma RemovedSize(m: Lists, c: City, t: Task)
    requires c in m && t in m[c]
    ensures Size(Removed(m, c, t)) == Size(m) - 1
  {
    var l := Without(m[c], t);
    WithoutPresent(m[c], t);
    SizeAt(m, c);
    if l != [] {
      var m' := m[c := l];
      SizeAt(m', c);
      assert m' - {c} == m - {c};
    }
  }

  /** All the tasks filed, with multiplicity. */
  ghost function Bag(m: Lists): multiset<Task>
    decreases m.Keys
  {
    if m == map[] then multiset{}
    else
      var c :| c in m;
      multiset(m[c]) + Bag(m - {c})
  }

  /** Bag may take any key first. */
  lemma {:induction false} BagAt(m: Lists, c: City)
    requires c in m
    ensures Bag(m) == multiset(m[c]) + Bag(m - {c})
    decreases m.Keys
  {
    var d :| d in m && Bag(m) == multiset(m[d]) + Bag(m - {d});
    if d != c {
      BagAt(m - {d}, c);
      BagAt(m - {c}, d);
      assert m - {d} - {c} == m - {c} - {d};
      calc {
        Bag(m);
        multiset(m[d]) + Bag(m - {d});
        multiset(m[d]) + (multiset(m[c]) + Bag(m - {d} - {c}));
        multiset(m[c]) + (multiset(m[d]) + Bag(m - {c} - {d}));
        multiset(m[c]) + Bag(m - {c});
      }
    }
  }

  /** `add` files exactly t more. */
  lemma AddedBag(m: Lists, c: City, t: Task)
    ensures Bag(Added(m, c, t)) == Bag(m) + multiset{t}
  {
    var m' := Added(m, c, t);
    BagAt(m', c);
    assert m' - {c} == m - {c};
    if c in m {
      BagAt(m, c);
    } else {
      assert m - {c} == m;
    }
  }

  /** Filing l under c, in place of whatever c held, files l and the other cities' tasks. */
  lemma ReplacedBag(m: Lists, c: City, l: seq<Task>)
    ensures Bag(m[c := l]) == multiset(l) + Bag(m - {c})
  {
    var m' := m[c := l];
    BagAt(m', c);
    assert m' - {c} == m - {c};
  }

  /** `removeTask` of a listed task files exactly that task fewer. */
  lemma RemovedBag(m: Lists, c: City, t: Task)
    requires c in m && t in m[c]
    ensures Bag(Removed(m, c, t)) + multiset{t} == Bag(m)
  {
    var l := Without(m[c], t);
    WithoutPresent(m[c], t);
    assert multiset(l) + multiset{t} == multiset(m[c]) by {
      assert t in multiset(m[c]);
    }
    BagAt(m, c);
    if l != [] {
      ReplacedBag(m, c, l);
    }
  }

  /** The constructor files exactly the given tasks. */
  lemma {:induction false} GroupedBag(tasks: seq<Task>, pickup: bool)
    ensures Bag(Grouped(tasks, pickup)) == multiset(tasks)
  {
    if tasks != [] {
      var n := |tasks| - 1;
      GroupedBag(tasks[..n], pickup);
      AddedBag(Grouped(tasks[..n], pickup), CityOf(tasks[n], pickup), tasks[n]);
      assert tasks == tasks[..n] + [tasks[n]];
    }
  }

  /** `add` and `removeTask` never leave an empty list behind, and keep tasks under the city they are filed by. */
  lemma UpdatesKeepShape(m: Lists, c: City, t: Task, pickup: bool)
    requires NoEmpty(m) && FiledBy(m, pickup)
    ensures NoEmpty(Added(m, c, t))
    ensures CityOf(t, pickup) == c ==> FiledBy(Added(m, c, t), pickup)
    ensures c in m ==> NoEmpty(Removed(m, c, t)) && FiledBy(Removed(m, c, t), pickup)
  {
    if c in m {
      WithoutSubset(m[c], t);
    }
  }

  /** The constructor files each task under its city, keeping the iteration order within a city. */
  lemma {:induction false} GroupedFilters(tasks: seq<Task>, pickup: bool)
    ensures forall c :: c in Grouped(tasks, pickup) <==> Filter(tasks, c, pickup) != []
    ensures forall c :: c in Grouped(tasks, pickup) ==> Grouped(tasks, pickup)[c] == Filter(tasks, c, pickup)
  {
    if tasks != [] {
      GroupedFilters(tasks[..|tasks| - 1], pickup);
    }
  }

  /** The constructor files every task exactly once, with no empty list and each task under its own city. */
  lemma {:induction false} GroupedShape(tasks: seq<Task>, pickup: bool)
    ensures Size(Grouped(tasks, pickup)) == |tasks|
    ensures NoEmpty(Grouped(tasks, pickup)) && FiledBy(Grouped(tasks, pickup), pickup)
  {
    if tasks != [] {
      var n := |tasks| - 1;
      GroupedShape(tasks[..n], pickup);
      AddedSize(Grouped(tasks[..n], pickup), CityOf(tasks[n], pickup), tasks[n]);
      UpdatesKeepShape(Grouped(tasks[..n], pickup), CityOf(tasks[n], pickup), tasks[n], pickup);
    }
  }

  /** A mapping object: Java's HashMap subclass, mutated in place. */
  class Mapping {
    var m: Lists

    ghost predicate Valid()
      reads this
    {
      NoEmpty(m)
    }

    /** Groups the tasks under their pickup city (pickup) or delivery city (otherwise), in iteration order. */
    constructor (tasks: seq<Task>, pickup: bool)
      ensures m == Grouped(tasks, pickup) && Valid()
    {
      var g: Lists := map[];
      var k := 0;
      while k < |tasks|
        invariant k <= |tasks| && g == Grouped(tasks[..k], pickup) && NoEmpty(g)
      {
        var t := tasks[k];
        var c := CityOf(t, pickup);
        if c in g {
          g := g[c := g[c] + [t]];
        } else {
          assert [] + [t] == [t];
          g := g[c := [t]];
        }
        assert tasks[..k + 1][..k] == tasks[..k];
        k := k + 1;
      }
      assert tasks[..k] == tasks;
      m := g;
    }

    /** The empty mapping. */
    constructor Empty()
      ensures m == map[] && Valid()
    {
      m := map[];
    }

    /** Appends t to c's list, creating the list when c is not a key; no other key changes. */
    method Add(c: City, t: Task)
      modifies this
      ensures m == Added(old(m), c, t)
      ensures forall d :: d != c ==> (d in m <==> d in old(m)) && (d in m ==> m[d] == old(m)[d])
      ensures old(Valid()) ==> Valid()
    {
      if c in m {
        m := m[c := m[c] + [t]];
      } else {
        assert [] + [t] == [t];
        m := m[c := [t]];
      }
    }

    /**
     * Removes t from c's list and drops c once its list is empty; `thrown`
     * stands for the NullPointerException when c is not a key.
     */
    method RemoveTask(c: City, t: Task) returns (thrown: bool)
      modifies this
      ensures thrown <==> c !in old(m)
      ensures thrown ==> m == old(m)
      ensures !thrown ==> m == Removed(old(m), c, t)
      ensures old(Valid()) ==> Valid()
    {
      if c !in m {
        return true;
      }
      thrown := false;
      var l := Without(m[c], t);
      if |l| == 0 {
        m := m - {c};
      } else {
        m := m[c := l];
      }
    }

    /** A new mapping holding a copy of every list. */
    method Clone() returns (r: Mapping)
      ensures fresh(r) && r.m == m
      ensures r.Valid() <==> Valid()
    {
      r := new Mapping.Empty();
      var keys := m.Keys;
      while keys != {}
        invariant keys <= m.Keys
        invariant r.m == map c | c in m && c !in keys :: m[c]
        decreases keys
      {
        var c :| c in keys;
        r.m := r.m[c := m[c]];
        keys := keys - {c};
      }
    }
  }
}
