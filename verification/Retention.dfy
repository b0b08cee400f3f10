/** Which managed generations are kept. */
module Retention {
  import Orders
  import opened Paths
  import opened FileTree

  const PREFIX: string := "generation-"

  predicate Generation(name: Name) {
    PREFIX <= name
  }

  predicate Ascending(names: seq<Name>) {
    forall i, j :: 0 <= i < j < |names| ==> Less(names[i], names[j])
  }

  /** The store's generations, oldest name first. */
  ghost predicate Holds(entries: map<Name, Node>, names: seq<Name>) {
    Ascending(names) && forall name :: name in names <==> name in entries && Generation(name)
  }

  /** The newest `retention` names, or all of them. */
  function Retained(names: seq<Name>, retention: nat): seq<Name> {
    if |names| > retention then names[|names| - retention..] else names
  }

  lemma AscendingIsUnique(a: seq<Name>, b: seq<Name>)
    requires Ascending(a) && Ascending(b) && forall name :: name in a <==> name in b
    ensures a == b
  {
    forall x, y | Less(x, y)
      ensures !Less(y, x)
    {
      NeverBothLess(x, y);
    }
    Orders.SortedIsUnique(Less, a, b);
  }

  /** Lists the generations of a directory in the order of their names. */
  method SortedGenerations(entries: map<Name, Node>) returns (names: seq<Name>)
    ensures Holds(entries, names)
  {
    names := [];
    var left := entries.Keys;
    while left != {}
      invariant left <= entries.Keys
      invariant Ascending(names)
      invariant forall name :: name in names <==> name in entries && name !in left && Generation(name)
      decreases left
    {
      var name :| name in left;
      left := left - {name};
      if Generation(name) {
        WithNameIsAscending(names, name);
        forall x
          ensures x in WithName(names, name) <==> x == name || x in names
        {
          WithNameElements(names, name, x);
        }
        names := InsertName(name, names);
      }
    }
  }

  /** A name, put in its place. */
  function WithName(names: seq<Name>, name: Name): seq<Name> {
    if names == [] then [name]
    else if Less(names[0], name) then [names[0]] + WithName(names[1..], name)
    else [name] + names
  }

  /** How many names are greater. */
  function Greater(names: seq<Name>, name: Name): nat {
    if names == [] then 0 else Greater(names[1..], name) + if Less(name, names[0]) then 1 else 0
  }

  lemma {:induction false} WithNameElements(names: seq<Name>, name: Name, x: Name)
    ensures x in WithName(names, name) <==> x == name || x in names
  {
    if names != [] && Less(names[0], name) {
      WithNameElements(names[1..], name, x);
      assert names == [names[0]] + names[1..];
    }
  }

  lemma {:induction false} AllGreater(names: seq<Name>, name: Name)
    requires forall i :: 0 <= i < |names| ==> Less(name, names[i])
    ensures Greater(names, name) == |names|
  {
    if names != [] {
      AllGreater(names[1..], name);
    }
  }

  lemma NewIsLeast(names: seq<Name>, name: Name)
    requires Ascending(names) && names != [] && names[0] != name && !Less(names[0], name)
    ensures forall i :: 0 <= i < |names| ==> Less(name, names[i])
  {
    LessIsTotal(names[0], name);
    forall i | 0 <= i < |names|
      ensures Less(name, names[i])
    {
      if i > 0 {
        LessIsTransitive(name, names[0], names[i]);
      }
    }
  }

  /** The list stays ascending, and the new name comes before exactly the greater ones. */
  lemma {:induction false} WithNameIsAscending(names: seq<Name>, name: Name)
    requires Ascending(names) && name !in names
    ensures var more := WithName(names, name);
            && Ascending(more) && |more| == |names| + 1
            && Greater(names, name) <= |names| && more[|names| - Greater(names, name)] == name
  {
    if names == [] {
    } else if Less(names[0], name) {
      WithNameIsAscending(names[1..], name);
      var rest := WithName(names[1..], name);
      forall j | 0 <= j < |rest|
        ensures Less(names[0], rest[j])
      {
        WithNameElements(names[1..], name, rest[j]);
      }
      NeverBothLess(names[0], name);
    } else {
      NewIsLeast(names, name);
      AllGreater(names, name);
    }
  }

  /** A name that is greater than all others comes last. */
  lemma {:induction false} GreatestComesLast(names: seq<Name>, name: Name)
    requires forall i :: 0 <= i < |names| ==> Less(names[i], name)
    ensures WithName(names, name) == names + [name]
  {
    if names != [] {
      GreatestComesLast(names[1..], name);
      assert names == [names[0]] + names[1..];
    }
  }

  method InsertName(name: Name, names: seq<Name>) returns (more: seq<Name>)
    requires Ascending(names) && name !in names
    ensures more == WithName(names, name)
  {
    var k := 0;
    while k < |names| && Less(names[k], name)
      invariant 0 <= k <= |names|
      invariant WithName(names, name) == names[..k] + WithName(names[k..], name)
    {
      assert names[k..][1..] == names[k + 1..];
      k := k + 1;
    }
    more := names[..k] + [name] + names[k..];
  }

  /** The entries before, without these names. */
  ghost predicate Without(before: map<Name, Node>, entries: map<Name, Node>, gone: seq<Name>) {
    && (forall name :: name in entries <==> name in before && name !in gone)
    && (forall name :: name in entries ==> entries[name] == before[name])
  }

  lemma WithoutOneMore(before: map<Name, Node>, entries: map<Name, Node>, names: seq<Name>, i: nat)
    requires i < |names| && Without(before, entries, names[..i])
    ensures Without(before, entries - {names[i]}, names[..i + 1])
  {
    assert names[..i + 1] == names[..i] + [names[i]];
  }

  class Store {
    var entries: map<Name, Node>

    constructor (entries: map<Name, Node>)
      ensures this.entries == entries
    {
      this.entries := entries;
    }

    /** `prune_generations`: removes the oldest, one by one, and stops at one that is not
        a directory. Whatever happens, the newest `retention` generations stay as they
        are, and so does everything that is not a generation. */
    method Prune(retention: nat, ghost names: seq<Name>) returns (ok: bool, ghost removed: nat)
      requires Holds(entries, names)
      modifies this
      ensures removed <= |names| - |Retained(names, retention)|
      ensures ok ==> removed == |names| - |Retained(names, retention)|
      ensures ok <==> forall i :: 0 <= i < |names| - |Retained(names, retention)| ==> old(entries)[names[i]].Dir?
      ensures Holds(entries, names[removed..])
      ensures forall name :: name in entries <==> name in old(entries) && name !in names[..removed]
      ensures forall name :: name in entries ==> entries[name] == old(entries)[name]
    {
      var sorted := SortedGenerations(entries);
      AscendingIsUnique(sorted, names);
      var remove := if |sorted| > retention then |sorted| - retention else 0;
      for i := 0 to remove
        invariant Without(old(entries), entries, sorted[..i])
        invariant forall k :: 0 <= k < i ==> old(entries)[sorted[k]].Dir?
      {
        LaterIsDifferent(sorted, i);
        if !entries[sorted[i]].Dir? {
          RestIsHeld(old(entries), entries, sorted, i);
          return false, i;
        }
        WithoutOneMore(old(entries), entries, sorted, i);
        entries := entries - {sorted[i]};
      }
      RestIsHeld(old(entries), entries, sorted, remove);
      return true, remove;
    }

    /** A run: the new generation is published under its name, unless the name is taken,
        and the store is pruned. The newest are kept; the new one is among them exactly if
        fewer than `retention` existing names are greater. */
    method Publish(name: Name, generation: Node, retention: nat, ghost names: seq<Name>) returns (ok: bool)
      requires Holds(entries, names) && Generation(name)
      modifies this
      ensures old(name in entries) ==> !ok && entries == old(entries)
      ensures ok ==> Holds(entries, Retained(WithName(names, name), retention))
      ensures ok ==> (name in entries <==> Greater(names, name) < retention)
      ensures old(name !in entries) && generation.Dir? && (forall x :: x in names ==> old(entries)[x].Dir?) ==> ok
      ensures forall x :: x in entries ==>
                if x == name && old(name !in entries) then entries[x] == generation
                else x in old(entries) && entries[x] == old(entries)[x]
      ensures forall x :: x in old(entries) && !Generation(x) ==> x in entries
    {
      if name in entries {
        return false;
      }
      entries := entries[name := generation];
      ghost var all := WithName(names, name);
      PublishedIsHeld(old(entries), names, name, generation);
      ghost var removed;
      ok, removed := Prune(retention, all);
      WithNameIsAscending(names, name);
      NewIsKeptExactly(all, |names| - Greater(names, name), retention);
      assert all[removed..] == Retained(all, retention) || !ok;
      PruningSparesOthers(all, removed);
    }

    /** Runs with ascending names, from a store without generations: the newest are kept. */
    method PublishAll(published: seq<Name>, generation: Node, retention: nat)
      requires Holds(entries, []) && generation.Dir? && retention >= 1 && Ascending(published)
      requires forall i :: 0 <= i < |published| ==> Generation(published[i])
      modifies this
      ensures Holds(entries, Retained(published, retention))
      ensures published != [] ==> published[|published| - 1] in entries
    {
      for i := 0 to |published|
        invariant Holds(entries, Retained(published[..i], retention))
        invariant forall x :: x in entries && Generation(x) ==> entries[x].Dir?
      {
        ghost var names := Retained(published[..i], retention);
        NextIsGreatest(published, i, retention);
        var ok := Publish(published[i], generation, retention, names);
      }
      assert published[..|published|] == published;
      if published != [] {
        LastIsRetained(published, retention);
      }
    }
  }

  /** Names as the server makes them: a time and a UUID. */
  const DECADE: string := "generation-202"
  const EARLY: string := "4" + "0101T000000Z-018cc251f400700080000000000000aa"
  const LATE: string := "5" + "0101T000000Z-01941f297c00700080000000000000bb"
  const LATEST: string := "6" + "0101T000000Z-019b76da1c00700080000000000000cc"

  lemma LessByFirst(c: string, a: string, d: string, b: string)
    requires |c| == |d| == 1 && c <= a && d <= b && c[0] < d[0]
    ensures Less(a, b)
  {
    assert a[0] == c[0] && b[0] == d[0];
  }

  lemma BelowPrefix(stem: string, rest: string)
    requires PREFIX <= stem
    ensures Generation(stem + rest)
  {
  }

  lemma ConcreteNames()
    ensures Generation(DECADE + EARLY) && Generation(DECADE + LATE) && Generation(DECADE + LATEST)
    ensures Less(DECADE + EARLY, DECADE + LATE) && Less(DECADE + LATE, DECADE + LATEST)
  {
    LessByFirst("4", EARLY, "5", LATE);
    LessByFirst("5", LATE, "6", LATEST);
    LessAfterPrefix(DECADE, EARLY, LATE);
    LessAfterPrefix(DECADE, LATE, LATEST);
    BelowPrefix(DECADE, EARLY);
    BelowPrefix(DECADE, LATE);
    BelowPrefix(DECADE, LATEST);
  }

  lemma ThreeNames(a: Name, b: Name, c: Name)
    requires Less(a, b) && Less(b, c)
    ensures a != b && b != c && a != c && Ascending([b, c]) && Greater([b, c], a) == 2
    ensures WithName([b, c], a) == [a, b, c] && Retained([a, b, c], 2) == [b, c]
  {
    LessIsTransitive(a, b, c);
    LessIsStrict(a);
    LessIsStrict(b);
    NeverBothLess(a, b);
    assert [b, c][1..] == [c] && [c][1..] == [];
    assert Greater([c], a) == 1;
  }

  lemma TwoHeld(b: Name, c: Name)
    requires Generation(b) && Generation(c) && Ascending([b, c])
    ensures Holds(map[b := Dir([]), c := Dir([])], [b, c])
    ensures forall x :: x in [b, c] <==> x == b || x == c
  {
  }

  lemma TwoLeft(entries: map<Name, Node>, a: Name, b: Name, c: Name)
    requires Holds(entries, [b, c]) && a !in entries
    requires forall x :: x in entries ==> x == a || x == b || x == c
    requires forall x :: x in entries ==> entries[x] == Dir([])
    ensures entries == map[b := Dir([]), c := Dir([])]
  {
    assert b in [b, c] && c in [b, c];
  }

  /** With two later names in the store, and the least retention that the server takes,
      a new generation does not survive its own run. */
  method PublishBefore(a: Name, b: Name, c: Name) returns (store: Store)
    requires Generation(a) && Generation(b) && Generation(c) && Less(a, b) && Less(b, c)
    ensures fresh(store) && store.entries == map[b := Dir([]), c := Dir([])]
  {
    ThreeNames(a, b, c);
    TwoHeld(b, c);
    store := new Store(map[b := Dir([]), c := Dir([])]);
    var ok := store.Publish(a, Dir([]), 2, [b, c]);
    TwoLeft(store.entries, a, b, c);
  }

  /** A concrete one. */
  method LaterNamesWin() returns (store: Store)
    ensures fresh(store) && store.entries == map[DECADE + LATE := Dir([]), DECADE + LATEST := Dir([])]
  {
    ConcreteNames();
    store := PublishBefore(DECADE + EARLY, DECADE + LATE, DECADE + LATEST);
  }

  lemma {:induction false} LessFrom(p: string, q: string, n: nat)
    requires n <= |p| && n <= |q| && (forall i :: 0 <= i < n ==> p[i] == q[i]) && Less(p[n..], q[n..])
    ensures Less(p, q)
    decreases n
  {
    if n == 0 {
      assert p[0..] == p && q[0..] == q;
    } else {
      var p', q' := p[1..], q[1..];
      assert p'[n - 1..] == p[n..] && q'[n - 1..] == q[n..];
      LessFrom(p', q', n - 1);
    }
  }

  lemma LessAfterPrefix(prefix: string, a: string, b: string)
    requires Less(a, b)
    ensures Less(prefix + a, prefix + b)
  {
    var p, q, n := prefix + a, prefix + b, |prefix|;
    assert p[n..] == a && q[n..] == b;
    LessFrom(p, q, n);
  }

  lemma PublishedIsHeld(entries: map<Name, Node>, names: seq<Name>, name: Name, node: Node)
    requires Holds(entries, names) && Generation(name) && name !in entries
    ensures Holds(entries[name := node], WithName(names, name))
  {
    WithNameIsAscending(names, name);
    forall x
      ensures x in WithName(names, name) <==> x == name || x in names
    {
      WithNameElements(names, name, x);
    }
  }

  lemma NextIsGreatest(published: seq<Name>, i: nat, retention: nat)
    requires Ascending(published) && i < |published| && retention >= 1
    ensures var names := Retained(published[..i], retention);
            && published[i] !in names
            && Retained(WithName(names, published[i]), retention) == Retained(published[..i + 1], retention)
  {
    var names := Retained(published[..i], retention);
    forall k | 0 <= k < |names|
      ensures Less(names[k], published[i])
    {
      assert names[k] == published[i - |names| + k];
    }
    LessIsStrict(published[i]);
    GreatestComesLast(names, published[i]);
    RetainedStep(published, i, retention);
  }

  lemma RetainedStep(published: seq<Name>, i: nat, retention: nat)
    requires i < |published| && retention >= 1
    ensures Retained(Retained(published[..i], retention) + [published[i]], retention)
            == Retained(published[..i + 1], retention)
  {
    assert published[..i + 1] == published[..i] + [published[i]];
  }

  lemma LastIsRetained(published: seq<Name>, retention: nat)
    requires published != [] && retention >= 1
    ensures published[|published| - 1] in Retained(published, retention)
  {
    var kept := Retained(published, retention);
    assert kept[|kept| - 1] == published[|published| - 1];
  }

  lemma PruningSparesOthers(names: seq<Name>, n: nat)
    requires n <= |names|
    ensures forall x :: x in names[..n] ==> x in names
  {
  }

  lemma LaterIsDifferent(names: seq<Name>, i: nat)
    requires Ascending(names) && i < |names|
    ensures names[i] !in names[..i] && names[i] in names
  {
    if names[i] in names[..i] {
      var k :| 0 <= k < i && names[..i][k] == names[i];
      LessIsStrict(names[i]);
    }
  }

  lemma RestIsHeld(before: map<Name, Node>, entries: map<Name, Node>, names: seq<Name>, n: nat)
    requires Holds(before, names) && n <= |names|
    requires forall name :: name in entries <==> name in before && name !in names[..n]
    ensures Holds(entries, names[n..])
  {
    forall name | name in names
      ensures name in names[n..] <==> name !in names[..n]
    {
      var k :| 0 <= k < |names| && names[k] == name;
      if k >= n {
        assert names[n..][k - n] == name;
        if name in names[..n] {
          var j :| 0 <= j < n && names[..n][j] == name;
          LessIsStrict(name);
        }
      } else {
        assert names[..n][k] == name;
        if name in names[n..] {
          var j :| 0 <= j < |names[n..]| && names[n..][j] == name;
          assert names[n + j] == name;
          LessIsStrict(name);
        }
      }
    }
    assert forall name :: name in names[n..] ==> name in names;
  }

  /** A name is retained exactly if fewer than `retention` names come after it. */
  lemma NewIsKeptExactly(names: seq<Name>, i: nat, retention: nat)
    requires Ascending(names) && i < |names|
    ensures names[i] in Retained(names, retention) <==> |names| - 1 - i < retention
  {
    var kept := Retained(names, retention);
    var cut := |names| - |kept|;
    if i >= cut {
      assert kept[i - cut] == names[i];
    } else if names[i] in kept {
      var k :| 0 <= k < |kept| && kept[k] == names[i];
      assert names[cut + k] == names[i];
      LessIsStrict(names[i]);
    }
  }
}
