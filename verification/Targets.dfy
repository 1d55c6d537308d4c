/** Target selectors: breadth-first group expansion over parent pointers and the recursive
    resolution of nested selectors to a sorted, duplicate-free host list. Ids are numbers; only
    their equality and order matter. */
module Targets {
  import opened Digests

  type GroupId = nat
  type HostId = nat

  /** `labels` is None when the stored JSON is not an object. */
  datatype Db = Db(
    hosts: map<HostId, Option<map<string, string>>>,
    parents: map<GroupId, Option<GroupId>>,
    members: set<(GroupId, HostId)>)

  datatype Selector =
    | GroupSelector(group: GroupId, includeSubgroups: bool)
    | TagSelector(key: string, value: string)
    | HostListSelector(ids: seq<HostId>)
    | MixedSelector(selectors: seq<Selector>)

  // ---------------------------------------------------------------- groups

  /** Climbing `n` parent pointers from `g` arrives at `root`. */
  predicate Below(db: Db, g: GroupId, root: GroupId, n: nat)
    decreases n
  {
    if n == 0 then g == root
    else g in db.parents && db.parents[g].Some? && Below(db, db.parents[g].value, root, n - 1)
  }

  ghost predicate Descendant(db: Db, g: GroupId, root: GroupId) {
    exists n: nat :: Below(db, g, root, n)
  }

  function Children(db: Db, of: set<GroupId>): set<GroupId> {
    set g | g in db.parents && db.parents[g].Some? && db.parents[g].value in of
  }

  lemma ChildOfDescendant(db: Db, g: GroupId, root: GroupId)
    requires g in db.parents && db.parents[g].Some? && Descendant(db, db.parents[g].value, root)
    ensures Descendant(db, g, root)
  {
    var n: nat :| Below(db, db.parents[g].value, root, n);
    assert Below(db, g, root, n + 1);
  }

  lemma {:induction false} ClosedHoldsDescendants(db: Db, out: set<GroupId>, root: GroupId, g: GroupId, n: nat)
    requires root in out && Children(db, out) <= out && Below(db, g, root, n)
    ensures g in out
    decreases n
  {
    if n > 0 {
      ClosedHoldsDescendants(db, out, root, db.parents[g].value, n - 1);
      assert g in Children(db, out);
    }
  }

  /** Terminates on every parent graph, cycles included, with exactly the groups from which the
      parent pointers lead up to the root. */
  method ExpandGroup(db: Db, root: GroupId, includeSubgroups: bool) returns (out: set<GroupId>)
    ensures !includeSubgroups ==> out == {root}
    ensures includeSubgroups ==> forall g :: g in out <==> Descendant(db, g, root)
  {
    out := {root};
    if !includeSubgroups {
      return;
    }
    assert Below(db, root, root, 0);
    var frontier := {root};
    while frontier != {}
      invariant root in out && frontier <= out
      invariant forall g | g in out :: Descendant(db, g, root)
      invariant forall g | g in db.parents && db.parents[g].Some? && db.parents[g].value in out - frontier :: g in out
      decreases db.parents.Keys - out
    {
      var rows := Children(db, frontier);
      var found := rows - out;
      if found == {} {
        break;
      }
      forall g | g in found
        ensures Descendant(db, g, root)
      {
        ChildOfDescendant(db, g, root);
      }
      ghost var g :| g in found;
      assert g in db.parents.Keys - out && g !in db.parents.Keys - (out + found);
      out := out + found;
      frontier := found;
    }
    assert Children(db, out) <= out;
    forall g | Descendant(db, g, root)
      ensures g in out
    {
      var n: nat :| Below(db, g, root, n);
      ClosedHoldsDescendants(db, out, root, g, n);
    }
  }

  // ---------------------------------------------------------------- sorting

  predicate Ascending(xs: seq<nat>) {
    forall i, j | 0 <= i < j < |xs| :: xs[i] < xs[j]
  }

  lemma {:induction false} MinimumExists(s: set<nat>) returns (m: nat)
    requires s != {}
    ensures m in s && forall x | x in s :: m <= x
    decreases s
  {
    m :| m in s;
    if s != {m} {
      var k := MinimumExists(s - {m});
      assert forall x | x in s :: x == m || x in s - {m};
      if k < m { m := k; }
    }
  }

  method SortedList(s: set<nat>) returns (xs: seq<nat>)
    ensures Ascending(xs) && forall x :: x in xs <==> x in s
  {
    xs := [];
    var rest := s;
    while rest != {}
      invariant rest <= s && Ascending(xs)
      invariant forall x :: x in xs <==> x in s && x !in rest
      invariant forall x, y | x in xs && y in rest :: x < y
      decreases rest
    {
      ghost var low := MinimumExists(rest);
      var m :| m in rest && forall x | x in rest :: m <= x;
      forall i | 0 <= i < |xs|
        ensures xs[i] < m
      {
        assert xs[i] in xs;
      }
      xs := xs + [m];
      rest := rest - {m};
    }
  }

  /** Sorted and duplicate-free makes the result a function of the hosts it names. */
  lemma {:induction false} AscendingListUnique(xs: seq<nat>, ys: seq<nat>)
    requires Ascending(xs) && Ascending(ys) && forall x :: x in xs <==> x in ys
    ensures xs == ys
    decreases |xs|
  {
    if xs == [] {
      if ys != [] { LastIsMember(ys); }
    } else {
      LastIsMember(xs);
      LastIsMember(ys);
      var x, y := xs[|xs| - 1], ys[|ys| - 1];
      var ws, vs := xs[..|xs| - 1], ys[..|ys| - 1];
      assert x == y && xs == ws + [x] && ys == vs + [y];
      forall z
        ensures z in ws <==> z in vs
      {
        assert z in xs <==> z == x || z in ws;
        assert z in ys <==> z == y || z in vs;
        assert x !in ws && y !in vs;
      }
      AscendingListUnique(ws, vs);
    }
  }

  lemma LastIsMember(xs: seq<nat>)
    requires xs != []
    ensures xs[|xs| - 1] in xs
  {
  }

  // ---------------------------------------------------------------- selectors

  /** The hosts a selector means. */
  ghost predicate Selects(db: Db, sel: Selector, h: HostId) {
    match sel
    case HostListSelector(ids) => h in ids && h in db.hosts
    case GroupSelector(group, deep) =>
      exists g :: (g, h) in db.members && (if deep then Descendant(db, g, group) else g == group)
    case TagSelector(key, value) =>
      h in db.hosts && db.hosts[h].Some? && key in db.hosts[h].value && db.hosts[h].value[key] == value
    case MixedSelector(selectors) => exists i :: 0 <= i < |selectors| && Selects(db, selectors[i], h)
  }

  method ResolveTargets(db: Db, sel: Selector) returns (r: seq<HostId>)
    ensures Ascending(r)
    ensures forall h :: h in r <==> Selects(db, sel, h)
    decreases sel
  {
    match sel
    case HostListSelector(ids) =>
      r := SortedList(set h | h in ids && h in db.hosts);
    case GroupSelector(group, deep) =>
      var groups := ExpandGroup(db, group, deep);
      var rows := set m | m in db.members && m.0 in groups :: m.1;
      r := SortedList(rows);
      forall h
        ensures h in rows <==> Selects(db, sel, h)
      {
        if h in rows {
          var m :| m in db.members && m.0 in groups && m.1 == h;
          assert (m.0, h) in db.members;
        }
        if Selects(db, sel, h) {
          var g :| (g, h) in db.members && (if deep then Descendant(db, g, group) else g == group);
          assert (g, h).0 in groups;
        }
      }
    case TagSelector(key, value) =>
      r := SortedList(set h | h in db.hosts && db.hosts[h].Some? && key in db.hosts[h].value && db.hosts[h].value[key] == value);
    case MixedSelector(selectors) =>
      var out: set<HostId> := {};
      var i := 0;
      while i < |selectors|
        invariant 0 <= i <= |selectors|
        invariant forall h :: h in out <==> exists j :: 0 <= j < i && Selects(db, selectors[j], h)
      {
        var part := ResolveTargets(db, selectors[i]);
        out := out + set h | h in part;
        i := i + 1;
      }
      r := SortedList(out);
  }

  /** Nesting, order and repetition do not matter: a mixed selector of mixed selectors selects what
      the flat one selects, and mixed selectors with the same parts, or with parts that select the
      same hosts one by one, select the same hosts. */
  lemma MixedDependsOnlyOnParts(db: Db, a: seq<Selector>, b: seq<Selector>, h: HostId)
    ensures Selects(db, MixedSelector([MixedSelector(a), MixedSelector(b)]), h) <==> Selects(db, MixedSelector(a + b), h)
    ensures (forall x :: x in a <==> x in b) ==> (Selects(db, MixedSelector(a), h) <==> Selects(db, MixedSelector(b), h))
    ensures |a| == |b| && (forall i | 0 <= i < |a| :: Selects(db, a[i], h) <==> Selects(db, b[i], h)) ==>
              (Selects(db, MixedSelector(a), h) <==> Selects(db, MixedSelector(b), h))
  {
    var pair := [MixedSelector(a), MixedSelector(b)];
    assert pair[0] == MixedSelector(a) && pair[1] == MixedSelector(b);
    ConcatSelects(db, a, b, h);
    if forall x :: x in a <==> x in b {
      if Selects(db, MixedSelector(a), h) { SelectsThroughMember(db, a, b, h); }
      if Selects(db, MixedSelector(b), h) { SelectsThroughMember(db, b, a, h); }
    }
  }

  lemma SelectsThroughMember(db: Db, a: seq<Selector>, b: seq<Selector>, h: HostId)
    requires Selects(db, MixedSelector(a), h) && forall x | x in a :: x in b
    ensures Selects(db, MixedSelector(b), h)
  {
    var i :| 0 <= i < |a| && Selects(db, a[i], h);
    assert a[i] in b;
    var j :| 0 <= j < |b| && b[j] == a[i];
  }

  lemma ConcatSelects(db: Db, a: seq<Selector>, b: seq<Selector>, h: HostId)
    ensures Selects(db, MixedSelector(a + b), h) <==>
            Selects(db, MixedSelector(a), h) || Selects(db, MixedSelector(b), h)
  {
    if Selects(db, MixedSelector(a), h) {
      var i :| 0 <= i < |a| && Selects(db, a[i], h);
      assert (a + b)[i] == a[i];
    }
    if Selects(db, MixedSelector(b), h) {
      var i :| 0 <= i < |b| && Selects(db, b[i], h);
      assert (a + b)[|a| + i] == b[i];
    }
  }
}
