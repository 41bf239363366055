/** The table orderer: a depth-first walk that places every table after the tables it depends on,
    following first the dependency lists and then the relationships of each table, and cutting
    cycles where it meets a table that is still being visited.

    The Java walk mutates three collections. Here the set of tables still on the walk's path
    (`visiting`) is passed down, since every call leaves it as it found it, and the set of
    finished names together with the output list (`Walk`) is threaded through. */
module Sorter {
  import opened Wrappers
  import opened Strings
  import opened Schema

  /** The finished table names and the tables output so far, in output order. */
  datatype Walk = Walk(done: set<string>, out: seq<Table>)

  /** The names of a table list. */
  function NamesOf(ts: seq<Table>): set<string> {
    set k | 0 <= k < |ts| :: ts[k].name
  }

  /** The names of the schema's tables. */
  function Names(s: DatabaseSchema): set<string> {
    NamesOf(s.tables)
  }

  predicate DistinctNames(ts: seq<Table>) {
    forall i, j :: 0 <= i < j < |ts| ==> ts[i].name != ts[j].name
  }

  /** What a walk keeps true: it outputs schema tables only, each name once, and its finished set
      is exactly the set of names output. */
  predicate WalkInv(s: DatabaseSchema, w: Walk) {
    (forall k :: 0 <= k < |w.out| ==> w.out[k] in s.tables)
    && DistinctNames(w.out)
    && NamesOf(w.out) == w.done
  }

  /** `w'` extends `w`: nothing finished is forgotten and the output only grows at its end. */
  predicate Extends(w: Walk, w': Walk) {
    w.done <= w'.done && |w.out| <= |w'.out| && w'.out[..|w.out|] == w.out
  }

  lemma NamesShrink(names: set<string>, visiting: set<string>, n: string)
    requires n in names && n !in visiting
    ensures |names - (visiting + {n})| < |names - visiting|
  {
    assert names - (visiting + {n}) == (names - visiting) - {n};
  }

  lemma NamesOfAppend(ts: seq<Table>, t: Table)
    ensures NamesOf(ts + [t]) == NamesOf(ts) + {t.name}
  {
    var ts' := ts + [t];
    assert ts'[|ts|].name == t.name;
    forall n | n in NamesOf(ts)
      ensures n in NamesOf(ts')
    {
      var k :| 0 <= k < |ts| && ts[k].name == n;
      assert ts'[k].name == n;
    }
  }

  /** `topologicalSort(table, ...)`. A table already on the path or already finished is skipped;
      otherwise its dependency targets and then its relationship targets are walked with the
      table on the path, and the table is output after them. */
  function Visit(s: DatabaseSchema, t: Table, visiting: set<string>, w: Walk): (r: Walk)
    requires t in s.tables && WalkInv(s, w)
    ensures WalkInv(s, r) && Extends(w, r)
    ensures forall n :: n in r.done && n !in w.done ==> n !in visiting
    ensures t.name in visiting || t.name in r.done
    decreases |Names(s) - visiting|, 0, 0
  {
    if t.name in visiting || t.name in w.done then w
    else
      NamesShrink(Names(s), visiting, t.name);
      var path := visiting + {t.name};
      var w1 := VisitDeps(s, DependenciesOf(s, t.name), 0, path, w);
      var w2 := VisitRels(s, t.name, 0, path, w1);
      FinishTable(s, t, w2);
      ExtendsTrans(w, w1, w2);
      ExtendsTrans(w, w2, Walk(w2.done + {t.name}, w2.out + [t]));
      Walk(w2.done + {t.name}, w2.out + [t])
  }

  /** Outputting an unfinished schema table keeps the walk's invariant and extends it. */
  lemma FinishTable(s: DatabaseSchema, t: Table, w: Walk)
    requires WalkInv(s, w) && t in s.tables && t.name !in w.done
    ensures WalkInv(s, Walk(w.done + {t.name}, w.out + [t]))
    ensures Extends(w, Walk(w.done + {t.name}, w.out + [t]))
  {
    NamesOfAppend(w.out, t);
    assert (w.out + [t])[..|w.out|] == w.out;
    forall i, j | 0 <= i < j < |w.out| + 1
      ensures (w.out + [t])[i].name != (w.out + [t])[j].name
    {
      if j == |w.out| {
        assert w.out[i].name in NamesOf(w.out);
      }
    }
  }

  lemma ExtendsTrans(a: Walk, b: Walk, c: Walk)
    requires Extends(a, b) && Extends(b, c)
    ensures Extends(a, c)
  {
    assert c.out[..|a.out|] == c.out[..|b.out|][..|a.out|];
  }

  /** A name is resolved with the schema's table lookup and the table found, if any, is walked. */
  function VisitName(s: DatabaseSchema, name: string, visiting: set<string>, w: Walk): (r: Walk)
    requires WalkInv(s, w)
    ensures WalkInv(s, r) && Extends(w, r)
    ensures forall n :: n in r.done && n !in w.done ==> n !in visiting
    ensures Unqualified(name) in Names(s) ==> Unqualified(name) in visiting || Unqualified(name) in r.done
    decreases |Names(s) - visiting|, 0, 1
  {
    match TableByName(s, name)
    case None => w
    case Some(t) => Visit(s, t, visiting, w)
  }

  /** The dependency loop: each listed name that resolves to a table is walked, in list order. */
  function VisitDeps(s: DatabaseSchema, deps: seq<string>, i: nat, visiting: set<string>, w: Walk): (r: Walk)
    requires i <= |deps| && WalkInv(s, w)
    ensures WalkInv(s, r) && Extends(w, r)
    ensures forall n :: n in r.done && n !in w.done ==> n !in visiting
    decreases |Names(s) - visiting|, 1, |deps| - i
  {
    if i == |deps| then w
    else VisitDeps(s, deps, i + 1, visiting, VisitName(s, deps[i], visiting, w))
  }

  /** The relationship loop: for each relationship whose source is the table named `a`, its
      target is walked when it resolves to a table and its name is not yet finished. */
  function VisitRels(s: DatabaseSchema, a: string, j: nat, visiting: set<string>, w: Walk): (r: Walk)
    requires j <= |s.relationships| && WalkInv(s, w)
    ensures WalkInv(s, r) && Extends(w, r)
    ensures forall n :: n in r.done && n !in w.done ==> n !in visiting
    decreases |Names(s) - visiting|, 1, |s.relationships| - j
  {
    if j == |s.relationships| then w
    else
      var rel := s.relationships[j];
      var w' := if rel.source.name == a && rel.target.name !in w.done then VisitName(s, rel.target.name, visiting, w) else w;
      VisitRels(s, a, j + 1, visiting, w')
  }

  /** The outer loop of `getOrderedTables`: every schema table not yet finished starts a walk. */
  function OrderFrom(s: DatabaseSchema, i: nat, w: Walk): (r: Walk)
    requires i <= |s.tables| && WalkInv(s, w)
    ensures WalkInv(s, r) && Extends(w, r)
    ensures forall k :: i <= k < |s.tables| ==> s.tables[k].name in r.done
    decreases |s.tables| - i
  {
    if i == |s.tables| then w
    else
      var t := s.tables[i];
      var w' := if t.name in w.done then w else Visit(s, t, {}, w);
      OrderFrom(s, i + 1, w')
  }

  /** `getOrderedTables`: the schema's tables, each name exactly once. */
  function OrderedTables(s: DatabaseSchema): (r: seq<Table>)
    ensures forall k :: 0 <= k < |r| ==> r[k] in s.tables
    ensures DistinctNames(r)
    ensures NamesOf(r) == Names(s)
    ensures |s.tables| == 0 ==> r == []
  {
    var w := OrderFrom(s, 0, Walk({}, []));
    assert forall n :: n in Names(s) ==> n in w.done by {
      forall n | n in Names(s)
        ensures n in w.done
      {
        var k :| 0 <= k < |s.tables| && s.tables[k].name == n;
      }
    }
    w.out
  }

  // ---------------------------------------------------------------------------
  // Counting: the output has one table per distinct name
  // ---------------------------------------------------------------------------

  lemma {:induction false} DistinctNamesCount(ts: seq<Table>)
    requires DistinctNames(ts)
    ensures |NamesOf(ts)| == |ts|
    decreases |ts|
  {
    if |ts| > 0 {
      var init := ts[..|ts| - 1];
      assert ts == init + [ts[|ts| - 1]];
      NamesOfAppend(init, ts[|ts| - 1]);
      DistinctNamesCount(init);
      assert ts[|ts| - 1].name !in NamesOf(init);
    }
  }

  /** The ordering outputs as many tables as the schema has distinct table names. */
  lemma OrderedTablesCount(s: DatabaseSchema)
    ensures |OrderedTables(s)| == |Names(s)|
  {
    DistinctNamesCount(OrderedTables(s));
  }

  lemma {:induction false} DistinctOccursOnce(ts: seq<Table>, t: Table)
    requires DistinctNames(ts) && t in ts
    ensures multiset(ts)[t] == 1
    decreases |ts|
  {
    if ts[0] == t {
      assert t !in ts[1..];
      assert ts == [ts[0]] + ts[1..];
    } else {
      assert ts == [ts[0]] + ts[1..];
      DistinctOccursOnce(ts[1..], t);
    }
  }

  /** When the schema's table names are distinct, the ordering is a permutation of its tables. */
  lemma OrderedTablesPermutation(s: DatabaseSchema)
    requires DistinctNames(s.tables)
    ensures multiset(OrderedTables(s)) == multiset(s.tables)
  {
    var r := OrderedTables(s);
    forall t | t in s.tables
      ensures t in r
    {
      var k :| 0 <= k < |s.tables| && s.tables[k] == t;
      assert t.name in NamesOf(r);
      var j :| 0 <= j < |r| && r[j].name == t.name;
      var k' :| 0 <= k' < |s.tables| && s.tables[k'] == r[j];
    }
    forall t
      ensures multiset(r)[t] == multiset(s.tables)[t]
    {
      if t in r {
        DistinctOccursOnce(r, t);
        DistinctOccursOnce(s.tables, t);
      } else {
        assert t !in s.tables;
      }
    }
  }

  // ---------------------------------------------------------------------------
  // Precedence on acyclic schemas
  // ---------------------------------------------------------------------------

  /** The names the table named `a` points at: its dependency entries and the targets of the
      relationships whose source is `a`, each with any schema prefix dropped. */
  function Targets(s: DatabaseSchema, a: string): set<string> {
    DepTargets(s, a) + RelTargets(s, a)
  }

  function DepTargets(s: DatabaseSchema, a: string): set<string> {
    set d | d in DependenciesOf(s, a) :: Unqualified(d)
  }

  function RelTargets(s: DatabaseSchema, a: string): set<string> {
    set rel | rel in s.relationships && rel.source.name == a :: Unqualified(rel.target.name)
  }

  /** Table `a` depends on table `b`: `a` points at `b` and `b` is a schema table. */
  predicate Edge(s: DatabaseSchema, a: string, b: string) {
    b in Names(s) && b in Targets(s, a)
  }

  /** The dependency graph has no cycle: some rank decreases along every edge. */
  ghost predicate Ranked(s: DatabaseSchema, rank: string -> nat) {
    forall a, b :: Edge(s, a, b) ==> rank(b) < rank(a)
  }

  /** No relationship target name carries a schema prefix. The relationship loop skips a target
      by its raw name (the `visited` test at line 92), so a prefixed name would never count as
      finished. */
  predicate PlainTargets(s: DatabaseSchema) {
    forall rel :: rel in s.relationships ==> '.' !in rel.target.name
  }

  /** Every table in the list comes after each schema table it points at. */
  ghost predicate Ordered(s: DatabaseSchema, out: seq<Table>)
    decreases |out|
  {
    |out| == 0 ||
    (Ordered(s, out[..|out| - 1]) && Targets(s, out[|out| - 1].name) * Names(s) <= NamesOf(out[..|out| - 1]))
  }

  lemma OrderedExtend(s: DatabaseSchema, out: seq<Table>, t: Table)
    requires Ordered(s, out)
    requires Targets(s, t.name) * Names(s) <= NamesOf(out)
    ensures Ordered(s, out + [t])
  {
    assert (out + [t])[..|out|] == out;
  }

  /** The recursive definition, read at one position. */
  lemma {:induction false} OrderedAt(s: DatabaseSchema, out: seq<Table>, j: nat)
    requires Ordered(s, out) && j < |out|
    ensures Targets(s, out[j].name) * Names(s) <= NamesOf(out[..j])
    decreases |out|
  {
    if j < |out| - 1 {
      OrderedAt(s, out[..|out| - 1], j);
      assert out[..|out| - 1][..j] == out[..j];
    }
  }

  /** The unqualified names of a list are all finished once each of them in `names` is. */
  lemma MappedFinished(deps: seq<string>, names: set<string>, done: set<string>)
    requires forall k :: 0 <= k < |deps| && Unqualified(deps[k]) in names ==> Unqualified(deps[k]) in done
    ensures (set d | d in deps :: Unqualified(d)) * names <= done
  {
    forall b | b in (set d | d in deps :: Unqualified(d)) * names
      ensures b in done
    {
      var d :| d in deps && Unqualified(d) == b;
      var k :| 0 <= k < |deps| && deps[k] == d;
    }
  }

  lemma DepTargetsFinished(s: DatabaseSchema, a: string, w1: Walk)
    requires forall k :: 0 <= k < |DependenciesOf(s, a)| && Unqualified(DependenciesOf(s, a)[k]) in Names(s) ==>
      Unqualified(DependenciesOf(s, a)[k]) in w1.done
    ensures DepTargets(s, a) * Names(s) <= w1.done
  {
    MappedFinished(DependenciesOf(s, a), Names(s), w1.done);
  }

  /** The unqualified targets of the relationships from `a` are all finished once each of them
      in `names` is. */
  lemma RelsFinished(rels: seq<Relationship>, a: string, names: set<string>, done: set<string>)
    requires forall k :: 0 <= k < |rels| && rels[k].source.name == a && Unqualified(rels[k].target.name) in names ==>
      Unqualified(rels[k].target.name) in done
    ensures (set rel | rel in rels && rel.source.name == a :: Unqualified(rel.target.name)) * names <= done
  {
    forall b | b in (set rel | rel in rels && rel.source.name == a :: Unqualified(rel.target.name)) * names
      ensures b in done
    {
      var rel :| rel in rels && rel.source.name == a && Unqualified(rel.target.name) == b;
      var k :| 0 <= k < |rels| && rels[k] == rel;
    }
  }

  lemma RelTargetsFinished(s: DatabaseSchema, a: string, w2: Walk)
    requires forall k :: 0 <= k < |s.relationships| && RelTargetIn(s, a, k) ==>
      Unqualified(s.relationships[k].target.name) in w2.done
    ensures RelTargets(s, a) * Names(s) <= w2.done
  {
    RelsFinished(s.relationships, a, Names(s), w2.done);
  }

  /** The targets of `a` are all finished once both loops have run over its lists. */
  lemma TargetsFinished(s: DatabaseSchema, a: string, w1: Walk, w2: Walk)
    requires w1.done <= w2.done
    requires forall k :: 0 <= k < |DependenciesOf(s, a)| && Unqualified(DependenciesOf(s, a)[k]) in Names(s) ==>
      Unqualified(DependenciesOf(s, a)[k]) in w1.done
    requires forall k :: 0 <= k < |s.relationships| && RelTargetIn(s, a, k) ==>
      Unqualified(s.relationships[k].target.name) in w2.done
    ensures Targets(s, a) * Names(s) <= w2.done
  {
    DepTargetsFinished(s, a, w1);
    RelTargetsFinished(s, a, w2);
  }

  lemma {:induction false} VisitOrdered(s: DatabaseSchema, rank: string -> nat, t: Table, visiting: set<string>, w: Walk)
    requires Ranked(s, rank) && PlainTargets(s)
    requires t in s.tables && WalkInv(s, w) && Ordered(s, w.out)
    requires forall v :: v in visiting ==> rank(t.name) < rank(v)
    ensures Ordered(s, Visit(s, t, visiting, w).out)
    decreases |Names(s) - visiting|, 0, 0
  {
    if t.name !in visiting && t.name !in w.done {
      NamesShrink(Names(s), visiting, t.name);
      var path := visiting + {t.name};
      var deps := DependenciesOf(s, t.name);
      var w1 := VisitDeps(s, deps, 0, path, w);
      VisitDepsOrdered(s, rank, t.name, 0, path, w);
      var w2 := VisitRels(s, t.name, 0, path, w1);
      VisitRelsOrdered(s, rank, t.name, 0, path, w1);
      BothLoopsFinish(s, rank, t.name, path, w);
      OrderedExtend(s, w2.out, t);
    }
  }

  /** After both loops over the lists of `a`, every schema table `a` points at is finished. */
  lemma BothLoopsFinish(s: DatabaseSchema, rank: string -> nat, a: string, path: set<string>, w: Walk)
    requires Ranked(s, rank) && PlainTargets(s) && WalkInv(s, w)
    requires forall v :: v in path ==> rank(a) <= rank(v)
    ensures Targets(s, a) * Names(s) <=
      VisitRels(s, a, 0, path, VisitDeps(s, DependenciesOf(s, a), 0, path, w)).done
  {
    var w1 := VisitDeps(s, DependenciesOf(s, a), 0, path, w);
    var w2 := VisitRels(s, a, 0, path, w1);
    VisitDepsFinishes(s, rank, a, 0, path, w);
    VisitRelsFinishes(s, rank, a, 0, path, w1);
    TargetsFinished(s, a, w1, w2);
  }

  /** Relationship `k` leads from the table named `a` to a schema table. */
  predicate RelTargetIn(s: DatabaseSchema, a: string, k: nat)
    requires k < |s.relationships|
  {
    s.relationships[k].source.name == a && Unqualified(s.relationships[k].target.name) in Names(s)
  }

  /** Walking a name that `a` points at, while `a` is on the path, finishes that name. */
  lemma VisitNameFinishes(s: DatabaseSchema, rank: string -> nat, a: string, name: string,
                          visiting: set<string>, w: Walk)
    requires Ranked(s, rank)
    requires WalkInv(s, w) && Unqualified(name) in Targets(s, a)
    requires forall v :: v in visiting ==> rank(a) <= rank(v)
    ensures Unqualified(name) in Names(s) ==> Unqualified(name) in VisitName(s, name, visiting, w).done
  {
    if Unqualified(name) in Names(s) {
      assert Edge(s, a, Unqualified(name));
    }
  }

  /** Walking a name that `a` points at keeps the output ordered. */
  lemma {:induction false} VisitNameOrdered(s: DatabaseSchema, rank: string -> nat, a: string, name: string,
                                            visiting: set<string>, w: Walk)
    requires Ranked(s, rank) && PlainTargets(s)
    requires WalkInv(s, w) && Ordered(s, w.out) && Unqualified(name) in Targets(s, a)
    requires forall v :: v in visiting ==> rank(a) <= rank(v)
    ensures Ordered(s, VisitName(s, name, visiting, w).out)
    decreases |Names(s) - visiting|, 0, 1
  {
    match TableByName(s, name) {
      case None =>
      case Some(t) =>
        FoundBelow(s, rank, a, name, visiting);
        VisitOrdered(s, rank, t, visiting, w);
    }
  }

  /** A table that a name `a` points at resolves to ranks below everything on the path. */
  lemma FoundBelow(s: DatabaseSchema, rank: string -> nat, a: string, name: string, visiting: set<string>)
    requires Ranked(s, rank) && Unqualified(name) in Targets(s, a) && TableByName(s, name).Some?
    requires forall v :: v in visiting ==> rank(a) <= rank(v)
    ensures TableByName(s, name).value in s.tables
    ensures forall v :: v in visiting ==> rank(TableByName(s, name).value.name) < rank(v)
  {
    var t := TableByName(s, name).value;
    assert t.name in Names(s);
    assert Edge(s, a, t.name);
  }

  lemma DependencyIsTarget(s: DatabaseSchema, a: string, k: nat)
    requires k < |DependenciesOf(s, a)|
    ensures Unqualified(DependenciesOf(s, a)[k]) in Targets(s, a)
  {
    var d := DependenciesOf(s, a)[k];
    assert d in DependenciesOf(s, a);
  }

  lemma {:induction false} VisitDepsOrdered(s: DatabaseSchema, rank: string -> nat, a: string,
                                            i: nat, visiting: set<string>, w: Walk)
    requires Ranked(s, rank) && PlainTargets(s)
    requires i <= |DependenciesOf(s, a)| && WalkInv(s, w) && Ordered(s, w.out)
    requires forall v :: v in visiting ==> rank(a) <= rank(v)
    ensures Ordered(s, VisitDeps(s, DependenciesOf(s, a), i, visiting, w).out)
    decreases |Names(s) - visiting|, 1, |DependenciesOf(s, a)| - i
  {
    var deps := DependenciesOf(s, a);
    if i < |deps| {
      DependencyIsTarget(s, a, i);
      VisitNameOrdered(s, rank, a, deps[i], visiting, w);
      var w' := VisitName(s, deps[i], visiting, w);
      VisitDepsOrdered(s, rank, a, i + 1, visiting, w');
      assert VisitDeps(s, deps, i, visiting, w) == VisitDeps(s, deps, i + 1, visiting, w');
    }
  }

  lemma {:induction false} VisitDepsFinishes(s: DatabaseSchema, rank: string -> nat, a: string,
                                             i: nat, visiting: set<string>, w: Walk)
    requires Ranked(s, rank)
    requires i <= |DependenciesOf(s, a)| && WalkInv(s, w)
    requires forall v :: v in visiting ==> rank(a) <= rank(v)
    ensures forall k :: i <= k < |DependenciesOf(s, a)| && Unqualified(DependenciesOf(s, a)[k]) in Names(s) ==>
      Unqualified(DependenciesOf(s, a)[k]) in VisitDeps(s, DependenciesOf(s, a), i, visiting, w).done
    decreases |DependenciesOf(s, a)| - i
  {
    var deps := DependenciesOf(s, a);
    if i < |deps| {
      DependencyIsTarget(s, a, i);
      VisitNameFinishes(s, rank, a, deps[i], visiting, w);
      var w' := VisitName(s, deps[i], visiting, w);
      VisitDepsFinishes(s, rank, a, i + 1, visiting, w');
      var r := VisitDeps(s, deps, i + 1, visiting, w');
      assert VisitDeps(s, deps, i, visiting, w) == r;
      forall k | i <= k < |deps| && Unqualified(deps[k]) in Names(s)
        ensures Unqualified(deps[k]) in r.done
      {
        if k == i {
          assert Unqualified(deps[k]) in w'.done;
        }
      }
    }
  }

  lemma RelationshipIsTarget(s: DatabaseSchema, a: string, k: nat)
    requires k < |s.relationships| && s.relationships[k].source.name == a
    ensures Unqualified(s.relationships[k].target.name) in Targets(s, a)
  {
    assert s.relationships[k] in s.relationships;
  }

  lemma {:induction false} VisitRelsOrdered(s: DatabaseSchema, rank: string -> nat, a: string, j: nat,
                                            visiting: set<string>, w: Walk)
    requires Ranked(s, rank) && PlainTargets(s)
    requires j <= |s.relationships| && WalkInv(s, w) && Ordered(s, w.out)
    requires forall v :: v in visiting ==> rank(a) <= rank(v)
    ensures Ordered(s, VisitRels(s, a, j, visiting, w).out)
    decreases |Names(s) - visiting|, 1, |s.relationships| - j
  {
    if j < |s.relationships| {
      var rel := s.relationships[j];
      if rel.source.name == a && rel.target.name !in w.done {
        RelationshipIsTarget(s, a, j);
        VisitNameOrdered(s, rank, a, rel.target.name, visiting, w);
      }
      var w' := if rel.source.name == a && rel.target.name !in w.done then VisitName(s, rel.target.name, visiting, w) else w;
      VisitRelsOrdered(s, rank, a, j + 1, visiting, w');
      assert VisitRels(s, a, j, visiting, w) == VisitRels(s, a, j + 1, visiting, w');
    }
  }

  lemma {:induction false} VisitRelsFinishes(s: DatabaseSchema, rank: string -> nat, a: string, j: nat,
                                             visiting: set<string>, w: Walk)
    requires Ranked(s, rank) && PlainTargets(s)
    requires j <= |s.relationships| && WalkInv(s, w)
    requires forall v :: v in visiting ==> rank(a) <= rank(v)
    ensures forall k :: j <= k < |s.relationships| && RelTargetIn(s, a, k) ==>
      Unqualified(s.relationships[k].target.name) in VisitRels(s, a, j, visiting, w).done
    decreases |s.relationships| - j
  {
    if j < |s.relationships| {
      var rel := s.relationships[j];
      if rel.source.name == a && rel.target.name !in w.done {
        RelationshipIsTarget(s, a, j);
        VisitNameFinishes(s, rank, a, rel.target.name, visiting, w);
      }
      var w' := if rel.source.name == a && rel.target.name !in w.done then VisitName(s, rel.target.name, visiting, w) else w;
      VisitRelsFinishes(s, rank, a, j + 1, visiting, w');
      var r := VisitRels(s, a, j + 1, visiting, w');
      assert VisitRels(s, a, j, visiting, w) == r;
      forall k | j <= k < |s.relationships| && RelTargetIn(s, a, k)
        ensures Unqualified(s.relationships[k].target.name) in r.done
      {
        if k == j {
          assert Unqualified(rel.target.name) == rel.target.name;
          assert Unqualified(rel.target.name) in w'.done;
        }
      }
    }
  }

  lemma {:induction false} OrderFromOrdered(s: DatabaseSchema, rank: string -> nat, i: nat, w: Walk)
    requires Ranked(s, rank) && PlainTargets(s)
    requires i <= |s.tables| && WalkInv(s, w) && Ordered(s, w.out)
    ensures Ordered(s, OrderFrom(s, i, w).out)
    decreases |s.tables| - i
  {
    if i < |s.tables| {
      var t := s.tables[i];
      if t.name !in w.done {
        VisitOrdered(s, rank, t, {}, w);
      }
      var w' := if t.name in w.done then w else Visit(s, t, {}, w);
      OrderFromOrdered(s, rank, i + 1, w');
    }
  }

  /** On a schema without dependency cycles, every table comes after every schema table it
      points at: no table in the output precedes one it depends on. */
  lemma OrderedTablesRespectDependencies(s: DatabaseSchema, rank: string -> nat)
    requires Ranked(s, rank) && PlainTargets(s)
    ensures Ordered(s, OrderedTables(s))
    ensures forall i, j :: 0 <= i < j < |OrderedTables(s)| ==>
      !Edge(s, OrderedTables(s)[i].name, OrderedTables(s)[j].name)
  {
    OrderFromOrdered(s, rank, 0, Walk({}, []));
    var r := OrderedTables(s);
    forall i, j | 0 <= i < j < |r|
      ensures !Edge(s, r[i].name, r[j].name)
    {
      OrderedAt(s, r, i);
      assert r[j].name !in NamesOf(r[..i]);
    }
  }

  // ---------------------------------------------------------------------------
  // Table names
  // ---------------------------------------------------------------------------

  /** The name `getOrderedTableNames` reports for a table: `schema.name` when the table has a
      schema name, the bare name otherwise. */
  function QualifiedName(t: Table): (r: string)
    ensures t.schemaName != "" ==> r == t.schemaName + "." + t.name
    ensures t.schemaName == "" ==> r == t.name
  {
    if t.schemaName != "" then t.schemaName + "." + t.name else t.name
  }

  /** `getOrderedTableNames`: the ordered tables' reported names, position by position. */
  function OrderedTableNames(s: DatabaseSchema): (r: seq<string>)
    ensures |r| == |OrderedTables(s)|
    ensures forall k :: 0 <= k < |r| ==> r[k] == QualifiedName(OrderedTables(s)[k])
  {
    var ts := OrderedTables(s);
    seq(|ts|, k requires 0 <= k < |ts| => QualifiedName(ts[k]))
  }

  /** A reported name leads back to a table of the same bare name: the schema prefix is exactly
      what the table lookup drops. */
  lemma QualifiedNameResolves(s: DatabaseSchema, t: Table)
    requires t in s.tables && '.' !in t.name
    ensures Unqualified(QualifiedName(t)) == t.name
    ensures TableByName(s, QualifiedName(t)).Some?
    ensures TableByName(s, QualifiedName(t)).value.name == t.name
  {
    if t.schemaName != "" {
      UnqualifiedOfQualified(t.schemaName, t.name);
    }
  }
}
