/** The path-local dependency closure recorded in the companion manifest: a depth-first walk over the
    resolved package graph that remembers visited packages by name. */
module LocalClosure {

  type Id = string

  /** `isLocal`: the package has no `source`, so it came from a path. */
  datatype Package = Package(name: string, isLocal: bool)

  /** `order` is the iteration order of the package dictionary; `deps` lists the resolved dependencies
      of the packages that have a resolve node. */
  datatype Graph = Graph(order: seq<Id>, packages: map<Id, Package>, deps: map<Id, seq<Id>>)

  ghost predicate WellFormed(g: Graph) {
    forall id :: id in g.order <==> id in g.packages
  }

  predicate Local(g: Graph, id: Id) {
    id in g.packages && g.packages[id].isLocal
  }

  function Name(g: Graph, id: Id): string
    requires Local(g, id)
  {
    g.packages[id].name
  }

  function Deps(g: Graph, id: Id): seq<Id> {
    if id in g.deps then g.deps[id] else []
  }

  function LocalNames(g: Graph): set<string> {
    set id | id in g.packages && g.packages[id].isLocal :: g.packages[id].name
  }

  // ---------------------------------------------------------------- the walk

  /** What walking the dependencies in order adds to the visited names. */
  function WalkDeps(g: Graph, deps: seq<Id>, seen: set<string>): (r: set<string>)
    ensures seen <= r
    decreases LocalNames(g) - seen, |deps|
  {
    if deps == [] then seen
    else if !Local(g, deps[0]) || Name(g, deps[0]) in seen then WalkDeps(g, deps[1..], seen)
    else
      var name := Name(g, deps[0]);
      assert name in LocalNames(g);
      WalkDeps(g, deps[1..], WalkDeps(g, Deps(g, deps[0]), seen + {name}))
  }

  function WalkRoots(g: Graph, ids: seq<Id>, roots: set<string>, seen: set<string>): set<string> {
    if ids == [] then seen
    else if Local(g, ids[0]) && Name(g, ids[0]) in roots
    then WalkRoots(g, ids[1..], roots, WalkDeps(g, Deps(g, ids[0]), seen))
    else WalkRoots(g, ids[1..], roots, seen)
  }

  class Walker {
    const g: Graph
    var seen: set<string>

    constructor (g: Graph)
      ensures this.g == g && seen == {}
    {
      this.g := g;
      seen := {};
    }

    method Walk(id: Id)
      modifies this`seen
      ensures seen == WalkDeps(g, Deps(g, id), old(seen))
      decreases LocalNames(g) - seen
    {
      var deps := Deps(g, id);
      for i := 0 to |deps|
        invariant old(seen) <= seen
        invariant WalkDeps(g, deps, old(seen)) == WalkDeps(g, deps[i..], seen)
      {
        var target := deps[i];
        assert deps[i..][0] == target && deps[i..][1..] == deps[i + 1..];
        if !Local(g, target) {
          continue;
        }
        var name := Name(g, target);
        if name in seen {
          continue;
        }
        assert name in LocalNames(g);
        seen := seen + {name};
        Walk(target);
      }
    }
  }

  /** `local_closure`: terminates on every graph, cycles included. Every name returned is reachable from a
      local root by one or more path-local edges; when packages of one name depend on the same local
      names, as they do when names are distinct, exactly the reachable names are returned. */
  method Closure(g: Graph, roots: set<string>) returns (names: set<string>)
    ensures names == WalkRoots(g, g.order, roots, {})
    ensures WellFormed(g) ==> forall n :: n in names ==> Reachable(g, roots, n)
    ensures WellFormed(g) && NamesAgree(g) ==> forall n :: n in names <==> Reachable(g, roots, n)
  {
    var walker := new Walker(g);
    for i := 0 to |g.order|
      invariant walker.g == g
      invariant WalkRoots(g, g.order, roots, {}) == WalkRoots(g, g.order[i..], roots, walker.seen)
    {
      var id := g.order[i];
      assert g.order[i..][0] == id && g.order[i..][1..] == g.order[i + 1..];
      if Local(g, id) && Name(g, id) in roots {
        walker.Walk(id);
      }
    }
    names := walker.seen;
    assert g.order[|g.order|..] == [];
    if WellFormed(g) {
      forall n | n in names ensures Reachable(g, roots, n) {
        RootsReach(g, g.order, roots, {}, n);
      }
      if NamesAgree(g) {
        forall n | Reachable(g, roots, n) ensures n in names {
          ReachableIsFound(g, roots, n);
        }
      }
    }
  }

  // ---------------------------------------------------------------- reachability

  /** A path of local packages along dependency edges. */
  predicate LocalPath(g: Graph, p: seq<Id>) {
    && p != []
    && (forall i :: 0 <= i < |p| ==> Local(g, p[i]))
    && (forall i :: 0 <= i < |p| - 1 ==> p[i + 1] in Deps(g, p[i]))
  }

  ghost predicate Reachable(g: Graph, roots: set<string>, n: string) {
    exists p :: LocalPath(g, p) && |p| >= 2 && Name(g, p[0]) in roots && Name(g, p[|p| - 1]) == n
  }

  /** The local names a package depends on. */
  function DepNames(g: Graph, id: Id): set<string> {
    set d | d in Deps(g, id) && Local(g, d) :: Name(g, d)
  }

  /** Every local package of the same name depends on the same local names. */
  ghost predicate NamesakesAgree(g: Graph, id: Id)
    requires Local(g, id)
  {
    forall x :: Local(g, x) && Name(g, x) == Name(g, id) ==> DepNames(g, x) == DepNames(g, id)
  }

  ghost predicate NamesAgree(g: Graph) {
    forall id :: Local(g, id) ==> NamesakesAgree(g, id)
  }

  // ---------------------------------------------------------------- soundness

  lemma {:induction false} DepsReach(g: Graph, deps: seq<Id>, seen: set<string>, n: string) returns (p: seq<Id>)
    requires n in WalkDeps(g, deps, seen) && n !in seen
    ensures LocalPath(g, p) && p[0] in deps && Name(g, p[|p| - 1]) == n
    ensures forall i :: 0 <= i < |p| ==> Name(g, p[i]) !in seen
    decreases LocalNames(g) - seen, |deps|
  {
    if !Local(g, deps[0]) || Name(g, deps[0]) in seen {
      p := DepsReach(g, deps[1..], seen, n);
    } else {
      var name := Name(g, deps[0]);
      assert name in LocalNames(g);
      var inner := WalkDeps(g, Deps(g, deps[0]), seen + {name});
      if n == name {
        p := [deps[0]];
      } else if n in inner {
        var q := DepsReach(g, Deps(g, deps[0]), seen + {name}, n);
        p := [deps[0]] + q;
      } else {
        p := DepsReach(g, deps[1..], inner, n);
      }
    }
  }

  lemma {:induction false} RootsReach(g: Graph, ids: seq<Id>, roots: set<string>, seen: set<string>, n: string)
    requires n in WalkRoots(g, ids, roots, seen) && n !in seen
    ensures Reachable(g, roots, n)
  {
    if Local(g, ids[0]) && Name(g, ids[0]) in roots {
      var after := WalkDeps(g, Deps(g, ids[0]), seen);
      if n in after {
        var q := DepsReach(g, Deps(g, ids[0]), seen, n);
        var p := [ids[0]] + q;
        assert LocalPath(g, p);
      } else {
        RootsReach(g, ids[1..], roots, after, n);
      }
    } else {
      RootsReach(g, ids[1..], roots, seen, n);
    }
  }

  // ---------------------------------------------------------------- completeness

  /** Every local dependency of the package is visited. */
  predicate Covers(g: Graph, seen: set<string>, id: Id) {
    forall d :: d in Deps(g, id) && Local(g, d) ==> Name(g, d) in seen
  }

  lemma CoversNamesakes(g: Graph, seen: set<string>, walked: Id, id: Id)
    requires Local(g, walked) && Local(g, id) && Covers(g, seen, walked) && DepNames(g, walked) == DepNames(g, id)
    ensures Covers(g, seen, id)
  {
    forall d | d in Deps(g, id) && Local(g, d) ensures Name(g, d) in seen {
      assert Name(g, d) in DepNames(g, walked);
    }
  }

  /** Whatever a walk newly visits, it also walks. */
  lemma {:induction false} WalkCovers(g: Graph, deps: seq<Id>, seen: set<string>, id: Id)
    requires Local(g, id) && NamesakesAgree(g, id)
    requires Name(g, id) in WalkDeps(g, deps, seen) && Name(g, id) !in seen
    ensures Covers(g, WalkDeps(g, deps, seen), id)
    decreases LocalNames(g) - seen, |deps|
  {
    if !Local(g, deps[0]) || Name(g, deps[0]) in seen {
      WalkCovers(g, deps[1..], seen, id);
    } else {
      var name := Name(g, deps[0]);
      assert name in LocalNames(g);
      var inner := WalkDeps(g, Deps(g, deps[0]), seen + {name});
      if Name(g, id) == name {
        WalkVisitsDeps(g, Deps(g, deps[0]), seen + {name});
        CoversNamesakes(g, WalkDeps(g, deps, seen), deps[0], id);
      } else if Name(g, id) in inner {
        WalkCovers(g, Deps(g, deps[0]), seen + {name}, id);
      } else {
        WalkCovers(g, deps[1..], inner, id);
      }
    }
  }

  lemma {:induction false} WalkVisitsDeps(g: Graph, deps: seq<Id>, seen: set<string>)
    ensures forall d :: d in deps && Local(g, d) ==> Name(g, d) in WalkDeps(g, deps, seen)
    decreases LocalNames(g) - seen, |deps|
  {
    if deps != [] {
      if !Local(g, deps[0]) || Name(g, deps[0]) in seen {
        WalkVisitsDeps(g, deps[1..], seen);
      } else {
        var name := Name(g, deps[0]);
        assert name in LocalNames(g);
        WalkVisitsDeps(g, deps[1..], WalkDeps(g, Deps(g, deps[0]), seen + {name}));
      }
    }
  }

  /** The visited names are closed: every visited package is covered. */
  ghost predicate Closed(g: Graph, seen: set<string>) {
    forall id :: Local(g, id) && Name(g, id) in seen ==> Covers(g, seen, id)
  }

  lemma {:induction false} RootsAreCovered(g: Graph, ids: seq<Id>, roots: set<string>, seen: set<string>)
    requires NamesAgree(g) && Closed(g, seen)
    ensures seen <= WalkRoots(g, ids, roots, seen) && Closed(g, WalkRoots(g, ids, roots, seen))
    ensures forall id :: id in ids && Local(g, id) && Name(g, id) in roots ==> Covers(g, WalkRoots(g, ids, roots, seen), id)
  {
    if ids != [] {
      if Local(g, ids[0]) && Name(g, ids[0]) in roots {
        var after := WalkDeps(g, Deps(g, ids[0]), seen);
        forall id | Local(g, id) && Name(g, id) in after ensures Covers(g, after, id) {
          if Name(g, id) !in seen {
            WalkCovers(g, Deps(g, ids[0]), seen, id);
          }
        }
        WalkVisitsDeps(g, Deps(g, ids[0]), seen);
        RootsAreCovered(g, ids[1..], roots, after);
      } else {
        RootsAreCovered(g, ids[1..], roots, seen);
      }
    }
  }

  lemma ReachableIsFound(g: Graph, roots: set<string>, n: string)
    requires WellFormed(g) && NamesAgree(g) && Reachable(g, roots, n)
    ensures n in WalkRoots(g, g.order, roots, {})
  {
    var p :| LocalPath(g, p) && |p| >= 2 && Name(g, p[0]) in roots && Name(g, p[|p| - 1]) == n;
    RootsAreCovered(g, g.order, roots, {});
    PathIsVisited(g, WalkRoots(g, g.order, roots, {}), p, |p| - 1);
  }

  lemma {:induction false} PathIsVisited(g: Graph, seen: set<string>, p: seq<Id>, i: nat)
    requires LocalPath(g, p) && 1 <= i < |p|
    requires Closed(g, seen) && Covers(g, seen, p[0])
    ensures Name(g, p[i]) in seen
  {
    if i > 1 {
      PathIsVisited(g, seen, p, i - 1);
    }
    assert p[i - 1 + 1] in Deps(g, p[i - 1]);
  }

  // ---------------------------------------------------------------- shared names

  /** The only local package of its name is r, and it depends on a and then b, which share a name. */
  ghost predicate RootOfNamesakes(g: Graph, r: Id, a: Id, b: Id) {
    && Local(g, r) && Local(g, a) && Local(g, b) && Name(g, a) == Name(g, b)
    && Deps(g, r) == [a, b] && r in g.order
    && forall x :: Local(g, x) && Name(g, x) == Name(g, r) ==> x == r
  }

  /** A package of name n can be reached from a without passing another package named like a. */
  ghost predicate ReachesElsewhere(g: Graph, a: Id, n: string)
    requires Local(g, a)
  {
    exists p :: LocalPath(g, p) && p[0] in Deps(g, a) && Name(g, p[|p| - 1]) == n
                && forall i :: 0 <= i < |p| ==> Name(g, p[i]) != Name(g, a)
  }

  /** The second of two namesakes is never walked. */
  lemma SecondNamesakeIsSkipped(g: Graph, a: Id, b: Id, seen: set<string>)
    requires Local(g, a) && Local(g, b) && Name(g, a) == Name(g, b)
    ensures WalkDeps(g, [a, b], seen) ==
            if Name(g, a) in seen then seen else WalkDeps(g, Deps(g, a), seen + {Name(g, a)})
  {
    assert [a, b][1..] == [b] && [b][1..] == [];
    var inner := if Name(g, a) in seen then seen else WalkDeps(g, Deps(g, a), seen + {Name(g, a)});
    assert Name(g, a) in LocalNames(g);
    assert WalkDeps(g, [b], inner) == inner;
  }

  lemma {:induction false} OnlyRootIsWalked(g: Graph, ids: seq<Id>, r: Id, a: Id, b: Id, seen: set<string>)
    requires RootOfNamesakes(g, r, a, b)
    ensures WalkRoots(g, ids, {Name(g, r)}, seen) == if r in ids then WalkDeps(g, [a, b], seen) else seen
  {
    if ids != [] {
      SecondNamesakeIsSkipped(g, a, b, seen);
      var after := WalkDeps(g, [a, b], seen);
      assert Name(g, a) in after;
      SecondNamesakeIsSkipped(g, a, b, after);
      if Local(g, ids[0]) && Name(g, ids[0]) == Name(g, r) {
        OnlyRootIsWalked(g, ids[1..], r, a, b, after);
      } else {
        OnlyRootIsWalked(g, ids[1..], r, a, b, seen);
      }
    }
  }

  /** What the closure of such a root finds: the shared name and what the first namesake leads to. */
  lemma ClosureOfNamesakes(g: Graph, r: Id, a: Id, b: Id)
    requires RootOfNamesakes(g, r, a, b)
    ensures WalkRoots(g, g.order, {Name(g, r)}, {}) == WalkDeps(g, Deps(g, a), {Name(g, a)})
  {
    OnlyRootIsWalked(g, g.order, r, a, b, {});
    SecondNamesakeIsSkipped(g, a, b, {});
    assert {} + {Name(g, a)} == {Name(g, a)};
  }

  /** Whenever the second namesake depends on a name that the first does not lead to, that name is
      reachable and yet lost. */
  lemma SharedNameLosesDependency(g: Graph, r: Id, a: Id, b: Id, d: Id)
    requires RootOfNamesakes(g, r, a, b) && d in Deps(g, b) && Local(g, d)
    requires Name(g, d) != Name(g, a) && !ReachesElsewhere(g, a, Name(g, d))
    ensures Reachable(g, {Name(g, r)}, Name(g, d)) && Name(g, d) !in WalkRoots(g, g.order, {Name(g, r)}, {})
  {
    ReachableThroughSecond(g, r, a, b, d);
    ClosureOfNamesakes(g, r, a, b);
    VisitedIsReachedElsewhere(g, a, Name(g, d));
  }

  lemma VisitedIsReachedElsewhere(g: Graph, a: Id, n: string)
    requires Local(g, a) && n != Name(g, a)
    ensures n in WalkDeps(g, Deps(g, a), {Name(g, a)}) ==> ReachesElsewhere(g, a, n)
  {
    if n in WalkDeps(g, Deps(g, a), {Name(g, a)}) {
      var p := DepsReach(g, Deps(g, a), {Name(g, a)}, n);
      assert forall i :: 0 <= i < |p| ==> Name(g, p[i]) != Name(g, a);
    }
  }

  lemma ReachableThroughSecond(g: Graph, r: Id, a: Id, b: Id, d: Id)
    requires RootOfNamesakes(g, r, a, b) && d in Deps(g, b) && Local(g, d)
    ensures Reachable(g, {Name(g, r)}, Name(g, d))
  {
    var p := [r, b, d];
    assert LocalPath(g, p);
  }

  lemma {:induction false} ElsewhereIsVisited(g: Graph, a: Id, seen: set<string>, p: seq<Id>, i: nat)
    requires Local(g, a) && LocalPath(g, p) && p[0] in Deps(g, a) && i < |p| && Covers(g, seen, a)
    requires forall k :: 0 <= k < |p| ==> Name(g, p[k]) != Name(g, a)
    requires forall id :: Local(g, id) && Name(g, id) in seen && Name(g, id) != Name(g, a) ==> Covers(g, seen, id)
    ensures Name(g, p[i]) in seen
  {
    if i > 0 {
      ElsewhereIsVisited(g, a, seen, p, i - 1);
      assert p[i - 1 + 1] in Deps(g, p[i - 1]);
    }
  }

  /** Everything visited is covered, once the second namesake is. */
  lemma NamesakesAreClosed(g: Graph, a: Id, b: Id)
    requires Local(g, a) && Local(g, b) && Name(g, a) == Name(g, b)
    requires forall x :: Local(g, x) && Name(g, x) == Name(g, a) ==> x == a || x == b
    requires forall x :: Local(g, x) && Name(g, x) != Name(g, a) ==> NamesakesAgree(g, x)
    requires forall d :: d in Deps(g, b) && Local(g, d) ==> Name(g, d) == Name(g, a) || ReachesElsewhere(g, a, Name(g, d))
    ensures Closed(g, WalkDeps(g, Deps(g, a), {Name(g, a)}))
  {
    var seen := WalkDeps(g, Deps(g, a), {Name(g, a)});
    WalkVisitsDeps(g, Deps(g, a), {Name(g, a)});
    forall id | Local(g, id) && Name(g, id) in seen && Name(g, id) != Name(g, a) ensures Covers(g, seen, id) {
      WalkCovers(g, Deps(g, a), {Name(g, a)}, id);
    }
    forall d | d in Deps(g, b) && Local(g, d) ensures Name(g, d) in seen {
      if Name(g, d) != Name(g, a) {
        var p :| LocalPath(g, p) && p[0] in Deps(g, a) && Name(g, p[|p| - 1]) == Name(g, d)
                 && forall i :: 0 <= i < |p| ==> Name(g, p[i]) != Name(g, a);
        ElsewhereIsVisited(g, a, seen, p, |p| - 1);
      }
    }
    assert Covers(g, seen, a) && Covers(g, seen, b);
  }

  /** Where one name is shared, by two packages, the closure of such a root is exact if and only if the
      first namesake leads to everything the second depends on. */
  lemma SharedNameIsExactWhenCovered(g: Graph, r: Id, a: Id, b: Id)
    requires WellFormed(g) && RootOfNamesakes(g, r, a, b)
    requires forall x :: Local(g, x) && Name(g, x) == Name(g, a) ==> x == a || x == b
    requires forall x :: Local(g, x) && Name(g, x) != Name(g, a) ==> NamesakesAgree(g, x)
    ensures (forall n :: n in WalkRoots(g, g.order, {Name(g, r)}, {}) <==> Reachable(g, {Name(g, r)}, n)) <==>
            (forall d :: d in Deps(g, b) && Local(g, d) ==> Name(g, d) == Name(g, a) || ReachesElsewhere(g, a, Name(g, d)))
  {
    var names := WalkRoots(g, g.order, {Name(g, r)}, {});
    if forall d :: d in Deps(g, b) && Local(g, d) ==> Name(g, d) == Name(g, a) || ReachesElsewhere(g, a, Name(g, d)) {
      ClosureOfNamesakes(g, r, a, b);
      NamesakesAreClosed(g, a, b);
      ClosedIsExact(g, r, names);
    } else {
      var d :| d in Deps(g, b) && Local(g, d) && Name(g, d) != Name(g, a) && !ReachesElsewhere(g, a, Name(g, d));
      SharedNameLosesDependency(g, r, a, b, d);
    }
  }

  lemma ClosedIsExact(g: Graph, r: Id, names: set<string>)
    requires Local(g, r) && forall x :: Local(g, x) && Name(g, x) == Name(g, r) ==> x == r
    requires names == WalkRoots(g, g.order, {Name(g, r)}, {}) && Closed(g, names) && Covers(g, names, r)
    ensures forall n :: n in names <==> Reachable(g, {Name(g, r)}, n)
  {
    forall n | n in names ensures Reachable(g, {Name(g, r)}, n) {
      RootsReach(g, g.order, {Name(g, r)}, {}, n);
    }
    forall n | Reachable(g, {Name(g, r)}, n) ensures n in names {
      var p :| LocalPath(g, p) && |p| >= 2 && Name(g, p[0]) in {Name(g, r)} && Name(g, p[|p| - 1]) == n;
      PathIsVisited(g, names, p, |p| - 1);
    }
  }

  /** Such graphs exist: the dependency behind the second of two namesakes is never recorded. */
  lemma SharedNamesLoseAPackage()
    ensures var g := Graph(["r", "a1", "a2", "b"],
                           map["r" := Package("root", true), "a1" := Package("a", true),
                               "a2" := Package("a", true), "b" := Package("b", true)],
                           map["r" := ["a1", "a2"], "a2" := ["b"]]);
            WellFormed(g) && Reachable(g, {"root"}, "b") && "b" !in WalkRoots(g, g.order, {"root"}, {})
  {
    var g := Graph(["r", "a1", "a2", "b"],
                   map["r" := Package("root", true), "a1" := Package("a", true),
                       "a2" := Package("a", true), "b" := Package("b", true)],
                   map["r" := ["a1", "a2"], "a2" := ["b"]]);
    assert Deps(g, "a1") == [] && Deps(g, "r") == ["a1", "a2"];
    assert RootOfNamesakes(g, "r", "a1", "a2");
    SharedNameLosesDependency(g, "r", "a1", "a2", "b");
  }
}
