/** The dependency scheduler (python/runtime_failure/tasks/scheduler.py):
    Kahn's topological sort over the task mapping, the count of dependency
    chains and the check for dependencies that name no task. */
module TaskScheduler {
  import opened Wrappers
  import opened TaskModels

  const CircularDependencyMessage := "Circular dependency detected in task configuration"
  const MissingTaskMessage := "'NoneType' object has no attribute 'dependencies'"

  /** Number of occurrences of `x` in `s`. */
  function Count<T(==)>(s: seq<T>, x: T): nat {
    if s == [] then 0 else Count(s[..|s| - 1], x) + (if s[|s| - 1] == x then 1 else 0)
  }

  function Repeat<T>(x: T, n: nat): (r: seq<T>)
    ensures |r| == n && forall i :: 0 <= i < n ==> r[i] == x
  {
    if n == 0 then [] else Repeat(x, n - 1) + [x]
  }

  /** The adjacency list `graph[d]` that resolve_order has built after the
      first `i` keys: each of them that lists `d` as a dependency, in key
      order, once per listing. */
  function Dependents(m: TaskMap, i: nat, d: string): seq<string>
    requires i <= |m.keys|
  {
    if i == 0 then []
    else Dependents(m, i - 1, d) + Repeat(m.keys[i - 1], Count(DepsOf(m, m.keys[i - 1]), d))
  }

  /** How many entries of `deps` have not been emitted in `done`: the in-degree
      resolve_order keeps for a task once `done` has been emitted. */
  function CountMissing(deps: seq<string>, done: seq<string>): nat {
    if deps == [] then 0
    else CountMissing(deps[..|deps| - 1], done) + (if deps[|deps| - 1] in done then 0 else 1)
  }

  ghost predicate AllIn(deps: seq<string>, done: seq<string>) {
    forall d :: d in deps ==> d in done
  }

  /** The first `i` keys whose tasks have no dependencies, in key order. */
  function RootsUpTo(m: TaskMap, i: nat): seq<string>
    requires i <= |m.keys|
  {
    if i == 0 then []
    else RootsUpTo(m, i - 1) + (if DepsOf(m, m.keys[i - 1]) == [] then [m.keys[i - 1]] else [])
  }

  /** The tasks without dependencies, in key order. */
  function Roots(m: TaskMap): seq<string> {
    RootsUpTo(m, |m.keys|)
  }

  /** `order` lists every task exactly once, each after all of its dependencies. */
  ghost predicate IsTopologicalOrder(m: TaskMap, order: seq<string>) {
    && |order| == |m.keys|
    && Distinct(order)
    && (forall n :: n in order <==> n in m.table)
    && (forall i :: 0 <= i < |order| ==> AllIn(DepsOf(m, order[i]), order[..i]))
  }

  /** Task `a` lists `b` among its dependencies. */
  ghost predicate DependsOn(m: TaskMap, a: string, b: string) {
    b in DepsOf(m, a)
  }

  /** A closed walk along dependencies: `path[0]` depends on `path[1]`, …,
      and the walk returns to its start. */
  ghost predicate IsCycle(m: TaskMap, path: seq<string>) {
    && |path| >= 2
    && path[0] == path[|path| - 1]
    && forall i :: 0 <= i < |path| - 1 ==> DependsOn(m, path[i], path[i + 1])
  }

  // ---------------------------------------------------------------------
  // Counting facts

  lemma {:induction false} CountPrefix<T>(s: seq<T>, k: nat, x: T)
    requires k < |s|
    ensures Count(s[..k + 1], x) == Count(s[..k], x) + (if s[k] == x then 1 else 0)
  {
    assert s[..k + 1][..k] == s[..k];
  }

  lemma {:induction false} CountPrefixBound<T>(s: seq<T>, k: nat, x: T)
    requires k <= |s|
    ensures Count(s[..k], x) <= Count(s, x)
    decreases |s| - k
  {
    if k < |s| {
      CountPrefix(s, k, x);
      CountPrefixBound(s, k + 1, x);
    } else {
      assert s[..k] == s;
    }
  }

  lemma {:induction false} CountAppend<T>(a: seq<T>, b: seq<T>, x: T)
    ensures Count(a + b, x) == Count(a, x) + Count(b, x)
    decreases |b|
  {
    if b == [] {
      assert a + b == a;
    } else {
      assert (a + b)[..|a + b| - 1] == a + b[..|b| - 1];
      CountAppend(a, b[..|b| - 1], x);
    }
  }

  lemma {:induction false} CountRepeat<T>(y: T, n: nat, x: T)
    ensures Count(Repeat(y, n), x) == if y == x then n else 0
  {
    if n > 0 {
      assert Repeat(y, n)[..n - 1] == Repeat(y, n - 1);
      CountRepeat(y, n - 1, x);
    }
  }

  lemma {:induction false} CountPositive<T>(s: seq<T>, x: T)
    requires Count(s, x) > 0
    ensures x in s
  {
    if s[|s| - 1] != x {
      CountPositive(s[..|s| - 1], x);
    }
  }

  lemma {:induction false} CountMissingEmpty(deps: seq<string>)
    ensures CountMissing(deps, []) == |deps|
  {
    if deps != [] {
      CountMissingEmpty(deps[..|deps| - 1]);
    }
  }

  lemma {:induction false} CountMissingZero(deps: seq<string>, done: seq<string>)
    ensures CountMissing(deps, done) == 0 <==> AllIn(deps, done)
  {
    if deps != [] {
      var init := deps[..|deps| - 1];
      CountMissingZero(init, done);
      assert deps == init + [deps[|deps| - 1]];
    }
  }

  /** Emitting `c` lowers a task's in-degree by the number of times it lists `c`. */
  lemma {:induction false} CountMissingStep(deps: seq<string>, done: seq<string>, c: string)
    requires c !in done
    ensures CountMissing(deps, done + [c]) + Count(deps, c) == CountMissing(deps, done)
  {
    if deps != [] {
      CountMissingStep(deps[..|deps| - 1], done, c);
    }
  }

  // ---------------------------------------------------------------------
  // Facts about the mapping

  ghost function Elems<T>(s: seq<T>): set<T> {
    set x | x in s
  }

  lemma {:induction false} DistinctSize<T>(s: seq<T>)
    requires Distinct(s)
    ensures |Elems(s)| == |s|
  {
    if s != [] {
      var init := s[..|s| - 1];
      DistinctSize(init);
      assert Elems(s) == Elems(init) + {s[|s| - 1]};
      assert forall k :: 0 <= k < |init| ==> init[k] != s[|s| - 1];
    }
  }

  lemma DistinctAppend<T>(s: seq<T>, x: T)
    requires Distinct(s) && x !in s
    ensures Distinct(s + [x])
  {
  }

  lemma DistinctConcat<T>(a: seq<T>, b: seq<T>)
    requires Distinct(a + b)
    ensures Distinct(a) && Distinct(b)
    ensures forall x :: x in a ==> x !in b
  {
    forall i, j | 0 <= i < |a| && 0 <= j < |b| ensures a[i] != b[j] {
      assert (a + b)[i] == a[i] && (a + b)[|a| + j] == b[j];
    }
    forall i, j | 0 <= i < j < |a| ensures a[i] != a[j] {
      assert (a + b)[i] == a[i] && (a + b)[j] == a[j];
    }
    forall i, j | 0 <= i < j < |b| ensures b[i] != b[j] {
      assert (a + b)[|a| + i] == b[i] && (a + b)[|a| + j] == b[j];
    }
  }

  lemma PrefixExtend<T>(a: seq<T>, b: seq<T>, c: seq<T>)
    requires b <= c
    ensures a + b <= a + c
  {
    assert (a + c)[..|a + b|] == a + b;
  }

  lemma {:induction false} SubsetSize<T>(a: set<T>, b: set<T>)
    requires a <= b
    ensures |a| <= |b|
  {
    if a != {} {
      var x :| x in a;
      SubsetSize(a - {x}, b - {x});
    }
  }

  /** A duplicate-free list of task names is no longer than the mapping, and
      one as long as the mapping names every task. */
  lemma DistinctNamesBound(m: TaskMap, s: seq<string>)
    requires WellFormed(m)
    requires Distinct(s) && forall x :: x in s ==> x in m.table
    ensures |s| <= |m.keys|
    ensures |s| == |m.keys| ==> forall n :: n in m.table ==> n in s
    ensures |s| < |m.keys| ==> exists n :: n in m.table && n !in s
  {
    DistinctSize(s);
    DistinctSize(m.keys);
    assert Elems(m.keys) == m.table.Keys;
    SubsetSize(Elems(s), m.table.Keys);
    if |s| == |m.keys| {
      forall n | n in m.table ensures n in s {
        if n !in s {
          var rest := m.table.Keys - {n};
          assert m.table.Keys == rest + {n};
          SubsetSize(Elems(s), rest);
        }
      }
    }
    if |s| < |m.keys| && forall n :: n in m.table ==> n in s {
      SubsetSize(m.table.Keys, Elems(s));
    }
  }

  lemma {:induction false} DependentsAreKeys(m: TaskMap, i: nat, d: string)
    requires i <= |m.keys|
    ensures forall x :: x in Dependents(m, i, d) ==> x in m.keys[..i]
  {
    if i > 0 {
      DependentsAreKeys(m, i - 1, d);
      assert m.keys[..i] == m.keys[..i - 1] + [m.keys[i - 1]];
    }
  }

  /** `graph[c]` names task `n` exactly as often as `n` lists `c`: the two
      views of an edge that resolve_order keeps in step. */
  lemma {:induction false} DependentsCount(m: TaskMap, i: nat, c: string, n: string)
    requires WellFormed(m) && i <= |m.keys|
    ensures Count(Dependents(m, i, c), n) == if n in m.keys[..i] then Count(DepsOf(m, n), c) else 0
  {
    if i > 0 {
      var last := m.keys[i - 1];
      var before := Dependents(m, i - 1, c);
      var added := Repeat(last, Count(DepsOf(m, last), c));
      DependentsCount(m, i - 1, c, n);
      CountAppend(before, added, n);
      CountRepeat(last, Count(DepsOf(m, last), c), n);
      KeyPrefixStep(m, i);
      assert Count(Dependents(m, i, c), n) == Count(before, n) + Count(added, n);
      if n == last {
        assert Count(before, n) == 0 && n in m.keys[..i];
      } else {
        assert Count(added, n) == 0 && (n in m.keys[..i] <==> n in m.keys[..i - 1]);
      }
    }
  }

  /** The first `i` keys are the first `i - 1` and key `i - 1`, which is new. */
  lemma KeyPrefixStep(m: TaskMap, i: nat)
    requires WellFormed(m) && 0 < i <= |m.keys|
    ensures forall x :: x in m.keys[..i] <==> x in m.keys[..i - 1] || x == m.keys[i - 1]
    ensures m.keys[i - 1] !in m.keys[..i - 1]
  {
    assert m.keys[..i] == m.keys[..i - 1] + [m.keys[i - 1]];
  }


  /** `neighbours` names the tasks that depend on `current`, each as often
      as it lists `current`. */
  ghost predicate IsDependentList(m: TaskMap, current: string, neighbours: seq<string>) {
    && (forall x :: x in neighbours ==> x in m.table)
    && (forall n :: n in m.table ==> Count(neighbours, n) == Count(DepsOf(m, n), current))
  }

  /** The adjacency list resolve_order builds for `current` is its dependent list. */
  lemma DependentListOf(m: TaskMap, current: string)
    requires WellFormed(m)
    ensures IsDependentList(m, current, Dependents(m, |m.keys|, current))
  {
    DependentsAreKeys(m, |m.keys|, current);
    assert m.keys[..|m.keys|] == m.keys;
    forall n | n in m.table
      ensures Count(Dependents(m, |m.keys|, current), n) == Count(DepsOf(m, n), current)
    {
      DependentsCount(m, |m.keys|, current, n);
    }
  }

  /** The roots are exactly the keys without dependencies, each once. */
  lemma {:induction false} RootsSpec(m: TaskMap, i: nat)
    requires WellFormed(m) && i <= |m.keys|
    ensures Distinct(RootsUpTo(m, i))
    ensures forall x :: x in RootsUpTo(m, i) <==> x in m.keys[..i] && DepsOf(m, x) == []
  {
    if i > 0 {
      RootsSpec(m, i - 1);
      KeyPrefixStep(m, i);
    }
  }

  // ---------------------------------------------------------------------
  // Facts about topological orders

  /** The first position of `o` whose entry is not in `done`. */
  lemma {:induction false} FirstOutside(o: seq<string>, done: seq<string>, k: nat) returns (p: nat)
    requires k < |o| && o[k] !in done
    ensures p <= k && o[p] !in done
    ensures forall q :: 0 <= q < p ==> o[q] in done
  {
    p := 0;
    while o[p] in done
      invariant 0 <= p <= k
      invariant forall q :: 0 <= q < p ==> o[q] in done
      decreases k - p
    {
      p := p + 1;
    }
  }

  /** A set of emitted tasks that contains every task whose dependencies it
      contains, but misses some task, rules out any topological order: the
      first missed task of that order would have all its dependencies emitted. */
  lemma {:induction false} ClosedSetBlocksOrder(m: TaskMap, done: seq<string>, missed: string)
    requires missed in m.table && missed !in done
    requires forall n :: n in m.table && AllIn(DepsOf(m, n), done) ==> n in done
    ensures !exists o :: IsTopologicalOrder(m, o)
  {
    if o :| IsTopologicalOrder(m, o) {
      assert missed in o;
      var k :| 0 <= k < |o| && o[k] == missed;
      var p := FirstOutside(o, done, k);
      PrefixEmittedReady(m, o, done, p);
      assert false;
    }
  }

  /** In a topological order, a task whose predecessors have all been emitted
      has all its dependencies emitted. */
  lemma PrefixEmittedReady(m: TaskMap, o: seq<string>, done: seq<string>, p: nat)
    requires IsTopologicalOrder(m, o) && p < |o|
    requires forall q :: 0 <= q < p ==> o[q] in done
    ensures AllIn(DepsOf(m, o[p]), done)
  {
    assert AllIn(DepsOf(m, o[p]), o[..p]);
    forall d | d in DepsOf(m, o[p]) ensures d in done {
      assert d in o[..p];
      var q :| 0 <= q < p && o[q] == d;
    }
  }

  function IndexIn(o: seq<string>, x: string): (k: nat)
    requires x in o
    ensures k < |o| && o[k] == x
  {
    if o[|o| - 1] == x then |o| - 1 else IndexIn(o[..|o| - 1], x)
  }

  /** No topological order exists when the dependencies form a cycle. */
  lemma {:induction false} CycleBlocksOrder(m: TaskMap, path: seq<string>)
    requires IsCycle(m, path)
    ensures !exists o :: IsTopologicalOrder(m, o)
  {
    if o :| IsTopologicalOrder(m, o) {
      assert DependsOn(m, path[0], path[1]);
      assert path[0] in o;
      var k := 0;
      while k < |path| - 1
        invariant 0 <= k <= |path| - 1
        invariant path[k] in o
        invariant IndexIn(o, path[k]) + k <= IndexIn(o, path[0])
      {
        var i := IndexIn(o, path[k]);
        assert DependsOn(m, path[k], path[k + 1]);
        assert AllIn(DepsOf(m, o[i]), o[..i]);
        assert path[k + 1] in o[..i];
        var j :| 0 <= j < i && o[j] == path[k + 1];
        assert IndexIn(o, path[k + 1]) == j;
        k := k + 1;
      }
      assert false;
    }
  }

  /** No topological order exists when a task depends on a name that is not in the mapping. */
  lemma MissingDependencyBlocksOrder(m: TaskMap, a: string, b: string)
    requires DependsOn(m, a, b) && b !in m.table
    ensures !exists o :: IsTopologicalOrder(m, o)
  {
    if o :| IsTopologicalOrder(m, o) {
      var i :| 0 <= i < |o| && o[i] == a;
      assert AllIn(DepsOf(m, o[i]), o[..i]);
    }
  }

  /** A non-empty mapping that can be ordered has at least one root. */
  lemma OrderedMappingHasRoot(m: TaskMap, o: seq<string>)
    requires WellFormed(m) && IsTopologicalOrder(m, o) && m.keys != []
    ensures |Roots(m)| >= 1
  {
    RootsSpec(m, |m.keys|);
    assert m.keys[..|m.keys|] == m.keys;
    assert o[..0] == [];
    CountMissingEmpty(DepsOf(m, o[0]));
    CountMissingZero(DepsOf(m, o[0]), []);
    assert o[0] in Roots(m);
  }

  // ---------------------------------------------------------------------
  // resolve_order

  /** One edge of the first phase: append `name` to `graph[dep]`, creating the list if needed. */
  function Link(graph: map<string, seq<string>>, dep: string, name: string): map<string, seq<string>> {
    var g := if dep in graph then graph else graph[dep := []];
    g[dep := g[dep] + [name]]
  }

  /** The edges from the first `j` dependencies of task `name`. */
  function LinkAll(graph: map<string, seq<string>>, name: string, deps: seq<string>, j: nat): map<string, seq<string>>
    requires j <= |deps|
  {
    if j == 0 then graph else Link(LinkAll(graph, name, deps, j - 1), deps[j - 1], name)
  }

  /** Register `name` with an empty list unless it already has one. */
  function Open(graph: map<string, seq<string>>, name: string): map<string, seq<string>> {
    if name in graph then graph else graph[name := []]
  }

  /** The adjacency lists once the first `i` keys have been processed. */
  function GraphAfter(m: TaskMap, i: nat): map<string, seq<string>>
    requires i <= |m.keys|
  {
    if i == 0 then map[]
    else
      var name := m.keys[i - 1];
      LinkAll(Open(GraphAfter(m, i - 1), name), name, DepsOf(m, name), |DepsOf(m, name)|)
  }

  /** The in-degree table once the first `i` keys have been processed. */
  function DegreesAfter(m: TaskMap, i: nat): map<string, int>
    requires i <= |m.keys|
  {
    if i == 0 then map[]
    else DegreesAfter(m, i - 1)[m.keys[i - 1] := |DepsOf(m, m.keys[i - 1])|]
  }

  /** `graph.get(d, [])`. */
  function ListOf(graph: map<string, seq<string>>, d: string): seq<string> {
    if d in graph then graph[d] else []
  }

  lemma {:induction false} LinkAllSpec(graph: map<string, seq<string>>, name: string, deps: seq<string>, j: nat)
    requires j <= |deps|
    ensures forall d :: ListOf(LinkAll(graph, name, deps, j), d) == ListOf(graph, d) + Repeat(name, Count(deps[..j], d))
    ensures forall d :: d in graph ==> d in LinkAll(graph, name, deps, j)
  {
    if j > 0 {
      LinkAllSpec(graph, name, deps, j - 1);
      forall d ensures ListOf(LinkAll(graph, name, deps, j), d) == ListOf(graph, d) + Repeat(name, Count(deps[..j], d)) {
        LinkAllStep(graph, name, deps, j, d);
      }
      LinkSpec(LinkAll(graph, name, deps, j - 1), deps[j - 1], name);
    }
  }

  /** The list of one `d` after edge `j - 1`, from the list before it. */
  lemma LinkAllStep(graph: map<string, seq<string>>, name: string, deps: seq<string>, j: nat, d: string)
    requires 0 < j <= |deps|
    requires ListOf(LinkAll(graph, name, deps, j - 1), d) == ListOf(graph, d) + Repeat(name, Count(deps[..j - 1], d))
    ensures ListOf(LinkAll(graph, name, deps, j), d) == ListOf(graph, d) + Repeat(name, Count(deps[..j], d))
  {
    var prev := LinkAll(graph, name, deps, j - 1);
    LinkSpec(prev, deps[j - 1], name);
    CountPrefix(deps, j - 1, d);
    var before := Repeat(name, Count(deps[..j - 1], d));
    if deps[j - 1] == d {
      assert Repeat(name, Count(deps[..j], d)) == before + [name];
      assert (ListOf(graph, d) + before) + [name] == ListOf(graph, d) + (before + [name]);
    }
  }

  /** One edge extends the list of `dep` by `name` and leaves the others alone. */
  lemma LinkSpec(graph: map<string, seq<string>>, dep: string, name: string)
    ensures forall d :: ListOf(Link(graph, dep, name), d) == ListOf(graph, d) + (if d == dep then [name] else [])
    ensures forall d :: d in graph ==> d in Link(graph, dep, name)
  {
  }

  /** All the edges of one task at once. */
  lemma LinkAllFull(graph: map<string, seq<string>>, name: string, deps: seq<string>)
    ensures forall d :: ListOf(LinkAll(graph, name, deps, |deps|), d) == ListOf(graph, d) + Repeat(name, Count(deps, d))
    ensures forall d :: d in graph ==> d in LinkAll(graph, name, deps, |deps|)
  {
    LinkAllSpec(graph, name, deps, |deps|);
    assert deps[..|deps|] == deps;
  }

  /** Registering `name` and linking its dependencies appends `name` to the
      list of each dependency, once per listing, and keeps every list. */
  lemma OpenThenLink(g: map<string, seq<string>>, name: string, deps: seq<string>, g1: map<string, seq<string>>)
    requires g1 == LinkAll(Open(g, name), name, deps, |deps|)
    ensures forall d :: ListOf(g1, d) == ListOf(g, d) + Repeat(name, Count(deps, d))
    ensures name in g1 && forall d :: d in g ==> d in g1
  {
    var g0 := Open(g, name);
    LinkAllFull(g0, name, deps);
    forall d ensures ListOf(g0, d) == ListOf(g, d) {
    }
  }

  /** Processing key `i - 1` extends every adjacency list as Dependents does. */
  lemma GraphListsStep(m: TaskMap, prev: nat, i: nat)
    requires prev + 1 == i <= |m.keys|
    requires forall d :: ListOf(GraphAfter(m, prev), d) == Dependents(m, prev, d)
    ensures forall d :: ListOf(GraphAfter(m, i), d) == Dependents(m, i, d)
  {
    var name := m.keys[prev];
    OpenThenLink(GraphAfter(m, prev), name, DepsOf(m, name), GraphAfter(m, i));
  }

  /** Processing key `i - 1` gives it an adjacency list and keeps the earlier ones. */
  lemma GraphKeysStep(m: TaskMap, i: nat)
    requires 0 < i <= |m.keys|
    requires forall k :: 0 <= k < i - 1 ==> m.keys[k] in GraphAfter(m, i - 1)
    ensures forall k :: 0 <= k < i ==> m.keys[k] in GraphAfter(m, i)
  {
    var name := m.keys[i - 1];
    OpenThenLink(GraphAfter(m, i - 1), name, DepsOf(m, name), GraphAfter(m, i));
  }

  /** The adjacency lists of GraphAfter are the Dependents lists, with a list
      for every processed key. */
  lemma {:induction false} GraphAfterSpec(m: TaskMap, i: nat)
    requires i <= |m.keys|
    ensures forall d :: ListOf(GraphAfter(m, i), d) == Dependents(m, i, d)
    ensures forall k :: 0 <= k < i ==> m.keys[k] in GraphAfter(m, i)
  {
    if i > 0 {
      GraphAfterSpec(m, i - 1);
      GraphListsStep(m, i - 1, i);
      GraphKeysStep(m, i);
    }
  }

  lemma {:induction false} DegreesAfterSpec(m: TaskMap, i: nat)
    requires WellFormed(m) && i <= |m.keys|
    ensures forall n :: n in DegreesAfter(m, i) <==> n in m.keys[..i]
    ensures forall n :: n in DegreesAfter(m, i) ==> DegreesAfter(m, i)[n] == |DepsOf(m, n)|
  {
    if i > 0 {
      DegreesAfterSpec(m, i - 1);
      KeyPrefixStep(m, i);
    }
  }

  /** Key `i` is still absent from the in-degree table when its turn comes. */
  lemma FreshKey(m: TaskMap, i: nat)
    requires WellFormed(m) && i < |m.keys|
    ensures m.keys[i] !in DegreesAfter(m, i)
  {
    DegreesAfterSpec(m, i);
    assert m.keys[i] !in m.keys[..i];
  }

  /** Opening key `i` at zero and adding its dependency count gives the next degree table. */
  lemma DegreesStep(m: TaskMap, i: nat, reset: map<string, int>)
    requires i < |m.keys| && reset == DegreesAfter(m, i)[m.keys[i] := 0]
    ensures reset[m.keys[i] := reset[m.keys[i]] + |DepsOf(m, m.keys[i])|] == DegreesAfter(m, i + 1)
  {
    var next := reset[m.keys[i] := reset[m.keys[i]] + |DepsOf(m, m.keys[i])|];
    assert next.Keys == DegreesAfter(m, i + 1).Keys;
  }

  /** What the first phase has built once every key is processed. */
  lemma BuiltGraph(m: TaskMap)
    requires WellFormed(m)
    ensures DegreesAfter(m, |m.keys|).Keys == m.table.Keys
    ensures forall n :: n in DegreesAfter(m, |m.keys|) ==> DegreesAfter(m, |m.keys|)[n] == |DepsOf(m, n)|
    ensures forall n :: n in m.table ==> n in GraphAfter(m, |m.keys|)
    ensures forall d :: d in GraphAfter(m, |m.keys|) ==> GraphAfter(m, |m.keys|)[d] == Dependents(m, |m.keys|, d)
  {
    var g := GraphAfter(m, |m.keys|);
    DegreesAfterSpec(m, |m.keys|);
    GraphAfterSpec(m, |m.keys|);
    assert m.keys[..|m.keys|] == m.keys;
    forall d | d in g ensures g[d] == Dependents(m, |m.keys|, d) {
      assert ListOf(g, d) == g[d];
    }
    forall n | n in m.table ensures n in g {
      var k :| 0 <= k < |m.keys| && m.keys[k] == n;
    }
  }

  /** The inner loop of the first phase: one edge per listed dependency of
      `name`, and one more unit of in-degree for `name` per edge. */
  method AddEdges(graph0: map<string, seq<string>>, inDegree0: map<string, int>, name: string, deps: seq<string>)
    returns (graph: map<string, seq<string>>, inDegree: map<string, int>)
    requires name in inDegree0
    ensures graph == LinkAll(graph0, name, deps, |deps|)
    ensures inDegree == inDegree0[name := inDegree0[name] + |deps|]
  {
    graph, inDegree := graph0, inDegree0;
    var j := 0;
    while j < |deps|
      invariant 0 <= j <= |deps|
      invariant inDegree == inDegree0[name := inDegree0[name] + j]
      invariant graph == LinkAll(graph0, name, deps, j)
    {
      var dep := deps[j];
      if dep !in graph {
        graph := graph[dep := []];
      }
      graph := graph[dep := graph[dep] + [name]];
      inDegree := inDegree[name := inDegree[name] + 1];
      j := j + 1;
    }
  }

  /** First phase of resolve_order: one in-degree entry per task (its number
      of listed dependencies) and the adjacency lists, with a list for every
      task and for every name some task depends on. */
  method BuildGraph(m: TaskMap) returns (inDegree: map<string, int>, graph: map<string, seq<string>>)
    requires WellFormed(m)
    ensures inDegree == DegreesAfter(m, |m.keys|) && graph == GraphAfter(m, |m.keys|)
    ensures inDegree.Keys == m.table.Keys
    ensures forall n :: n in inDegree ==> inDegree[n] == |DepsOf(m, n)|
    ensures forall n :: n in m.table ==> n in graph
    ensures forall d :: d in graph ==> graph[d] == Dependents(m, |m.keys|, d)
  {
    inDegree, graph := map[], map[];
    var i := 0;
    while i < |m.keys|
      invariant 0 <= i <= |m.keys|
      invariant inDegree == DegreesAfter(m, i) && graph == GraphAfter(m, i)
    {
      inDegree, graph := AddTask(m, i, inDegree, graph);
      i := i + 1;
    }
    BuiltGraph(m);
  }


  /** One pass of the first phase: register key `i` and add the edges of its dependencies. */
  method AddTask(m: TaskMap, i: nat, inDegree0: map<string, int>, graph0: map<string, seq<string>>)
    returns (inDegree: map<string, int>, graph: map<string, seq<string>>)
    requires WellFormed(m) && i < |m.keys|
    requires inDegree0 == DegreesAfter(m, i) && graph0 == GraphAfter(m, i)
    ensures inDegree == DegreesAfter(m, i + 1) && graph == GraphAfter(m, i + 1)
  {
    var name := m.keys[i];
    assert name in m.table;
    var task := m.table[name];
    FreshKey(m, i);
    inDegree, graph := inDegree0, graph0;
    if name !in inDegree {
      inDegree := inDegree[name := 0];
    }
    if name !in graph {
      graph := graph[name := []];
    }
    assert graph == Open(GraphAfter(m, i), name) && task.dependencies == DepsOf(m, name);
    DegreesStep(m, i, inDegree);
    graph, inDegree := AddEdges(graph, inDegree, name, task.dependencies);
  }

  /** For every task, how many of its listed dependencies are not in `done`. */
  ghost function MissingCounts(m: TaskMap, done: seq<string>): map<string, int> {
    map n | n in m.table :: CountMissing(DepsOf(m, n), done)
  }

  /** The in-degrees after the first `k` dependents of the just emitted
      `current` have been relaxed, starting from MissingCounts before it. */
  ghost function RelaxedCounts(m: TaskMap, done: seq<string>, neighbours: seq<string>, k: nat): map<string, int>
    requires k <= |neighbours|
  {
    if k == 0 then MissingCounts(m, done)
    else
      var prev := RelaxedCounts(m, done, neighbours, k - 1);
      var n := neighbours[k - 1];
      if n in prev then prev[n := prev[n] - 1] else prev
  }

  /** Relaxing lowers each task's count of unemitted dependencies by the
      number of relaxations of that task so far. */
  lemma {:induction false} RelaxedCountsSpec(m: TaskMap, done: seq<string>, neighbours: seq<string>, k: nat)
    requires k <= |neighbours|
    ensures forall n :: n in RelaxedCounts(m, done, neighbours, k) <==> n in m.table
    ensures forall n :: n in m.table ==>
      RelaxedCounts(m, done, neighbours, k)[n] == CountMissing(DepsOf(m, n), done) - Count(neighbours[..k], n)
  {
    if k == 0 {
      assert neighbours[..0] == [];
    } else {
      RelaxedCountsSpec(m, done, neighbours, k - 1);
      forall n | n in m.table
        ensures RelaxedCounts(m, done, neighbours, k)[n] == CountMissing(DepsOf(m, n), done) - Count(neighbours[..k], n)
      {
        CountPrefix(neighbours, k - 1, n);
      }
    }
  }

  /** The queue bookkeeping of Kahn's loop: no task is both emitted and
      queued or queued twice, only tasks are, a task is emitted or queued
      exactly when its in-degree is zero, and a queued task has all of its
      dependencies emitted. */
  ghost predicate QueueState(m: TaskMap, inDegree: map<string, int>, result: seq<string>, queue: seq<string>) {
    && Distinct(result + queue)
    && (forall x :: x in result + queue ==> x in m.table)
    && (forall n :: n in inDegree ==> (n in result + queue <==> inDegree[n] == 0))
    && (forall x :: x in queue ==> AllIn(DepsOf(m, x), result))
  }

  /** The invariant of Kahn's loop once `result` has been emitted and `queue`
      holds the tasks waiting to be emitted: each in-degree counts the
      dependencies not yet emitted. */
  ghost predicate KahnState(m: TaskMap, inDegree: map<string, int>, result: seq<string>, queue: seq<string>) {
    inDegree == MissingCounts(m, result) && QueueState(m, inDegree, result, queue)
  }

  /** The next dependent to relax is a task whose in-degree is still
      positive, and it drops to zero only once all of its dependencies,
      `current` included, are emitted. */
  lemma NeighbourPending(m: TaskMap, neighbours: seq<string>, done: seq<string>, current: string,
                         k: nat, inDegree: map<string, int>)
    requires k < |neighbours|
    requires IsDependentList(m, current, neighbours) && current !in done
    requires inDegree == RelaxedCounts(m, done, neighbours, k)
    ensures neighbours[k] in m.table && neighbours[k] in inDegree && inDegree[neighbours[k]] > 0
    ensures inDegree[neighbours[k]] == 1 ==> AllIn(DepsOf(m, neighbours[k]), done + [current])
  {
    var neighbour := neighbours[k];
    var deps := DepsOf(m, neighbour);
    RelaxedCountsSpec(m, done, neighbours, k);
    CountPrefixBound(neighbours, k + 1, neighbour);
    CountPrefix(neighbours, k, neighbour);
    CountMissingStep(deps, done, current);
    assert inDegree[neighbour] == CountMissing(deps, done) - Count(neighbours[..k], neighbour);
    if inDegree[neighbour] == 1 {
      CountMissingZero(deps, done + [current]);
    }
  }

  /** The invariant of Kahn's inner loop after the first `k` dependents of
      the just emitted `current` have been relaxed. */
  ghost predicate InnerState(m: TaskMap, neighbours: seq<string>, done: seq<string>, current: string, k: nat,
                             inDegree: map<string, int>, queue: seq<string>)
    requires k <= |neighbours|
  {
    && IsDependentList(m, current, neighbours) && current !in done
    && inDegree == RelaxedCounts(m, done, neighbours, k) && inDegree.Keys == m.table.Keys
    && QueueState(m, inDegree, done + [current], queue)
  }

  /** One relaxation: lower the in-degree of `n` and queue `n` once that
      reaches zero. */
  function Lower(inDegree: map<string, int>, queue: seq<string>, n: string): (map<string, int>, seq<string>) {
    if n !in inDegree then (inDegree, queue)
    else
      var lowered := inDegree[n := inDegree[n] - 1];
      (lowered, if lowered[n] == 0 then queue + [n] else queue)
  }

  /** The inner loop as a function of the state it starts from: the
      in-degrees and queue once the first `k` dependents are relaxed. */
  function Relaxed(inDegree: map<string, int>, queue: seq<string>, neighbours: seq<string>, k: nat)
    : (map<string, int>, seq<string>)
    requires k <= |neighbours|
  {
    if k == 0 then (inDegree, queue)
    else
      var prev := Relaxed(inDegree, queue, neighbours, k - 1);
      Lower(prev.0, prev.1, neighbours[k - 1])
  }

  /** Relaxing dependent `k` keeps the inner-loop invariant and only
      appends to the queue. */
  lemma RelaxOne(m: TaskMap, neighbours: seq<string>, done: seq<string>, current: string, k: nat,
                 degrees: map<string, int>, waiting: seq<string>)
    requires k < |neighbours| && InnerState(m, neighbours, done, current, k, degrees, waiting)
    ensures InnerState(m, neighbours, done, current, k + 1,
                       Lower(degrees, waiting, neighbours[k]).0, Lower(degrees, waiting, neighbours[k]).1)
  {
    var n := neighbours[k];
    NeighbourPending(m, neighbours, done, current, k, degrees);
    var lowered := degrees[n := degrees[n] - 1];
    QueueIfReady(m, done + [current], waiting, n, degrees, lowered, if lowered[n] == 0 then waiting + [n] else waiting);
  }

  /** Every prefix of the inner loop keeps its invariant and only appends to the queue. */
  lemma RelaxedSpec(m: TaskMap, neighbours: seq<string>, done: seq<string>, current: string,
                     inDegree0: map<string, int>, queue0: seq<string>)
    requires InnerState(m, neighbours, done, current, 0, inDegree0, queue0)
    ensures InnerState(m, neighbours, done, current, |neighbours|,
                       Relaxed(inDegree0, queue0, neighbours, |neighbours|).0,
                       Relaxed(inDegree0, queue0, neighbours, |neighbours|).1)
  {
    var k := 0;
    while k < |neighbours|
      invariant k <= |neighbours|
      invariant InnerState(m, neighbours, done, current, k,
                           Relaxed(inDegree0, queue0, neighbours, k).0, Relaxed(inDegree0, queue0, neighbours, k).1)
    {
      k := k + 1;
      RelaxedStep(m, neighbours, done, current, inDegree0, queue0, k);
    }
  }

  /** The inner loop only appends to the queue. */
  lemma {:induction false} RelaxedAppends(inDegree0: map<string, int>, queue0: seq<string>, neighbours: seq<string>, k: nat)
    requires k <= |neighbours|
    ensures queue0 <= Relaxed(inDegree0, queue0, neighbours, k).1
  {
    if k > 0 {
      RelaxedAppends(inDegree0, queue0, neighbours, k - 1);
    }
  }

  /** The induction step of `RelaxedSpec`, stated on `Relaxed` itself. */
  lemma RelaxedStep(m: TaskMap, neighbours: seq<string>, done: seq<string>, current: string,
                    inDegree0: map<string, int>, queue0: seq<string>, k: nat)
    requires 0 < k <= |neighbours|
    requires InnerState(m, neighbours, done, current, k - 1,
                        Relaxed(inDegree0, queue0, neighbours, k - 1).0, Relaxed(inDegree0, queue0, neighbours, k - 1).1)
    ensures InnerState(m, neighbours, done, current, k,
                       Relaxed(inDegree0, queue0, neighbours, k).0, Relaxed(inDegree0, queue0, neighbours, k).1)
  {
    var prev := Relaxed(inDegree0, queue0, neighbours, k - 1);
    RelaxOne(m, neighbours, done, current, k - 1, prev.0, prev.1);
  }

  /** Lowering the in-degree of a pending task, and queueing it when that
      reaches zero, keeps the queue bookkeeping and only appends to the queue. */
  lemma QueueIfReady(m: TaskMap, result: seq<string>, queue: seq<string>, neighbour: string,
                     inDegree: map<string, int>, degrees: map<string, int>, queue': seq<string>)
    requires QueueState(m, inDegree, result, queue)
    requires neighbour in inDegree && neighbour in m.table && inDegree[neighbour] > 0
    requires degrees == inDegree[neighbour := inDegree[neighbour] - 1]
    requires degrees[neighbour] == 0 ==> AllIn(DepsOf(m, neighbour), result)
    requires queue' == if degrees[neighbour] == 0 then queue + [neighbour] else queue
    ensures QueueState(m, degrees, result, queue') && queue <= queue'
  {
    if degrees[neighbour] == 0 {
      DistinctAppend(result + queue, neighbour);
      assert result + queue' == result + queue + [neighbour];
    }
  }

  /** The inner loop of Kahn's algorithm: once `current` is taken from the
      queue and emitted, lower the in-degree of each of its dependents and
      queue those that reach zero. */
  method Relax(neighbours: seq<string>, inDegree0: map<string, int>, queue0: seq<string>)
    returns (inDegree: map<string, int>, queue: seq<string>)
    requires forall x :: x in neighbours ==> x in inDegree0
    ensures (inDegree, queue) == Relaxed(inDegree0, queue0, neighbours, |neighbours|)
  {
    inDegree, queue := inDegree0, queue0;
    var k := 0;
    while k < |neighbours|
      invariant 0 <= k <= |neighbours|
      invariant (inDegree, queue) == Relaxed(inDegree0, queue0, neighbours, k)
      invariant inDegree.Keys == inDegree0.Keys
    {
      var neighbour := neighbours[k];
      inDegree := inDegree[neighbour := inDegree[neighbour] - 1];
      if inDegree[neighbour] == 0 {
        queue := queue + [neighbour];
      }
      k := k + 1;
    }
  }

  /** Taking `current` off the queue and emitting it starts the inner loop
      in its invariant. */
  lemma RelaxStart(m: TaskMap, neighbours: seq<string>, done: seq<string>, current: string,
                   inDegree: map<string, int>, queue: seq<string>)
    requires IsDependentList(m, current, neighbours)
    requires KahnState(m, inDegree, done, [current] + queue)
    ensures InnerState(m, neighbours, done, current, 0, inDegree, queue)
  {
    assert done + ([current] + queue) == done + [current] + queue;
    DistinctConcat(done, [current] + queue);
  }

  /** Once every dependent is relaxed, the in-degrees count the dependencies
      not yet emitted, now including `current`. */
  lemma RelaxDone(m: TaskMap, neighbours: seq<string>, done: seq<string>, current: string,
                  inDegree: map<string, int>, queue: seq<string>)
    requires InnerState(m, neighbours, done, current, |neighbours|, inDegree, queue)
    ensures KahnState(m, inDegree, done + [current], queue)
  {
    assert neighbours[..|neighbours|] == neighbours;
    RelaxedCountsSpec(m, done, neighbours, |neighbours|);
    var after := MissingCounts(m, done + [current]);
    forall n | n in m.table ensures inDegree[n] == after[n] {
      CountMissingStep(DepsOf(m, n), done, current);
    }
    assert inDegree.Keys == after.Keys;
  }

  /** The seed of Kahn's loop: the degree-0 entries of in_degree, in its
      insertion order, which is the key order. */
  method InitialQueue(m: TaskMap, inDegree: map<string, int>) returns (queue: seq<string>)
    requires WellFormed(m)
    requires forall n :: n in m.table ==> n in inDegree && inDegree[n] == |DepsOf(m, n)|
    ensures queue == Roots(m)
  {
    queue := [];
    var i := 0;
    while i < |m.keys|
      invariant 0 <= i <= |m.keys|
      invariant queue == RootsUpTo(m, i)
    {
      assert m.keys[i] in m.keys;
      if inDegree[m.keys[i]] == 0 {
        queue := queue + [m.keys[i]];
      }
      i := i + 1;
    }
  }

  /** Before the first step, nothing is emitted and the roots wait in the queue. */
  lemma InitialState(m: TaskMap)
    requires WellFormed(m)
    ensures KahnState(m, DegreesAfter(m, |m.keys|), [], Roots(m))
  {
    var inDegree := DegreesAfter(m, |m.keys|);
    DegreesAfterSpec(m, |m.keys|);
    RootsSpec(m, |m.keys|);
    assert m.keys[..|m.keys|] == m.keys;
    assert [] + Roots(m) == Roots(m);
    forall n | n in inDegree
      ensures inDegree[n] == CountMissing(DepsOf(m, n), [])
      ensures n in Roots(m) <==> inDegree[n] == 0
    {
      CountMissingEmpty(DepsOf(m, n));
    }
  }

  /** Every emitted task follows all of its dependencies. */
  ghost predicate EmittedInOrder(m: TaskMap, result: seq<string>) {
    forall p :: 0 <= p < |result| ==> AllIn(DepsOf(m, result[p]), result[..p])
  }

  lemma EmitKeepsOrder(m: TaskMap, result: seq<string>, current: string)
    requires EmittedInOrder(m, result) && AllIn(DepsOf(m, current), result)
    ensures EmittedInOrder(m, result + [current])
  {
    var r := result + [current];
    assert r[..|result|] == result;
    forall p | 0 <= p < |result| ensures r[..p] == result[..p] && r[p] == result[p] {
    }
  }

  /** The head of the queue has all of its dependencies emitted. */
  lemma HeadReady(m: TaskMap, inDegree: map<string, int>, result: seq<string>, queue: seq<string>)
    requires KahnState(m, inDegree, result, queue) && queue != []
    ensures queue == [queue[0]] + queue[1..] && AllIn(DepsOf(m, queue[0]), result)
  {
    assert queue[0] in queue;
  }

  /** Moving the head of the queue to the emitted list keeps their concatenation. */
  lemma MoveHead<T>(result: seq<T>, queue: seq<T>)
    requires queue != []
    ensures result + queue == (result + [queue[0]]) + queue[1..]
  {
    assert queue == [queue[0]] + queue[1..];
  }

  /** One turn of Kahn's outer loop: pop the head of the queue, emit it and relax its dependents. */
  method KahnStep(m: TaskMap, graph: map<string, seq<string>>, inDegree0: map<string, int>,
                  result0: seq<string>, queue0: seq<string>)
    returns (inDegree: map<string, int>, result: seq<string>, queue: seq<string>)
    requires WellFormed(m)
    requires forall n :: n in m.table ==> n in graph
    requires forall d :: d in graph ==> graph[d] == Dependents(m, |m.keys|, d)
    requires KahnState(m, inDegree0, result0, queue0) && EmittedInOrder(m, result0)
    requires queue0 != []
    ensures KahnState(m, inDegree, result, queue) && EmittedInOrder(m, result)
    ensures result == result0 + [queue0[0]]
    ensures result0 + queue0 <= result + queue
  {
    var current := queue0[0];
    HeadReady(m, inDegree0, result0, queue0);
    result := result0 + [current];
    EmitKeepsOrder(m, result0, current);
    MoveHead(result0, queue0);
    DependentListOf(m, current);
    RelaxStart(m, graph[current], result0, current, inDegree0, queue0[1..]);
    inDegree, queue := Relax(graph[current], inDegree0, queue0[1..]);
    RelaxedSpec(m, graph[current], result0, current, inDegree0, queue0[1..]);
    RelaxedAppends(inDegree0, queue0[1..], graph[current], |graph[current]|);
    RelaxDone(m, graph[current], result0, current, inDegree, queue);
    PrefixExtend(result, queue0[1..], queue);
  }

  /** The outer loop of Kahn's algorithm: emit queued tasks until the queue is
      empty. Every emitted task follows its dependencies and the seed queue
      is emitted first. */
  method Drain(m: TaskMap, graph: map<string, seq<string>>, inDegree0: map<string, int>, queue0: seq<string>)
    returns (result: seq<string>, ghost inDegree: map<string, int>)
    requires WellFormed(m)
    requires forall n :: n in m.table ==> n in graph
    requires forall d :: d in graph ==> graph[d] == Dependents(m, |m.keys|, d)
    requires KahnState(m, inDegree0, [], queue0)
    ensures KahnState(m, inDegree, result, []) && EmittedInOrder(m, result)
    ensures queue0 <= result
  {
    var queue := queue0;
    var degrees := inDegree0;
    result := [];
    assert result + queue == queue;
    while queue != []
      invariant KahnState(m, degrees, result, queue) && EmittedInOrder(m, result)
      invariant queue0 <= result + queue
      decreases |m.keys| - |result|
    {
      DistinctNamesBound(m, result + queue);
      degrees, result, queue := KahnStep(m, graph, degrees, result, queue);
    }
    inDegree := degrees;
    assert result + queue == result;
  }

  /** resolve_order: succeeds exactly when the mapping has a topological
      order, and then returns one that starts with the tasks that have no
      dependencies, in key order; otherwise raises the circular dependency
      error, which also covers a dependency on a name that is not a task. */
  method ResolveOrder(m: TaskMap) returns (r: Result<seq<string>, string>)
    requires WellFormed(m)
    ensures r.Ok? ==> IsTopologicalOrder(m, r.value) && Roots(m) <= r.value
    ensures r.Err? ==> r.error == CircularDependencyMessage && !exists o :: IsTopologicalOrder(m, o)
  {
    var inDegree, graph := BuildGraph(m);
    var queue := InitialQueue(m, inDegree);
    InitialState(m);
    var result, finalDegrees := Drain(m, graph, inDegree, queue);
    assert result + [] == result;
    if |result| != |m.keys| {
      DistinctNamesBound(m, result);
      var missed :| missed in m.table && missed !in result;
      forall n | n in m.table && AllIn(DepsOf(m, n), result) ensures n in result {
        CountMissingZero(DepsOf(m, n), result);
      }
      ClosedSetBlocksOrder(m, result, missed);
      return Err(CircularDependencyMessage);
    }
    DistinctNamesBound(m, result);
    return Ok(result);
  }

  // ---------------------------------------------------------------------
  // validate_dependencies

  /** The entries of `deps` that are not task names, in order, with repeats. */
  function MissingIn(m: TaskMap, deps: seq<string>): seq<string> {
    if deps == [] then []
    else MissingIn(m, deps[..|deps| - 1]) + (if deps[|deps| - 1] in m.table then [] else [deps[|deps| - 1]])
  }

  /** The missing names found after the tasks of the first `i` keys. */
  function Unresolved(m: TaskMap, i: nat): seq<string>
    requires i <= |m.keys|
  {
    if i == 0 then [] else Unresolved(m, i - 1) + MissingIn(m, DepsOf(m, m.keys[i - 1]))
  }

  lemma {:induction false} MissingInSpec(m: TaskMap, deps: seq<string>)
    ensures forall x :: x in MissingIn(m, deps) <==> x in deps && x !in m.table
  {
    if deps != [] {
      var init := deps[..|deps| - 1];
      MissingInSpec(m, init);
      assert deps == init + [deps[|deps| - 1]];
    }
  }

  /** A name is reported exactly when it is not a task and one of the first
      `i` tasks lists it. */
  lemma {:induction false} UnresolvedSpec(m: TaskMap, i: nat)
    requires i <= |m.keys|
    ensures forall x :: x in Unresolved(m, i) <==>
      x !in m.table && exists k :: 0 <= k < i && x in DepsOf(m, m.keys[k])
  {
    if i > 0 {
      UnresolvedSpec(m, i - 1);
      MissingInSpec(m, DepsOf(m, m.keys[i - 1]));
    }
  }

  /** validate_dependencies: every dependency name that is not a task, in
      key order and with repeats; a name is reported exactly when some task
      lists it and it is not a task. */
  method ValidateDependencies(m: TaskMap) returns (missing: seq<string>)
    requires WellFormed(m)
    ensures missing == Unresolved(m, |m.keys|)
    ensures forall x :: x in missing <==> x !in m.table && exists n :: n in m.table && x in DepsOf(m, n)
  {
    missing := [];
    var i := 0;
    while i < |m.keys|
      invariant 0 <= i <= |m.keys|
      invariant missing == Unresolved(m, i)
    {
      var name := m.keys[i];
      assert name in m.table;
      missing := AppendMissing(m, missing, m.table[name].dependencies);
      i := i + 1;
    }
    ReportedNames(m, missing);
  }

  /** The inner loop of validate_dependencies: append each entry of `deps`
      that is not a task name. */
  method AppendMissing(m: TaskMap, missing0: seq<string>, deps: seq<string>) returns (missing: seq<string>)
    ensures missing == missing0 + MissingIn(m, deps)
  {
    missing := missing0;
    var j := 0;
    while j < |deps|
      invariant 0 <= j <= |deps|
      invariant missing == missing0 + MissingIn(m, deps[..j])
    {
      if deps[j] !in m.table {
        missing := missing + [deps[j]];
      }
      assert deps[..j + 1][..j] == deps[..j];
      j := j + 1;
    }
    assert deps[..j] == deps;
  }

  /** The names reported after all keys are the non-task names some task lists. */
  lemma ReportedNames(m: TaskMap, missing: seq<string>)
    requires WellFormed(m) && missing == Unresolved(m, |m.keys|)
    ensures forall x :: x in missing <==> x !in m.table && exists n :: n in m.table && x in DepsOf(m, n)
  {
    UnresolvedSpec(m, |m.keys|);
    forall x | x !in m.table && exists n :: n in m.table && x in DepsOf(m, n)
      ensures x in Unresolved(m, |m.keys|)
    {
      var n :| n in m.table && x in DepsOf(m, n);
      var k :| 0 <= k < |m.keys| && m.keys[k] == n;
    }
  }

  /** A reported missing name rules out any order, so resolve_order raises. */
  lemma ReportedMissingBlocksOrder(m: TaskMap)
    requires WellFormed(m) && Unresolved(m, |m.keys|) != []
    ensures !exists o :: IsTopologicalOrder(m, o)
  {
    UnresolvedSpec(m, |m.keys|);
    var x := Unresolved(m, |m.keys|)[0];
    assert x in Unresolved(m, |m.keys|);
    var k :| 0 <= k < |m.keys| && x in DepsOf(m, m.keys[k]);
    MissingDependencyBlocksOrder(m, m.keys[k], x);
  }

  // ---------------------------------------------------------------------
  // count_dependency_chains

  /** The nested dfs: mark `name` visited and visit its dependencies. Looking
      up a name that is not a task yields None, whose `.dependencies` raises
      an AttributeError, returned here as `Some(message)`. */
  method Visit(m: TaskMap, name: string, visited0: set<string>) returns (visited: set<string>, error: Option<string>)
    ensures visited0 <= visited && name in visited
    ensures name in visited0 ==> visited == visited0 && error == None
    ensures name !in visited0 && name !in m.table ==> visited == visited0 + {name} && error == Some(MissingTaskMessage)
    ensures name !in visited0 && name in m.table && DepsOf(m, name) == [] ==> visited == visited0 + {name} && error == None
    ensures error == None ==> forall x :: x in visited && x !in visited0 ==> x in m.table
    decreases m.table.Keys - visited0
  {
    if name in visited0 {
      return visited0, None;
    }
    visited := visited0 + {name};
    if name !in m.table {
      return visited, Some(MissingTaskMessage);
    }
    var deps := m.table[name].dependencies;
    var j := 0;
    while j < |deps|
      invariant 0 <= j <= |deps|
      invariant j == 0 ==> visited == visited0 + {name}
      invariant visited0 + {name} <= visited
      invariant forall x :: x in visited && x !in visited0 ==> x in m.table
    {
      assert m.table.Keys - visited < m.table.Keys - visited0 by {
        assert name in m.table.Keys - visited0 && name !in m.table.Keys - visited;
      }
      var err;
      visited, err := Visit(m, deps[j], visited);
      if err.Some? {
        return visited, err;
      }
      j := j + 1;
    }
    error := None;
  }

  /** count_dependency_chains: one chain per task without dependencies, and
      at least one. The dfs from such a task only marks the task itself. */
  method CountDependencyChains(m: TaskMap) returns (chains: int)
    requires WellFormed(m)
    ensures chains == if |Roots(m)| == 0 then 1 else |Roots(m)|
  {
    var visited: set<string> := {};
    chains := 0;
    var i := 0;
    while i < |m.keys|
      invariant 0 <= i <= |m.keys|
      invariant chains == |RootsUpTo(m, i)|
      invariant forall x :: x in visited ==> x in m.keys[..i]
    {
      var name := m.keys[i];
      KeyPrefixStep(m, i + 1);
      if m.table[name].dependencies == [] && name !in visited {
        chains := chains + 1;
        var err;
        visited, err := Visit(m, name, visited);
      }
      i := i + 1;
    }
    if chains < 1 {
      chains := 1;
    }
  }

  /** A non-empty mapping that resolve_order can order has a chain for each
      root, so the `max(..., 1)` floor only matters for a mapping without roots. */
  lemma ChainsOfOrderable(m: TaskMap, o: seq<string>)
    requires WellFormed(m) && |m.keys| > 0 && IsTopologicalOrder(m, o)
    ensures |Roots(m)| >= 1
  {
    OrderedMappingHasRoot(m, o);
  }
}
