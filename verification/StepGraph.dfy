/**
  The dependency graph of a pipeline's steps: unknown-dependency check,
  depth-first cycle detection and batching in dependency order.
*/
module StepGraph {
  import opened Common

  /** The part of a pipeline step that orders execution. */
  datatype PipelineStep = PipelineStep(name: string, depends: seq<string>)

  /** Step name to its dependencies. */
  type Graph = map<string, seq<string>>

  /** The graph of a step list: a repeated name keeps its last entry. */
  function GraphOf(steps: seq<PipelineStep>): Graph {
    if steps == [] then map[]
    else
      var last := steps[|steps| - 1];
      GraphOf(steps[..|steps| - 1])[last.name := last.depends]
  }

  /** The graph holds exactly the names of the list. */
  lemma {:induction false} GraphHoldsNames(steps: seq<PipelineStep>, name: string)
    ensures name in GraphOf(steps) <==> exists s :: s in steps && s.name == name
  {
    if steps != [] {
      var front, last := steps[..|steps| - 1], steps[|steps| - 1];
      GraphHoldsNames(front, name);
      assert steps == front + [last];
    }
  }

  /** A name that is repeated has the dependencies of its last entry. */
  lemma {:induction false} GraphHoldsLastEntry(steps: seq<PipelineStep>, i: nat)
    requires i < |steps| && forall k | i < k < |steps| :: steps[k].name != steps[i].name
    ensures steps[i].name in GraphOf(steps) && GraphOf(steps)[steps[i].name] == steps[i].depends
  {
    if i < |steps| - 1 {
      GraphHoldsLastEntry(steps[..|steps| - 1], i);
    }
  }

  predicate Edge(g: Graph, a: string, b: string) {
    a in g && b in g[a]
  }

  ghost predicate Closed(g: Graph) {
    forall a, b | Edge(g, a, b) :: b in g
  }

  /** A walk along dependencies. */
  ghost predicate Path(g: Graph, p: seq<string>) {
    p != [] && forall k | 0 <= k < |p| - 1 :: Edge(g, p[k], p[k + 1])
  }

  ghost predicate Cyclic(g: Graph) {
    exists p :: Path(g, p) && |p| >= 2 && p[0] == p[|p| - 1]
  }

  /** `order` lists steps of `g` without repetition, each after all its dependencies. */
  ghost predicate Ordered(g: Graph, order: seq<string>) {
    && (forall k | 0 <= k < |order| :: order[k] in g)
    && (forall j, k | 0 <= j < k < |order| :: order[j] != order[k])
    && (forall k, d | 0 <= k < |order| && Edge(g, order[k], d) :: d in order[..k])
  }

  function Elements(s: seq<string>): set<string> {
    set x | x in s
  }

  // ---------------------------------------------------------------- orders exclude cycles

  lemma {:induction false} PathDescends(g: Graph, order: seq<string>, i: nat, p: seq<string>)
    requires Ordered(g, order) && i < |order|
    requires Path(g, p) && |p| >= 2 && p[0] == order[i]
    ensures p[|p| - 1] in order[..i]
    decreases |p|
  {
    assert Edge(g, p[0], p[1]);
    var j :| 0 <= j < i && order[j] == p[1];
    if |p| > 2 {
      assert forall k | 0 <= k < |p[1..]| - 1 :: Edge(g, p[1..][k], p[1..][k + 1]) by {
        forall k | 0 <= k < |p[1..]| - 1 ensures Edge(g, p[1..][k], p[1..][k + 1]) {
          assert Edge(g, p[k + 1], p[k + 2]);
        }
      }
      PathDescends(g, order, j, p[1..]);
      assert order[..j] <= order[..i];
    }
  }

  lemma OrderExcludesCycle(g: Graph, order: seq<string>)
    requires Ordered(g, order) && Elements(order) == g.Keys
    ensures !Cyclic(g)
  {
    forall p | Path(g, p) && |p| >= 2 ensures p[0] != p[|p| - 1] {
      assert Edge(g, p[0], p[1]);
      assert p[0] in Elements(order);
      var i :| 0 <= i < |order| && order[i] == p[0];
      PathDescends(g, order, i, p);
    }
  }

  // ---------------------------------------------------------------- cycle detection

  /** How the search's maps relate to the calls in progress (`trail`) and to the steps whose
      calls have returned (`finished`). */
  ghost predicate Consistent(
      graph: Graph, visited: set<string>, path: set<string>, trail: seq<string>, finished: seq<string>)
  {
    && Closed(graph)
    && path == Elements(trail)
    && visited == path + Elements(finished)
    && path !! Elements(finished)
    && visited <= graph.Keys
    && (trail != [] ==> Path(graph, trail))
    && Ordered(graph, finished)
  }

  lemma EnterKeeps(g: Graph, visited: set<string>, path: set<string>, trail: seq<string>, finished: seq<string>,
                   name: string)
    requires Consistent(g, visited, path, trail, finished) && name in g && name !in visited
    requires trail != [] ==> Edge(g, trail[|trail| - 1], name)
    ensures Consistent(g, visited + {name}, path + {name}, trail + [name], finished)
  {
    var longer := trail + [name];
    forall k | 0 <= k < |longer| - 1 ensures Edge(g, longer[k], longer[k + 1]) {
      if k < |trail| - 1 {
        assert Edge(g, trail[k], trail[k + 1]);
      }
    }
  }

  lemma LeaveKeeps(g: Graph, visited: set<string>, path: set<string>, trail: seq<string>, finished: seq<string>,
                   name: string)
    requires Consistent(g, visited, path, trail + [name], finished) && name !in trail
    requires name in g && forall k | 0 <= k < |g[name]| :: g[name][k] in finished
    ensures Consistent(g, visited, path - {name}, trail, finished + [name])
  {
    var longer := trail + [name];
    assert name in Elements(longer);
    OrderedSnoc(g, finished, name);
    forall k | 0 <= k < |trail| - 1 ensures Edge(g, trail[k], trail[k + 1]) {
      assert Edge(g, longer[k], longer[k + 1]);
    }
    assert Elements(longer) == Elements(trail) + {name};
    assert Elements(finished + [name]) == Elements(finished) + {name};
  }

  /** The depth-first search: `visited` and `path` are the maps that all calls
      share; the ghost fields remember the order in which steps entered and left. */
  class CycleSearch {
    const graph: Graph
    var visited: set<string>
    var path: set<string>
    ghost var trail: seq<string>
    ghost var finished: seq<string>

    ghost predicate Valid()
      reads this
    {
      Consistent(graph, visited, path, trail, finished)
    }

    constructor (graph: Graph)
      requires Closed(graph)
      ensures this.graph == graph && Valid() && path == {} && finished == [] && trail == []
    {
      this.graph := graph;
      visited, path, trail, finished := {}, {}, [], [];
    }

    /** Visits `name`; true when everything it depends on has been finished, false when a
        cycle was found. */
    method Visit(name: string) returns (ok: bool)
      requires Valid() && name in graph
      requires trail != [] ==> Edge(graph, trail[|trail| - 1], name)
      modifies this`visited, this`path, this`trail, this`finished
      ensures ok ==> Valid() && path == old(path) && trail == old(trail)
      ensures ok ==> name in finished && old(finished) <= finished
      ensures !ok ==> Cyclic(graph)
      decreases graph.Keys - visited
    {
      if name in path {
        TrailCloses(graph, trail, name);
        return false;
      }
      if name in visited {
        return true;
      }
      EnterKeeps(graph, visited, path, trail, finished, name);
      visited, path, trail := visited + {name}, path + {name}, trail + [name];
      for i := 0 to |graph[name]|
        invariant Valid() && path == old(path) + {name} && trail == old(trail) + [name]
        invariant old(finished) <= finished && old(visited) + {name} <= visited
        invariant forall k | 0 <= k < i :: graph[name][k] in finished
      {
        assert Edge(graph, name, graph[name][i]);
        var visitedDependency := Visit(graph[name][i]);
        if !visitedDependency {
          return false;
        }
      }
      LeaveKeeps(graph, visited, path, old(trail), finished, name);
      path, trail, finished := path - {name}, old(trail), finished + [name];
      return true;
    }

    /** Starts a visit from every step, each with an empty path. */
    method VisitAll() returns (ok: bool)
      requires Valid() && path == {} && trail == []
      modifies this`visited, this`path, this`trail, this`finished
      ensures ok <==> !Cyclic(graph)
      ensures ok ==> Ordered(graph, finished) && Elements(finished) == graph.Keys
    {
      var todo := graph.Keys;
      while todo != {}
        invariant Valid() && path == {} && trail == []
        invariant todo <= graph.Keys && graph.Keys - todo <= Elements(finished)
        decreases todo
      {
        var name :| name in todo;
        ok := Visit(name);
        if !ok {
          return;
        }
        todo := todo - {name};
      }
      OrderExcludesCycle(graph, finished);
      return true;
    }
  }

  lemma OrderedSnoc(g: Graph, order: seq<string>, name: string)
    requires Ordered(g, order) && name in g && name !in order
    requires forall k | 0 <= k < |g[name]| :: g[name][k] in order
    ensures Ordered(g, order + [name])
  {
    var longer := order + [name];
    forall k, d | 0 <= k < |longer| && Edge(g, longer[k], d) ensures d in longer[..k] {
      assert longer[..k] == order[..k];
    }
  }

  /** Meeting a step of the current trail again closes a cycle. */
  lemma TrailCloses(g: Graph, trail: seq<string>, name: string)
    requires Path(g, trail) && name in trail && Edge(g, trail[|trail| - 1], name)
    ensures Cyclic(g)
  {
    var k :| 0 <= k < |trail| && trail[k] == name;
    var cycle := trail[k..] + [name];
    forall i | 0 <= i < |cycle| - 1 ensures Edge(g, cycle[i], cycle[i + 1]) {
      if i < |cycle| - 2 {
        assert Edge(g, trail[k + i], trail[k + i + 1]);
      }
    }
    assert Path(g, cycle);
  }

  // ---------------------------------------------------------------- batches

  /** A schedule runs every step once, after everything it depends on. */
  ghost predicate Schedule(g: Graph, batches: seq<seq<string>>) {
    && (forall n | n in g :: exists b :: 0 <= b < |batches| && n in batches[b])
    && BatchesDistinct(g, batches)
    && forall b, n, d | 0 <= b < |batches| && n in batches[b] && Edge(g, n, d) :: InEarlier(batches, b, d)
  }

  ghost predicate InEarlier(batches: seq<seq<string>>, b: nat, d: string) {
    exists c :: 0 <= c < b && c < |batches| && d in batches[c]
  }

  ghost predicate BatchesDistinct(g: Graph, batches: seq<seq<string>>) {
    && (forall b, n | 0 <= b < |batches| && n in batches[b] :: n in g)
    && (forall b | 0 <= b < |batches| :: NoRepeats(batches[b]))
    && (forall b, c, n | 0 <= b < c < |batches| && n in batches[b] :: n !in batches[c])
  }

  ghost predicate NoRepeats(s: seq<string>) {
    forall i, j | 0 <= i < j < |s| :: s[i] != s[j]
  }

  predicate Ready(g: Graph, remaining: set<string>, n: string)
    requires n in g
  {
    forall k | 0 <= k < |g[n]| :: g[n][k] !in remaining
  }

  /** One pass of the batching loop: every remaining step none of whose dependencies remain. */
  method ReadyBatch(g: Graph, remaining: set<string>) returns (batch: seq<string>)
    requires remaining <= g.Keys
    ensures NoRepeats(batch)
    ensures forall n :: n in batch <==> n in remaining && Ready(g, remaining, n)
  {
    batch := [];
    var todo := remaining;
    while todo != {}
      invariant todo <= remaining && NoRepeats(batch)
      invariant forall n :: n in batch <==> n in remaining - todo && Ready(g, remaining, n)
      decreases todo
    {
      var n :| n in todo;
      if Ready(g, remaining, n) {
        batch := batch + [n];
      }
      todo := todo - {n};
    }
  }

  /** In an ordered graph some remaining step is always ready. */
  lemma SomeReady(g: Graph, order: seq<string>, remaining: set<string>)
    requires Ordered(g, order) && remaining <= Elements(order) && remaining != {}
    ensures exists n :: n in remaining && n in g && Ready(g, remaining, n)
  {
    var x :| x in remaining;
    assert x in Elements(order);
    var last :| 0 <= last < |order| && order[last] == x;
    var i := 0;
    while order[i] !in remaining
      invariant 0 <= i <= last
      invariant forall j | 0 <= j < i :: order[j] !in remaining
      decreases last - i
    {
      i := i + 1;
    }
    forall k | 0 <= k < |g[order[i]]| ensures g[order[i]][k] !in remaining {
      assert Edge(g, order[i], g[order[i]][k]);
      assert g[order[i]][k] in order[..i];
    }
  }

  datatype DagError = UnknownDependency | CycleDetected | Stuck

  /** What the batches built so far say about the steps already removed. */
  ghost predicate Prefix(g: Graph, batches: seq<seq<string>>, remaining: set<string>) {
    && BatchesDistinct(g, batches)
    && (forall n | n in g :: n !in remaining <==> InEarlier(batches, |batches|, n))
    && forall b, n, d | 0 <= b < |batches| && n in batches[b] && Edge(g, n, d) :: InEarlier(batches, b, d)
  }

  lemma PrefixSnoc(g: Graph, batches: seq<seq<string>>, remaining: set<string>, batch: seq<string>)
    requires Closed(g) && remaining <= g.Keys && Prefix(g, batches, remaining) && NoRepeats(batch)
    requires forall n :: n in batch <==> n in remaining && Ready(g, remaining, n)
    ensures Prefix(g, batches + [batch], remaining - Elements(batch))
  {
    var longer := batches + [batch];
    forall b: nat, n | b <= |batches| ensures InEarlier(longer, b, n) <==> InEarlier(batches, b, n) {
      if InEarlier(longer, b, n) {
        var c :| 0 <= c < b && n in longer[c];
        assert n in batches[c];
      }
      if InEarlier(batches, b, n) {
        var c :| 0 <= c < b && n in batches[c];
        assert n in longer[c];
      }
    }
    forall n | n in g ensures n !in remaining - Elements(batch) <==> InEarlier(longer, |longer|, n) {
      if n in batch {
        assert n in longer[|batches|];
      } else if InEarlier(longer, |longer|, n) {
        var c :| 0 <= c < |longer| && n in longer[c];
        assert n in batches[c];
      }
    }
    forall b, n, d | 0 <= b < |longer| && n in longer[b] && Edge(g, n, d) ensures InEarlier(longer, b, d) {
      if b == |batches| {
        assert d !in remaining;
        assert InEarlier(batches, |batches|, d);
      }
    }
    forall b, c, n | 0 <= b < c < |longer| && n in longer[b] ensures n !in longer[c] {
      if c == |batches| {
        assert n in batches[b];
        assert InEarlier(batches, |batches|, n);
      }
    }
  }

  /** Builds the batches; an ordered graph never gets stuck. */
  method BuildBatches(g: Graph, ghost order: seq<string>) returns (r: Result<seq<seq<string>>, DagError>)
    requires Closed(g) && Ordered(g, order) && Elements(order) == g.Keys
    ensures r.Ok? && Schedule(g, r.value)
  {
    var remaining := g.Keys;
    var batches: seq<seq<string>> := [];
    while remaining != {}
      invariant remaining <= g.Keys && Prefix(g, batches, remaining)
      decreases remaining
    {
      var batch := ReadyBatch(g, remaining);
      SomeReady(g, order, remaining);
      if |batch| == 0 {
        return Err(Stuck);
      }
      PrefixSnoc(g, batches, remaining, batch);
      assert batch[0] in remaining;
      batches := batches + [batch];
      remaining := remaining - Elements(batch);
    }
    return Ok(batches);
  }

  method KnownDependencies(g: Graph) returns (ok: bool)
    ensures ok <==> Closed(g)
  {
    var todo := g.Keys;
    while todo != {}
      invariant todo <= g.Keys
      invariant forall a, b | Edge(g, a, b) && a !in todo :: b in g
      decreases todo
    {
      var n :| n in todo;
      for i := 0 to |g[n]|
        invariant forall k | 0 <= k < i :: g[n][k] in g
      {
        if g[n][i] !in g {
          assert Edge(g, n, g[n][i]);
          return false;
        }
      }
      todo := todo - {n};
    }
    return true;
  }

  /** Resolves the steps into batches: it fails exactly on an unknown dependency or a cycle,
      and otherwise returns a schedule. */
  method ResolveDag(steps: seq<PipelineStep>) returns (r: Result<seq<seq<string>>, DagError>)
    ensures r == Err(UnknownDependency) <==> !Closed(GraphOf(steps))
    ensures r == Err(CycleDetected) <==> Closed(GraphOf(steps)) && Cyclic(GraphOf(steps))
    ensures r.Ok? <==> Closed(GraphOf(steps)) && !Cyclic(GraphOf(steps))
    ensures r.Ok? ==> Schedule(GraphOf(steps), r.value)
  {
    var g := GraphOf(steps);
    var known := KnownDependencies(g);
    if !known {
      return Err(UnknownDependency);
    }
    var search := new CycleSearch(g);
    var acyclic := search.VisitAll();
    if !acyclic {
      return Err(CycleDetected);
    }
    r := BuildBatches(g, search.finished);
  }
}
