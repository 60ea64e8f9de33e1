/** scripts/check_imports.py: the depth-first search for circular imports.

    A dependency graph maps each analysed module to the set of modules it
    imports; an imported module need not be a key. Python iterates over sets
    and dicts in an order this model leaves open (`:|`), so every result holds
    for every iteration order. */
module ImportCycles {

  type Graph = map<string, set<string>>

  /** The modules a module imports; none when it was not analysed. */
  function Successors(g: Graph, node: string): set<string> {
    if node in g then g[node] else {}
  }

  function AllNodes(g: Graph): set<string> {
    g.Keys + set u, v | u in g.Keys && v in g[u] :: v
  }

  /** u was analysed and imports v. */
  ghost predicate IsEdge(g: Graph, u: string, v: string) {
    u in g.Keys && v in g[u]
  }

  ghost predicate IsWalk(g: Graph, p: seq<string>) {
    forall i {:trigger p[i]} :: 0 < i < |p| ==> IsEdge(g, p[i - 1], p[i])
  }

  ghost predicate IsCycle(g: Graph, p: seq<string>) {
    && |p| >= 2
    && IsWalk(g, p)
    && p[0] == p[|p| - 1]
  }

  ghost predicate Distinct<T>(s: seq<T>) {
    forall i, j :: 0 <= i < j < |s| ==> s[i] != s[j]
  }

  /** A cycle that meets no node twice before it closes. */
  ghost predicate IsSimpleCycle(g: Graph, p: seq<string>) {
    IsCycle(g, p) && Distinct(p[..|p| - 1])
  }

  ghost predicate Acyclic(g: Graph) {
    forall p :: !IsCycle(g, p)
  }

  ghost function Elements<T>(s: seq<T>): set<T> {
    set x | x in s
  }

  /** A list of names as `find_cycles` reports it: never shorter than `[n, n]`. */
  type Report = c: seq<string> | |c| >= 2 witness ["", ""]

  /** The edge whose exploration made the search report the cycle. */
  ghost function ClosingEdge(c: Report): (string, string) {
    (c[|c| - 2], c[|c| - 1])
  }

  ghost predicate Closes(cycles: seq<Report>, u: string, v: string) {
    exists k :: 0 <= k < |cycles| && ClosingEdge(cycles[k]) == (u, v)
  }

  /** The walk p goes through some edge that closes a reported cycle. */
  ghost predicate UsesClosingEdge(cycles: seq<Report>, p: seq<string>) {
    exists i :: 0 < i < |p| && Closes(cycles, p[i - 1], p[i])
  }

  /** The first position of x. */
  function IndexOf(s: seq<string>, x: string): (i: nat)
    requires x in s
    ensures i < |s| && s[i] == x && x !in s[..i]
  {
    if s[0] == x then 0 else
      var i := IndexOf(s[1..], x);
      assert s[..i + 1] == [s[0]] + s[1..][..i];
      i + 1
  }

  /** The edges out of a finished node: each leads to a node finished earlier
      or closes a reported cycle, and never both. */
  ghost predicate FinishingOrder(g: Graph, finished: seq<string>, cycles: seq<Report>) {
    forall i, v :: 0 <= i < |finished| && IsEdge(g, finished[i], v) ==>
      (v in finished[..i] <==> !Closes(cycles, finished[i], v))
  }

  lemma ClosesGrows(before: seq<Report>, after: seq<Report>)
    requires before <= after
    ensures forall u, v :: Closes(before, u, v) ==> Closes(after, u, v)
  {
    forall u, v | Closes(before, u, v) ensures Closes(after, u, v) {
      var k :| 0 <= k < |before| && ClosingEdge(before[k]) == (u, v);
      assert after[k] == before[k];
    }
  }

  /** A closing edge out of a path node leads back to that node or above it. */
  ghost predicate BackEdges(path: seq<string>, cycles: seq<Report>) {
    forall k, a :: 0 <= k < |cycles| && 0 <= a < |path| && path[a] == ClosingEdge(cycles[k]).0 ==>
      ClosingEdge(cycles[k]).1 in path[..a + 1]
  }

  lemma BackEdgesEnter(path: seq<string>, cycles: seq<Report>, node: string)
    requires BackEdges(path, cycles)
    requires forall k :: 0 <= k < |cycles| ==> ClosingEdge(cycles[k]).0 != node
    ensures BackEdges(path + [node], cycles)
  {
    var longer := path + [node];
    forall k, a | 0 <= k < |cycles| && 0 <= a < |longer| && longer[a] == ClosingEdge(cycles[k]).0
      ensures ClosingEdge(cycles[k]).1 in longer[..a + 1]
    {
      assert path[a] == ClosingEdge(cycles[k]).0;
      assert longer[..a + 1] == path[..a + 1];
    }
  }

  lemma BackEdgesReport(path: seq<string>, cycles: seq<Report>, c: Report)
    requires BackEdges(path, cycles) && Distinct(path) && path != []
    requires ClosingEdge(c).0 == path[|path| - 1] && ClosingEdge(c).1 in path
    ensures BackEdges(path, cycles + [c])
  {
    assert path[..|path| - 1 + 1] == path;
  }

  lemma BackEdgesLeave(path: seq<string>, cycles: seq<Report>)
    requires BackEdges(path, cycles) && path != []
    ensures BackEdges(path[..|path| - 1], cycles)
    ensures forall v :: Closes(cycles, path[|path| - 1], v) ==> v in path
  {
    var shorter := path[..|path| - 1];
    forall k, a | 0 <= k < |cycles| && 0 <= a < |shorter| && shorter[a] == ClosingEdge(cycles[k]).0
      ensures ClosingEdge(cycles[k]).1 in shorter[..a + 1]
    {
      assert path[a] == ClosingEdge(cycles[k]).0;
      assert shorter[..a + 1] == path[..a + 1];
    }
    assert path[..|path| - 1 + 1] == path;
  }

  lemma FinishingOrderGrows(g: Graph, finished: seq<string>, cycles: seq<Report>, c: Report)
    requires FinishingOrder(g, finished, cycles)
    requires ClosingEdge(c).0 !in finished
    ensures FinishingOrder(g, finished, cycles + [c])
  {
    ClosesGrows(cycles, cycles + [c]);
    forall i, v | 0 <= i < |finished| && v in Successors(g, finished[i])
      ensures v in finished[..i] <==> !Closes(cycles + [c], finished[i], v)
    {
      if Closes(cycles + [c], finished[i], v) {
        var k :| 0 <= k < |cycles + [c]| && ClosingEdge((cycles + [c])[k]) == (finished[i], v);
        assert ClosingEdge(cycles[k]) == (finished[i], v);
      }
    }
  }

  lemma FinishingOrderExtends(g: Graph, finished: seq<string>, cycles: seq<Report>, node: string)
    requires FinishingOrder(g, finished, cycles)
    requires forall v :: v in Successors(g, node) ==> (v in finished <==> !Closes(cycles, node, v))
    ensures FinishingOrder(g, finished + [node], cycles)
  {
    var longer := finished + [node];
    forall i, v | 0 <= i < |longer| && v in Successors(g, longer[i])
      ensures v in longer[..i] <==> !Closes(cycles, longer[i], v)
    {
      if i < |finished| {
        assert longer[..i] == finished[..i];
      } else {
        assert longer[..i] == finished;
      }
    }
  }

  /** Soundness of one report: closing the path at its k-th node. */
  lemma PathCloses(g: Graph, path: seq<string>, k: nat)
    requires k < |path| && Distinct(path) && IsWalk(g, path)
    requires IsEdge(g, path[|path| - 1], path[k])
    ensures IsSimpleCycle(g, path[k..] + [path[k]])
  {
    var c := path[k..] + [path[k]];
    assert c[..|c| - 1] == path[k..];
    forall i {:trigger c[i]} | 0 < i < |c| ensures IsEdge(g, c[i - 1], c[i]) {
      assert c[i - 1] == path[k + i - 1];
      if i < |c| - 1 {
        assert c[i] == path[k + i] && IsEdge(g, path[k + i - 1], path[k + i]);
      } else {
        assert c[i] == path[k] && c[i - 1] == path[|path| - 1];
      }
    }
  }

  /** Completeness of the search, as a property of its finishing order: no
      cycle escapes. Along a cycle avoiding all closing edges the finishing
      position would decrease forever. */
  lemma {:induction false} CycleIsCaught(g: Graph, finished: seq<string>, cycles: seq<Report>, p: seq<string>)
    requires Distinct(finished)
    requires g.Keys <= Elements(finished)
    requires FinishingOrder(g, finished, cycles)
    requires IsCycle(g, p)
    ensures UsesClosingEdge(cycles, p)
  {
    if !UsesClosingEdge(cycles, p) {
      assert IsEdge(g, p[0], p[1]);
      assert p[0] in finished;
      var start: nat :| start < |finished| && finished[start] == p[0];
      var end := PositionsDecrease(g, finished, cycles, p, start, |p| - 1);
      assert false;
    }
  }

  lemma {:induction false} PositionsDecrease(
      g: Graph, finished: seq<string>, cycles: seq<Report>, p: seq<string>, start: nat, n: nat)
    returns (at: nat)
    requires FinishingOrder(g, finished, cycles)
    requires IsWalk(g, p) && !UsesClosingEdge(cycles, p)
    requires n < |p| && start < |finished| && finished[start] == p[0]
    ensures at < |finished| && finished[at] == p[n]
    ensures at + n <= start
  {
    if n == 0 {
      at := start;
    } else {
      var before := PositionsDecrease(g, finished, cycles, p, start, n - 1);
      assert IsEdge(g, p[n - 1], p[n]);
      assert !Closes(cycles, p[n - 1], p[n]);
      assert p[n] in finished[..before];
      at :| 0 <= at < before && finished[at] == p[n];
    }
  }

  lemma ShorterPath(g: Graph, path: seq<string>)
    requires path != [] && Distinct(path) && IsWalk(g, path)
    ensures var (shorter, last) := (path[..|path| - 1], path[|path| - 1]);
      Distinct(shorter) && IsWalk(g, shorter) && Elements(shorter) == Elements(path) - {last} && last !in shorter
  {
    var shorter, last := path[..|path| - 1], path[|path| - 1];
    assert path == shorter + [last];
    forall i {:trigger shorter[i]} | 0 < i < |shorter| ensures IsEdge(g, shorter[i - 1], shorter[i]) {
      assert shorter[i] == path[i] && shorter[i - 1] == path[i - 1];
    }
  }

  /** `find_cycles`: the variables its nested function `dfs` shares. */
  class CycleFinder {
    const graph: Graph
    var visited: set<string>
    var recStack: set<string>
    var path: seq<string>
    var cycles: seq<Report>
    // Every call of dfs so far, and every return, in order.
    ghost var entered: seq<string>
    ghost var finished: seq<string>

    constructor (graph: Graph)
      ensures this.graph == graph && Valid()
      ensures path == [] && cycles == [] && finished == []
    {
      this.graph := graph;
      visited, recStack, path, cycles := {}, {}, [], [];
      entered, finished := [], [];
    }

    ghost predicate Valid()
      reads this
    {
      && PathValid()
      && ReportValid()
      && visited <= AllNodes(graph)
      && visited == Elements(entered) && Distinct(entered)
      && visited == recStack + Elements(finished) && recStack !! Elements(finished) && Distinct(finished)
      && FinishingOrder(graph, finished, cycles)
    }

    /** `rec_stack` holds exactly the nodes of `path`, which is a simple walk. */
    ghost predicate PathValid()
      reads this
    {
      && recStack == Elements(path)
      && Distinct(path)
      && IsWalk(graph, path)
    }

    /** Every reported list is a simple cycle, no edge reports two, and an edge
        out of the path that closed a report leads back into the path. */
    ghost predicate ReportValid()
      reads this
    {
      && (forall k :: 0 <= k < |cycles| ==> IsSimpleCycle(graph, cycles[k]))
      && (forall k :: 0 <= k < |cycles| ==> ClosingEdge(cycles[k]).0 in visited && ClosingEdge(cycles[k]).1 in visited)
      && BackEdges(path, cycles)
      && (forall j, k :: 0 <= j < k < |cycles| ==> ClosingEdge(cycles[j]) != ClosingEdge(cycles[k]))
    }

    /** What completed dfs calls add: the path is restored, nothing recorded is
        withdrawn, and no new report is closed by an older node. */
    twostate predicate Extends()
      reads this
    {
      && path == old(path)
      && old(visited) <= visited
      && old(entered) <= entered
      && old(finished) <= finished
      && old(cycles) <= cycles
      && (forall k :: |old(cycles)| <= k < |cycles| ==> ClosingEdge(cycles[k]).0 !in old(visited))
    }

    method Dfs(node: string)
      requires Valid()
      requires node in AllNodes(graph) && node !in visited
      requires path != [] ==> IsEdge(graph, path[|path| - 1], node)
      modifies this
      ensures Valid() && Extends() && node in finished
      decreases AllNodes(graph) - visited, 0
    {
      Enter(node);
      label entering:
      var rest := Successors(graph, node);
      while rest != {}
        invariant Valid()
        invariant path == old(path) + [node]
        invariant old@entering(visited) <= visited && old(entered) <= entered
        invariant old(finished) <= finished && old(cycles) <= cycles
        invariant rest <= Successors(graph, node)
        invariant forall v :: v in Successors(graph, node) && v !in rest ==>
          v in finished || Closes(cycles, node, v)
        invariant forall k :: |old(cycles)| <= k < |cycles| ==> ClosingEdge(cycles[k]).0 !in old(visited)
        invariant forall v :: v in rest ==> !Closes(cycles, node, v)
      {
        var neighbor :| neighbor in rest;
        rest := rest - {neighbor};
        Follow(node, neighbor);
      }
      Leave(node);
    }

    /** The body of the loop in dfs, for one neighbour of `node`. */
    method Follow(node: string, neighbor: string)
      requires Valid()
      requires path != [] && path[|path| - 1] == node
      requires IsEdge(graph, node, neighbor) && !Closes(cycles, node, neighbor)
      modifies this
      ensures Valid() && path == old(path)
      ensures old(visited) <= visited && old(entered) <= entered
      ensures old(finished) <= finished && old(cycles) <= cycles
      ensures neighbor in finished || Closes(cycles, node, neighbor)
      ensures forall u, v :: Closes(old(cycles), u, v) ==> Closes(cycles, u, v)
      ensures forall k :: |old(cycles)| <= k < |cycles| ==>
        ClosingEdge(cycles[k]) == (node, neighbor) || ClosingEdge(cycles[k]).0 !in old(visited)
      decreases AllNodes(graph) - visited, 1
    {
      if neighbor !in visited {
        assert node in graph.Keys;
        Dfs(neighbor);
      } else if neighbor in recStack {
        ReportCycle(node, neighbor);
        assert ClosingEdge(cycles[|cycles| - 1]) == (node, neighbor);
      }
      ClosesGrows(old(cycles), cycles);
    }

    /** The first three statements of dfs. */
    method Enter(node: string)
      requires Valid()
      requires node in AllNodes(graph) && node !in visited
      requires path != [] ==> IsEdge(graph, path[|path| - 1], node)
      modifies this
      ensures Valid()
      ensures visited == old(visited) + {node} && path == old(path) + [node]
      ensures entered == old(entered) + [node]
      ensures cycles == old(cycles) && finished == old(finished)
    {
      BackEdgesEnter(path, cycles, node);
      visited := visited + {node};
      recStack := recStack + {node};
      path := path + [node];
      entered := entered + [node];
    }

    /** The branch of dfs that has met a node of the current path. */
    method ReportCycle(node: string, neighbor: string)
      requires Valid()
      requires path != [] && path[|path| - 1] == node && neighbor in recStack
      requires IsEdge(graph, node, neighbor) && !Closes(cycles, node, neighbor)
      modifies this`cycles
      ensures Valid()
      ensures exists c: Report :: cycles == old(cycles) + [c] && ClosingEdge(c) == (node, neighbor)
    {
      var cycleStart := IndexOf(path, neighbor);
      var cycle := path[cycleStart..] + [neighbor];
      PathCloses(graph, path, cycleStart);
      BackEdgesReport(path, cycles, cycle);
      FinishingOrderGrows(graph, finished, cycles, cycle);
      cycles := cycles + [cycle];
    }

    /** The last two statements of dfs. */
    method Leave(node: string)
      requires Valid()
      requires path != [] && path[|path| - 1] == node
      requires forall v :: v in Successors(graph, node) ==> v in finished || Closes(cycles, node, v)
      modifies this
      ensures Valid()
      ensures path == old(path)[..|old(path)| - 1] && finished == old(finished) + [node]
      ensures visited == old(visited) && entered == old(entered) && cycles == old(cycles)
    {
      BackEdgesLeave(path, cycles);
      FinishingOrderExtends(graph, finished, cycles, node);
      ShorterPath(graph, path);
      path := path[..|path| - 1];
      recStack := recStack - {node};
      finished := finished + [node];
      assert PathValid() && ReportValid();
    }
  }

  /** What the finishing order of a complete search implies. */
  lemma CompleteSearch(g: Graph, finished: seq<string>, cycles: seq<Report>)
    requires Distinct(finished)
    requires g.Keys <= Elements(finished) <= AllNodes(g)
    requires FinishingOrder(g, finished, cycles)
    requires forall u, v :: Closes(cycles, u, v) ==> v in finished
    ensures Elements(finished) == AllNodes(g)
    ensures forall p :: IsCycle(g, p) ==> UsesClosingEdge(cycles, p)
  {
    forall p | IsCycle(g, p) ensures UsesClosingEdge(cycles, p) {
      CycleIsCaught(g, finished, cycles, p);
    }
    forall v | v in AllNodes(g) ensures v in finished {
      if v !in g.Keys {
        var u :| u in g.Keys && v in g[u];
        assert u in Elements(finished);
        var i :| 0 <= i < |finished| && finished[i] == u;
        assert IsEdge(g, finished[i], v);
      }
    }
  }

  /** `find_cycles(graph)`. `entered` and `finished` list the calls of dfs and
      their returns. */
  method FindCycles(graph: Graph)
    returns (cycles: seq<Report>, ghost entered: seq<string>, ghost finished: seq<string>)
    // every reported list is a real simple cycle, and no two are closed by the same edge
    ensures forall k :: 0 <= k < |cycles| ==> IsSimpleCycle(graph, cycles[k])
    ensures forall j, k :: 0 <= j < k < |cycles| ==> ClosingEdge(cycles[j]) != ClosingEdge(cycles[k])
    // no cycle of the graph avoids all closing edges
    ensures forall p :: IsCycle(graph, p) ==> UsesClosingEdge(cycles, p)
    // the answer `main` prints
    ensures cycles == [] <==> Acyclic(graph)
    // every node is entered once and left once; the closing edges are exactly
    // those that do not lead to a node left earlier
    ensures Distinct(entered) && Elements(entered) == AllNodes(graph)
    ensures Distinct(finished) && Elements(finished) == AllNodes(graph)
    ensures FinishingOrder(graph, finished, cycles)
  {
    var search := new CycleFinder(graph);
    var rest := graph.Keys;
    while rest != {}
      invariant fresh(search) && search.graph == graph && search.Valid() && search.path == []
      invariant rest <= graph.Keys && graph.Keys - rest <= search.visited
    {
      var node :| node in rest;
      rest := rest - {node};
      if node !in search.visited {
        search.Dfs(node);
      }
    }
    cycles, entered, finished := search.cycles, search.entered, search.finished;
    assert graph.Keys <= search.visited == Elements(finished);
    CompleteSearch(graph, finished, cycles);
    assert cycles != [] ==> IsCycle(graph, cycles[0]);
  }
}
