/**
 * The grouping step of `_detailed_similarity_check` and `_find_similar_group`
 * (src/detector/text_duplicate_detector.py): the similarity graph built from
 * the recorded similarities, the explicit-stack depth-first search that turns
 * it into one group, and the loop over the candidate pairs that collects the
 * groups of two or more. The source records its similarities in a dict keyed
 * by a pair of records, which raises on every insertion; both that behaviour
 * and the evidently intended edge list are modelled.
 */
module TextGroups {
  import opened Basics
  import opened TextSimilarity

  /** One entry of a path's adjacency list: the other record and the pair's similarity. */
  datatype Neighbour = Neighbour(entry: TextEntry, similarity: real)

  /** One recorded similarity: a candidate pair and its detailed similarity. */
  datatype Edge = Edge(first: TextEntry, second: TextEntry, similarity: real)

  /** `similarity_graph`: a path's adjacency list, in the order the edges were added. */
  type Graph = map<string, seq<Neighbour>>

  /** `similarity_graph.get(path, [])`. */
  function Lookup(graph: Graph, p: string): seq<Neighbour>
  {
    if p in graph then graph[p] else []
  }

  /** The adjacency list of `p` after adding every edge in both directions, in order. */
  function Neighbours(edges: seq<Edge>, p: string): seq<Neighbour>
  {
    if edges == [] then []
    else
      var e := edges[|edges| - 1];
      Neighbours(edges[..|edges| - 1], p)
        + (if e.first.path == p then [Neighbour(e.second, e.similarity)] else [])
        + (if e.second.path == p then [Neighbour(e.first, e.similarity)] else [])
  }

  /** Edge `e` puts `n` in the adjacency list of `p`. */
  predicate EdgeAt(e: Edge, p: string, n: Neighbour)
  {
    (e.first.path == p && n == Neighbour(e.second, e.similarity)) ||
    (e.second.path == p && n == Neighbour(e.first, e.similarity))
  }

  /** Every adjacency entry comes from an edge at that path. */
  lemma {:induction false} NeighbourSource(edges: seq<Edge>, p: string, n: Neighbour)
    requires n in Neighbours(edges, p)
    ensures exists k :: 0 <= k < |edges| && EdgeAt(edges[k], p, n)
  {
    var m := |edges| - 1;
    var e := edges[m];
    if n in Neighbours(edges[..m], p) {
      NeighbourSource(edges[..m], p, n);
      var k :| 0 <= k < m && EdgeAt(edges[..m][k], p, n);
      assert edges[..m][k] == edges[k];
    } else {
      assert EdgeAt(edges[m], p, n);
    }
  }

  /** Every edge appears in the adjacency lists of both its ends. */
  lemma {:induction false} EdgeListed(edges: seq<Edge>, k: nat)
    requires k < |edges|
    ensures Neighbour(edges[k].second, edges[k].similarity) in Neighbours(edges, edges[k].first.path)
    ensures Neighbour(edges[k].first, edges[k].similarity) in Neighbours(edges, edges[k].second.path)
  {
    var m := |edges| - 1;
    if k < m {
      EdgeListed(edges[..m], k);
      assert edges[..m][k] == edges[k];
    }
  }

  /** Adding edge `k` appends its contribution to each adjacency list. */
  lemma NeighboursStep(edges: seq<Edge>, k: nat, p: string)
    requires k < |edges|
    ensures Neighbours(edges[..k + 1], p) == Neighbours(edges[..k], p)
      + (if edges[k].first.path == p then [Neighbour(edges[k].second, edges[k].similarity)] else [])
      + (if edges[k].second.path == p then [Neighbour(edges[k].first, edges[k].similarity)] else [])
  {
    assert edges[..k + 1][..k] == edges[..k];
  }

  /**
   * `for (file1, file2), similarity in similarities.items()` adding both
   * directions, with the recorded similarities as a list of edges.
   */
  method BuildGraph(edges: seq<Edge>) returns (graph: Graph)
    ensures forall p :: Lookup(graph, p) == Neighbours(edges, p)
  {
    graph := map[];
    for k := 0 to |edges|
      invariant forall p :: Lookup(graph, p) == Neighbours(edges[..k], p)
    {
      ghost var before := graph;
      var e := edges[k];
      graph := graph[e.first.path := Lookup(graph, e.first.path) + [Neighbour(e.second, e.similarity)]];
      var middle := graph;
      graph := graph[e.second.path := Lookup(graph, e.second.path) + [Neighbour(e.first, e.similarity)]];
      BuildStep(edges, k, before, middle, graph);
    }
    assert edges[..|edges|] == edges;
  }

  /** Listing edge `k` at both its ends extends the adjacency of the first k edges to that of the first k + 1. */
  lemma BuildStep(edges: seq<Edge>, k: nat, before: Graph, middle: Graph, after: Graph)
    requires k < |edges| && forall p :: Lookup(before, p) == Neighbours(edges[..k], p)
    requires var e := edges[k];
      middle == before[e.first.path := Lookup(before, e.first.path) + [Neighbour(e.second, e.similarity)]]
    requires var e := edges[k];
      after == middle[e.second.path := Lookup(middle, e.second.path) + [Neighbour(e.first, e.similarity)]]
    ensures forall p :: Lookup(after, p) == Neighbours(edges[..k + 1], p)
  {
    forall p ensures Lookup(after, p) == Neighbours(edges[..k + 1], p) {
      NeighboursStep(edges, k, p);
    }
  }

  /** `q` lists some record at path `p`. */
  ghost predicate ListsPath(graph: Graph, q: string, p: string)
  {
    exists j :: 0 <= j < |Lookup(graph, q)| && Lookup(graph, q)[j].entry.path == p
  }

  /** Every adjacency is mirrored: if `p` lists a record at `q`, then `q` lists one at `p`. */
  ghost predicate Symmetric(graph: Graph)
  {
    forall p, i :: 0 <= i < |Lookup(graph, p)| ==> ListsPath(graph, Lookup(graph, p)[i].entry.path, p)
  }

  /** Every adjacency entry carries a similarity of at least `threshold`. */
  ghost predicate AtLeast(graph: Graph, threshold: real)
  {
    forall p, i :: 0 <= i < |Lookup(graph, p)| ==> Lookup(graph, p)[i].similarity >= threshold
  }

  /** Every adjacency entry is mirrored by one with the same similarity at the other end. */
  lemma NeighbourMirrored(edges: seq<Edge>, p: string, n: Neighbour)
    requires n in Neighbours(edges, p)
    ensures exists m :: m in Neighbours(edges, n.entry.path) && m.entry.path == p
  {
    NeighbourSource(edges, p, n);
    var k :| 0 <= k < |edges| && EdgeAt(edges[k], p, n);
    EdgeListed(edges, k);
    if edges[k].first.path == p && n == Neighbour(edges[k].second, edges[k].similarity) {
      assert Neighbour(edges[k].first, edges[k].similarity) in Neighbours(edges, n.entry.path);
    } else {
      assert Neighbour(edges[k].second, edges[k].similarity) in Neighbours(edges, n.entry.path);
    }
  }

  /** Every adjacency entry carries the similarity of some edge. */
  lemma NeighbourAtLeast(edges: seq<Edge>, p: string, n: Neighbour, threshold: real)
    requires n in Neighbours(edges, p)
    requires forall k :: 0 <= k < |edges| ==> edges[k].similarity >= threshold
    ensures n.similarity >= threshold
  {
    NeighbourSource(edges, p, n);
  }

  /** A graph built from edges is symmetric. */
  lemma GraphSymmetric(graph: Graph, edges: seq<Edge>)
    requires forall p :: Lookup(graph, p) == Neighbours(edges, p)
    ensures Symmetric(graph)
  {
    forall p, i | 0 <= i < |Lookup(graph, p)|
      ensures ListsPath(graph, Lookup(graph, p)[i].entry.path, p)
    {
      var n := Lookup(graph, p)[i];
      var q := n.entry.path;
      assert n in Neighbours(edges, p);
      NeighbourMirrored(edges, p, n);
      var m :| m in Neighbours(edges, q) && m.entry.path == p;
      assert m in Lookup(graph, q);
      var j :| 0 <= j < |Lookup(graph, q)| && Lookup(graph, q)[j] == m;
    }
  }

  /** A graph built from edges is as strong as its weakest edge. */
  lemma GraphAtLeast(graph: Graph, edges: seq<Edge>, threshold: real)
    requires forall p :: Lookup(graph, p) == Neighbours(edges, p)
    requires forall k :: 0 <= k < |edges| ==> edges[k].similarity >= threshold
    ensures AtLeast(graph, threshold)
  {
    forall p, i | 0 <= i < |Lookup(graph, p)| ensures Lookup(graph, p)[i].similarity >= threshold {
      assert Lookup(graph, p)[i] in Neighbours(edges, p);
      NeighbourAtLeast(edges, p, Lookup(graph, p)[i], threshold);
    }
  }

  /** The paths of a sequence of records. */
  function PathSet(s: seq<TextEntry>): set<string>
  {
    set x | x in s :: x.path
  }

  ghost predicate DistinctPaths(s: seq<TextEntry>)
  {
    forall i, j :: 0 <= i < j < |s| ==> s[i].path != s[j].path
  }

  /** Every path an adjacency list mentions. */
  ghost function GraphPaths(graph: Graph): set<string>
  {
    set p, i | p in graph && 0 <= i < |graph[p]| :: graph[p][i].entry.path
  }

  /** The record a group holds for `start_file`: similarity 100.0, match type 'similar'. */
  function Mark(e: TextEntry, similarity: real): TextEntry
  {
    e.(similarity := Some(similarity), matchType := Some("similar"))
  }

  /** `similar_file.copy()` annotated with the similarity of the edge it was reached by. */
  function Copied(n: Neighbour): TextEntry
  {
    Mark(n.entry, n.similarity)
  }

  /** `x` is the annotated copy of an adjacency entry of a member of `group`. */
  ghost predicate Reached(graph: Graph, group: seq<TextEntry>, x: TextEntry)
  {
    exists j, i :: 0 <= j < |group| && 0 <= i < |Lookup(graph, group[j].path)| &&
      x == Copied(Lookup(graph, group[j].path)[i])
  }

  lemma ReachedGrow(graph: Graph, group: seq<TextEntry>, y: TextEntry, x: TextEntry)
    requires Reached(graph, group, x)
    ensures Reached(graph, group + [y], x)
  {
    var j, i :| 0 <= j < |group| && 0 <= i < |Lookup(graph, group[j].path)| &&
      x == Copied(Lookup(graph, group[j].path)[i]);
    assert (group + [y])[j] == group[j];
  }

  /** Reaching depends only on the members' paths. */
  lemma ReachedRepath(graph: Graph, a: seq<TextEntry>, b: seq<TextEntry>, x: TextEntry)
    requires |a| == |b| && forall j :: 0 <= j < |a| ==> a[j].path == b[j].path
    requires Reached(graph, a, x)
    ensures Reached(graph, b, x)
  {
    var j, i :| 0 <= j < |a| && 0 <= i < |Lookup(graph, a[j].path)| &&
      x == Copied(Lookup(graph, a[j].path)[i]);
    assert b[j].path == a[j].path;
  }

  lemma SamePaths(a: seq<TextEntry>, b: seq<TextEntry>)
    requires |a| == |b| && forall j :: 0 <= j < |a| ==> a[j].path == b[j].path
    ensures PathSet(a) == PathSet(b)
  {
    forall p | p in PathSet(a) ensures p in PathSet(b) {
      var x :| x in a && x.path == p;
      var j :| 0 <= j < |a| && a[j] == x;
      assert b[j] in b;
    }
    forall p | p in PathSet(b) ensures p in PathSet(a) {
      var x :| x in b && x.path == p;
      var j :| 0 <= j < |b| && b[j] == x;
      assert a[j] in a;
    }
  }

  /** Every adjacency entry of a path in `from` is at a path in `into`. */
  ghost predicate ClosedFrom(graph: Graph, from: set<string>, into: set<string>)
  {
    forall q, i :: q in from && 0 <= i < |Lookup(graph, q)| ==> Lookup(graph, q)[i].entry.path in into
  }

  /** The copies pushed for the adjacency list `ns`: those whose path is not yet visited, in order. */
  function Pushed(ns: seq<Neighbour>, visited: set<string>): seq<TextEntry>
  {
    if ns == [] then []
    else
      var n := ns[|ns| - 1];
      Pushed(ns[..|ns| - 1], visited) + (if n.entry.path !in visited then [Copied(n)] else [])
  }

  /** What is pushed is the copy of an entry; every entry is visited or pushed. */
  lemma {:induction false} PushedMembers(ns: seq<Neighbour>, visited: set<string>)
    ensures forall x :: x in Pushed(ns, visited) ==> exists i :: 0 <= i < |ns| && x == Copied(ns[i])
    ensures forall i :: 0 <= i < |ns| ==> ns[i].entry.path in visited || Copied(ns[i]) in Pushed(ns, visited)
  {
    if ns != [] {
      var m := |ns| - 1;
      PushedMembers(ns[..m], visited);
      assert forall i :: 0 <= i < m ==> ns[..m][i] == ns[i];
    }
  }

  /** The inner `for similar_file, similarity in ...: if ... not in visited: stack.append(copy)`. */
  method Push(stack: seq<TextEntry>, ns: seq<Neighbour>, visited: set<string>) returns (stack': seq<TextEntry>)
    ensures stack' == stack + Pushed(ns, visited)
  {
    stack' := stack;
    for i := 0 to |ns|
      invariant stack' == stack + Pushed(ns[..i], visited)
    {
      assert ns[..i + 1][..i] == ns[..i];
      if ns[i].entry.path !in visited {
        stack' := stack' + [Copied(ns[i])];
      }
    }
    assert ns[..|ns|] == ns;
  }

  /** Adding a new element to a set removes one element from what is left to visit. */
  lemma VisitShrinks(universe: set<string>, visited: set<string>, p: string)
    requires p in universe && p !in visited
    ensures |universe - (visited + {p})| < |universe - visited|
  {
    assert universe - (visited + {p}) == (universe - visited) - {p};
  }

  /** The paths an adjacency list mentions are paths of the graph. */
  lemma LookupPaths(graph: Graph, q: string, i: nat)
    requires i < |Lookup(graph, q)|
    ensures Lookup(graph, q)[i].entry.path in GraphPaths(graph)
  {
    assert q in graph;
  }

  /** The members so far: their paths are the visited ones, new, distinct, and the start comes first. */
  ghost predicate Tracked(group: seq<TextEntry>, start: TextEntry, processed: set<string>,
                          visited: set<string>, done: set<string>)
  {
    && visited == PathSet(group) && done == processed + visited && visited !! processed
    && DistinctPaths(group) && group != [] && group[0] == start
  }

  /** Each member after the first was reached from an earlier one. */
  ghost predicate Chain(graph: Graph, group: seq<TextEntry>)
  {
    forall k :: 1 <= k < |group| ==> Reached(graph, group[..k], group[k])
  }

  /** Each record on the stack was reached from a member. */
  ghost predicate StackFrom(graph: Graph, group: seq<TextEntry>, stack: seq<TextEntry>)
  {
    forall x :: x in stack ==> Reached(graph, group, x)
  }

  /** Each adjacency entry of a visited path is processed or waits on the stack. */
  ghost predicate Frontier(graph: Graph, visited: set<string>, done: set<string>, stack: seq<TextEntry>)
  {
    forall q, i :: q in visited && 0 <= i < |Lookup(graph, q)| ==>
      Lookup(graph, q)[i].entry.path in done || Copied(Lookup(graph, q)[i]) in stack
  }

  /** The visited paths and the stacked records stay among the start and the graph's paths. */
  ghost predicate Within(universe: set<string>, visited: set<string>, stack: seq<TextEntry>)
  {
    visited <= universe && forall x :: x in stack ==> x.path in universe
  }

  lemma TrackedVisit(group: seq<TextEntry>, start: TextEntry, processed: set<string>,
                     visited: set<string>, done: set<string>, current: TextEntry)
    requires Tracked(group, start, processed, visited, done) && current.path !in done
    ensures Tracked(group + [current], start, processed, visited + {current.path}, done + {current.path})
  {
    var group' := group + [current];
    assert PathSet(group') == PathSet(group) + {current.path} by {
      assert forall x :: x in group' <==> x in group || x == current;
    }
    forall i, j | 0 <= i < j < |group'| ensures group'[i].path != group'[j].path {
      if j == |group| {
        assert group[i] in group;
      }
    }
  }

  /** Visiting the top of the stack extends the chain; the rest of the stack is reached from the longer group. */
  lemma ChainGrow(graph: Graph, group: seq<TextEntry>, stack: seq<TextEntry>)
    requires stack != [] && Chain(graph, group) && StackFrom(graph, group, stack)
    ensures Chain(graph, group + [stack[|stack| - 1]])
    ensures StackFrom(graph, group + [stack[|stack| - 1]], stack[..|stack| - 1])
  {
    var current := stack[|stack| - 1];
    var group' := group + [current];
    forall x | x in stack[..|stack| - 1] ensures Reached(graph, group', x) {
      ReachedGrow(graph, group, current, x);
    }
    forall k | 1 <= k < |group'| ensures Reached(graph, group'[..k], group'[k]) {
      if k < |group| {
        assert group'[..k] == group[..k];
      } else {
        assert group'[..k] == group;
      }
    }
  }

  /** Popping keeps the rest of the stack reached. */
  lemma StackPop(graph: Graph, group: seq<TextEntry>, stack: seq<TextEntry>)
    requires stack != [] && StackFrom(graph, group, stack)
    ensures StackFrom(graph, group, stack[..|stack| - 1])
  {
    assert forall x :: x in stack[..|stack| - 1] ==> x in stack;
  }

  /** The copies pushed for the newest member were reached from it. */
  lemma StackPush(graph: Graph, group: seq<TextEntry>, stack: seq<TextEntry>, visited: set<string>)
    requires group != [] && StackFrom(graph, group, stack)
    ensures StackFrom(graph, group, stack + Pushed(Lookup(graph, group[|group| - 1].path), visited))
  {
    var ns := Lookup(graph, group[|group| - 1].path);
    PushedMembers(ns, visited);
  }

  /** Popping a record whose path is processed keeps the frontier. */
  lemma FrontierSkip(graph: Graph, visited: set<string>, done: set<string>, stack: seq<TextEntry>)
    requires stack != [] && Frontier(graph, visited, done, stack) && stack[|stack| - 1].path in done
    ensures Frontier(graph, visited, done, stack[..|stack| - 1])
  {
    var rest := stack[..|stack| - 1];
    forall q, i | q in visited && 0 <= i < |Lookup(graph, q)| && Lookup(graph, q)[i].entry.path !in done
      ensures Copied(Lookup(graph, q)[i]) in rest
    {
      var x := Copied(Lookup(graph, q)[i]);
      assert x in stack;
      var j :| 0 <= j < |stack| && stack[j] == x;
      assert j < |stack| - 1;
      assert rest[j] == x;
    }
  }

  /** Visiting the top of the stack and pushing its unvisited adjacency keeps the frontier. */
  lemma FrontierVisit(graph: Graph, visited: set<string>, done: set<string>, stack: seq<TextEntry>)
    requires stack != [] && Frontier(graph, visited, done, stack) && visited <= done
    ensures var p := stack[|stack| - 1].path;
      Frontier(graph, visited + {p}, done + {p}, stack[..|stack| - 1] + Pushed(Lookup(graph, p), visited + {p}))
  {
    var p := stack[|stack| - 1].path;
    var rest := stack[..|stack| - 1];
    var stack' := rest + Pushed(Lookup(graph, p), visited + {p});
    PushedMembers(Lookup(graph, p), visited + {p});
    forall q, i | q in visited + {p} && 0 <= i < |Lookup(graph, q)| && Lookup(graph, q)[i].entry.path !in done + {p}
      ensures Copied(Lookup(graph, q)[i]) in stack'
    {
      var x := Copied(Lookup(graph, q)[i]);
      if q in visited {
        assert x in stack;
        var j :| 0 <= j < |stack| && stack[j] == x;
        assert j < |stack| - 1;
        assert rest[j] == x;
        assert x in stack';
      }
    }
  }

  /** Popping keeps the stack within the universe. */
  lemma WithinSkip(universe: set<string>, visited: set<string>, stack: seq<TextEntry>)
    requires stack != [] && Within(universe, visited, stack)
    ensures Within(universe, visited, stack[..|stack| - 1])
  {
    assert forall x :: x in stack[..|stack| - 1] ==> x in stack;
  }

  /** Visiting the top of the stack keeps the visited paths and the stack within the universe. */
  lemma WithinVisit(graph: Graph, universe: set<string>, visited: set<string>, stack: seq<TextEntry>)
    requires stack != [] && Within(universe, visited, stack) && GraphPaths(graph) <= universe
    ensures var p := stack[|stack| - 1].path;
      Within(universe, visited + {p}, stack[..|stack| - 1] + Pushed(Lookup(graph, p), visited + {p}))
  {
    var p := stack[|stack| - 1].path;
    var ns := Lookup(graph, p);
    assert forall x :: x in stack[..|stack| - 1] ==> x in stack;
    PushedMembers(ns, visited + {p});
    forall i | 0 <= i < |ns| ensures ns[i].entry.path in universe {
      LookupPaths(graph, p, i);
    }
  }

  /** The state after visiting the start and pushing its adjacency. */
  lemma SearchStarts(graph: Graph, start: TextEntry, processed: set<string>, universe: set<string>)
    requires start.path !in processed && universe == {start.path} + GraphPaths(graph)
    ensures var stack := [] + Pushed(Lookup(graph, start.path), {start.path});
      && Tracked([start], start, processed, {start.path}, processed + {start.path})
      && Chain(graph, [start]) && StackFrom(graph, [start], stack)
      && Frontier(graph, {start.path}, processed + {start.path}, stack)
      && Within(universe, {start.path}, stack)
      && (Lookup(graph, start.path) == [] ==> stack == [])
  {
    assert PathSet([start]) == {start.path};
    var none: set<string> := {};
    assert none + {start.path} == {start.path};
    FrontierVisit(graph, none, processed, [start]);
    WithinVisit(graph, universe, none, [start]);
    assert [start][..0] == [];
    StackPush(graph, [start], [], {start.path});
    assert Pushed([], {start.path}) == [];
  }

  /**
   * One turn of the search loop: pop the top record; skip it when its path
   * is visited or processed, otherwise add it to the group and push the
   * unvisited adjacency of its path.
   */
  method SearchStep(graph: Graph, ghost start: TextEntry, ghost processed: set<string>, ghost universe: set<string>,
                    group: seq<TextEntry>, visited: set<string>, done: set<string>, stack: seq<TextEntry>)
    returns (group': seq<TextEntry>, visited': set<string>, done': set<string>, stack': seq<TextEntry>)
    requires stack != [] && universe == {start.path} + GraphPaths(graph)
    requires Tracked(group, start, processed, visited, done)
    requires Chain(graph, group) && StackFrom(graph, group, stack)
    requires Frontier(graph, visited, done, stack) && Within(universe, visited, stack)
    ensures Tracked(group', start, processed, visited', done')
    ensures Chain(graph, group') && StackFrom(graph, group', stack')
    ensures Frontier(graph, visited', done', stack') && Within(universe, visited', stack')
    ensures |universe - visited'| < |universe - visited| || (visited' == visited && |stack'| < |stack|)
  {
    var current := stack[|stack| - 1];
    if current.path in visited || current.path in done {
      SearchSkip(graph, start, processed, universe, group, visited, done, stack);
      return group, visited, done, stack[..|stack| - 1];
    }
    SearchVisit(graph, start, processed, universe, group, visited, done, stack);
    group' := group + [current];
    visited' := visited + {current.path};
    done' := done + {current.path};
    stack' := Push(stack[..|stack| - 1], Lookup(graph, current.path), visited');
  }

  /** Skipping a popped record whose path is visited or processed keeps the search state. */
  lemma SearchSkip(graph: Graph, start: TextEntry, processed: set<string>, universe: set<string>,
                   group: seq<TextEntry>, visited: set<string>, done: set<string>, stack: seq<TextEntry>)
    requires stack != [] && (stack[|stack| - 1].path in visited || stack[|stack| - 1].path in done)
    requires Tracked(group, start, processed, visited, done)
    requires StackFrom(graph, group, stack)
    requires Frontier(graph, visited, done, stack) && Within(universe, visited, stack)
    ensures StackFrom(graph, group, stack[..|stack| - 1])
    ensures Frontier(graph, visited, done, stack[..|stack| - 1]) && Within(universe, visited, stack[..|stack| - 1])
  {
    StackPop(graph, group, stack);
    FrontierSkip(graph, visited, done, stack);
    WithinSkip(universe, visited, stack);
  }

  /** Visiting a popped record whose path is new grows the group and the visited paths, keeping the search state. */
  lemma SearchVisit(graph: Graph, start: TextEntry, processed: set<string>, universe: set<string>,
                    group: seq<TextEntry>, visited: set<string>, done: set<string>, stack: seq<TextEntry>)
    requires stack != [] && universe == {start.path} + GraphPaths(graph)
    requires stack[|stack| - 1].path !in visited && stack[|stack| - 1].path !in done
    requires Tracked(group, start, processed, visited, done)
    requires Chain(graph, group) && StackFrom(graph, group, stack)
    requires Frontier(graph, visited, done, stack) && Within(universe, visited, stack)
    ensures var current := stack[|stack| - 1];
      var group', visited', done' := group + [current], visited + {current.path}, done + {current.path};
      var stack' := stack[..|stack| - 1] + Pushed(Lookup(graph, current.path), visited');
      && Tracked(group', start, processed, visited', done')
      && Chain(graph, group') && StackFrom(graph, group', stack')
      && Frontier(graph, visited', done', stack') && Within(universe, visited', stack')
      && |universe - visited'| < |universe - visited|
  {
    var current := stack[|stack| - 1];
    var group', visited', done' := group + [current], visited + {current.path}, done + {current.path};
    var rest := stack[..|stack| - 1];
    assert |universe - visited'| < |universe - visited| by {
      assert current in stack;
      VisitShrinks(universe, visited, current.path);
    }
    assert Tracked(group', start, processed, visited', done') by {
      TrackedVisit(group, start, processed, visited, done, current);
    }
    assert Chain(graph, group') && StackFrom(graph, group', rest + Pushed(Lookup(graph, current.path), visited')) by {
      ChainGrow(graph, group, stack);
      StackPush(graph, group', rest, visited');
    }
    assert Frontier(graph, visited', done', rest + Pushed(Lookup(graph, current.path), visited')) by {
      FrontierVisit(graph, visited, done, stack);
    }
    assert Within(universe, visited', rest + Pushed(Lookup(graph, current.path), visited')) by {
      WithinVisit(graph, universe, visited, stack);
    }
  }

  /** The start record annotated with 100.0 and 'similar', keeping what the search established. */
  function Marked(ghost graph: Graph, group: seq<TextEntry>): (marked: seq<TextEntry>)
    requires group != [] && DistinctPaths(group)
    requires forall k :: 1 <= k < |group| ==> Reached(graph, group[..k], group[k])
    ensures marked == group[0 := Mark(group[0], 100.0)]
    ensures PathSet(marked) == PathSet(group) && DistinctPaths(marked)
    ensures forall k :: 1 <= k < |marked| ==> Reached(graph, marked[..k], marked[k])
  {
    var marked := group[0 := Mark(group[0], 100.0)];
    assert forall k :: 1 <= k < |marked| ==> Reached(graph, marked[..k], marked[k]) by {
      forall k | 1 <= k < |marked| ensures Reached(graph, marked[..k], marked[k]) {
        ReachedRepath(graph, group[..k], marked[..k], group[k]);
      }
    }
    SamePaths(group, marked);
    marked
  }

  /**
   * `_find_similar_group`: a depth-first search from `start` over the graph
   * with an explicit stack, skipping paths already visited or processed. The
   * group is the start record (annotated 100.0 and 'similar') followed by the
   * annotated copies reached from earlier members; its paths are distinct and
   * new, they are added to the processed paths, and every adjacency of a
   * member leads to a processed path. The group is empty exactly when the
   * start was processed already.
   */
  method FindSimilarGroup(start: TextEntry, graph: Graph, processed: set<string>)
    returns (group: seq<TextEntry>, done: set<string>)
    ensures done == processed + PathSet(group)
    ensures DistinctPaths(group) && PathSet(group) !! processed
    ensures start.path in processed ==> group == []
    ensures start.path !in processed ==> group != [] && group[0] == Mark(start, 100.0)
    ensures forall k :: 1 <= k < |group| ==> Reached(graph, group[..k], group[k])
    ensures ClosedFrom(graph, PathSet(group), done)
    ensures PathSet(group) <= {start.path} + GraphPaths(graph)
    ensures Lookup(graph, start.path) == [] ==> |group| <= 1
  {
    if start.path in processed {
      return [], processed;
    }
    ghost var universe := {start.path} + GraphPaths(graph);
    group := [start];
    var visited := {start.path};
    done := processed + {start.path};
    var stack := Push([], Lookup(graph, start.path), visited);
    SearchStarts(graph, start, processed, universe);
    while stack != []
      invariant Tracked(group, start, processed, visited, done)
      invariant Chain(graph, group) && StackFrom(graph, group, stack)
      invariant Frontier(graph, visited, done, stack)
      invariant Within(universe, visited, stack)
      invariant Lookup(graph, start.path) == [] ==> stack == [] && |group| == 1
      decreases |universe - visited|, |stack|
    {
      group, visited, done, stack := SearchStep(graph, start, processed, universe, group, visited, done, stack);
    }
    group := Marked(graph, group);
  }

  /** Paths of all the groups. */
  function GroupPaths(groups: seq<seq<TextEntry>>): set<string>
  {
    set g, x | g in groups && x in g :: x.path
  }

  /** All adjacency entries of `q` point back at `q` itself. */
  ghost predicate Isolated(graph: Graph, q: string)
  {
    forall i :: 0 <= i < |Lookup(graph, q)| ==> Lookup(graph, q)[i].entry.path == q
  }

  /** The graph holds no adjacency at all. */
  ghost predicate Edgeless(graph: Graph)
  {
    forall p :: Lookup(graph, p) == []
  }

  /** Each group has two or more members with distinct paths, and no path is in two groups. */
  ghost predicate Separate(groups: seq<seq<TextEntry>>)
  {
    && (forall g :: g in groups ==> |g| >= 2 && DistinctPaths(g))
    && (forall a, b :: 0 <= a < b < |groups| ==> PathSet(groups[a]) !! PathSet(groups[b]))
  }

  /** Each group starts with a candidate pair's first record and continues with records reached from earlier members. */
  ghost predicate Grown(graph: Graph, pairs: seq<(TextEntry, TextEntry)>, groups: seq<seq<TextEntry>>)
  {
    forall g :: g in groups ==>
      && g != []
      && (exists k :: 0 <= k < |pairs| && g[0] == Mark(pairs[k].0, 100.0))
      && (forall r :: 1 <= r < |g| ==> Reached(graph, g[..r], g[r]))
  }

  /** The state of the loop over the candidate pairs. */
  ghost predicate Collecting(graph: Graph, pairs: seq<(TextEntry, TextEntry)>, k: nat,
                             groups: seq<seq<TextEntry>>, processed: set<string>)
    requires k <= |pairs|
  {
    && Separate(groups) && Grown(graph, pairs, groups)
    && GroupPaths(groups) <= processed
    && ClosedFrom(graph, processed, processed)
    && (forall q :: q in processed && q !in GroupPaths(groups) ==> Isolated(graph, q))
    && (forall j :: 0 <= j < k ==> pairs[j].0.path in processed)
    && processed <= PairFirsts(pairs) + GraphPaths(graph)
  }

  /** The paths of the pairs' first records. */
  function PairFirsts(pairs: seq<(TextEntry, TextEntry)>): set<string>
  {
    set j | 0 <= j < |pairs| :: pairs[j].0.path
  }

  /** A search from an unprocessed start that found nothing else leaves the start isolated. */
  lemma LoneStartIsolated(graph: Graph, start: TextEntry, processed: set<string>, done: set<string>)
    requires Symmetric(graph) && ClosedFrom(graph, processed, processed)
    requires start.path !in processed && done == processed + {start.path}
    requires ClosedFrom(graph, {start.path}, done)
    ensures Isolated(graph, start.path)
  {
    forall i | 0 <= i < |Lookup(graph, start.path)| ensures Lookup(graph, start.path)[i].entry.path == start.path {
      var q := Lookup(graph, start.path)[i].entry.path;
      if q != start.path {
        assert false;
      }
    }
  }

  /** Adding a group of two or more new paths keeps the groups separate. */
  lemma SeparateAdd(groups: seq<seq<TextEntry>>, group: seq<TextEntry>, processed: set<string>)
    requires Separate(groups) && GroupPaths(groups) <= processed
    requires |group| >= 2 && DistinctPaths(group) && PathSet(group) !! processed
    ensures Separate(groups + [group])
    ensures GroupPaths(groups + [group]) == GroupPaths(groups) + PathSet(group)
  {
    var groups' := groups + [group];
    assert forall g :: g in groups' <==> g in groups || g == group;
    forall a, b | 0 <= a < b < |groups'| ensures PathSet(groups'[a]) !! PathSet(groups'[b]) {
      if b == |groups| {
        assert groups[a] in groups;
        assert PathSet(groups[a]) <= GroupPaths(groups);
      }
    }
  }

  /** Adding a group found from pair `k` keeps every group grown from a pair. */
  lemma GrownAdd(graph: Graph, pairs: seq<(TextEntry, TextEntry)>, groups: seq<seq<TextEntry>>, group: seq<TextEntry>, k: nat)
    requires k < |pairs| && Grown(graph, pairs, groups)
    requires group != [] && group[0] == Mark(pairs[k].0, 100.0)
    requires forall r :: 1 <= r < |group| ==> Reached(graph, group[..r], group[r])
    ensures Grown(graph, pairs, groups + [group])
  {
    assert forall g :: g in groups + [group] <==> g in groups || g == group;
  }

  /** A start found alone keeps the processed paths outside the groups isolated. */
  lemma AloneAdd(graph: Graph, groups: seq<seq<TextEntry>>, processed: set<string>, start: TextEntry, done: set<string>)
    requires Symmetric(graph) && ClosedFrom(graph, processed, processed)
    requires forall q :: q in processed && q !in GroupPaths(groups) ==> Isolated(graph, q)
    requires start.path !in processed && done == processed + {start.path}
    requires ClosedFrom(graph, {start.path}, done)
    ensures forall q :: q in done && q !in GroupPaths(groups) ==> Isolated(graph, q)
  {
    LoneStartIsolated(graph, start, processed, done);
  }

  /** One turn of the loop over the candidate pairs keeps its state. */
  lemma CollectStep(graph: Graph, pairs: seq<(TextEntry, TextEntry)>, k: nat,
                    groups: seq<seq<TextEntry>>, processed: set<string>,
                    group: seq<TextEntry>, done: set<string>)
    requires k < |pairs| && Symmetric(graph)
    requires Collecting(graph, pairs, k, groups, processed)
    requires pairs[k].0.path !in processed
    requires done == processed + PathSet(group)
    requires DistinctPaths(group) && PathSet(group) !! processed
    requires group != [] && group[0] == Mark(pairs[k].0, 100.0)
    requires forall r :: 1 <= r < |group| ==> Reached(graph, group[..r], group[r])
    requires ClosedFrom(graph, PathSet(group), done)
    requires PathSet(group) <= {pairs[k].0.path} + GraphPaths(graph)
    ensures Collecting(graph, pairs, k + 1, if |group| > 1 then groups + [group] else groups, done)
  {
    var first := pairs[k].0;
    assert first.path in PairFirsts(pairs);
    assert ClosedFrom(graph, done, done);
    if |group| == 1 {
      assert PathSet(group) == {first.path} by {
        assert group[0] in group;
        assert forall x :: x in group ==> x == group[0];
      }
      AloneAdd(graph, groups, processed, first, done);
    } else {
      SeparateAdd(groups, group, processed);
      GrownAdd(graph, pairs, groups, group, k);
    }
  }

  /**
   * The loop of `_detailed_similarity_check` over the candidate pairs: a
   * search from each pair's first record not yet processed, keeping the
   * groups of two or more. Groups have distinct paths and share none; every
   * path joined to a different path by an adjacency of a pair's first record
   * ends in a group, as does that first record.
   */
  method GroupCandidates(pairs: seq<(TextEntry, TextEntry)>, graph: Graph) returns (groups: seq<seq<TextEntry>>)
    requires Symmetric(graph)
    ensures Separate(groups) && Grown(graph, pairs, groups)
    ensures forall k, i ::
      (0 <= k < |pairs| && 0 <= i < |Lookup(graph, pairs[k].0.path)| &&
       Lookup(graph, pairs[k].0.path)[i].entry.path != pairs[k].0.path) ==>
        pairs[k].0.path in GroupPaths(groups) && Lookup(graph, pairs[k].0.path)[i].entry.path in GroupPaths(groups)
    ensures GroupPaths(groups) <= PairFirsts(pairs) + GraphPaths(graph)
    ensures Edgeless(graph) ==> groups == []
  {
    groups := [];
    var processed: set<string> := {};
    for k := 0 to |pairs|
      invariant Collecting(graph, pairs, k, groups, processed)
      invariant Edgeless(graph) ==> groups == []
    {
      groups, processed := CollectOne(pairs, graph, k, groups, processed);
    }
    CollectedEnds(graph, pairs, groups, processed);
  }

  /** One turn of the loop over the candidate pairs: a search from the pair's first record unless its path is processed. */
  method CollectOne(pairs: seq<(TextEntry, TextEntry)>, graph: Graph, k: nat,
                    groups: seq<seq<TextEntry>>, processed: set<string>)
    returns (groups': seq<seq<TextEntry>>, processed': set<string>)
    requires Symmetric(graph) && k < |pairs|
    requires Collecting(graph, pairs, k, groups, processed)
    requires Edgeless(graph) ==> groups == []
    ensures Collecting(graph, pairs, k + 1, groups', processed')
    ensures Edgeless(graph) ==> groups' == []
  {
    var (file1, _) := pairs[k];
    if file1.path in processed {
      return groups, processed;
    }
    var group, done := FindSimilarGroup(file1, graph, processed);
    CollectStep(graph, pairs, k, groups, processed, group, done);
    groups' := groups;
    if |group| > 1 {
      groups' := groups + [group];
    }
    processed' := done;
  }

  /** After the loop, both ends of every adjacency of a pair's first record, other than itself, are grouped. */
  lemma CollectedEnds(graph: Graph, pairs: seq<(TextEntry, TextEntry)>, groups: seq<seq<TextEntry>>, processed: set<string>)
    requires Symmetric(graph) && Collecting(graph, pairs, |pairs|, groups, processed)
    ensures forall k, i ::
      (0 <= k < |pairs| && 0 <= i < |Lookup(graph, pairs[k].0.path)| &&
       Lookup(graph, pairs[k].0.path)[i].entry.path != pairs[k].0.path) ==>
        pairs[k].0.path in GroupPaths(groups) && Lookup(graph, pairs[k].0.path)[i].entry.path in GroupPaths(groups)
  {
    forall k, i | 0 <= k < |pairs| && 0 <= i < |Lookup(graph, pairs[k].0.path)| &&
      Lookup(graph, pairs[k].0.path)[i].entry.path != pairs[k].0.path
      ensures pairs[k].0.path in GroupPaths(groups) && Lookup(graph, pairs[k].0.path)[i].entry.path in GroupPaths(groups)
    {
      var p := pairs[k].0.path;
      var q := Lookup(graph, p)[i].entry.path;
      assert ListsPath(graph, q, p);
      var j :| 0 <= j < |Lookup(graph, q)| && Lookup(graph, q)[j].entry.path == p;
    }
  }

  /** The edges recorded for the candidate pairs: those whose similarity reaches the threshold, in order. */
  function RecordedEdges(pairs: seq<(TextEntry, TextEntry)>, similarity: (TextEntry, TextEntry) -> real,
                         threshold: real): (edges: seq<Edge>)
    ensures forall k :: 0 <= k < |edges| ==> edges[k].similarity >= threshold
  {
    if pairs == [] then []
    else
      var (a, b) := pairs[|pairs| - 1];
      var s := similarity(a, b);
      RecordedEdges(pairs[..|pairs| - 1], similarity, threshold) + (if s >= threshold then [Edge(a, b, s)] else [])
  }

  /** A pair that reaches the threshold is recorded; every recorded edge is a pair with its similarity. */
  lemma {:induction false} RecordedEdgesSpec(pairs: seq<(TextEntry, TextEntry)>,
                                             similarity: (TextEntry, TextEntry) -> real, threshold: real)
    ensures forall k :: 0 <= k < |pairs| && similarity(pairs[k].0, pairs[k].1) >= threshold ==>
      Edge(pairs[k].0, pairs[k].1, similarity(pairs[k].0, pairs[k].1)) in RecordedEdges(pairs, similarity, threshold)
    ensures forall e :: e in RecordedEdges(pairs, similarity, threshold) ==>
      exists k :: 0 <= k < |pairs| && e == Edge(pairs[k].0, pairs[k].1, similarity(pairs[k].0, pairs[k].1))
  {
    if pairs != [] {
      var m := |pairs| - 1;
      RecordedEdgesSpec(pairs[..m], similarity, threshold);
      assert forall k :: 0 <= k < m ==> pairs[..m][k] == pairs[k];
    }
  }

  /** The paths of the pairs' records. */
  function PairPaths(pairs: seq<(TextEntry, TextEntry)>): set<string>
  {
    set j, x | 0 <= j < |pairs| && x in {pairs[j].0, pairs[j].1} :: x.path
  }

  /** A graph built from the recorded edges mentions only paths of the pairs. */
  lemma RecordedGraphPaths(graph: Graph, pairs: seq<(TextEntry, TextEntry)>,
                           similarity: (TextEntry, TextEntry) -> real, threshold: real)
    requires forall p :: Lookup(graph, p) == Neighbours(RecordedEdges(pairs, similarity, threshold), p)
    ensures GraphPaths(graph) <= PairPaths(pairs)
  {
    var edges := RecordedEdges(pairs, similarity, threshold);
    RecordedEdgesSpec(pairs, similarity, threshold);
    forall p, i | p in graph && 0 <= i < |graph[p]| ensures graph[p][i].entry.path in PairPaths(pairs) {
      var n := graph[p][i];
      assert n in Lookup(graph, p);
      NeighbourSource(edges, p, n);
      var k :| 0 <= k < |edges| && EdgeAt(edges[k], p, n);
      assert edges[k] in edges;
      var j :| 0 <= j < |pairs| && edges[k] == Edge(pairs[j].0, pairs[j].1, similarity(pairs[j].0, pairs[j].1));
      assert n.entry in {pairs[j].0, pairs[j].1};
    }
  }

  /** Every copy in a group was reached by an edge at or above the threshold. */
  lemma ReachedAtLeast(graph: Graph, threshold: real, group: seq<TextEntry>, x: TextEntry)
    requires AtLeast(graph, threshold) && Reached(graph, group, x)
    ensures x.similarity.Some? && x.similarity.value >= threshold && x.matchType == Some("similar")
  {
    var j, i :| 0 <= j < |group| && 0 <= i < |Lookup(graph, group[j].path)| &&
      x == Copied(Lookup(graph, group[j].path)[i]);
  }

  /**
   * `x` is the other record of a candidate pair at or above the threshold
   * with a record at path `p`, annotated with that pair's similarity.
   */
  ghost predicate PairedWith(pairs: seq<(TextEntry, TextEntry)>, similarity: (TextEntry, TextEntry) -> real,
                             threshold: real, p: string, x: TextEntry)
  {
    exists k :: PairedAt(pairs, similarity, threshold, k, p, x)
  }

  /** `PairedWith`, by the candidate pair at index `k`. */
  ghost predicate PairedAt(pairs: seq<(TextEntry, TextEntry)>, similarity: (TextEntry, TextEntry) -> real,
                           threshold: real, k: int, p: string, x: TextEntry)
  {
    && 0 <= k < |pairs| && similarity(pairs[k].0, pairs[k].1) >= threshold
    && ((pairs[k].0.path == p && x == Mark(pairs[k].1, similarity(pairs[k].0, pairs[k].1))) ||
        (pairs[k].1.path == p && x == Mark(pairs[k].0, similarity(pairs[k].0, pairs[k].1))))
  }

  /** The candidate pair a recorded edge comes from. */
  lemma RecordedEdgeSource(pairs: seq<(TextEntry, TextEntry)>, similarity: (TextEntry, TextEntry) -> real,
                           threshold: real, d: nat)
    returns (k: nat)
    requires d < |RecordedEdges(pairs, similarity, threshold)|
    ensures k < |pairs| && similarity(pairs[k].0, pairs[k].1) >= threshold
    ensures RecordedEdges(pairs, similarity, threshold)[d] == Edge(pairs[k].0, pairs[k].1, similarity(pairs[k].0, pairs[k].1))
  {
    var edges := RecordedEdges(pairs, similarity, threshold);
    RecordedEdgesSpec(pairs, similarity, threshold);
    assert edges[d] in edges;
    k :| 0 <= k < |pairs| && edges[d] == Edge(pairs[k].0, pairs[k].1, similarity(pairs[k].0, pairs[k].1));
  }

  /** In the graph of the recorded edges, a reached record is paired with a member by a recorded pair. */
  lemma ReachedByPair(pairs: seq<(TextEntry, TextEntry)>, similarity: (TextEntry, TextEntry) -> real, threshold: real,
                      graph: Graph, group: seq<TextEntry>, x: TextEntry)
    returns (j: nat)
    requires forall p :: Lookup(graph, p) == Neighbours(RecordedEdges(pairs, similarity, threshold), p)
    requires Reached(graph, group, x)
    ensures j < |group| && PairedWith(pairs, similarity, threshold, group[j].path, x)
  {
    var edges := RecordedEdges(pairs, similarity, threshold);
    var i;
    j, i :| 0 <= j < |group| && 0 <= i < |Lookup(graph, group[j].path)| &&
      x == Copied(Lookup(graph, group[j].path)[i]);
    var p := group[j].path;
    var n := Lookup(graph, p)[i];
    assert n in Neighbours(edges, p);
    NeighbourSource(edges, p, n);
    var d :| 0 <= d < |edges| && EdgeAt(edges[d], p, n);
    var k := RecordedEdgeSource(pairs, similarity, threshold, d);
    assert x == Mark(n.entry, n.similarity);
    assert PairedAt(pairs, similarity, threshold, k, p, x);
  }

  /**
   * In the graph of the recorded edges, a group grown from the candidates
   * has each later member paired with an earlier one.
   */
  lemma GrownByPairs(pairs: seq<(TextEntry, TextEntry)>, similarity: (TextEntry, TextEntry) -> real, threshold: real,
                     graph: Graph, groups: seq<seq<TextEntry>>)
    requires forall p :: Lookup(graph, p) == Neighbours(RecordedEdges(pairs, similarity, threshold), p)
    requires Grown(graph, pairs, groups)
    ensures forall g: seq<TextEntry>, r :: g in groups && 1 <= r < |g| ==>
      exists j :: 0 <= j < r && PairedWith(pairs, similarity, threshold, g[j].path, g[r])
  {
    forall g: seq<TextEntry>, r | g in groups && 1 <= r < |g|
      ensures exists j :: 0 <= j < r && PairedWith(pairs, similarity, threshold, g[j].path, g[r])
    {
      var j := ReachedByPair(pairs, similarity, threshold, graph, g[..r], g[r]);
      assert g[..r][j] == g[j];
    }
  }

  /**
   * The loop over the completed similarity computations, recording each pair
   * whose similarity reaches the threshold as an edge (the intended
   * `similarities[pair] = similarity`).
   */
  method RecordSimilarities(pairs: seq<(TextEntry, TextEntry)>, similarity: (TextEntry, TextEntry) -> real,
                            threshold: real)
    returns (edges: seq<Edge>)
    ensures edges == RecordedEdges(pairs, similarity, threshold)
  {
    edges := [];
    for k := 0 to |pairs|
      invariant edges == RecordedEdges(pairs[..k], similarity, threshold)
    {
      assert pairs[..k + 1][..k] == pairs[..k];
      var (file1, file2) := pairs[k];
      var s := similarity(file1, file2);
      if s >= threshold {
        edges := edges + [Edge(file1, file2, s)];
      }
    }
    assert pairs[..|pairs|] == pairs;
  }

  /** A pair at or above the threshold lists its second record at its first record's path. */
  lemma PairListed(pairs: seq<(TextEntry, TextEntry)>, similarity: (TextEntry, TextEntry) -> real, threshold: real,
                   graph: Graph, k: nat)
    requires forall p :: Lookup(graph, p) == Neighbours(RecordedEdges(pairs, similarity, threshold), p)
    requires k < |pairs| && similarity(pairs[k].0, pairs[k].1) >= threshold
    ensures ListsPath(graph, pairs[k].0.path, pairs[k].1.path)
  {
    var edges := RecordedEdges(pairs, similarity, threshold);
    RecordedEdgesSpec(pairs, similarity, threshold);
    var e := Edge(pairs[k].0, pairs[k].1, similarity(pairs[k].0, pairs[k].1));
    var d :| 0 <= d < |edges| && edges[d] == e;
    EdgeListed(edges, d);
    var ns := Lookup(graph, pairs[k].0.path);
    var i :| 0 <= i < |ns| && ns[i] == Neighbour(pairs[k].1, e.similarity);
  }

  lemma FirstsWithinPaths(pairs: seq<(TextEntry, TextEntry)>)
    ensures PairFirsts(pairs) <= PairPaths(pairs)
  {
    forall j | 0 <= j < |pairs| ensures pairs[j].0.path in PairPaths(pairs) {
      assert pairs[j].0 in {pairs[j].0, pairs[j].1};
    }
  }

  /** When every adjacency of a pair's first record is grouped, so is each pair that reaches the threshold. */
  lemma PairsGrouped(pairs: seq<(TextEntry, TextEntry)>, similarity: (TextEntry, TextEntry) -> real, threshold: real,
                     graph: Graph, groups: seq<seq<TextEntry>>)
    requires forall p :: Lookup(graph, p) == Neighbours(RecordedEdges(pairs, similarity, threshold), p)
    requires forall k, i ::
      (0 <= k < |pairs| && 0 <= i < |Lookup(graph, pairs[k].0.path)| &&
       Lookup(graph, pairs[k].0.path)[i].entry.path != pairs[k].0.path) ==>
        pairs[k].0.path in GroupPaths(groups) && Lookup(graph, pairs[k].0.path)[i].entry.path in GroupPaths(groups)
    ensures forall k ::
      (0 <= k < |pairs| && similarity(pairs[k].0, pairs[k].1) >= threshold &&
       pairs[k].0.path != pairs[k].1.path) ==>
        pairs[k].0.path in GroupPaths(groups) && pairs[k].1.path in GroupPaths(groups)
  {
    forall k | 0 <= k < |pairs| && similarity(pairs[k].0, pairs[k].1) >= threshold && pairs[k].0.path != pairs[k].1.path
      ensures pairs[k].0.path in GroupPaths(groups) && pairs[k].1.path in GroupPaths(groups)
    {
      PairListed(pairs, similarity, threshold, graph, k);
      var ns := Lookup(graph, pairs[k].0.path);
      var i :| 0 <= i < |ns| && ns[i].entry.path == pairs[k].1.path;
    }
  }

  /** In a graph whose edges all reach the threshold, every later member of a grown group carries such a similarity. */
  lemma GrownAtLeast(graph: Graph, threshold: real, pairs: seq<(TextEntry, TextEntry)>, groups: seq<seq<TextEntry>>)
    requires AtLeast(graph, threshold) && Grown(graph, pairs, groups)
    ensures forall g: seq<TextEntry>, r :: g in groups && 1 <= r < |g| ==>
      g[r].similarity.Some? && g[r].similarity.value >= threshold && g[r].matchType == Some("similar")
  {
    forall g: seq<TextEntry>, r | g in groups && 1 <= r < |g|
      ensures g[r].similarity.Some? && g[r].similarity.value >= threshold && g[r].matchType == Some("similar")
    {
      ReachedAtLeast(graph, threshold, g[..r], g[r]);
    }
  }

  /**
   * `_detailed_similarity_check` as evidently intended: each candidate pair
   * whose detailed similarity (`similarity`) reaches the threshold is
   * recorded as an edge, the graph is built, and the groups are collected.
   * Both records of such a pair with two different paths end in a group;
   * each group starts with a candidate's first record, and every later
   * member is the partner of an earlier member in such a pair, carrying
   * that pair's similarity; every path in a group is a path of a candidate.
   */
  method DetailedSimilarityCheck(pairs: seq<(TextEntry, TextEntry)>, similarity: (TextEntry, TextEntry) -> real,
                                 threshold: real)
    returns (groups: seq<seq<TextEntry>>)
    ensures Separate(groups)
    ensures forall k ::
      (0 <= k < |pairs| && similarity(pairs[k].0, pairs[k].1) >= threshold &&
       pairs[k].0.path != pairs[k].1.path) ==>
        pairs[k].0.path in GroupPaths(groups) && pairs[k].1.path in GroupPaths(groups)
    ensures forall g: seq<TextEntry>, r :: g in groups && 1 <= r < |g| ==>
      g[r].similarity.Some? && g[r].similarity.value >= threshold && g[r].matchType == Some("similar")
    ensures forall g: seq<TextEntry> :: g in groups ==> g[0].similarity == Some(100.0) && g[0].matchType == Some("similar")
    ensures GroupPaths(groups) <= PairPaths(pairs)
    ensures forall g: seq<TextEntry> :: g in groups ==> exists k :: 0 <= k < |pairs| && g[0] == Mark(pairs[k].0, 100.0)
    ensures forall g: seq<TextEntry>, r :: g in groups && 1 <= r < |g| ==>
      exists j :: 0 <= j < r && PairedWith(pairs, similarity, threshold, g[j].path, g[r])
  {
    var edges := RecordSimilarities(pairs, similarity, threshold);
    var graph := BuildGraph(edges);
    GraphSymmetric(graph, edges);
    GraphAtLeast(graph, edges, threshold);
    groups := GroupCandidates(pairs, graph);
    PairsGrouped(pairs, similarity, threshold, graph, groups);
    GrownAtLeast(graph, threshold, pairs, groups);
    GrownByPairs(pairs, similarity, threshold, graph, groups);
    RecordedGraphPaths(graph, pairs, similarity, threshold);
    FirstsWithinPaths(pairs);
  }

  /**
   * `_detailed_similarity_check` as written: `similarities[pair] = similarity`
   * keys a dict by a pair of record dicts, which are unhashable, so every
   * insertion raises `TypeError` and is caught by the loop; the graph stays
   * empty, every search yields the start record alone, and no group is
   * returned, whatever the candidates.
   */
  method DetailedSimilarityCheckAsWritten(pairs: seq<(TextEntry, TextEntry)>,
                                          similarity: (TextEntry, TextEntry) -> real, threshold: real)
    returns (groups: seq<seq<TextEntry>>)
    ensures groups == []
  {
    var edges: seq<Edge> := [];
    for k := 0 to |pairs|
      invariant edges == []
    {
      var (file1, file2) := pairs[k];
      var s := similarity(file1, file2);
      if s >= threshold {
        // The insertion raises TypeError here, so no edge is recorded.
      }
    }
    var graph := BuildGraph(edges);
    GraphSymmetric(graph, edges);
    groups := GroupCandidates(pairs, graph);
  }

  /**
   * Two candidates with different paths whose similarity reaches the
   * threshold: the intended check groups both, the check as written returns
   * nothing.
   */
  method LostEdgeWitness(a: TextEntry, b: TextEntry, similarity: (TextEntry, TextEntry) -> real, threshold: real)
    returns (intended: seq<seq<TextEntry>>, asWritten: seq<seq<TextEntry>>)
    requires a.path != b.path && similarity(a, b) >= threshold
    ensures a.path in GroupPaths(intended) && b.path in GroupPaths(intended)
    ensures intended != [] && asWritten == []
  {
    intended := DetailedSimilarityCheck([(a, b)], similarity, threshold);
    asWritten := DetailedSimilarityCheckAsWritten([(a, b)], similarity, threshold);
    assert [(a, b)][0] == (a, b);
    var g, x :| g in intended && x in g && x.path == a.path;
  }
}
