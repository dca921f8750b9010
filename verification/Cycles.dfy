/** The two depth-first cycle detectors of the graph obligations. */
module Cycles {
  type Graph = map<string, set<string>>

  /** `adjacency.get(node).into_iter().flatten()`: an unknown node has no targets. */
  function Targets(g: Graph, node: string): set<string> { if node in g then g[node] else {} }

  ghost predicate IsPath(g: Graph, p: seq<string>) {
    forall i :: 0 <= i < |p| - 1 ==> p[i + 1] in Targets(g, p[i])
  }

  ghost predicate IsCycle(g: Graph, p: seq<string>) {
    |p| >= 2 && IsPath(g, p) && p[0] == p[|p| - 1]
  }

  ghost predicate Cyclic(g: Graph) { exists p :: IsCycle(g, p) }

  ghost function Universe(g: Graph): set<string> {
    g.Keys + set k, t | k in g && t in g[k] :: t
  }

  /** Finished nodes: closed under targets, and no cycle runs through them. */
  ghost predicate Finished(g: Graph, visited: set<string>) {
    && (forall v :: v in visited ==> Targets(g, v) <= visited)
    && (forall p :: IsCycle(g, p) ==> p[0] !in visited)
  }

  lemma {:induction false} PathStays(g: Graph, closed: set<string>, p: seq<string>, i: nat)
    requires forall v :: v in closed ==> Targets(g, v) <= closed
    requires IsPath(g, p) && i < |p| && p[i] in closed
    ensures p[|p| - 1] in closed
    decreases |p| - i
  {
    if i + 1 < |p| {
      assert p[i + 1] in Targets(g, p[i]);
      PathStays(g, closed, p, i + 1);
    }
  }

  /** A node all of whose targets are finished can be finished too. */
  lemma Finish(g: Graph, visited: set<string>, node: string)
    requires Finished(g, visited) && Targets(g, node) <= visited && node !in visited
    ensures Finished(g, visited + {node})
  {
    forall p | IsCycle(g, p) ensures p[0] !in visited + {node} {
      if p[0] == node {
        assert p[1] in Targets(g, p[0]);
        PathStays(g, visited, p, 1);
      }
    }
  }

  /** Meeting a node of the current path closes a cycle. */
  lemma BackEdge(g: Graph, stack: seq<string>, node: string)
    requires IsPath(g, stack + [node]) && node in stack
    ensures Cyclic(g)
  {
    var i :| 0 <= i < |stack| && stack[i] == node;
    var p := (stack + [node])[i..];
    assert forall j :: 0 <= j < |p| ==> p[j] == (stack + [node])[i + j];
    assert IsCycle(g, p);
  }

  ghost function Elements(s: seq<string>): set<string> { set x | x in s }

  /** What a call of either `visit` may rely on: the nodes being visited form a path to this one. */
  ghost predicate Entered(g: Graph, node: string, visiting: set<string>, visited: set<string>, stack: seq<string>) {
    && visiting == Elements(stack) && IsPath(g, stack + [node])
    && visiting <= Universe(g) && node in Universe(g)
    && Finished(g, visited) && visiting !! visited
  }

  lemma EnterTarget(g: Graph, node: string, stack: seq<string>, target: string)
    requires IsPath(g, stack + [node]) && target in Targets(g, node)
    ensures IsPath(g, stack + [node] + [target]) && target in Universe(g)
  {
    var p := stack + [node] + [target];
    forall i | 0 <= i < |p| - 1 ensures p[i + 1] in Targets(g, p[i]) {
      if i < |stack| { assert p[i] == (stack + [node])[i] && p[i + 1] == (stack + [node])[i + 1]; }
    }
  }

  /** `visit` of the /3 engine; the targets may be tried in any order. */
  method Visit(node: string, g: Graph, visiting0: set<string>, visited0: set<string>, ghost stack: seq<string>)
    returns (found: bool, visiting: set<string>, visited: set<string>)
    requires Entered(g, node, visiting0, visited0, stack)
    ensures found ==> Cyclic(g)
    ensures !found ==>
      visiting == visiting0 && visited0 + {node} <= visited && Finished(g, visited) && visiting !! visited
    decreases Universe(g) - visiting0
  {
    visiting, visited := visiting0, visited0;
    if node in visiting {
      BackEdge(g, stack, node);
      return true, visiting, visited;
    }
    if node in visited {
      return false, visiting, visited;
    }
    visiting := visiting + {node};
    var rest := Targets(g, node);
    while rest != {}
      invariant rest <= Targets(g, node) && Targets(g, node) - rest <= visited
      invariant visiting == visiting0 + {node} && visited0 <= visited
      invariant Finished(g, visited) && visiting !! visited
    {
      var target :| target in rest;
      EnterTarget(g, node, stack, target);
      var hit, v, w := Visit(target, g, visiting, visited, stack + [node]);
      if hit {
        return true, v, w;
      }
      visiting, visited, rest := v, w, rest - {target};
    }
    Finish(g, visited, node);
    visiting, visited := visiting - {node}, visited + {node};
    found := false;
  }

  /** When every key is finished there is no cycle left. */
  lemma AllFinished(g: Graph, visited: set<string>)
    requires Finished(g, visited) && g.Keys <= visited
    ensures !Cyclic(g)
  {
    forall p | IsCycle(g, p) ensures p[0] in g {
      CycleStartsAtKey(g, p);
    }
  }

  lemma CycleStartsAtKey(g: Graph, p: seq<string>)
    requires IsCycle(g, p)
    ensures p[0] in g
  {
    assert p[1] in Targets(g, p[0]);
  }

  /** `graph_has_cycle`: true exactly when the adjacency map has a directed cycle. */
  method GraphHasCycle(g: Graph) returns (found: bool)
    ensures found <==> Cyclic(g)
  {
    var visiting, visited: set<string> := {}, {};
    var rest := g.Keys;
    while rest != {}
      invariant rest <= g.Keys && g.Keys - rest <= visited
      invariant visiting == {} && Finished(g, visited)
    {
      var node :| node in rest;
      found, visiting, visited := Visit(node, g, visiting, visited, []);
      if found {
        return;
      }
      rest := rest - {node};
    }
    AllFinished(g, visited);
    found := false;
  }

  /** `visit` of the /4 engine: it inserts first and tests `visited` afterwards. */
  method VisitV4(node: string, g: Graph, visiting0: set<string>, visited0: set<string>, ghost stack: seq<string>)
    returns (found: bool, visiting: set<string>, visited: set<string>)
    requires Entered(g, node, visiting0, visited0, stack)
    ensures found ==> Cyclic(g)
    ensures !found ==>
      visiting == visiting0 && visited0 + {node} <= visited && Finished(g, visited) && visiting !! visited
    decreases Universe(g) - visiting0
  {
    visiting, visited := visiting0 + {node}, visited0;
    if node in visiting0 {
      BackEdge(g, stack, node);
      return true, visiting, visited;
    }
    if node in visited {
      visiting := visiting - {node};
      return false, visiting, visited;
    }
    var rest := Targets(g, node);
    while rest != {}
      invariant rest <= Targets(g, node) && Targets(g, node) - rest <= visited
      invariant visiting == visiting0 + {node} && visited0 <= visited
      invariant Finished(g, visited) && visiting !! visited
    {
      var target :| target in rest;
      EnterTarget(g, node, stack, target);
      var hit, v, w := VisitV4(target, g, visiting, visited, stack + [node]);
      if hit {
        return true, v, w;
      }
      visiting, visited, rest := v, w, rest - {target};
    }
    Finish(g, visited, node);
    visiting, visited := visiting - {node}, visited + {node};
    found := false;
  }

  /** The adjacency map that a node set and a set of ordered pairs stand for. */
  function Adjacency(nodes: set<string>, pairs: set<(string, string)>): Graph {
    map n | n in nodes :: set pair | pair in pairs && pair.0 == n :: pair.1
  }

  /** `graph_has_cycle_v4`: the same answer on the graph built from nodes and pairs. */
  method GraphHasCycleV4(nodes: set<string>, pairs: set<(string, string)>) returns (found: bool)
    requires forall pair :: pair in pairs ==> pair.0 in nodes
    ensures found <==> Cyclic(Adjacency(nodes, pairs))
  {
    var g: Graph := map n | n in nodes :: {};
    var todo := pairs;
    assert pairs - todo == {} && forall n :: n in nodes ==> Adjacency(nodes, {})[n] == {};
    while todo != {}
      invariant todo <= pairs && g == Adjacency(nodes, pairs - todo)
    {
      var pair :| pair in todo;
      g := g[pair.0 := g[pair.0] + {pair.1}];
      AddPair(nodes, pairs - todo, pair);
      assert pairs - (todo - {pair}) == (pairs - todo) + {pair};
      todo := todo - {pair};
    }
    assert pairs - {} == pairs;
    var visiting, visited: set<string> := {}, {};
    var rest := nodes;
    while rest != {}
      invariant rest <= nodes && nodes - rest <= visited
      invariant visiting == {} && Finished(g, visited)
    {
      var node :| node in rest;
      found, visiting, visited := VisitV4(node, g, visiting, visited, []);
      if found {
        return;
      }
      rest := rest - {node};
    }
    AllFinished(g, visited);
    found := false;
  }

  lemma AddPair(nodes: set<string>, pairs: set<(string, string)>, pair: (string, string))
    requires pair.0 in nodes
    ensures var g := Adjacency(nodes, pairs); Adjacency(nodes, pairs + {pair}) == g[pair.0 := g[pair.0] + {pair.1}]
  {
    var g, h := Adjacency(nodes, pairs), Adjacency(nodes, pairs + {pair});
    forall n | n in nodes ensures h[n] == if n == pair.0 then g[n] + {pair.1} else g[n] {
      forall t | t in h[n] ensures t in (if n == pair.0 then g[n] + {pair.1} else g[n]) {
        assert (n, t) in pairs + {pair};
      }
      forall t | t in g[n] ensures t in h[n] {
        assert (n, t) in pairs;
      }
      if n == pair.0 { assert pair in pairs + {pair}; }
    }
  }
}
