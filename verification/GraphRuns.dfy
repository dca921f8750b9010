/** Graph obligations of an aggregate and what they keep true over every run of commands. */
module GraphRuns {
  import opened Text
  import opened Cycles

  datatype Node = Node(state: string, partition: Option<string>)
  datatype Edge = Edge(state: string, partition: Option<string>, source: Option<string>, target: Option<string>)
  datatype Aggregate = Aggregate(nodes: map<string, Node>, edges: map<string, Edge>)

  datatype Refusal =
    EmptyGraph | GraphTooLarge | InvalidPlan | SelfEdge | DanglingEdge | DuplicateEdge | GraphCycle
    | NodeNotFound | NodeReferenced

  datatype Limits = Limits(maxNodes: nat, maxEdges: nat)

  const DEFAULT_LIMITS := Limits(500, 2000)

  function ActiveNodes(a: Aggregate, active: string, p: string): set<string> {
    set n | n in a.nodes && a.nodes[n].state == active && a.nodes[n].partition == Some(p)
  }

  function ActiveEdges(a: Aggregate, active: string, p: string): set<string> {
    set e | e in a.edges && a.edges[e].state == active && a.edges[e].partition == Some(p)
  }

  predicate Bound(edge: Edge) { edge.source.Some? && edge.target.Some? }

  function Pairs(a: Aggregate, ids: set<string>): set<(string, string)> {
    set e | e in ids && e in a.edges && Bound(a.edges[e]) :: (a.edges[e].source.value, a.edges[e].target.value)
  }

  predicate Proper(nodes: set<string>, edge: Edge) {
    Bound(edge) && edge.source != edge.target && edge.source.value in nodes && edge.target.value in nodes
  }

  /** No self, dangling or duplicate edge among `ids`. */
  ghost predicate Clean(a: Aggregate, nodes: set<string>, ids: set<string>) {
    && (forall e :: e in ids ==> e in a.edges && Proper(nodes, a.edges[e]))
    && (forall e, f :: e in ids && f in ids && e != f ==>
          (a.edges[e].source, a.edges[e].target) != (a.edges[f].source, a.edges[f].target))
  }

  function ProposedPairs(proposed: Option<(string, string)>): set<(string, string)> {
    match proposed case None => {} case Some(pair) => {pair}
  }

  ghost predicate Small(a: Aggregate, active: string, p: string, proposed: Option<(string, string)>, limits: Limits) {
    && |ActiveNodes(a, active, p)| <= limits.maxNodes
    && |ActiveEdges(a, active, p)| + |ProposedPairs(proposed)| <= limits.maxEdges
  }

  ghost predicate ProposalFits(nodes: set<string>, pairs: set<(string, string)>, proposed: Option<(string, string)>) {
    proposed.Some? ==>
      var (s, t) := proposed.value; s != t && s in nodes && t in nodes && (s, t) !in pairs
  }

  /** The obligation's meaning, said without its loops. */
  ghost predicate Admissible(a: Aggregate, active: string, p: string, proposed: Option<(string, string)>,
                             limits: Limits) {
    var nodes, ids := ActiveNodes(a, active, p), ActiveEdges(a, active, p);
    && nodes != {} && Small(a, active, p, proposed, limits)
    && Clean(a, nodes, ids) && ProposalFits(nodes, Pairs(a, ids), proposed)
    && !Cyclic(Adjacency(nodes, Pairs(a, ids) + ProposedPairs(proposed)))
  }

  // ---- the obligation as the engine runs it ----

  /** What is wrong with one more edge over these nodes and pairs, the first defect in the order of the tests. */
  function PairDefect(nodes: set<string>, pairs: set<(string, string)>, source: string,
                      target: string): Option<Refusal> {
    if source == target then Some(SelfEdge)
    else if source !in nodes || target !in nodes then Some(DanglingEdge)
    else if (source, target) in pairs then Some(DuplicateEdge)
    else None
  }

  /** `insert_graph_edge` on the adjacency map and the pair set. */
  method InsertGraphEdge(adjacency0: Graph, pairs0: set<(string, string)>, source: string, target: string)
    returns (refusal: Option<Refusal>, adjacency: Graph, pairs: set<(string, string)>)
    ensures refusal == PairDefect(adjacency0.Keys, pairs0, source, target)
    ensures refusal.None? ==> pairs == pairs0 + {(source, target)}
    ensures refusal.None? ==> adjacency == adjacency0[source := adjacency0[source] + {target}]
  {
    adjacency, pairs := adjacency0, pairs0;
    if source == target {
      return Some(SelfEdge), adjacency, pairs;
    }
    if source !in adjacency || target !in adjacency {
      return Some(DanglingEdge), adjacency, pairs;
    }
    if (source, target) in pairs {
      return Some(DuplicateEdge), adjacency, pairs;
    }
    pairs := pairs + {(source, target)};
    adjacency := adjacency[source := adjacency[source] + {target}];
    refusal := None;
  }

  lemma MorePairs(a: Aggregate, ids: set<string>, e: string)
    requires e in a.edges && Bound(a.edges[e])
    ensures Pairs(a, ids + {e}) == Pairs(a, ids) + {(a.edges[e].source.value, a.edges[e].target.value)}
  {
  }

  /** A pair already collected shows a duplicate among the edges. */
  lemma RepeatedPair(a: Aggregate, nodes: set<string>, ids: set<string>, some: set<string>, e: string)
    requires some <= ids && e in ids && e !in some && e in a.edges && Bound(a.edges[e])
    requires (a.edges[e].source.value, a.edges[e].target.value) in Pairs(a, some)
    ensures !Clean(a, nodes, ids)
  {
    var f :| f in some && f in a.edges && Bound(a.edges[f])
      && (a.edges[f].source.value, a.edges[f].target.value) == (a.edges[e].source.value, a.edges[e].target.value);
    assert f in ids && (a.edges[e].source, a.edges[e].target) == (a.edges[f].source, a.edges[f].target);
  }

  lemma FreshPair(a: Aggregate, nodes: set<string>, ids: set<string>, e: string)
    requires Clean(a, nodes, ids) && e !in ids && e in a.edges && Proper(nodes, a.edges[e])
    requires (a.edges[e].source.value, a.edges[e].target.value) !in Pairs(a, ids)
    ensures Clean(a, nodes, ids + {e})
  {
    forall f | f in ids ensures (a.edges[f].source, a.edges[f].target) != (a.edges[e].source, a.edges[e].target) {
      assert (a.edges[f].source.value, a.edges[f].target.value) in Pairs(a, ids);
    }
  }

  lemma CollectedOneMore(a: Aggregate, nodes: set<string>, ids: set<string>, todo: set<string>, e: string)
    requires todo <= ids && e in todo && e in a.edges && Proper(nodes, a.edges[e]) && Clean(a, nodes, ids - todo)
    requires (a.edges[e].source.value, a.edges[e].target.value) !in Pairs(a, ids - todo)
    ensures Clean(a, nodes, ids - (todo - {e}))
    ensures Pairs(a, ids - (todo - {e})) == Pairs(a, ids - todo) + {(a.edges[e].source.value, a.edges[e].target.value)}
  {
    FreshPair(a, nodes, ids - todo, e);
    MorePairs(a, ids - todo, e);
    assert ids - (todo - {e}) == (ids - todo) + {e};
  }

  function Earlier(ids: set<string>, e: string): set<string> { set f | f in ids && Less(f, e) }

  /** The defect of one stored edge, given the edges before it in key order. */
  function EdgeDefect(a: Aggregate, nodes: set<string>, ids: set<string>, e: string): Option<Refusal>
    requires e in a.edges
  {
    if !Bound(a.edges[e]) then Some(InvalidPlan)
    else PairDefect(nodes, Pairs(a, Earlier(ids, e)), a.edges[e].source.value, a.edges[e].target.value)
  }

  /** The first faulty edge in key order. */
  ghost predicate FirstDefect(a: Aggregate, nodes: set<string>, ids: set<string>, e: string)
    requires ids <= a.edges.Keys
  {
    && e in ids && EdgeDefect(a, nodes, ids, e).Some?
    && forall f :: f in Earlier(ids, e) ==> EdgeDefect(a, nodes, ids, f).None?
  }

  ghost predicate ReportsFirst(a: Aggregate, nodes: set<string>, ids: set<string>, refusal: Option<Refusal>)
    requires ids <= a.edges.Keys
  {
    exists e :: FirstDefect(a, nodes, ids, e) && EdgeDefect(a, nodes, ids, e) == refusal
  }

  lemma EarlierIsDone(ids: set<string>, todo: set<string>, e: string)
    requires todo <= ids && IsLeast(todo, e) && forall f, g :: f in ids - todo && g in todo ==> Less(f, g)
    ensures Earlier(ids, e) == ids - todo
  {
    forall f | f in ids ensures Less(f, e) <==> f !in todo {
      LessTotal(f, e);
      if f !in todo { assert f in ids - todo; }
    }
  }

  /** The edges outside `todo` come first in key order and are clean. */
  ghost predicate Collected(a: Aggregate, nodes: set<string>, ids: set<string>, todo: set<string>)
    requires ids <= a.edges.Keys
  {
    && todo <= ids && Clean(a, nodes, ids - todo)
    && (forall f :: f in ids - todo ==> EdgeDefect(a, nodes, ids, f).None?)
    && (forall f, g :: f in ids - todo && g in todo ==> Less(f, g))
  }

  lemma DefectNow(a: Aggregate, nodes: set<string>, ids: set<string>, todo: set<string>, e: string)
    requires ids <= a.edges.Keys && Collected(a, nodes, ids, todo) && IsLeast(todo, e)
    ensures EdgeDefect(a, nodes, ids, e) == if !Bound(a.edges[e]) then Some(InvalidPlan)
      else PairDefect(nodes, Pairs(a, ids - todo), a.edges[e].source.value, a.edges[e].target.value)
    ensures EdgeDefect(a, nodes, ids, e).Some? ==>
      ReportsFirst(a, nodes, ids, EdgeDefect(a, nodes, ids, e)) && !Clean(a, nodes, ids)
  {
    EarlierIsDone(ids, todo, e);
    if EdgeDefect(a, nodes, ids, e).Some? {
      assert FirstDefect(a, nodes, ids, e);
      if EdgeDefect(a, nodes, ids, e) == Some(DuplicateEdge) { RepeatedPair(a, nodes, ids, ids - todo, e); }
    }
  }

  lemma CollectOne(a: Aggregate, nodes: set<string>, ids: set<string>, todo: set<string>, e: string)
    requires ids <= a.edges.Keys && Collected(a, nodes, ids, todo) && IsLeast(todo, e)
    requires EdgeDefect(a, nodes, ids, e).None?
    ensures Collected(a, nodes, ids, todo - {e})
    ensures Pairs(a, ids - (todo - {e})) == Pairs(a, ids - todo) + {(a.edges[e].source.value, a.edges[e].target.value)}
  {
    DefectNow(a, nodes, ids, todo, e);
    CollectedOneMore(a, nodes, ids, todo, e);
    forall g | g in todo && g != e ensures Less(e, g) { LeastBelow(todo, e, g); }
    assert ids - (todo - {e}) == (ids - todo) + {e};
  }

  lemma CollectStart(a: Aggregate, nodes: set<string>, ids: set<string>)
    requires ids <= a.edges.Keys
    ensures Collected(a, nodes, ids, ids) && Pairs(a, ids - ids) == {}
    ensures Adjacency(nodes, {}) == map n | n in nodes :: {}
  {
    assert ids - ids == {};
    assert forall n :: n in nodes ==> Adjacency(nodes, {})[n] == {};
  }

  /** `insert_graph_edge` where the map is the adjacency of the pairs: it stays so. */
  method InsertPair(nodes: set<string>, adjacency0: Graph, pairs0: set<(string, string)>, source: string,
                    target: string)
    returns (refusal: Option<Refusal>, adjacency: Graph, pairs: set<(string, string)>)
    requires adjacency0 == Adjacency(nodes, pairs0)
    ensures refusal == PairDefect(nodes, pairs0, source, target)
    ensures refusal.None? ==> pairs == pairs0 + {(source, target)} && adjacency == Adjacency(nodes, pairs)
  {
    if source in nodes { AddPair(nodes, pairs0, (source, target)); }
    refusal, adjacency, pairs := InsertGraphEdge(adjacency0, pairs0, source, target);
  }

  /** The edge loop of `graph_materialization`, in key order. */
  method CollectEdges(a: Aggregate, nodes: set<string>, ids: set<string>)
    returns (refusal: Option<Refusal>, adjacency: Graph, pairs: set<(string, string)>)
    requires ids <= a.edges.Keys
    ensures refusal.None? <==> Clean(a, nodes, ids)
    ensures refusal.None? ==> pairs == Pairs(a, ids) && adjacency == Adjacency(nodes, pairs)
    ensures refusal.Some? ==> ReportsFirst(a, nodes, ids, refusal)
  {
    adjacency, pairs := map n | n in nodes :: {}, {};
    var todo := ids;
    CollectStart(a, nodes, ids);
    while todo != {}
      invariant Collected(a, nodes, ids, todo) && pairs == Pairs(a, ids - todo) && adjacency == Adjacency(nodes, pairs)
    {
      ghost var least := LeastKey(todo);
      var e :| e in todo && IsLeast(todo, e);
      DefectNow(a, nodes, ids, todo, e);
      if !Bound(a.edges[e]) {
        return Some(InvalidPlan), adjacency, pairs;
      }
      var s, t := a.edges[e].source.value, a.edges[e].target.value;
      refusal, adjacency, pairs := InsertPair(nodes, adjacency, pairs, s, t);
      if refusal.Some? {
        return;
      }
      CollectOne(a, nodes, ids, todo, e);
      todo := todo - {e};
    }
    assert ids - todo == ids;
    refusal := None;
  }

  /** The refusal owed to a graph within its limits: first faulty edge, then the proposal, then a cycle. */
  ghost predicate Owed(a: Aggregate, nodes: set<string>, ids: set<string>, proposed: Option<(string, string)>,
                       refusal: Option<Refusal>)
    requires ids <= a.edges.Keys
  {
    var pairs := Pairs(a, ids);
    if !Clean(a, nodes, ids) then ReportsFirst(a, nodes, ids, refusal)
    else if !ProposalFits(nodes, pairs, proposed) then
      refusal.Some? && refusal == PairDefect(nodes, pairs, proposed.value.0, proposed.value.1)
    else refusal == if Cyclic(Adjacency(nodes, pairs + ProposedPairs(proposed))) then Some(GraphCycle) else None
  }

  /** The part of `graph_materialization` after its size checks. */
  method CheckGraph(a: Aggregate, nodes: set<string>, ids: set<string>, proposed: Option<(string, string)>)
    returns (refusal: Option<Refusal>)
    requires ids <= a.edges.Keys
    ensures Owed(a, nodes, ids, proposed, refusal)
  {
    var adjacency, pairs;
    refusal, adjacency, pairs := CollectEdges(a, nodes, ids);
    if refusal.Some? {
      return;
    }
    if proposed.Some? {
      refusal, adjacency, pairs := InsertPair(nodes, adjacency, pairs, proposed.value.0, proposed.value.1);
      if refusal.Some? {
        return;
      }
    }
    assert pairs == Pairs(a, ids) + ProposedPairs(proposed);
    var cyclic := GraphHasCycle(adjacency);
    refusal := if cyclic then Some(GraphCycle) else None;
  }

  lemma OwedMeans(a: Aggregate, nodes: set<string>, ids: set<string>, proposed: Option<(string, string)>,
                  refusal: Option<Refusal>)
    requires ids <= a.edges.Keys && Owed(a, nodes, ids, proposed, refusal)
    ensures refusal.None? <==> (
      && Clean(a, nodes, ids) && ProposalFits(nodes, Pairs(a, ids), proposed)
      && !Cyclic(Adjacency(nodes, Pairs(a, ids) + ProposedPairs(proposed))))
    ensures refusal != Some(EmptyGraph) && refusal != Some(GraphTooLarge)
  {
    if !Clean(a, nodes, ids) {
      var e :| FirstDefect(a, nodes, ids, e) && EdgeDefect(a, nodes, ids, e) == refusal;
    }
  }

  /** `graph_materialization`: which refusal is given, in the order of the tests. */
  method Materialize(a: Aggregate, active: string, p: string, proposed: Option<(string, string)>, limits: Limits)
    returns (refusal: Option<Refusal>)
    ensures refusal.None? <==> Admissible(a, active, p, proposed, limits)
    ensures refusal == Some(EmptyGraph) <==> ActiveNodes(a, active, p) == {}
    ensures refusal == Some(GraphTooLarge)
       <==> ActiveNodes(a, active, p) != {} && !Small(a, active, p, proposed, limits)
    ensures ActiveNodes(a, active, p) != {} && Small(a, active, p, proposed, limits) ==>
      Owed(a, ActiveNodes(a, active, p), ActiveEdges(a, active, p), proposed, refusal)
  {
    var nodes := ActiveNodes(a, active, p);
    if nodes == {} {
      return Some(EmptyGraph);
    }
    if |nodes| > limits.maxNodes {
      return Some(GraphTooLarge);
    }
    var ids := ActiveEdges(a, active, p);
    if |ids| + |ProposedPairs(proposed)| > limits.maxEdges {
      return Some(GraphTooLarge);
    }
    refusal := CheckGraph(a, nodes, ids, proposed);
    OwedMeans(a, nodes, ids, proposed, refusal);
  }

  predicate Touches(edge: Edge, node: string) { edge.source == Some(node) || edge.target == Some(node) }

  /** An active node of the partition that no active edge of the partition touches. */
  ghost predicate Untouched(a: Aggregate, active: string, p: string, node: string) {
    node in ActiveNodes(a, active, p) && forall e :: e in ActiveEdges(a, active, p) ==> !Touches(a.edges[e], node)
  }

  /** `require_unreferenced_node`: a scan over all edges of the aggregate. */
  method RequireUnreferenced(a: Aggregate, active: string, p: string, node: string) returns (refusal: Option<Refusal>)
    ensures refusal.None? <==> Untouched(a, active, p, node)
    ensures refusal.Some? ==>
      refusal.value == if node in ActiveNodes(a, active, p) then NodeReferenced else NodeNotFound
  {
    if !(node in a.nodes && a.nodes[node].state == active && a.nodes[node].partition == Some(p)) {
      return Some(NodeNotFound);
    }
    var todo := a.edges.Keys;
    while todo != {}
      invariant todo <= a.edges.Keys
      invariant forall e :: e in ActiveEdges(a, active, p) && e !in todo ==> !Touches(a.edges[e], node)
    {
      var e :| e in todo;
      var edge := a.edges[e];
      if edge.state == active && edge.partition == Some(p) && Touches(edge, node) {
        assert e in ActiveEdges(a, active, p);
        return Some(NodeReferenced);
      }
      todo := todo - {e};
    }
    refusal := None;
  }

  // ---- runs of commands, each atomic from load to append ----

  /** A remove command moves its subject out of the active state; `from` and `to` are its reducer's states. */
  datatype Command =
    | AddNode(node: string, partition: string)
    | Connect(edge: string, partition: string, source: string, target: string, limits: Limits)
    | RemoveNode(node: string, partition: string, from: set<string>, to: string)
    | RemoveEdge(edge: string, from: set<string>, to: string)

  /** The command's obligation on the aggregate it was decided on. */
  ghost predicate Admits(a: Aggregate, active: string, c: Command) {
    match c
    case AddNode(_, _) => true
    case Connect(_, p, s, t, limits) => Admissible(a, active, p, Some((s, t)), limits)
    case RemoveNode(n, p, _, _) => Untouched(a, active, p, n)
    case RemoveEdge(_, _, _) => true
  }

  /** The command's event reduced into the aggregate: creations must be new, moves must start in `from`. */
  function Reduced(a: Aggregate, active: string, c: Command): Option<Aggregate> {
    match c
    case AddNode(n, p) =>
      if n in a.nodes then None else Some(a.(nodes := a.nodes[n := Node(active, Some(p))]))
    case Connect(e, p, s, t, _) =>
      if e in a.edges then None else Some(a.(edges := a.edges[e := Edge(active, Some(p), Some(s), Some(t))]))
    case RemoveNode(n, _, from, to) =>
      if n !in a.nodes || a.nodes[n].state !in from || to == active then None
      else Some(a.(nodes := a.nodes[n := a.nodes[n].(state := to)]))
    case RemoveEdge(e, from, to) =>
      if e !in a.edges || a.edges[e].state !in from || to == active then None
      else Some(a.(edges := a.edges[e := a.edges[e].(state := to)]))
  }

  /** A command whose obligation or reducer refuses leaves the aggregate as it was. */
  ghost function Execute(a: Aggregate, active: string, c: Command): Aggregate {
    if Admits(a, active, c) && Reduced(a, active, c).Some? then Reduced(a, active, c).value else a
  }

  /** What an executed command leaves of a partition's active nodes and of its active edges. */
  ghost predicate Effects(a: Aggregate, b: Aggregate, active: string, c: Command, p: string) {
    var nodes, edges := ActiveNodes(a, active, p), ActiveEdges(a, active, p);
    match c
    case AddNode(n, q) =>
      && ActiveNodes(b, active, p) == (if p == q then nodes + {n} else nodes) && b.edges == a.edges
    case Connect(e, q, s, t, _) =>
      && ActiveEdges(b, active, p) == (if p == q then edges + {e} else edges) && b.nodes == a.nodes
      && e in b.edges && b.edges[e].source == Some(s) && b.edges[e].target == Some(t)
      && forall f :: f in a.edges ==> f in b.edges && b.edges[f] == a.edges[f]
    case RemoveNode(n, _, _, _) =>
      && ActiveNodes(b, active, p) == nodes - {n} && b.edges == a.edges
    case RemoveEdge(e, _, _) =>
      && ActiveEdges(b, active, p) == edges - {e} && b.nodes == a.nodes
      && forall f :: f in edges && f != e ==> f in b.edges && b.edges[f] == a.edges[f]
  }

  /** When a command is executed: its obligation holds, creations are new, moves start where they may. */
  ghost predicate Executable(a: Aggregate, active: string, c: Command) {
    match c
    case AddNode(n, _) => n !in a.nodes
    case Connect(e, p, s, t, limits) => e !in a.edges && Admissible(a, active, p, Some((s, t)), limits)
    case RemoveNode(n, p, from, to) =>
      n in a.nodes && a.nodes[n].state in from && to != active && Untouched(a, active, p, n)
    case RemoveEdge(e, from, to) => e in a.edges && a.edges[e].state in from && to != active
  }

  /** A command changes the active graph exactly as it says, or nothing at all. */
  lemma CommandEffects(a: Aggregate, active: string, c: Command, p: string)
    ensures Executable(a, active, c) ==> Effects(a, Execute(a, active, c), active, c, p)
    ensures !Executable(a, active, c) ==> Execute(a, active, c) == a
  {
    ExecutedIff(a, active, c);
    if Executable(a, active, c) {
      match c
      case AddNode(n, q) => AddNodeEffects(a, active, n, q, p);
      case Connect(e, q, s, t, limits) => ConnectEffects(a, active, c, p);
      case RemoveNode(n, q, _, to) => RemoveNodeEffects(a, active, c, p);
      case RemoveEdge(e, _, to) => RemoveEdgeEffects(a, active, c, p);
    }
  }

  lemma ExecutedIff(a: Aggregate, active: string, c: Command)
    ensures Executable(a, active, c) <==> Admits(a, active, c) && Reduced(a, active, c).Some?
    ensures Execute(a, active, c) == if Executable(a, active, c) then Reduced(a, active, c).value else a
  {
  }

  lemma AddNodeEffects(a: Aggregate, active: string, n: string, q: string, p: string)
    requires n !in a.nodes
    ensures var c := AddNode(n, q); Reduced(a, active, c).Some? && Effects(a, Reduced(a, active, c).value, active, c, p)
  {
  }

  lemma ConnectEffects(a: Aggregate, active: string, c: Command, p: string)
    requires c.Connect? && c.edge !in a.edges
    ensures Reduced(a, active, c).Some? && Effects(a, Reduced(a, active, c).value, active, c, p)
  {
  }

  lemma RemoveNodeEffects(a: Aggregate, active: string, c: Command, p: string)
    requires c.RemoveNode? && Reduced(a, active, c).Some?
    ensures Effects(a, Reduced(a, active, c).value, active, c, p)
  {
  }

  lemma RemoveEdgeEffects(a: Aggregate, active: string, c: Command, p: string)
    requires c.RemoveEdge? && Reduced(a, active, c).Some?
    ensures Effects(a, Reduced(a, active, c).value, active, c, p)
  {
  }

  ghost function RunCommands(active: string, commands: seq<Command>): Aggregate {
    if commands == [] then Aggregate(map[], map[])
    else Execute(RunCommands(active, commands[..|commands| - 1]), active, commands[|commands| - 1])
  }

  ghost function ActiveGraph(a: Aggregate, active: string, p: string): Graph {
    Adjacency(ActiveNodes(a, active, p), Pairs(a, ActiveEdges(a, active, p)))
  }

  /** One partition: a simple directed acyclic graph over its active nodes. */
  ghost predicate IsDag(a: Aggregate, active: string, p: string) {
    Clean(a, ActiveNodes(a, active, p), ActiveEdges(a, active, p)) && !Cyclic(ActiveGraph(a, active, p))
  }

  lemma FewerEdgesAcyclic(g: Graph, h: Graph)
    requires !Cyclic(g) && forall n :: Targets(h, n) <= Targets(g, n)
    ensures !Cyclic(h)
  {
    forall p | IsCycle(h, p) ensures IsCycle(g, p) {
      forall i | 0 <= i < |p| - 1 ensures p[i + 1] in Targets(g, p[i]) {
        assert p[i + 1] in Targets(h, p[i]);
      }
    }
  }

  lemma TargetsOf(nodes: set<string>, pairs: set<(string, string)>, n: string, t: string)
    ensures t in Targets(Adjacency(nodes, pairs), n) <==> n in nodes && (n, t) in pairs
  {
    if n in nodes && (n, t) in pairs {
      var pair := (n, t);
      assert pair in pairs && pair.0 == n && pair.1 == t;
    }
  }

  /** Changing only the node set, without losing an edge's end, changes no target. */
  lemma SamePairsAcyclic(nodes: set<string>, more: set<string>, pairs: set<(string, string)>,
                         fewer: set<(string, string)>)
    requires !Cyclic(Adjacency(nodes, pairs)) && fewer <= pairs
    requires forall pair :: pair in pairs ==> pair.0 in nodes
    ensures !Cyclic(Adjacency(more, fewer))
  {
    var g, h := Adjacency(nodes, pairs), Adjacency(more, fewer);
    forall n ensures Targets(h, n) <= Targets(g, n) {
      forall t | t in Targets(h, n) ensures t in Targets(g, n) {
        TargetsOf(more, fewer, n, t);
        TargetsOf(nodes, pairs, n, t);
      }
    }
    FewerEdgesAcyclic(g, h);
  }

  lemma PairSources(a: Aggregate, nodes: set<string>, ids: set<string>)
    requires Clean(a, nodes, ids)
    ensures forall pair :: pair in Pairs(a, ids) ==> pair.0 in nodes
  {
  }

  lemma AddNodeKeeps(a: Aggregate, active: string, c: Command, p: string)
    requires c.AddNode? && IsDag(a, active, p) && Reduced(a, active, c).Some?
    ensures IsDag(Reduced(a, active, c).value, active, p)
  {
    var b := Reduced(a, active, c).value;
    var ids := ActiveEdges(a, active, p);
    assert ActiveEdges(b, active, p) == ids && Pairs(b, ids) == Pairs(a, ids);
    assert ActiveNodes(a, active, p) <= ActiveNodes(b, active, p);
    PairSources(a, ActiveNodes(a, active, p), ids);
    SamePairsAcyclic(ActiveNodes(a, active, p), ActiveNodes(b, active, p), Pairs(a, ids), Pairs(a, ids));
  }

  /** Removing an active node keeps the graph exactly when no active edge touches it. */
  lemma RemoveNodeIff(a: Aggregate, active: string, c: Command, p: string)
    requires c.RemoveNode? && IsDag(a, active, p) && Reduced(a, active, c).Some?
    ensures IsDag(Reduced(a, active, c).value, active, p) <==> FitsIn(a, active, c, p)
  {
    var b := Reduced(a, active, c).value;
    var nodes, ids := ActiveNodes(a, active, p), ActiveEdges(a, active, p);
    assert ActiveEdges(b, active, p) == ids && Pairs(b, ids) == Pairs(a, ids);
    assert ActiveNodes(b, active, p) == nodes - {c.node};
    PairSources(a, nodes, ids);
    SamePairsAcyclic(nodes, ActiveNodes(b, active, p), Pairs(a, ids), Pairs(a, ids));
    if c.node in nodes && exists e :: e in ids && Touches(a.edges[e], c.node) {
      var e :| e in ids && Touches(a.edges[e], c.node);
      assert !Proper(nodes - {c.node}, b.edges[e]);
    }
  }

  lemma RemoveEdgeKeeps(a: Aggregate, active: string, c: Command, p: string)
    requires c.RemoveEdge? && IsDag(a, active, p) && Reduced(a, active, c).Some?
    ensures IsDag(Reduced(a, active, c).value, active, p)
  {
    var b := Reduced(a, active, c).value;
    var nodes, ids, left := ActiveNodes(a, active, p), ActiveEdges(a, active, p), ActiveEdges(b, active, p);
    assert ActiveNodes(b, active, p) == nodes && left <= ids;
    assert forall e :: e in left ==> b.edges[e] == a.edges[e];
    assert Pairs(b, left) <= Pairs(a, ids);
    PairSources(a, nodes, ids);
    SamePairsAcyclic(nodes, nodes, Pairs(a, ids), Pairs(b, left));
  }

  lemma SameEdgesSamePairs(a: Aggregate, b: Aggregate, nodes: set<string>, ids: set<string>)
    requires forall e :: e in ids ==> e in a.edges && e in b.edges && b.edges[e] == a.edges[e]
    ensures Pairs(b, ids) == Pairs(a, ids) && (Clean(a, nodes, ids) ==> Clean(b, nodes, ids))
  {
  }

  lemma NewEdgeSets(a: Aggregate, active: string, e: string, edge: Edge, p: string)
    requires e !in a.edges && edge.state == active
    ensures var b := a.(edges := a.edges[e := edge]);
      && ActiveNodes(b, active, p) == ActiveNodes(a, active, p)
      && ActiveEdges(b, active, p) == ActiveEdges(a, active, p) + (if edge.partition == Some(p) then {e} else {})
  {
  }

  /** A new edge keeps its partition exactly when it is proper, new and closes no cycle. */
  lemma ConnectedIff(a: Aggregate, active: string, e: string, p: string, s: string, t: string)
    requires e !in a.edges && IsDag(a, active, p)
    ensures IsDag(a.(edges := a.edges[e := Edge(active, Some(p), Some(s), Some(t))]), active, p)
       <==> ClosesNothing(a, active, p, s, t)
  {
    var b := a.(edges := a.edges[e := Edge(active, Some(p), Some(s), Some(t))]);
    var nodes, ids := ActiveNodes(a, active, p), ActiveEdges(a, active, p);
    NewEdgeSets(a, active, e, b.edges[e], p);
    SameEdgesSamePairs(a, b, nodes, ids);
    MorePairs(b, ids, e);
    if Proper(nodes, b.edges[e]) {
      if (s, t) in Pairs(a, ids) { RepeatedPair(b, nodes, ids + {e}, ids, e); } else { FreshPair(b, nodes, ids, e); }
    }
  }

  lemma OtherPartitionIsDag(a: Aggregate, active: string, e: string, edge: Edge, p: string)
    requires e !in a.edges && edge.state == active && edge.partition != Some(p) && IsDag(a, active, p)
    ensures IsDag(a.(edges := a.edges[e := edge]), active, p)
  {
    NewEdgeSets(a, active, e, edge, p);
    assert ActiveEdges(a, active, p) + {} == ActiveEdges(a, active, p);
    SameEdgesSamePairs(a, a.(edges := a.edges[e := edge]), ActiveNodes(a, active, p), ActiveEdges(a, active, p));
  }

  /** The edge has two different active ends, is new, and leaves the graph acyclic. */
  ghost predicate ClosesNothing(a: Aggregate, active: string, p: string, s: string, t: string) {
    var nodes, pairs := ActiveNodes(a, active, p), Pairs(a, ActiveEdges(a, active, p));
    ProposalFits(nodes, pairs, Some((s, t))) && !Cyclic(Adjacency(nodes, pairs + {(s, t)}))
  }

  /** The obligation of a command as far as partition `p` is concerned, sizes aside. */
  ghost predicate FitsIn(a: Aggregate, active: string, c: Command, p: string) {
    match c
    case AddNode(_, _) => true
    case Connect(_, q, s, t, _) => p == q ==> ClosesNothing(a, active, p, s, t)
    case RemoveNode(n, _, _, _) => n in ActiveNodes(a, active, p) ==> Untouched(a, active, p, n)
    case RemoveEdge(_, _, _) => true
  }

  /** Writing a command's event keeps a partition a DAG exactly when the command fits it at that moment. */
  lemma AppendKeepsDagIff(a: Aggregate, active: string, c: Command, p: string)
    requires IsDag(a, active, p) && Reduced(a, active, c).Some?
    ensures IsDag(Reduced(a, active, c).value, active, p) <==> FitsIn(a, active, c, p)
  {
    match c
    case AddNode(_, _) => AddNodeKeeps(a, active, c, p);
    case Connect(e, q, s, t, _) =>
      if p == q { ConnectedIff(a, active, e, p, s, t); }
      else { OtherPartitionIsDag(a, active, e, Edge(active, Some(q), Some(s), Some(t)), p); }
    case RemoveNode(_, _, _, _) => RemoveNodeIff(a, active, c, p);
    case RemoveEdge(_, _, _) => RemoveEdgeKeeps(a, active, c, p);
  }

  /** An admitted command fits every partition. */
  lemma AdmittedFits(a: Aggregate, active: string, c: Command, p: string)
    requires Admits(a, active, c)
    ensures FitsIn(a, active, c, p)
  {
    if c.Connect? { assert ProposedPairs(Some((c.source, c.target))) == {(c.source, c.target)}; }
  }

  lemma CommandKeepsDag(a: Aggregate, active: string, c: Command, p: string)
    requires IsDag(a, active, p)
    ensures IsDag(Execute(a, active, c), active, p)
  {
    if Admits(a, active, c) && Reduced(a, active, c).Some? {
      AdmittedFits(a, active, c, p);
      AppendKeepsDagIff(a, active, c, p);
    }
  }

  /** Every run keeps every partition's active graph simple and acyclic. */
  lemma {:induction false} RunKeepsDag(active: string, commands: seq<Command>, p: string)
    ensures IsDag(RunCommands(active, commands), active, p)
  {
    if commands == [] {
      var a := Aggregate(map[], map[]);
      AllFinished(ActiveGraph(a, active, p), {});
    } else {
      RunKeepsDag(active, commands[..|commands| - 1], p);
      CommandKeepsDag(RunCommands(active, commands[..|commands| - 1]), active, commands[|commands| - 1], p);
    }
  }

  /**
  Publishing checks the obligation under its own limits and then builds the snapshot under the
  default limits; it succeeds on a reachable graph unless that graph is empty or too large.
  */
  lemma PublishOnlyRefusesSize(active: string, commands: seq<Command>, p: string, limits: Limits)
    ensures var a := RunCommands(active, commands);
      (Admissible(a, active, p, None, limits) && Admissible(a, active, p, None, DEFAULT_LIMITS))
      <==> (&& ActiveNodes(a, active, p) != {}
            && Small(a, active, p, None, limits) && Small(a, active, p, None, DEFAULT_LIMITS))
  {
    RunKeepsDag(active, commands, p);
    var a := RunCommands(active, commands);
    var pairs := Pairs(a, ActiveEdges(a, active, p));
    assert pairs + ProposedPairs(None) == pairs;
  }

  // ---- load and append as separate steps ----

  /**
  A command that was admitted on the aggregate at version `loaded` and will be appended under the
  version that its caller expects; nothing compares the two.
  */
  datatype Pending = Pending(command: Command, expected: nat, loaded: nat)
  datatype System = System(aggregate: Aggregate, version: nat, pending: map<nat, Pending>)
  datatype Step = LoadStep(w: nat, command: Command, expected: nat) | AppendStep(w: nat) | CrashStep(w: nat)

  const EMPTY := System(Aggregate(map[], map[]), 0, map[])

  /** The append is guarded by the expected version and rolled back when the reducer refuses. */
  predicate Commits(sys: System, active: string, step: Step) {
    && step.AppendStep? && step.w in sys.pending && sys.pending[step.w].expected == sys.version
    && Reduced(sys.aggregate, active, sys.pending[step.w].command).Some?
  }

  /** Every command writes one event. */
  ghost function Apply(sys: System, active: string, step: Step): System {
    match step
    case LoadStep(w, c, expected) =>
      if Admits(sys.aggregate, active, c) then
        sys.(pending := sys.pending[w := Pending(c, expected, sys.version)])
      else sys
    case AppendStep(w) =>
      if Commits(sys, active, step)
      then System(Reduced(sys.aggregate, active, sys.pending[w].command).value, sys.version + 1, sys.pending - {w})
      else sys.(pending := sys.pending - {w})
    case CrashStep(w) => sys.(pending := sys.pending - {w})
  }

  ghost function Run(active: string, steps: seq<Step>): System {
    if steps == [] then EMPTY else Apply(Run(active, steps[..|steps| - 1]), active, steps[|steps| - 1])
  }

  lemma RunNext(active: string, steps: seq<Step>, n: nat)
    requires n < |steps|
    ensures Run(active, steps[..n + 1]) == Apply(Run(active, steps[..n]), active, steps[n])
  {
    assert steps[..n + 1][..n] == steps[..n];
  }

  /** A command loaded at the current version is still admitted. */
  ghost predicate Remembers(sys: System, active: string) {
    forall w :: w in sys.pending ==>
      && sys.pending[w].loaded <= sys.version
      && (sys.pending[w].loaded == sys.version ==> Admits(sys.aggregate, active, sys.pending[w].command))
  }

  lemma {:induction false} RunRemembers(active: string, steps: seq<Step>)
    ensures Remembers(Run(active, steps), active)
  {
    if steps != [] { RunRemembers(active, steps[..|steps| - 1]); }
  }

  ghost predicate AllDags(a: Aggregate, active: string) { forall p :: IsDag(a, active, p) }

  /** Every partition is a DAG after each of the first `m` steps. */
  ghost predicate DagsThrough(active: string, steps: seq<Step>, m: nat)
    requires m <= |steps|
  {
    forall n :: 0 <= n <= m ==> AllDags(Run(active, steps[..n]).aggregate, active)
  }

  ghost predicate FitsAll(a: Aggregate, active: string, c: Command) { forall p :: FitsIn(a, active, c, p) }

  /** If step `n` commits, its command still meets its obligation on the aggregate it is written to. */
  ghost predicate FitAt(active: string, steps: seq<Step>, n: nat)
    requires n < |steps|
  {
    var sys := Run(active, steps[..n]);
    Commits(sys, active, steps[n]) ==> FitsAll(sys.aggregate, active, sys.pending[steps[n].w].command)
  }

  ghost predicate AppendsFit(active: string, steps: seq<Step>, m: nat)
    requires m <= |steps|
  {
    forall n :: 0 <= n < m ==> FitAt(active, steps, n)
  }

  lemma StepKeepsDagsIff(sys: System, active: string, step: Step)
    requires AllDags(sys.aggregate, active)
    ensures AllDags(Apply(sys, active, step).aggregate, active)
       <==> (Commits(sys, active, step) ==> FitsAll(sys.aggregate, active, sys.pending[step.w].command))
  {
    if Commits(sys, active, step) {
      forall p { AppendKeepsDagIff(sys.aggregate, active, sys.pending[step.w].command, p); }
    }
  }

  lemma EmptyIsDag(active: string)
    ensures AllDags(EMPTY.aggregate, active)
  {
    forall p ensures IsDag(EMPTY.aggregate, active, p) {
      AllFinished(ActiveGraph(EMPTY.aggregate, active, p), {});
    }
  }

  lemma {:induction false} DagsThroughIff(active: string, steps: seq<Step>, m: nat)
    requires m <= |steps|
    ensures DagsThrough(active, steps, m) <==> AppendsFit(active, steps, m)
  {
    EmptyIsDag(active);
    assert steps[..0] == [];
    if m > 0 {
      DagsThroughIff(active, steps, m - 1);
      RunNext(active, steps, m - 1);
      OneStepMore(active, steps, m - 1);
      if DagsThrough(active, steps, m - 1) {
        StepKeepsDagsIff(Run(active, steps[..m - 1]), active, steps[m - 1]);
      }
    }
  }

  lemma OneStepMore(active: string, steps: seq<Step>, m: nat)
    requires m < |steps|
    ensures DagsThrough(active, steps, m + 1) <==>
      DagsThrough(active, steps, m) && AllDags(Run(active, steps[..m + 1]).aggregate, active)
    ensures AppendsFit(active, steps, m + 1) <==> AppendsFit(active, steps, m) && FitAt(active, steps, m)
    ensures DagsThrough(active, steps, m) ==> AllDags(Run(active, steps[..m]).aggregate, active)
  {
    if DagsThrough(active, steps, m) && AllDags(Run(active, steps[..m + 1]).aggregate, active) {
      forall n | 0 <= n <= m + 1 ensures AllDags(Run(active, steps[..n]).aggregate, active) {
        if n <= m { assert DagsThrough(active, steps, m); }
      }
    }
  }

  /**
  With load and append apart, every partition is a DAG throughout a run exactly when every committed
  append fits the aggregate it is written to.
  */
  lemma StaysDagIff(active: string, steps: seq<Step>)
    ensures DagsThrough(active, steps, |steps|) <==> AppendsFit(active, steps, |steps|)
  {
    DagsThroughIff(active, steps, |steps|);
  }

  /** Callers expect the version that their command is decided on. */
  ghost predicate Matched(active: string, steps: seq<Step>) {
    forall n :: 0 <= n < |steps| && steps[n].LoadStep? ==> steps[n].expected == Run(active, steps[..n]).version
  }

  lemma {:induction false} MatchedPendings(active: string, steps: seq<Step>, m: nat, w: nat)
    requires m <= |steps| && Matched(active, steps) && w in Run(active, steps[..m]).pending
    ensures Run(active, steps[..m]).pending[w].expected == Run(active, steps[..m]).pending[w].loaded
  {
    if m > 0 {
      RunNext(active, steps, m - 1);
      if w in Run(active, steps[..m - 1]).pending { MatchedPendings(active, steps, m - 1, w); }
    }
  }

  /** When callers expect the version they loaded, every interleaving keeps every partition a DAG. */
  lemma MatchedRunKeepsDag(active: string, steps: seq<Step>)
    requires Matched(active, steps)
    ensures DagsThrough(active, steps, |steps|)
  {
    forall n | 0 <= n < |steps| ensures FitAt(active, steps, n) {
      var sys := Run(active, steps[..n]);
      if Commits(sys, active, steps[n]) {
        MatchedPendings(active, steps, n, steps[n].w);
        RunRemembers(active, steps[..n]);
        forall p { AdmittedFits(sys.aggregate, active, sys.pending[steps[n].w].command, p); }
      }
    }
    StaysDagIff(active, steps);
  }

  // ---- a run that breaks the invariant ----

  /** Two nodes and no edge. */
  function TwoNodes(active: string, p: string, x: string, y: string): Aggregate {
    Aggregate(map[x := Node(active, Some(p)), y := Node(active, Some(p))], map[])
  }

  lemma OneEdgeAcyclic(nodes: set<string>, x: string, y: string)
    requires x != y && nodes == {x, y}
    ensures !Cyclic(Adjacency(nodes, {(x, y)}))
  {
    var g := Adjacency(nodes, {(x, y)});
    forall t ensures t !in Targets(g, y) { TargetsOf(nodes, {(x, y)}, y, t); }
    forall t | t in Targets(g, x) ensures t == y { TargetsOf(nodes, {(x, y)}, x, t); }
    Finish(g, {}, y);
    Finish(g, {y}, x);
    AllFinished(g, {y} + {x});
  }

  lemma EitherEdgeAdmissible(active: string, p: string, x: string, y: string)
    requires x != y
    ensures Admissible(TwoNodes(active, p, x, y), active, p, Some((x, y)), DEFAULT_LIMITS)
  {
    var a := TwoNodes(active, p, x, y);
    var nodes := ActiveNodes(a, active, p);
    assert nodes == {x, y} && ActiveEdges(a, active, p) == {} && Pairs(a, {}) == {};
    assert |nodes| == 2;
    assert {} + ProposedPairs(Some((x, y))) == {(x, y)};
    OneEdgeAcyclic(nodes, x, y);
  }

  /** Both connects are decided at version 2; the second caller expects the version after the first. */
  function StaleRun(p: string, x: string, y: string, e: string, f: string): seq<Step> {
    [LoadStep(0, AddNode(x, p), 0), AppendStep(0), LoadStep(0, AddNode(y, p), 1), AppendStep(0),
     LoadStep(1, Connect(e, p, x, y, DEFAULT_LIMITS), 2), LoadStep(2, Connect(f, p, y, x, DEFAULT_LIMITS), 3),
     AppendStep(1), AppendStep(2)]
  }

  lemma NodesAdded(active: string, p: string, x: string, y: string, e: string, f: string)
    requires x != y
    ensures Run(active, StaleRun(p, x, y, e, f)[..4]) == System(TwoNodes(active, p, x, y), 2, map[])
  {
    var steps := StaleRun(p, x, y, e, f);
    assert steps[..0] == [];
    RunNext(active, steps, 0);
    RunNext(active, steps, 1);
    assert Run(active, steps[..2]) == System(Aggregate(map[x := Node(active, Some(p))], map[]), 1, map[]);
    RunNext(active, steps, 2);
    RunNext(active, steps, 3);
  }

  lemma AdmittedLoad(sys: System, active: string, w: nat, c: Command, expected: nat)
    requires Admits(sys.aggregate, active, c)
    ensures Apply(sys, active, LoadStep(w, c, expected))
      == System(sys.aggregate, sys.version, sys.pending[w := Pending(c, expected, sys.version)])
  {
  }

  lemma EitherConnectAdmitted(active: string, p: string, x: string, y: string, e: string, f: string)
    requires x != y
    ensures Admits(TwoNodes(active, p, x, y), active, Connect(e, p, x, y, DEFAULT_LIMITS))
    ensures Admits(TwoNodes(active, p, x, y), active, Connect(f, p, y, x, DEFAULT_LIMITS))
  {
    EitherEdgeAdmissible(active, p, x, y);
    EitherEdgeAdmissible(active, p, y, x);
    assert TwoNodes(active, p, x, y) == TwoNodes(active, p, y, x);
  }

  lemma BothLoaded(active: string, p: string, x: string, y: string, e: string, f: string)
    requires x != y
    ensures var c, d := Connect(e, p, x, y, DEFAULT_LIMITS), Connect(f, p, y, x, DEFAULT_LIMITS);
      Run(active, StaleRun(p, x, y, e, f)[..6])
        == System(TwoNodes(active, p, x, y), 2, map[1 := Pending(c, 2, 2), 2 := Pending(d, 3, 2)])
  {
    var steps := StaleRun(p, x, y, e, f);
    NodesAdded(active, p, x, y, e, f);
    EitherConnectAdmitted(active, p, x, y, e, f);
    RunNext(active, steps, 4);
    AdmittedLoad(Run(active, steps[..4]), active, 1, Connect(e, p, x, y, DEFAULT_LIMITS), 2);
    RunNext(active, steps, 5);
    AdmittedLoad(Run(active, steps[..5]), active, 2, Connect(f, p, y, x, DEFAULT_LIMITS), 3);
  }

  lemma CommitStep(sys: System, active: string, w: nat)
    requires Commits(sys, active, AppendStep(w))
    ensures Apply(sys, active, AppendStep(w))
      == System(Reduced(sys.aggregate, active, sys.pending[w].command).value, sys.version + 1, sys.pending - {w})
  {
  }

  /**
  Two connects decided on the same load both commit although together they close a cycle: the guard
  compares the caller's expectation with the stream, never with the loaded version.
  */
  lemma StaleConnectsCloseCycle(active: string, p: string, x: string, y: string, e: string, f: string)
    requires x != y && e != f
    ensures var sys := Run(active, StaleRun(p, x, y, e, f));
      && sys.version == 4 && e in sys.aggregate.edges && f in sys.aggregate.edges
      && !IsDag(sys.aggregate, active, p)
  {
    var steps := StaleRun(p, x, y, e, f);
    BothLoaded(active, p, x, y, e, f);
    RunNext(active, steps, 6);
    CommitStep(Run(active, steps[..6]), active, 1);
    RunNext(active, steps, 7);
    CommitStep(Run(active, steps[..7]), active, 2);
    assert steps[..8] == steps;
    OppositeEdgesCycle(Run(active, steps).aggregate, active, p, e, f);
  }

  lemma OppositeEdgesCycle(a: Aggregate, active: string, p: string, e: string, f: string)
    requires e in ActiveEdges(a, active, p) && f in ActiveEdges(a, active, p) && Bound(a.edges[e]) && Bound(a.edges[f])
    requires a.edges[e].source == a.edges[f].target && a.edges[e].target == a.edges[f].source
    requires a.edges[e].source.value in ActiveNodes(a, active, p)
    requires a.edges[e].target.value in ActiveNodes(a, active, p)
    ensures !IsDag(a, active, p)
  {
    var nodes, ids := ActiveNodes(a, active, p), ActiveEdges(a, active, p);
    var x, y := a.edges[e].source.value, a.edges[e].target.value;
    assert (x, y) in Pairs(a, ids) && (y, x) in Pairs(a, ids);
    TargetsOf(nodes, Pairs(a, ids), x, y);
    TargetsOf(nodes, Pairs(a, ids), y, x);
    assert IsCycle(ActiveGraph(a, active, p), [x, y, x]);
  }
}
