/** The part of networkx's undirected Graph that build_claim_graph and calculate_graph_risk
    use: nodes with attribute dictionaries, edges with a `relation` label, add_node,
    add_edge, membership and number_of_nodes. */
module NxGraph {
  import opened Wrappers

  /** One cell of the claim table; `None` stands for a pandas null. Values are taken in
      their text rendering, which is what the builder's f-strings see. */
  type Cell = Option<string>

  /** The `type` attribute of a node. */
  datatype NodeKind = Claim | Participant | Faskes | Dpjp | Icd

  /** The `relation` attribute of an edge. */
  datatype Relation = DoctorInCharge | FiledBy | AttendedBy | Diagnosis

  /** The attribute dictionary of a node, restricted to the two keys the builder writes;
      `None` means the key is absent from the dictionary. */
  datatype Attrs = Attrs(kind: Option<NodeKind>, fraud: Option<Cell>)

  const NoAttrs := Attrs(None, None)

  /** The attribute dictionary of `n`; a node not in the graph has an empty one. */
  function AttrsOf(nodes: map<string, Attrs>, n: string): Attrs {
    if n in nodes then nodes[n] else NoAttrs
  }

  /** `a` if it holds a value, otherwise `b`: how a dictionary update treats one key. */
  function OrElse<T>(a: Option<T>, b: Option<T>): Option<T> {
    if a.Some? then a else b
  }

  /** An undirected edge is the set of its endpoints (a self-loop has one). */
  function Pair(u: string, v: string): set<string> {
    {u, v}
  }

  /** Two unordered pairs are equal only when their endpoints match in some order. */
  lemma PairEq(u: string, v: string, x: string, y: string)
    requires Pair(u, v) == Pair(x, y)
    ensures (u == x && v == y) || (u == y && v == x)
  {
    assert u in Pair(x, y) && v in Pair(x, y);
    assert x in Pair(u, v) && y in Pair(u, v);
  }

  /** One call on the graph, with the arguments the builder passes. */
  datatype Call =
    | AddNodeCall(n: string, kind: NodeKind, fraud: Option<Cell>)
    | AddEdgeCall(u: string, v: string, rel: Relation)

  /** The node ids a call creates when they are absent. */
  function Touches(c: Call): set<string> {
    match c
    case AddNodeCall(n, _, _) => {n}
    case AddEdgeCall(u, v, _) => {u, v}
  }

  /** The value of a Graph: node attribute dictionaries by node id, edge relation labels
      by unordered endpoint pair. */
  datatype Snapshot = Snapshot(nodes: map<string, Attrs>, edges: map<set<string>, Relation>)
  {
    /** What a Graph maintains: every edge joins one or two nodes of the graph. */
    ghost predicate WellFormed() {
      forall e | e in edges :: 0 < |e| <= 2 && e <= nodes.Keys
    }

    /** `add_node(n, type=kind[, fraud=...])`: the node is created if absent and its
        attribute dictionary is updated with the keys given; a key not given keeps its value. */
    function WithNode(n: string, kind: NodeKind, fraud: Option<Cell>): Snapshot {
      Snapshot(nodes[n := Attrs(Some(kind), OrElse(fraud, AttrsOf(nodes, n).fraud))], edges)
    }

    /** `add_edge(u, v, relation=rel)`: missing endpoints are created with empty attribute
        dictionaries, and the single edge between u and v gets the label `rel`. */
    function WithEdge(u: string, v: string, rel: Relation): Snapshot {
      var withU := if u in nodes then nodes else nodes[u := NoAttrs];
      var withUV := if v in withU then withU else withU[v := NoAttrs];
      Snapshot(withUV, edges[Pair(u, v) := rel])
    }

    function Apply(c: Call): Snapshot {
      match c
      case AddNodeCall(n, kind, fraud) => WithNode(n, kind, fraud)
      case AddEdgeCall(u, v, rel) => WithEdge(u, v, rel)
    }
  }

  /** `nx.Graph()`. */
  const EmptyGraph := Snapshot(map[], map[])

  /** The graph after making the calls in order. */
  function Replay(s: Snapshot, calls: seq<Call>): Snapshot
    decreases |calls|
  {
    if calls == [] then s else Replay(s, calls[..|calls| - 1]).Apply(calls[|calls| - 1])
  }

  /** Every id some call creates when absent. */
  function Touched(calls: seq<Call>): set<string> {
    set c, n | c in calls && n in Touches(c) :: n
  }

  /** Every edge some add_edge call names. */
  function EdgesOf(calls: seq<Call>): set<set<string>> {
    set c | c in calls && c.AddEdgeCall? :: Pair(c.u, c.v)
  }

  /** The `type` given to `id` by the last add_node call on it, if any. */
  function LastKind(calls: seq<Call>, id: string): Option<NodeKind>
    decreases |calls|
  {
    if calls == [] then None
    else
      var c := calls[|calls| - 1];
      if c.AddNodeCall? && c.n == id then Some(c.kind) else LastKind(calls[..|calls| - 1], id)
  }

  /** The `fraud` given to `id` by the last add_node call on it that passes one, if any. */
  function LastFraud(calls: seq<Call>, id: string): Option<Cell>
    decreases |calls|
  {
    if calls == [] then None
    else
      var c := calls[|calls| - 1];
      if c.AddNodeCall? && c.n == id && c.fraud.Some? then c.fraud else LastFraud(calls[..|calls| - 1], id)
  }

  /** The `relation` given to edge `e` by the last add_edge call on it, if any. */
  function LastRelation(calls: seq<Call>, e: set<string>): Option<Relation>
    decreases |calls|
  {
    if calls == [] then None
    else
      var c := calls[|calls| - 1];
      if c.AddEdgeCall? && Pair(c.u, c.v) == e then Some(c.rel) else LastRelation(calls[..|calls| - 1], e)
  }

  /** Replaying `a` and then `b` is replaying `a + b`. */
  lemma {:induction false} ReplayAppend(s: Snapshot, a: seq<Call>, b: seq<Call>)
    ensures Replay(s, a + b) == Replay(Replay(s, a), b)
  {
    if b == [] {
      assert a + b == a;
    } else {
      var n := |b| - 1;
      assert (a + b)[..|a + b| - 1] == a + b[..n];
      ReplayAppend(s, a, b[..n]);
    }
  }

  /** One prefix step of a replay. */
  lemma ReplayStep(s: Snapshot, calls: seq<Call>, k: nat)
    requires k < |calls|
    ensures Replay(s, calls[..k + 1]) == Replay(s, calls[..k]).Apply(calls[k])
  {
    assert calls[..k + 1][..k] == calls[..k];
  }

  /** Replaying nine calls applies them one after the other. */
  lemma ReplayNine(s: Snapshot, cs: seq<Call>)
    requires |cs| == 9
    ensures Replay(s, cs) == s.Apply(cs[0]).Apply(cs[1]).Apply(cs[2]).Apply(cs[3]).Apply(cs[4])
                              .Apply(cs[5]).Apply(cs[6]).Apply(cs[7]).Apply(cs[8])
  {
    var r0 := Replay(s, cs[..0]);
    assert r0 == s by { assert cs[..0] == []; }
    var r1 := Replay(s, cs[..1]);
    assert r1 == r0.Apply(cs[0]) by { ReplayStep(s, cs, 0); }
    var r2 := Replay(s, cs[..2]);
    assert r2 == r1.Apply(cs[1]) by { ReplayStep(s, cs, 1); }
    var r3 := Replay(s, cs[..3]);
    assert r3 == r2.Apply(cs[2]) by { ReplayStep(s, cs, 2); }
    var r4 := Replay(s, cs[..4]);
    assert r4 == r3.Apply(cs[3]) by { ReplayStep(s, cs, 3); }
    var r5 := Replay(s, cs[..5]);
    assert r5 == r4.Apply(cs[4]) by { ReplayStep(s, cs, 4); }
    var r6 := Replay(s, cs[..6]);
    assert r6 == r5.Apply(cs[5]) by { ReplayStep(s, cs, 5); }
    var r7 := Replay(s, cs[..7]);
    assert r7 == r6.Apply(cs[6]) by { ReplayStep(s, cs, 6); }
    var r8 := Replay(s, cs[..8]);
    assert r8 == r7.Apply(cs[7]) by { ReplayStep(s, cs, 7); }
    var r9 := Replay(s, cs[..9]);
    assert r9 == r8.Apply(cs[8]) by { ReplayStep(s, cs, 8); }
    assert cs[..9] == cs;
  }

  /** The `fraud` after `a + b` is the last one `b` passes, or else the last one `a` passes. */
  lemma {:induction false} LastFraudAppend(a: seq<Call>, b: seq<Call>, id: string)
    ensures LastFraud(a + b, id) == OrElse(LastFraud(b, id), LastFraud(a, id))
  {
    if b == [] {
      assert a + b == a;
    } else {
      var n := |b| - 1;
      assert (a + b)[..|a + b| - 1] == a + b[..n];
      LastFraudAppend(a, b[..n], id);
    }
  }

  /** Calls that pass no `fraud` for `id` leave no `fraud` on it. */
  lemma {:induction false} LastFraudUnset(calls: seq<Call>, id: string)
    requires forall c | c in calls :: !(c.AddNodeCall? && c.n == id && c.fraud.Some?)
    ensures LastFraud(calls, id) == None
  {
    if calls != [] {
      var n := |calls| - 1;
      assert calls == calls[..n] + [calls[n]];
      LastFraudUnset(calls[..n], id);
    }
  }

  /** A node that some add_node call names is touched by the calls. */
  lemma {:induction false} NamedIsTouched(calls: seq<Call>, id: string)
    ensures LastKind(calls, id).Some? || LastFraud(calls, id).Some? ==> id in Touched(calls)
  {
    if calls != [] {
      var n := |calls| - 1;
      var pre := calls[..n];
      assert calls == pre + [calls[n]];
      assert Touched(calls) == Touched(pre) + Touches(calls[n]);
      NamedIsTouched(pre, id);
    }
  }

  /** Replaying calls creates exactly the ids they touch. */
  lemma {:induction false} ReplayNodeKeys(s: Snapshot, calls: seq<Call>)
    ensures Replay(s, calls).nodes.Keys == s.nodes.Keys + Touched(calls)
  {
    if calls != [] {
      var n := |calls| - 1;
      var pre := calls[..n];
      assert calls == pre + [calls[n]];
      assert Touched(calls) == Touched(pre) + Touches(calls[n]);
      ReplayNodeKeys(s, pre);
    }
  }

  /** Replaying calls leaves on each node the `type` of the last add_node call on it and
      the `fraud` of the last one that passes a label, keeping the earlier values where no
      call gives a new one. */
  lemma {:induction false} ReplayNodeAttrs(s: Snapshot, calls: seq<Call>, id: string)
    requires id in Replay(s, calls).nodes
    ensures Replay(s, calls).nodes[id] ==
      Attrs(OrElse(LastKind(calls, id), AttrsOf(s.nodes, id).kind),
            OrElse(LastFraud(calls, id), AttrsOf(s.nodes, id).fraud))
  {
    var n := |calls| - 1;
    if calls != [] {
      var pre := calls[..n];
      var before := Replay(s, pre);
      match calls[n]
      case AddNodeCall(m, kind, fraud) =>
        if m != id {
          ReplayNodeAttrs(s, pre, id);
        } else if id in before.nodes {
          ReplayNodeAttrs(s, pre, id);
        } else {
          NoNameOutside(s, pre, id);
        }
      case AddEdgeCall(u, v, rel) =>
        if id in before.nodes {
          ReplayNodeAttrs(s, pre, id);
        } else {
          NoNameOutside(s, pre, id);
        }
    }
  }

  /** An id absent after a replay was absent before it and named by no call. */
  lemma NoNameOutside(s: Snapshot, calls: seq<Call>, id: string)
    requires id !in Replay(s, calls).nodes
    ensures id !in s.nodes && LastKind(calls, id) == None && LastFraud(calls, id) == None
  {
    ReplayNodeKeys(s, calls);
    NamedIsTouched(calls, id);
  }

  /** Replaying calls creates exactly the edges they name, and leaves on each the label of
      the last add_edge call on it, keeping the earlier label where no call names it. */
  lemma {:induction false} ReplayEdges(s: Snapshot, calls: seq<Call>, e: set<string>)
    ensures e in EdgesOf(calls) <==> LastRelation(calls, e).Some?
    ensures e in Replay(s, calls).edges <==> e in s.edges || e in EdgesOf(calls)
    ensures LastRelation(calls, e).Some? ==> Replay(s, calls).edges[e] == LastRelation(calls, e).value
    ensures LastRelation(calls, e).None? && e in s.edges ==> Replay(s, calls).edges[e] == s.edges[e]
  {
    if calls != [] {
      var n := |calls| - 1;
      var pre := calls[..n];
      assert calls == pre + [calls[n]];
      assert EdgesOf(calls) == EdgesOf(pre) + EdgesOf([calls[n]]);
      ReplayEdges(s, pre, e);
    }
  }

  /** Replaying calls keeps every edge between nodes of the graph. */
  lemma {:induction false} ReplayWellFormed(s: Snapshot, calls: seq<Call>)
    requires s.WellFormed()
    ensures Replay(s, calls).WellFormed()
  {
    if calls != [] {
      var n := |calls| - 1;
      ReplayWellFormed(s, calls[..n]);
      var before := Replay(s, calls[..n]);
      var after := before.Apply(calls[n]);
      forall e | e in after.edges
        ensures 0 < |e| <= 2 && e <= after.nodes.Keys
      {
        if calls[n].AddEdgeCall? && e == Pair(calls[n].u, calls[n].v) {
          assert e == {calls[n].u} + {calls[n].v};
        }
      }
    }
  }

  /** A networkx Graph, updated in place by add_node and add_edge. */
  class Graph {
    var nodes: map<string, Attrs>
    var edges: map<set<string>, Relation>

    function View(): Snapshot
      reads this
    {
      Snapshot(nodes, edges)
    }

    ghost predicate Valid()
      reads this
    {
      View().WellFormed()
    }

    /** `nx.Graph()`: no nodes, no edges. */
    constructor ()
      ensures Valid() && View() == EmptyGraph
    {
      nodes := map[];
      edges := map[];
    }

    method AddNode(n: string, kind: NodeKind, fraud: Option<Cell>)
      requires Valid()
      modifies this
      ensures Valid() && View() == old(View()).WithNode(n, kind, fraud)
    {
      if n !in nodes {
        nodes := nodes[n := NoAttrs];
      }
      var attrs := nodes[n].(kind := Some(kind));
      if fraud.Some? {
        attrs := attrs.(fraud := fraud);
      }
      nodes := nodes[n := attrs];
    }

    method AddEdge(u: string, v: string, rel: Relation)
      requires Valid()
      modifies this
      ensures Valid() && View() == old(View()).WithEdge(u, v, rel)
    {
      if u !in nodes {
        nodes := nodes[u := NoAttrs];
      }
      if v !in nodes {
        nodes := nodes[v := NoAttrs];
      }
      edges := edges[Pair(u, v) := rel];
      assert Pair(u, v) == {u} + {v};
    }

    /** `number_of_nodes()`. */
    function NumberOfNodes(): (k: nat)
      reads this
      ensures k == 0 <==> nodes == map[]
    {
      |nodes|
    }
  }
}
