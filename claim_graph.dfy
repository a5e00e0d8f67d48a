/** The claim-graph builder of network_analysis.py (build_claim_graph): every row of a
    claim table becomes five typed nodes and four labelled undirected edges of a networkx
    Graph, and equal field values fall on the same node. */
module ClaimGraph {
  import opened Wrappers
  import opened NxGraph

  const ParticipantPrefix := "PTC_"
  const FaskesPrefix := "FSK_"
  const DpjpPrefix := "DR_"
  const IcdPrefix := "ICD_"

  /** One row of the claim table, restricted to the columns the builder reads. */
  datatype Row = Row(claimId: Cell, participantId: Cell, faskesId: Cell, dpjpId: Cell,
                     kodeIcd10: Cell, fraudPrediction: Cell)
  {
    /** None of the five required columns is null in this row (fraud_prediction is not required). */
    predicate Complete() {
      claimId.Some? && participantId.Some? && faskesId.Some? && dpjpId.Some? && kodeIcd10.Some?
    }

    /** The node ids the builder derives from this row: the raw claim id and four prefixed ids. */
    function ClaimNode(): string requires Complete() { claimId.value }
    function ParticipantNode(): string requires Complete() { ParticipantPrefix + participantId.value }
    function FaskesNode(): string requires Complete() { FaskesPrefix + faskesId.value }
    function DpjpNode(): string requires Complete() { DpjpPrefix + dpjpId.value }
    function IcdNode(): string requires Complete() { IcdPrefix + kodeIcd10.value }
  }

  /** No row of the table has a null in a required column. */
  predicate AllComplete(rows: seq<Row>) {
    forall i | 0 <= i < |rows| :: rows[i].Complete()
  }

  /** The calls the loop body makes for one row, in the source's order: five add_node
      calls (the claim node carries the row's fraud label) and four add_edge calls. */
  function RowCalls(row: Row): seq<Call>
    requires row.Complete()
  {
    [AddNodeCall(row.ClaimNode(), Claim, Some(row.fraudPrediction)),
     AddNodeCall(row.ParticipantNode(), Participant, None),
     AddNodeCall(row.FaskesNode(), Faskes, None),
     AddNodeCall(row.DpjpNode(), Dpjp, None),
     AddNodeCall(row.IcdNode(), Icd, None),
     AddEdgeCall(row.FaskesNode(), row.DpjpNode(), DoctorInCharge),
     AddEdgeCall(row.ClaimNode(), row.ParticipantNode(), FiledBy),
     AddEdgeCall(row.ClaimNode(), row.DpjpNode(), AttendedBy),
     AddEdgeCall(row.ClaimNode(), row.IcdNode(), Diagnosis)]
  }

  /** Every call the loop makes over the rows, in order. */
  function Calls(rows: seq<Row>): seq<Call>
    requires AllComplete(rows)
  {
    if rows == [] then [] else Calls(rows[..|rows| - 1]) + RowCalls(rows[|rows| - 1])
  }

  /** The graph the loop has built from the rows. */
  function Built(rows: seq<Row>): Snapshot
    requires AllComplete(rows)
  {
    Replay(EmptyGraph, Calls(rows))
  }

  /** The five node ids one row contributes. */
  function RowIds(row: Row): set<string>
    requires row.Complete()
  {
    {row.ClaimNode(), row.ParticipantNode(), row.FaskesNode(), row.DpjpNode(), row.IcdNode()}
  }

  /** The four undirected edges one row contributes. */
  function RowEdges(row: Row): set<set<string>>
    requires row.Complete()
  {
    {Pair(row.FaskesNode(), row.DpjpNode()), Pair(row.ClaimNode(), row.ParticipantNode()),
     Pair(row.ClaimNode(), row.DpjpNode()), Pair(row.ClaimNode(), row.IcdNode())}
  }

  /** Reference definition of the node set: the union of every row's five ids. */
  function AllIds(rows: seq<Row>): set<string>
    requires AllComplete(rows)
  {
    if rows == [] then {} else AllIds(rows[..|rows| - 1]) + RowIds(rows[|rows| - 1])
  }

  /** Reference definition of the edge set: the union of every row's four edges. */
  function AllEdges(rows: seq<Row>): set<set<string>>
    requires AllComplete(rows)
  {
    if rows == [] then {} else AllEdges(rows[..|rows| - 1]) + RowEdges(rows[|rows| - 1])
  }

  /** Replaying one row's calls is the loop body's nine calls one after the other. */
  lemma RowCallsReplay(s: Snapshot, row: Row)
    requires row.Complete()
    ensures Replay(s, RowCalls(row)) ==
      s.WithNode(row.ClaimNode(), Claim, Some(row.fraudPrediction))
       .WithNode(row.ParticipantNode(), Participant, None)
       .WithNode(row.FaskesNode(), Faskes, None)
       .WithNode(row.DpjpNode(), Dpjp, None)
       .WithNode(row.IcdNode(), Icd, None)
       .WithEdge(row.FaskesNode(), row.DpjpNode(), DoctorInCharge)
       .WithEdge(row.ClaimNode(), row.ParticipantNode(), FiledBy)
       .WithEdge(row.ClaimNode(), row.DpjpNode(), AttendedBy)
       .WithEdge(row.ClaimNode(), row.IcdNode(), Diagnosis)
  {
    ReplayNine(s, RowCalls(row));
  }

  /** The graph after one more row is the graph before it with that row's calls replayed. */
  lemma BuiltStep(rows: seq<Row>)
    requires AllComplete(rows) && rows != []
    ensures Built(rows) == Replay(Built(rows[..|rows| - 1]), RowCalls(rows[|rows| - 1]))
  {
    var n := |rows| - 1;
    ReplayAppend(EmptyGraph, Calls(rows[..n]), RowCalls(rows[n]));
  }

  /** One row's calls touch exactly its five ids and name exactly its four edges. */
  lemma RowCallsCover(row: Row)
    requires row.Complete()
    ensures Touched(RowCalls(row)) == RowIds(row)
    ensures EdgesOf(RowCalls(row)) == RowEdges(row)
  {
    var cs := RowCalls(row);
    forall id | id in RowIds(row)
      ensures id in Touched(cs)
    {
      if id == row.ClaimNode() { assert id in Touches(cs[0]); }
      else if id == row.ParticipantNode() { assert id in Touches(cs[1]); }
      else if id == row.FaskesNode() { assert id in Touches(cs[2]); }
      else if id == row.DpjpNode() { assert id in Touches(cs[3]); }
      else { assert id in Touches(cs[4]); }
    }
  }

  /** Touched and EdgesOf distribute over concatenation. */
  lemma CoverAppend(a: seq<Call>, b: seq<Call>)
    ensures Touched(a + b) == Touched(a) + Touched(b)
    ensures EdgesOf(a + b) == EdgesOf(a) + EdgesOf(b)
  {
  }

  /** The built graph holds exactly the rows' ids as nodes and the rows' edges as edges,
      and every edge joins nodes of the graph. */
  lemma {:induction false} BuiltKeys(rows: seq<Row>)
    requires AllComplete(rows)
    ensures Built(rows).nodes.Keys == AllIds(rows)
    ensures Built(rows).edges.Keys == AllEdges(rows)
    ensures Built(rows).WellFormed()
  {
    ReplayWellFormed(EmptyGraph, Calls(rows));
    ReplayNodeKeys(EmptyGraph, Calls(rows));
    forall e
      ensures e in Built(rows).edges <==> e in EdgesOf(Calls(rows))
    {
      ReplayEdges(EmptyGraph, Calls(rows), e);
    }
    CallsCover(rows);
  }

  /** The calls over the rows touch exactly the rows' ids and name exactly their edges. */
  lemma {:induction false} CallsCover(rows: seq<Row>)
    requires AllComplete(rows)
    ensures Touched(Calls(rows)) == AllIds(rows)
    ensures EdgesOf(Calls(rows)) == AllEdges(rows)
  {
    if rows != [] {
      var n := |rows| - 1;
      CallsCover(rows[..n]);
      CoverAppend(Calls(rows[..n]), RowCalls(rows[n]));
      RowCallsCover(rows[n]);
    }
  }

  /** With no nulls, the graph has no nodes exactly when the table has no rows. */
  lemma NoNodesIffNoRows(rows: seq<Row>)
    requires AllComplete(rows)
    ensures Built(rows).nodes == map[] <==> rows == []
  {
    BuiltKeys(rows);
    if rows != [] {
      var last := rows[|rows| - 1];
      assert last.ClaimNode() in RowIds(last);
      assert last.ClaimNode() in Built(rows).nodes;
    }
  }

  /** Errors raised by build_claim_graph. */
  datatype BuildError =
    | MissingValue  // a required column holds a null
    | NoNodes       // the finished graph has no node

  /** The body of the builder's loop: the row's five add_node calls, then its four
      add_edge calls. */
  method AddRow(g: Graph, row: Row)
    requires row.Complete() && g.Valid()
    modifies g
    ensures g.Valid() && g.View() == Replay(old(g.View()), RowCalls(row))
  {
    var claim, participant, faskes, dpjp, icd :=
      row.ClaimNode(), row.ParticipantNode(), row.FaskesNode(), row.DpjpNode(), row.IcdNode();
    g.AddNode(claim, Claim, Some(row.fraudPrediction));
    g.AddNode(participant, Participant, None);
    g.AddNode(faskes, Faskes, None);
    g.AddNode(dpjp, Dpjp, None);
    g.AddNode(icd, Icd, None);
    g.AddEdge(faskes, dpjp, DoctorInCharge);
    g.AddEdge(claim, participant, FiledBy);
    g.AddEdge(claim, dpjp, AttendedBy);
    g.AddEdge(claim, icd, Diagnosis);
    RowCallsReplay(old(g.View()), row);
  }

  /** build_claim_graph: validates the required columns, then adds each row's nodes and
      edges to a new graph, and refuses a graph without nodes. */
  method BuildClaimGraph(rows: seq<Row>) returns (r: Result<Graph, BuildError>)
    ensures r == Failure(MissingValue) <==> !AllComplete(rows)
    ensures r == Failure(NoNodes) <==> AllComplete(rows) && rows == []
    ensures r.Success? ==> AllComplete(rows) && r.value.Valid() && r.value.View() == Built(rows)
    ensures r.Success? ==> fresh(r.value)
  {
    var g := new Graph();
    if !AllComplete(rows) {
      return Failure(MissingValue);
    }
    for i := 0 to |rows|
      invariant g.Valid() && g.View() == Built(rows[..i])
    {
      AddRow(g, rows[i]);
      assert rows[..i + 1][..i] == rows[..i];
      BuiltStep(rows[..i + 1]);
    }
    assert rows[..|rows|] == rows;
    NoNodesIffNoRows(rows);
    if g.NumberOfNodes() == 0 {
      return Failure(NoNodes);
    }
    return Success(g);
  }
}
