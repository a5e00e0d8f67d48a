/** What build_claim_graph promises about the graph it returns: which nodes and edges
    exist, which attributes they carry, that the graph aggregates repeated values, and
    that it follows the claim schema when claim ids do not imitate prefixed ids. */
module ClaimGraphFacts {
  import opened Wrappers
  import opened NxGraph
  import opened ClaimGraph

  // ---------------------------------------------------------------- node and edge sets

  /** An id is one of the rows' ids exactly when some row contributes it. */
  lemma {:induction false} AllIdsExist(rows: seq<Row>, id: string)
    requires AllComplete(rows)
    ensures id in AllIds(rows) <==> exists i | 0 <= i < |rows| :: id in RowIds(rows[i])
  {
    if rows != [] {
      var n := |rows| - 1;
      var pre := rows[..n];
      AllIdsExist(pre, id);
      if id in AllIds(rows) {
        if id !in RowIds(rows[n]) {
          var i :| 0 <= i < n && id in RowIds(pre[i]);
          assert pre[i] == rows[i];
        }
      } else {
        forall i | 0 <= i < |rows|
          ensures id !in RowIds(rows[i])
        {
          if i < n {
            assert pre[i] == rows[i];
          }
        }
      }
    }
  }

  /** An edge is one of the rows' edges exactly when some row contributes it. */
  lemma {:induction false} AllEdgesExist(rows: seq<Row>, e: set<string>)
    requires AllComplete(rows)
    ensures e in AllEdges(rows) <==> exists i | 0 <= i < |rows| :: e in RowEdges(rows[i])
  {
    if rows != [] {
      var n := |rows| - 1;
      var pre := rows[..n];
      AllEdgesExist(pre, e);
      if e in AllEdges(rows) {
        if e !in RowEdges(rows[n]) {
          var i :| 0 <= i < n && e in RowEdges(pre[i]);
          assert pre[i] == rows[i];
        }
      } else {
        forall i | 0 <= i < |rows|
          ensures e !in RowEdges(rows[i])
        {
          if i < n {
            assert pre[i] == rows[i];
          }
        }
      }
    }
  }

  /** A node of the built graph is exactly an id some row derives: its claim id, or
      PTC_, FSK_, DR_ or ICD_ followed by its participant, facility, physician or
      diagnosis value. */
  lemma NodeIffSomeRow(rows: seq<Row>, id: string)
    requires AllComplete(rows)
    ensures id in Built(rows).nodes <==> exists i | 0 <= i < |rows| :: id in RowIds(rows[i])
  {
    BuiltKeys(rows);
    AllIdsExist(rows, id);
  }

  /** An edge of the built graph is exactly one of some row's four edges
      (facility-physician, claim-participant, claim-physician, claim-diagnosis). */
  lemma EdgeIffSomeRow(rows: seq<Row>, e: set<string>)
    requires AllComplete(rows)
    ensures e in Built(rows).edges <==> exists i | 0 <= i < |rows| :: e in RowEdges(rows[i])
  {
    BuiltKeys(rows);
    AllEdgesExist(rows, e);
  }

  /** Every row that names a facility puts that facility's FSK_ node in the graph. */
  lemma FacilityIsNode(rows: seq<Row>, k: nat)
    requires AllComplete(rows) && k < |rows|
    ensures FaskesPrefix + rows[k].faskesId.value in Built(rows).nodes
  {
    NodeIffSomeRow(rows, rows[k].FaskesNode());
  }

  /** Every row's ids and edges are among the rows' ids and edges. */
  lemma {:induction false} RowWithinAll(rows: seq<Row>, k: nat)
    requires AllComplete(rows) && k < |rows|
    ensures RowIds(rows[k]) <= AllIds(rows)
    ensures RowEdges(rows[k]) <= AllEdges(rows)
  {
    var n := |rows| - 1;
    if k < n {
      RowWithinAll(rows[..n], k);
    }
  }

  /** Appending a copy of a row already in the table adds no node and no edge: the graph
      aggregates equal values instead of duplicating them. */
  lemma DuplicateRowAddsNothing(rows: seq<Row>, k: nat)
    requires AllComplete(rows) && k < |rows|
    ensures AllComplete(rows + [rows[k]])
    ensures Built(rows + [rows[k]]).nodes.Keys == Built(rows).nodes.Keys
    ensures Built(rows + [rows[k]]).edges.Keys == Built(rows).edges.Keys
  {
    var more := rows + [rows[k]];
    assert more[..|rows|] == rows;
    RowWithinAll(rows, k);
    assert AllIds(more) == AllIds(rows) + RowIds(rows[k]);
    assert AllEdges(more) == AllEdges(rows) + RowEdges(rows[k]);
    BuiltKeys(rows);
    BuiltKeys(more);
  }

  /** A table of one row builds exactly that row's five ids and four edges. */
  lemma SingleRow(rows: seq<Row>)
    requires |rows| == 1 && AllComplete(rows)
    ensures Built(rows).nodes.Keys == RowIds(rows[0])
    ensures Built(rows).edges.Keys == RowEdges(rows[0])
  {
    BuiltKeys(rows);
    assert rows[..0] == [];
  }

  /** The example row used below. */
  const ExampleRow := Row(Some("C1"), Some("P1"), Some("F1"), Some("D1"), Some("A00"), Some("0"))

  /** The example row's five ids are pairwise different, and so are its four edges. */
  lemma ExampleRowIds()
    ensures ExampleRow.Complete()
    ensures |RowIds(ExampleRow)| == 5 && |RowEdges(ExampleRow)| == 4
  {
    var row := ExampleRow;
    assert row.ParticipantNode() == "PTC_P1";
    assert row.FaskesNode() == "FSK_F1";
    assert row.DpjpNode() == "DR_D1";
    assert row.IcdNode() == "ICD_A00";
    var ids := {"C1", "PTC_P1", "FSK_F1", "DR_D1", "ICD_A00"};
    assert RowIds(row) == ids;
    assert |ids| == 5;
    var edges := {{"FSK_F1", "DR_D1"}, {"C1", "PTC_P1"}, {"C1", "DR_D1"}, {"C1", "ICD_A00"}};
    assert RowEdges(row) == edges;
    assert |edges| == 4;
  }

  /** When a row's five ids are pairwise different, so are its four edges. */
  lemma DistinctRowEdges(row: Row)
    requires row.Complete() && |RowIds(row)| == 5
    ensures |RowEdges(row)| == 4
  {
    var c, p, f, d, i := row.ClaimNode(), row.ParticipantNode(), row.FaskesNode(), row.DpjpNode(), row.IcdNode();
    assert c != p && c != f && c != d && c != i && p != f && p != d && p != i && f != d && f != i && d != i;
    var e1, e2, e3, e4 := Pair(f, d), Pair(c, p), Pair(c, d), Pair(c, i);
    assert e1 != e2 && e1 != e3 && e1 != e4 by { assert c !in e1; }
    assert e2 != e3 && e2 != e4 by { assert p in e2; }
    assert e3 != e4 by { assert d in e3; }
  }

  /** A row whose five ids are pairwise different gives five nodes and four edges. */
  lemma DistinctSingleRow(row: Row)
    requires row.Complete() && |RowIds(row)| == 5
    ensures AllComplete([row])
    ensures |Built([row]).nodes| == 5 && |Built([row]).edges| == 4
  {
    SingleRow([row]);
    DistinctRowEdges(row);
    assert |Built([row]).nodes| == |Built([row]).nodes.Keys|;
    assert |Built([row]).edges| == |Built([row]).edges.Keys|;
  }

  /** The example row C1/P1/F1/D1/A00 gives five nodes and four edges. */
  lemma SingleRowExample()
    ensures AllComplete([ExampleRow])
    ensures |Built([ExampleRow]).nodes| == 5 && |Built([ExampleRow]).edges| == 4
  {
    ExampleRowIds();
    DistinctSingleRow(ExampleRow);
  }

  // ---------------------------------------------------------------- attributes

  /** Every node carries the `type` of the last add_node call on it and the `fraud` of
      the last add_node call on it that passes one. */
  lemma BuiltNodeAttrs(rows: seq<Row>, id: string)
    requires AllComplete(rows) && id in Built(rows).nodes
    ensures Built(rows).nodes[id] == Attrs(LastKind(Calls(rows), id), LastFraud(Calls(rows), id))
  {
    ReplayNodeAttrs(EmptyGraph, Calls(rows), id);
  }

  /** A node named by some add_node call ends up with a `type`. */
  lemma {:induction false} NamedHasKind(calls: seq<Call>, c: Call, id: string)
    requires c in calls && c.AddNodeCall? && c.n == id
    ensures LastKind(calls, id).Some?
  {
    var n := |calls| - 1;
    if !(calls[n].AddNodeCall? && calls[n].n == id) {
      assert calls == calls[..n] + [calls[n]];
      NamedHasKind(calls[..n], c, id);
    }
  }

  /** Every call a row makes is among the calls over the whole table. */
  lemma {:induction false} CallsWithin(rows: seq<Row>, k: nat)
    requires AllComplete(rows) && k < |rows|
    ensures forall c | c in RowCalls(rows[k]) :: c in Calls(rows)
  {
    var n := |rows| - 1;
    if k < n {
      CallsWithin(rows[..n], k);
    }
  }

  /** Each id a row derives is named by one of that row's add_node calls, so it ends up
      with a `type`. */
  lemma RowIdHasKind(rows: seq<Row>, k: nat, id: string)
    requires AllComplete(rows) && k < |rows| && id in RowIds(rows[k])
    ensures LastKind(Calls(rows), id).Some?
  {
    var row := rows[k];
    var cs := RowCalls(row);
    CallsWithin(rows, k);
    var c :=
      if id == row.ClaimNode() then cs[0]
      else if id == row.ParticipantNode() then cs[1]
      else if id == row.FaskesNode() then cs[2]
      else if id == row.DpjpNode() then cs[3]
      else cs[4];
    NamedHasKind(Calls(rows), c, id);
  }

  /** Every node of the built graph has a `type`: add_edge only reaches ids that some
      add_node call also names. */
  lemma EveryNodeHasKind(rows: seq<Row>, id: string)
    requires AllComplete(rows) && id in Built(rows).nodes
    ensures Built(rows).nodes[id].kind.Some?
  {
    NodeIffSomeRow(rows, id);
    var k :| 0 <= k < |rows| && id in RowIds(rows[k]);
    RowIdHasKind(rows, k, id);
    BuiltNodeAttrs(rows, id);
  }

  /** The fraud label of the last row whose claim id is `id`, if any. */
  function ClaimFraud(rows: seq<Row>, id: string): Option<Cell>
    requires AllComplete(rows)
  {
    if rows == [] then None
    else if rows[|rows| - 1].ClaimNode() == id then Some(rows[|rows| - 1].fraudPrediction)
    else ClaimFraud(rows[..|rows| - 1], id)
  }

  /** Only the claim's add_node call of a row passes a `fraud` label. */
  lemma RowFraud(row: Row, id: string)
    requires row.Complete()
    ensures LastFraud(RowCalls(row), id) == if id == row.ClaimNode() then Some(row.fraudPrediction) else None
  {
    var cs := RowCalls(row);
    assert cs == [cs[0]] + cs[1..];
    LastFraudAppend([cs[0]], cs[1..], id);
    LastFraudUnset(cs[1..], id);
    assert [cs[0]][..0] == [];
  }

  /** The `fraud` label the calls leave on `id` is that of the last row whose claim id is
      `id`, and there is none when no row has `id` as its claim id. */
  lemma {:induction false} BuiltFraud(rows: seq<Row>, id: string)
    requires AllComplete(rows)
    ensures LastFraud(Calls(rows), id) == ClaimFraud(rows, id)
  {
    if rows != [] {
      var n := |rows| - 1;
      BuiltFraud(rows[..n], id);
      LastFraudAppend(Calls(rows[..n]), RowCalls(rows[n]), id);
      RowFraud(rows[n], id);
    }
  }

  /** The claim node of every row carries a `fraud` label: that of the last row with the
      same claim id. */
  lemma ClaimNodeCarriesLabel(rows: seq<Row>, k: nat)
    requires AllComplete(rows) && k < |rows|
    ensures rows[k].claimId.value in Built(rows).nodes
    ensures Built(rows).nodes[rows[k].claimId.value].fraud == ClaimFraud(rows, rows[k].claimId.value)
    ensures ClaimFraud(rows, rows[k].claimId.value).Some?
  {
    var id := rows[k].ClaimNode();
    NodeIffSomeRow(rows, id);
    BuiltNodeAttrs(rows, id);
    BuiltFraud(rows, id);
    ClaimFraudFound(rows, k);
  }

  /** A row with claim id `id` makes ClaimFraud find a label for `id`. */
  lemma {:induction false} ClaimFraudFound(rows: seq<Row>, k: nat)
    requires AllComplete(rows) && k < |rows|
    ensures ClaimFraud(rows, rows[k].ClaimNode()).Some?
  {
    var n := |rows| - 1;
    if k < n && rows[n].ClaimNode() != rows[k].ClaimNode() {
      ClaimFraudFound(rows[..n], k);
    }
  }

  // ---------------------------------------------------------------- the typed schema

  predicate HasPrefix(s: string, p: string) {
    |p| <= |s| && s[..|p|] == p
  }

  /** The kind the naming scheme gives an id: a prefix names its kind, and an id without
      one of the four prefixes is a claim id. */
  function KindOfId(id: string): NodeKind {
    if HasPrefix(id, ParticipantPrefix) then Participant
    else if HasPrefix(id, FaskesPrefix) then Faskes
    else if HasPrefix(id, DpjpPrefix) then Dpjp
    else if HasPrefix(id, IcdPrefix) then Icd
    else Claim
  }

  /** No claim id starts with one of the four prefixes, so no claim id can coincide with
      the id of a participant, facility, physician or diagnosis. */
  predicate ClaimIdsUnprefixed(rows: seq<Row>) {
    forall i | 0 <= i < |rows| && rows[i].claimId.Some? :: KindOfId(rows[i].claimId.value) == Claim
  }

  /** The relation the schema allows between two kinds, in either order; None where the
      schema has no edge (claim-facility and participant-facility among them). */
  function SchemaRelation(a: NodeKind, b: NodeKind): Option<Relation> {
    match (a, b)
    case (Faskes, Dpjp) | (Dpjp, Faskes) => Some(DoctorInCharge)
    case (Claim, Participant) | (Participant, Claim) => Some(FiledBy)
    case (Claim, Dpjp) | (Dpjp, Claim) => Some(AttendedBy)
    case (Claim, Icd) | (Icd, Claim) => Some(Diagnosis)
    case _ => None
  }

  lemma PrefixedKind(p: string, v: string)
    requires p in {ParticipantPrefix, FaskesPrefix, DpjpPrefix, IcdPrefix}
    ensures KindOfId(p + v) ==
      if p == ParticipantPrefix then Participant
      else if p == FaskesPrefix then Faskes
      else if p == DpjpPrefix then Dpjp
      else Icd
  {
    var s := p + v;
    assert s[..|p|] == p;
    assert s[0] == p[0];
    if p != ParticipantPrefix {
      assert !HasPrefix(s, ParticipantPrefix) by { assert p[0] != ParticipantPrefix[0]; }
    }
    if p != FaskesPrefix {
      assert !HasPrefix(s, FaskesPrefix) by { assert p[0] != FaskesPrefix[0]; }
    }
    if p != DpjpPrefix {
      assert !HasPrefix(s, DpjpPrefix) by { assert p[0] != DpjpPrefix[0]; }
    }
  }

  /** A row's four prefixed ids have the kinds their prefixes name. */
  lemma RowIdKinds(row: Row)
    requires row.Complete()
    ensures KindOfId(row.ParticipantNode()) == Participant
    ensures KindOfId(row.FaskesNode()) == Faskes
    ensures KindOfId(row.DpjpNode()) == Dpjp
    ensures KindOfId(row.IcdNode()) == Icd
  {
    PrefixedKind(ParticipantPrefix, row.participantId.value);
    PrefixedKind(FaskesPrefix, row.faskesId.value);
    PrefixedKind(DpjpPrefix, row.dpjpId.value);
    PrefixedKind(IcdPrefix, row.kodeIcd10.value);
  }

  /** A call agrees with the schema: add_node gives the kind the id names, and add_edge
      gives the label the schema assigns to the kinds of its endpoints. */
  predicate WellTyped(c: Call) {
    match c
    case AddNodeCall(n, kind, _) => kind == KindOfId(n)
    case AddEdgeCall(u, v, rel) => SchemaRelation(KindOfId(u), KindOfId(v)) == Some(rel)
  }

  /** Under the schema's assumption, every call a row makes agrees with the schema. */
  lemma RowCallsTyped(row: Row)
    requires row.Complete() && KindOfId(row.ClaimNode()) == Claim
    ensures forall c | c in RowCalls(row) :: WellTyped(c)
  {
    RowIdKinds(row);
  }

  /** When no claim id carries a prefix, every call the builder makes agrees with the schema. */
  lemma {:induction false} CallsTyped(rows: seq<Row>)
    requires AllComplete(rows) && ClaimIdsUnprefixed(rows)
    ensures forall c | c in Calls(rows) :: WellTyped(c)
  {
    if rows != [] {
      var n := |rows| - 1;
      assert KindOfId(rows[n].ClaimNode()) == Claim;
      CallsTyped(rows[..n]);
      RowCallsTyped(rows[n]);
    }
  }

  /** After well-typed calls, a node's `type` is the one its id names. */
  lemma {:induction false} LastKindTyped(calls: seq<Call>, id: string)
    requires forall c | c in calls :: WellTyped(c)
    ensures LastKind(calls, id).Some? ==> LastKind(calls, id) == Some(KindOfId(id))
  {
    if calls != [] {
      var n := |calls| - 1;
      assert calls[n] in calls;
      LastKindTyped(calls[..n], id);
    }
  }

  /** After well-typed calls, an edge's label is the one the schema gives its endpoints. */
  lemma {:induction false} LastRelationTyped(calls: seq<Call>, u: string, v: string)
    requires forall c | c in calls :: WellTyped(c)
    ensures LastRelation(calls, Pair(u, v)).Some? ==>
      SchemaRelation(KindOfId(u), KindOfId(v)) == LastRelation(calls, Pair(u, v))
  {
    if calls != [] {
      var n := |calls| - 1;
      var c := calls[n];
      assert c in calls;
      if c.AddEdgeCall? && Pair(c.u, c.v) == Pair(u, v) {
        PairEq(u, v, c.u, c.v);
      } else {
        LastRelationTyped(calls[..n], u, v);
      }
    }
  }

  /** When no claim id carries a prefix, the graph is well typed: both endpoints of every
      edge are nodes whose `type` is the one their ids name, and the edge carries the label
      the schema gives those two kinds. */
  lemma EdgesFollowSchema(rows: seq<Row>, u: string, v: string)
    requires AllComplete(rows) && ClaimIdsUnprefixed(rows)
    requires Pair(u, v) in Built(rows).edges
    ensures u in Built(rows).nodes && v in Built(rows).nodes
    ensures Built(rows).nodes[u].kind == Some(KindOfId(u))
    ensures Built(rows).nodes[v].kind == Some(KindOfId(v))
    ensures SchemaRelation(KindOfId(u), KindOfId(v)) == Some(Built(rows).edges[Pair(u, v)])
  {
    BuiltKeys(rows);
    assert u in Pair(u, v) && v in Pair(u, v);
    CallsTyped(rows);
    EveryNodeHasKind(rows, u);
    EveryNodeHasKind(rows, v);
    BuiltNodeAttrs(rows, u);
    BuiltNodeAttrs(rows, v);
    LastKindTyped(Calls(rows), u);
    LastKindTyped(Calls(rows), v);
    ReplayEdges(EmptyGraph, Calls(rows), Pair(u, v));
    LastRelationTyped(Calls(rows), u, v);
  }

  /** In particular no node has an edge to itself, and a facility's only neighbours are
      physicians: no edge joins a claim or a participant to a facility. */
  lemma NoFacilityShortcuts(rows: seq<Row>, u: string, v: string)
    requires AllComplete(rows) && ClaimIdsUnprefixed(rows)
    requires Pair(u, v) in Built(rows).edges
    ensures u in Built(rows).nodes && v in Built(rows).nodes && u != v
    ensures Built(rows).nodes[v].kind == Some(Faskes) ==> Built(rows).nodes[u].kind == Some(Dpjp)
  {
    EdgesFollowSchema(rows, u, v);
  }

  /** A row whose claim id imitates a facility id. */
  const PrefixedClaimRow := Row(Some("FSK_1"), Some("p"), Some("F"), Some("D"), Some("I"), Some("0"))

  /** Without the schema's assumption the builder breaks the schema: the claim id "FSK_1"
      reads as a facility, and the row's filed_by edge joins it to the participant PTC_p,
      a participant-facility pair the schema has no relation for. */
  lemma PrefixedClaimIdBreaksSchema()
    ensures AllComplete([PrefixedClaimRow]) && !ClaimIdsUnprefixed([PrefixedClaimRow])
    ensures Pair("FSK_1", "PTC_p") in Built([PrefixedClaimRow]).edges
    ensures KindOfId("FSK_1") == Faskes && KindOfId("PTC_p") == Participant
    ensures SchemaRelation(KindOfId("FSK_1"), KindOfId("PTC_p")) == None
  {
    var row := PrefixedClaimRow;
    PrefixedKind(FaskesPrefix, "1");
    PrefixedKind(ParticipantPrefix, "p");
    assert FaskesPrefix + "1" == "FSK_1";
    assert row.ParticipantNode() == "PTC_p";
    assert Pair("FSK_1", "PTC_p") in RowEdges([row][0]);
    EdgeIffSomeRow([row], Pair("FSK_1", "PTC_p"));
  }
}
