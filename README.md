# Claim graph and facility risk score

A Dafny model of `network_analysis.py`, the analytic core of a health-insurance fraud
dashboard. The model covers two functions.

- `build_claim_graph` turns a table of claims into an undirected networkx graph. Each
  row gives five typed nodes:
  - the claim id itself;
  - `PTC_<participant>`;
  - `FSK_<facility>`;
  - `DR_<physician>`;
  - `ICD_<diagnosis>`.

  Each row also gives four labelled edges:
  - facility–physician `doctor_in_charge`;
  - claim–participant `filed_by`;
  - claim–physician `attended_by`;
  - claim–diagnosis `diagnosis`.

  The builder rejects a table with a null in a required column, and rejects a graph
  without nodes.
- `calculate_graph_risk` scores one facility. It looks up its `FSK_` node, then sets a
  community score from the size of the facility's community: 1, 0.7 or 0.3. It returns
  `(0.4·betweenness + 0.3·degree + 0.3·community score)·100`.

Modules:
- `Wrappers`: Option and Result.
- `NxGraph`: the part of `networkx.Graph` the builder uses. Each `add_node` and
  `add_edge` is a `Call`. `Replay` gives the graph after a list of calls. The class
  `Graph` is updated in place and is proved to follow `Replay`.
- `ClaimGraph`: table rows, the calls one row makes, and the `BuildClaimGraph` loop.
  The loop is proved to produce `Built(rows)`, the replay of every row's calls.
- `ClaimGraphFacts`: what the built graph holds.
  - which nodes and edges it has;
  - node types and fraud labels;
  - that repeated values are aggregated;
  - that the graph follows the claim schema when claim ids carry no prefix.
- `GraphRisk`: the community tier, the community score, the weighted risk, and the
  `CalculateGraphRisk` method with its scoring loop.
- `NetworkAnalytics`: how the Network Analytics page uses the builder. It filters the
  table to one facility, builds the graph, and checks that the facility is a node.

Table cells are `Option<string>`, where `None` is a pandas null. A value is modelled by
its text, the string the builder's f-strings produce.

Behaviour of the code worth knowing:
- **Four edges per row.** The code adds four edges for each row. A one-row table with
  five distinct values gives five nodes and four edges (`DistinctSingleRow`,
  `SingleRowExample`).
- **No community keeps the score at 0.** When no community contains the facility,
  `community_score` keeps its initial 0, because the code only assigns it inside the
  `if`.
- **The tier comes from the facility's own community.** For the one-row example, the
  partition {FSK_F1, DR_D1}, {C1, PTC_P1, ICD_A00} puts the facility in a community of
  two, so its score is 0.3 (`ExampleCommunityScore`).
- **`add_node` merges attributes.** Repeating `add_node` updates the attribute dictionary
  rather than replacing it. `type` is overwritten. A claim node's `fraud` label is
  overwritten by the next claim row with the same id. A later `add_node` without
  `fraud` leaves the label in place.
- **Claim ids are not checked against the prefixes.** A claim id such as `FSK_1` reads as
  a facility id, and its `filed_by` edge then joins a participant to a "facility"
  (`PrefixedClaimIdBreaksSchema`).

## Model

| member | source | states |
|---|---|---|
| NxGraph.Graph.constructor | network_analysis.py:8 | `nx.Graph()` has no nodes and no edges |
| NxGraph.Graph.AddNode | network_analysis.py:25-29 | The node exists afterwards. Its `type` is the one given. Its `fraud` is the one given, or the earlier one when none is given. Every other node and every edge is unchanged. |
| NxGraph.Graph.AddEdge | network_analysis.py:32-35 | Missing endpoints are created with empty attributes. The single undirected edge {u, v} gets the new label. Every edge still joins nodes of the graph. |
| NxGraph.Graph.NumberOfNodes | network_analysis.py:38 | The count is 0 exactly when the graph has no nodes |
| NxGraph.ReplayNodeKeys | network_analysis.py:24-35 | After a sequence of calls, the nodes are the earlier nodes plus every id any call names |
| NxGraph.ReplayNodeAttrs | network_analysis.py:25-29 | A node's `type` and `fraud` are those of the last add_node call that sets each, or the earlier values |
| NxGraph.ReplayEdges | network_analysis.py:32-35 | The edges are the earlier edges plus every pair an add_edge call names. Each edge's label is that of the last call on it, or the earlier label when no call names it. |
| NxGraph.ReplayWellFormed | network_analysis.py:31-35 | Every edge joins one or two nodes of the graph, and no call sequence breaks this |
| ClaimGraph.RowCallsCover | network_analysis.py:17-35 | One row's calls name exactly its five ids and its four edges |
| ClaimGraph.AddRow | network_analysis.py:17-35 | The loop body leaves the graph equal to the replay of the row's nine calls in source order |
| ClaimGraph.BuildClaimGraph | network_analysis.py:7-41 | A null in a required column gives `MissingValue`. Otherwise an empty table gives `NoNodes`. Otherwise the result is a new graph equal to `Built(rows)`. |
| ClaimGraph.BuiltKeys | network_analysis.py:16-35 | The node set is the union of every row's five ids, and the edge set the union of every row's four edges. Every edge endpoint is a node. |
| ClaimGraph.NoNodesIffNoRows | network_analysis.py:38-39 | With no nulls, the graph has no nodes exactly when the table has no rows |
| ClaimGraphFacts.NodeIffSomeRow | network_analysis.py:17-29 | An id is a node exactly when some row derives it |
| ClaimGraphFacts.EdgeIffSomeRow | network_analysis.py:31-35 | A pair is an edge exactly when it is one of some row's four edges |
| ClaimGraphFacts.FacilityIsNode | network_analysis.py:19-27 | Every row's `FSK_` facility id is a node |
| ClaimGraphFacts.DuplicateRowAddsNothing | network_analysis.py:16-35 | Appending a copy of an existing row leaves the node set and the edge set unchanged |
| ClaimGraphFacts.SingleRow | network_analysis.py:16-35 | A one-row table gives exactly that row's ids and edges |
| ClaimGraphFacts.DistinctRowEdges | network_analysis.py:31-35 | When a row's five ids are pairwise different, its four edges are pairwise different |
| ClaimGraphFacts.DistinctSingleRow | network_analysis.py:16-35 | A one-row table whose five ids are pairwise different gives 5 nodes and 4 edges |
| ClaimGraphFacts.SingleRowExample | network_analysis.py:16-35 | The row C1/P1/F1/D1/A00 gives 5 nodes and 4 edges |
| ClaimGraphFacts.BuiltNodeAttrs | network_analysis.py:25-29 | Each node carries the `type` of the last add_node call on it, and the `fraud` of the last call that passes one |
| ClaimGraphFacts.RowIdHasKind | network_analysis.py:25-29 | Every id a row derives is typed by an add_node call |
| ClaimGraphFacts.EveryNodeHasKind | network_analysis.py:24-35 | Every node of the graph has a `type` |
| ClaimGraphFacts.RowFraud | network_analysis.py:22-29 | Within a row, only the claim's add_node call passes a `fraud` label |
| ClaimGraphFacts.BuiltFraud | network_analysis.py:22-25 | The `fraud` left on an id is the label of the last row with that claim id, and absent when there is no such row |
| ClaimGraphFacts.ClaimNodeCarriesLabel | network_analysis.py:22-25 | Every row's claim node exists and carries a `fraud` label: that of the last row with the same claim id |
| ClaimGraphFacts.RowIdKinds | network_analysis.py:18-21 | A row's four prefixed ids have the kinds their prefixes name |
| ClaimGraphFacts.CallsTyped | network_analysis.py:24-35 | With unprefixed claim ids, every call gives the type its id names and the label the schema assigns |
| ClaimGraphFacts.LastKindTyped | network_analysis.py:25-29 | After well-typed calls, a node's type is the one its id names |
| ClaimGraphFacts.LastRelationTyped | network_analysis.py:32-35 | After well-typed calls, an edge's label is the schema's label for its endpoints' kinds |
| ClaimGraphFacts.EdgesFollowSchema | network_analysis.py:16-35 | With unprefixed claim ids, both endpoints of every edge are nodes with the type their ids name, and the edge has the schema's label for those kinds |
| ClaimGraphFacts.NoFacilityShortcuts | network_analysis.py:31-35 | No edge is a self-loop, and a facility's only neighbours are physicians: no claim–facility or participant–facility edge exists |
| ClaimGraphFacts.PrefixedClaimIdBreaksSchema | network_analysis.py:17-33 | A claim id `FSK_1` with participant `p` yields the edge {FSK_1, PTC_p}, whose endpoint kinds have no relation in the schema |
| GraphRisk.Tier | network_analysis.py:64-70 | A community's tier lies between 0.3 and 1 |
| GraphRisk.TierMonotone | network_analysis.py:64-70 | A larger community never gets a lower tier, and the tier changes only across the thresholds 4 and 7 |
| GraphRisk.CommunityScore | network_analysis.py:61-70 | The score is 0 exactly when no community contains the node; otherwise it lies in [0.3, 1] |
| GraphRisk.CommunityScoreOfPartition | network_analysis.py:59-70 | For disjoint communities, the score is the tier of the one community that contains the node |
| GraphRisk.FinalRisk | network_analysis.py:72-77 | When all three inputs lie in [0, 1], the risk lies in [0, 100], and it is 100 only when all three are 1 |
| GraphRisk.FinalRiskMonotone | network_analysis.py:73-77 | Raising any input never lowers the risk, and equal risk from ordered inputs means equal inputs |
| GraphRisk.CalculateGraphRisk | network_analysis.py:47-84 | Returns None exactly when `FSK_<id>` is not a node. Otherwise the record holds the facility's centralities (0 when absent), the loop's community score, and the weighted risk of those same three values. That risk lies in [0, 100] when the centralities lie in [0, 1]. |
| GraphRisk.ExampleCommunityScore | network_analysis.py:61-70 | The one-row example's five nodes split into {FSK_F1, DR_D1} and {C1, PTC_P1, ICD_A00} form a partition, and the facility's community score is 0.3 |
| NetworkAnalytics.RowsOfFacility | pages/1_Network_Analytics.py:57 | It keeps only rows of the selected facility, each as many times as the table holds it; a null selection keeps none |
| NetworkAnalytics.SelectedFacilityIsNode | pages/1_Network_Analytics.py:55-64 | A facility picked from the table keeps at least one row, so the build raises no no-node error, and with no nulls `FSK_<id>` is a node of the built graph |

## Left out

- The networkx algorithms are not modelled: `betweenness_centrality`, `degree_centrality`
  and `greedy_modularity_communities`. Their results enter `CalculateGraphRisk` as
  parameters. The bound on the risk is stated under the assumption that both centralities
  lie in [0, 1], and the partition lemma assumes the communities are disjoint.
- `round(final_score, 2)` and floating point are not modelled. The risk is the unrounded
  value in exact real arithmetic.
- The Python types of values are not modelled. Cells are strings, the text the
  f-strings render. `community_score` is the real 0, 0.3, 0.7 or 1, where Python mixes the
  int 0 and 1 with floats.
- A missing `fraud_prediction` column raises a pandas `KeyError`; this is not modelled.
  The label is an opaque cell stored on the claim node.
- A table that lacks one of the five required columns raises a `KeyError` at
  network_analysis.py:12. This is not modelled: a `Row` always has every column.
- The typing lemmas assume that no claim id starts with `PTC_`, `FSK_`, `DR_` or `ICD_`
  (`ClaimIdsUnprefixed`). The builder does not check this. Without it, a claim id can
  coincide with a prefixed id.
- The order in which networkx stores nodes and edges is not modelled. Node and edge
  views are modelled as maps.
- NetworkAnalytics.RowsOfFacility: states which rows are kept and how many times each,
  but not that they keep their original order.
- Not modelled from the dashboard: the Streamlit forms, the HTTP calls to the region
  service and the scoring backend, CSV and base64 decoding, `safe_read_csv`, the pyvis
  rendering, `nx.ego_graph`, charts, and the ratio features of Fraud_Detection.py. All
  of these are I/O or library rendering.
