/** The facility risk scorer of network_analysis.py (calculate_graph_risk): a facility
    present in the claim graph gets a score out of 100 built from its betweenness
    centrality, its degree centrality and the size of its community. The centralities and
    the community partition are computed by networkx and enter here as parameters. */
module GraphRisk {
  import opened Wrappers
  import opened NxGraph
  import opened ClaimGraph
  import opened ClaimGraphFacts

  /** A centrality value as networkx normalises it. */
  predicate InUnit(x: real) {
    0.0 <= x <= 1.0
  }

  /** `centrality.get(node, 0)`: the value of `node`, or 0 when it has none. */
  function Get(centrality: map<string, real>, node: string): real {
    if node in centrality then centrality[node] else 0.0
  }

  /** The community score a community of `size` members gives: more than seven members is
      suspicious (1), five to seven is 0.7, four or fewer is 0.3. */
  function Tier(size: nat): (t: real)
    ensures 0.3 <= t <= 1.0
  {
    if size > 7 then 1.0 else if size > 4 then 0.7 else 0.3
  }

  /** A larger community never gets a lower score. */
  lemma TierMonotone(a: nat, b: nat)
    requires a <= b
    ensures Tier(a) <= Tier(b)
    ensures Tier(a) == Tier(b) || (a <= 4 && 4 < b) || (a <= 7 && 7 < b)
  {
  }

  /** The value the scoring loop leaves in community_score: the tier of the last community
      that contains `node`, or the initial 0 when none does. */
  function CommunityScore(node: string, communities: seq<set<string>>): (score: real)
    ensures score == 0.0 <==> forall k | 0 <= k < |communities| :: node !in communities[k]
    ensures score != 0.0 ==> 0.3 <= score <= 1.0
  {
    if communities == [] then 0.0
    else
      var n := |communities| - 1;
      if node in communities[n] then Tier(|communities[n]|)
      else
        assert forall k | 0 <= k < n :: communities[..n][k] == communities[k];
        CommunityScore(node, communities[..n])
  }

  /** No node belongs to two communities, as for the partition networkx returns. */
  predicate Disjoint(communities: seq<set<string>>) {
    forall i, j | 0 <= i < j < |communities| :: communities[i] !! communities[j]
  }

  /** In a partition, the community score of a node is the tier of the one community that
      contains it. */
  lemma {:induction false} CommunityScoreOfPartition(node: string, communities: seq<set<string>>, k: nat)
    requires Disjoint(communities) && k < |communities| && node in communities[k]
    ensures CommunityScore(node, communities) == Tier(|communities[k]|)
  {
    var n := |communities| - 1;
    if k < n {
      var pre := communities[..n];
      assert node !in communities[n] by {
        assert communities[k] !! communities[n];
      }
      assert Disjoint(pre) by {
        forall i, j | 0 <= i < j < |pre|
          ensures pre[i] !! pre[j]
        {
          assert pre[i] == communities[i] && pre[j] == communities[j];
        }
      }
      assert pre[k] == communities[k];
      CommunityScoreOfPartition(node, pre, k);
    }
  }

  /** The weighted sum 0.4 betweenness + 0.3 degree + 0.3 community score, on a scale of
      100: it lies in [0, 100] when its three inputs lie in [0, 1], and reaches 100 only
      when all three are 1. */
  function FinalRisk(bet: real, deg: real, score: real): (risk: real)
    ensures InUnit(bet) && InUnit(deg) && InUnit(score) ==> 0.0 <= risk <= 100.0
    ensures InUnit(bet) && InUnit(deg) && InUnit(score) ==>
      (risk == 100.0 <==> bet == 1.0 && deg == 1.0 && score == 1.0)
  {
    (0.4 * bet + 0.3 * deg + 0.3 * score) * 100.0
  }

  /** A higher centrality or community score never lowers the risk. */
  lemma FinalRiskMonotone(bet: real, deg: real, score: real, bet': real, deg': real, score': real)
    requires bet <= bet' && deg <= deg' && score <= score'
    ensures FinalRisk(bet, deg, score) <= FinalRisk(bet', deg', score')
    ensures FinalRisk(bet, deg, score) == FinalRisk(bet', deg', score') <==>
      bet == bet' && deg == deg' && score == score'
  {
  }

  /** The dictionary calculate_graph_risk returns. */
  datatype RiskRecord = RiskRecord(betweenness: real, degree: real, communityScore: real, finalRisk: real)

  /** calculate_graph_risk: None when the facility's FSK_ node is not in the graph;
      otherwise the facility's two centralities, its community score and the unrounded
      final risk computed from exactly those three values. */
  method CalculateGraphRisk(g: Graph, faskesId: string, betweenness: map<string, real>,
                            degree: map<string, real>, communities: seq<set<string>>)
    returns (r: Option<RiskRecord>)
    ensures r.None? <==> FaskesPrefix + faskesId !in g.nodes
    ensures r.Some? ==>
      var node := FaskesPrefix + faskesId;
      r.value == RiskRecord(Get(betweenness, node), Get(degree, node), CommunityScore(node, communities),
                            FinalRisk(Get(betweenness, node), Get(degree, node), CommunityScore(node, communities)))
    ensures r.Some? && InUnit(Get(betweenness, FaskesPrefix + faskesId)) && InUnit(Get(degree, FaskesPrefix + faskesId)) ==>
      0.0 <= r.value.finalRisk <= 100.0
  {
    var node := FaskesPrefix + faskesId;
    if node !in g.nodes {
      return None;
    }
    var bet := Get(betweenness, node);
    var deg := Get(degree, node);
    var score := 0.0;
    for i := 0 to |communities|
      invariant score == CommunityScore(node, communities[..i])
    {
      var c := communities[i];
      if node in c {
        var size := |c|;
        if size > 7 {
          score := 1.0;
        } else if size > 4 {
          score := 0.7;
        } else {
          score := 0.3;
        }
      }
      assert communities[..i + 1][..i] == communities[..i];
    }
    assert communities[..|communities|] == communities;
    var finalScore := (0.4 * bet + 0.3 * deg + 0.3 * score) * 100.0;
    return Some(RiskRecord(bet, deg, score, finalScore));
  }

  /** The one-row example table split into the facility-physician pair and the claim with
      its participant and diagnosis: a partition of the graph's five nodes in which the
      facility's community has two members, so its community score is 0.3. */
  lemma ExampleCommunityScore()
    ensures AllComplete([ExampleRow])
    ensures Built([ExampleRow]).nodes.Keys == {"FSK_F1", "DR_D1"} + {"C1", "PTC_P1", "ICD_A00"}
    ensures Disjoint([{"FSK_F1", "DR_D1"}, {"C1", "PTC_P1", "ICD_A00"}])
    ensures CommunityScore(FaskesPrefix + "F1", [{"FSK_F1", "DR_D1"}, {"C1", "PTC_P1", "ICD_A00"}]) == 0.3
  {
    ExampleRowIds();
    SingleRow([ExampleRow]);
    var comms := [{"FSK_F1", "DR_D1"}, {"C1", "PTC_P1", "ICD_A00"}];
    assert ExampleRow.ParticipantNode() == "PTC_P1" && ExampleRow.FaskesNode() == "FSK_F1";
    assert ExampleRow.DpjpNode() == "DR_D1" && ExampleRow.IcdNode() == "ICD_A00";
    assert |comms[0]| == 2;
    CommunityScoreOfPartition(FaskesPrefix + "F1", comms, 0);
  }
}
