/** How the Network Analytics page uses the builder (pages/1_Network_Analytics.py): it
    keeps the rows of one facility picked from the table's own facility ids, builds the
    claim graph of those rows and looks the facility's FSK_ node up in it. */
module NetworkAnalytics {
  import opened Wrappers
  import opened NxGraph
  import opened ClaimGraph
  import opened ClaimGraphFacts

  /** `df[df['faskes_id'] == selected]`: the rows whose facility equals the selection, in
      their original order; a null never compares equal, so a null selection keeps none. */
  function RowsOfFacility(rows: seq<Row>, selected: Cell): (kept: seq<Row>)
    ensures |kept| <= |rows|
    ensures selected.None? ==> kept == []
    ensures forall j | 0 <= j < |kept| :: kept[j] in rows && kept[j].faskesId == selected
    ensures forall k | 0 <= k < |rows| :: selected.Some? && rows[k].faskesId == selected ==> rows[k] in kept
    ensures forall x :: multiset(kept)[x] == if selected.Some? && x.faskesId == selected then multiset(rows)[x] else 0
  {
    if rows == [] then []
    else
      var n := |rows| - 1;
      var pre := RowsOfFacility(rows[..n], selected);
      assert forall k | 0 <= k < n :: rows[..n][k] == rows[k];
      assert rows == rows[..n] + [rows[n]];
      if selected.Some? && rows[n].faskesId == selected then pre + [rows[n]] else pre
  }

  /** A facility id taken from the table keeps at least one row, and the graph built from
      the kept rows has that facility's FSK_ node, so the page's membership test succeeds
      whenever the kept rows have no nulls. */
  lemma SelectedFacilityIsNode(rows: seq<Row>, k: nat)
    requires k < |rows| && rows[k].faskesId.Some?
    requires AllComplete(RowsOfFacility(rows, rows[k].faskesId))
    ensures RowsOfFacility(rows, rows[k].faskesId) != []
    ensures FaskesPrefix + rows[k].faskesId.value in Built(RowsOfFacility(rows, rows[k].faskesId)).nodes
  {
    var kept := RowsOfFacility(rows, rows[k].faskesId);
    assert rows[k] in kept;
    var j :| 0 <= j < |kept| && kept[j] == rows[k];
    FacilityIsNode(kept, j);
  }
}
