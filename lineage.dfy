/** The graph that app.py's /lineage route builds from the `metadata` rows before drawing it:
    one node per distinct key, an edge into each row whose `linked_to` names a parent (its type
    guessed from the text of the link), isolated nodes removed, nodes coloured by type. */
module Lineage {
  import opened Wrappers
  import opened Strings
  import opened Seqs
  import opened Tables
  import opened Graphs

  /** `if linked_to:` holds for a link that is neither NULL nor empty. */
  predicate Linked(a: Asset)
  {
    a.linkedTo.Some? && a.linkedTo.value != ""
  }

  /** The parent's key is guessed, not looked up: the link plus "_Policy" when the link mentions
      "Policy", plus "_Claim" otherwise. So the guessed parent always reads as a policy or a claim. */
  function LinkSource(linked: string): (src: string)
    ensures StartsWith(src, linked + "_")
    ensures Contains(linked, "Policy") ==> NodeColor(src) == LightGreen
    ensures NodeColor(src) == LightGreen || NodeColor(src) == SkyBlue
  {
    var guess := if Contains(linked, "Policy") then "Policy" else "Claim";
    var src := linked + "_" + guess;
    assert src[..|linked + "_"|] == linked + "_";
    ContainsSuffix(linked + "_", guess);
    src
  }

  /** The edges the second loop adds: for every linked row, guessed parent to the row's own key,
      when both are nodes. Defined over a prefix of the rows, as the loop sees them. */
  function LinkEdges(rows: seq<Asset>, keys: set<string>): (es: set<Edge>)
    ensures forall e :: e in es ==> e.0 in keys && e.1 in keys
    decreases |rows|
  {
    if rows == [] then {}
    else
      var a := rows[|rows| - 1];
      LinkEdges(rows[..|rows| - 1], keys) +
        if Linked(a) && LinkSource(a.linkedTo.value) in keys && NodeKey(a) in keys
        then {(LinkSource(a.linkedTo.value), NodeKey(a))} else {}
  }

  /** One more row adds at most its own edge. */
  lemma LinkEdgesStep(rows: seq<Asset>, i: int, keys: set<string>)
    requires 0 <= i < |rows|
    ensures LinkEdges(rows[..i + 1], keys) == LinkEdges(rows[..i], keys) +
      if Linked(rows[i]) && LinkSource(rows[i].linkedTo.value) in keys && NodeKey(rows[i]) in keys
      then {(LinkSource(rows[i].linkedTo.value), NodeKey(rows[i]))} else {}
  {
    assert rows[..i + 1][..i] == rows[..i];
  }

  /** An edge exists exactly when some row with a non-empty link produces it and both ends are nodes. */
  lemma {:induction false} LinkEdgeMeaning(rows: seq<Asset>, keys: set<string>, e: Edge)
    ensures e in LinkEdges(rows, keys) <==>
      && e.0 in keys && e.1 in keys
      && exists i :: 0 <= i < |rows| && Linked(rows[i]) && e == (LinkSource(rows[i].linkedTo.value), NodeKey(rows[i]))
    decreases |rows|
  {
    if rows != [] {
      var prefix := rows[..|rows| - 1];
      LinkEdgeMeaning(prefix, keys, e);
      if exists i :: 0 <= i < |prefix| && Linked(prefix[i]) && e == (LinkSource(prefix[i].linkedTo.value), NodeKey(prefix[i])) {
        var i :| 0 <= i < |prefix| && Linked(prefix[i]) && e == (LinkSource(prefix[i].linkedTo.value), NodeKey(prefix[i]));
        assert rows[i] == prefix[i];
      }
      if i :| 0 <= i < |rows| - 1 && Linked(rows[i]) && e == (LinkSource(rows[i].linkedTo.value), NodeKey(rows[i])) {
        assert rows[i] == prefix[i];
      }
    }
  }

  /** What /lineage draws: nodes in insertion order, their labels, the edges and the colours. */
  datatype LineageView = LineageView(nodes: seq<string>, labels: map<string, string>, edges: set<Edge>, colors: seq<Color>)

  function LineageGraph(rows: seq<Asset>): (v: LineageView)
    ensures forall i, j :: 0 <= i < j < |v.nodes| ==> v.nodes[i] != v.nodes[j]
    ensures forall n :: n in v.nodes <==> n in KeySet(rows) && Incident(n, v.edges)
    ensures forall e :: e in v.edges ==> e.0 in v.nodes && e.1 in v.nodes
    ensures forall n :: n in v.labels <==> n in v.nodes
    ensures forall n :: n in v.labels ==> v.labels[n] == FirstLabels(rows)[n]
    ensures v.colors == Colors(v.nodes)
  {
    var keys := KeySet(rows);
    var edges := LinkEdges(rows, keys);
    var kept := WithoutIsolates(Nodes(rows), edges);
    FilterDistinct(Nodes(rows), n => Incident(n, edges));
    assert forall e :: e in edges ==> Incident(e.0, edges) && Incident(e.1, edges);
    LineageView(kept, Restrict(FirstLabels(rows), kept), edges, Colors(kept))
  }

  /** The second loop of lineage(): an edge from each linked row's guessed parent to the row,
      when both are nodes of the graph. */
  method AddLinkEdges(rows: seq<Asset>, nodes: seq<string>) returns (edges: set<Edge>)
    requires forall n :: n in nodes <==> n in KeySet(rows)
    ensures edges == LinkEdges(rows, KeySet(rows))
  {
    edges := {};
    for i := 0 to |rows|
      invariant edges == LinkEdges(rows[..i], KeySet(rows))
    {
      LinkEdgesStep(rows, i, KeySet(rows));
      var a := rows[i];
      if Linked(a) {
        var src := LinkSource(a.linkedTo.value);
        var dst := NodeKey(a);
        if src in nodes && dst in nodes {
          edges := edges + {(src, dst)};
        }
      }
    }
    assert rows[..|rows|] == rows;
  }

  /** The body of lineage() up to the drawing: its three loops and the isolate removal. */
  method BuildLineage(rows: seq<Asset>) returns (v: LineageView)
    ensures v == LineageGraph(rows)
    ensures forall n :: n in v.nodes ==> Incident(n, v.edges)
  {
    var nodes, labels := AddNodes(rows);
    var edges := AddLinkEdges(rows, nodes);
    var kept, keptLabels := RemoveIsolates(nodes, labels, edges);
    var colors := PaintNodes(kept);
    v := LineageView(kept, keptLabels, edges, colors);
  }

  /** Every drawn edge starts at a green (policy) or blue (claim) node. */
  lemma EdgesLeaveColouredParents(rows: seq<Asset>, e: Edge)
    requires e in LineageGraph(rows).edges
    ensures NodeColor(e.0) == LightGreen || NodeColor(e.0) == SkyBlue
  {
    LinkEdgeMeaning(rows, KeySet(rows), e);
  }

  /** A link to "A" is read as a link to the claim "A_Claim", so a policy A and a claim B linked
      to "A" stay unconnected and both are dropped. */
  lemma UnresolvedLinkExample()
    ensures var rows := [Asset(1, Some("A"), Some("Policy"), None, None, None),
                         Asset(2, Some("B"), Some("Claim"), None, None, Some("A"))];
            LineageGraph(rows).edges == {} && LineageGraph(rows).nodes == []
  {
    var rows := [Asset(1, Some("A"), Some("Policy"), None, None, None),
                 Asset(2, Some("B"), Some("Claim"), None, None, Some("A"))];
    var keys := KeySet(rows);
    ShorterNeverContains("A", "Policy");
    assert LinkSource("A") == "A_Claim";
    assert !Linked(rows[0]);
    assert "A_Claim" !in keys by {
      assert NodeKey(rows[0]) == "A_Policy" && NodeKey(rows[1]) == "B_Claim";
      assert "A_Claim" != "A_Policy" && "A_Claim" != "B_Claim";
    }
    var edges := LinkEdges(rows, keys);
    forall e | e in edges ensures false {
      LinkEdgeMeaning(rows, keys, e);
    }
    assert edges == {};
    FilterDropsAll(Nodes(rows), n => Incident(n, edges));
  }

  /** The one edge of a policy "Policy1" and a claim "Claim1" linked to it. */
  lemma ResolvedLinkEdge(p: Asset, c: Asset)
    requires p == Asset(1, Some("Policy1"), Some("Policy"), None, None, None)
    requires c == Asset(2, Some("Claim1"), Some("Claim"), None, None, Some("Policy1"))
    ensures LinkEdges([p, c], KeySet([p, c])) == {("Policy1_Policy", "Claim1_Claim")}
  {
    var rows, keys := [p, c], KeySet([p, c]);
    var pk, ck := "Policy1_Policy", "Claim1_Claim";
    assert StartsWith("Policy1", "Policy");
    assert LinkSource("Policy1") == pk;
    assert NodeKey(p) == pk && NodeKey(c) == ck;
    assert !Linked(rows[0]) && Linked(rows[1]);
    assert pk in keys && ck in keys by {
      assert rows[0] in rows && rows[1] in rows;
    }
    forall e ensures e in LinkEdges(rows, keys) <==> e == (pk, ck) {
      LinkEdgeMeaning(rows, keys, e);
    }
  }

  /** A claim linked to "Policy1" hangs under the policy named "Policy1", and both are drawn. */
  lemma ResolvedLinkExample(p: Asset, c: Asset)
    requires p == Asset(1, Some("Policy1"), Some("Policy"), None, None, None)
    requires c == Asset(2, Some("Claim1"), Some("Claim"), None, None, Some("Policy1"))
    ensures LineageGraph([p, c]).edges == {("Policy1_Policy", "Claim1_Claim")}
    ensures LineageGraph([p, c]).nodes == ["Policy1_Policy", "Claim1_Claim"]
  {
    var pk, ck := "Policy1_Policy", "Claim1_Claim";
    ResolvedLinkEdge(p, c);
    var edges := LinkEdges([p, c], KeySet([p, c]));
    assert NodeKey(p) == pk && NodeKey(c) == ck;
    TwoNodes(p, c);
    assert Incident(pk, edges) && Incident(ck, edges);
    FilterKeepsAll(Nodes([p, c]), n => Incident(n, edges));
  }
}
