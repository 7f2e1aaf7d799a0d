/** The NetworkX steps that app.py's lineage() and graph.py share: one node per distinct
    "{name}_{type}" key, labelled by the first asset producing it; removal of isolated nodes;
    and the colour chosen for each remaining node. */
module Graphs {
  import opened Wrappers
  import opened Strings
  import opened Seqs
  import opened Tables

  type Edge = (string, string)

  /** How an f-string renders a nullable column: NULL reads as "None". */
  function Shown(v: Option<string>): string
  {
    match v
    case None => "None"
    case Some(s) => s
  }

  /** f"{name}_{typ}". */
  function NodeKey(a: Asset): string
  {
    Shown(a.name) + "_" + Shown(a.typ)
  }

  /** The key reads back as the shown name, one underscore, the shown type. */
  lemma NodeKeyParts(a: Asset)
    ensures var k, n, t := NodeKey(a), Shown(a.name), Shown(a.typ);
            |k| == |n| + 1 + |t| && k[..|n|] == n && k[|n|] == '_' && k[|n| + 1..] == t
  {
  }

  /** f"{name}\n({typ})". */
  function NodeLabel(a: Asset): string
  {
    Shown(a.name) + "\n(" + Shown(a.typ) + ")"
  }

  /** The label reads back as the shown name, a line break, the shown type in parentheses. */
  lemma NodeLabelParts(a: Asset)
    ensures var l, n, t := NodeLabel(a), Shown(a.name), Shown(a.typ);
            && |l| == |n| + 3 + |t| && l[..|n|] == n && l[|n|..|n| + 2] == "\n("
            && l[|n| + 2..|l| - 1] == t && l[|l| - 1] == ')'
  {
  }

  /** The keys the rows produce. */
  function KeySet(rows: seq<Asset>): set<string>
  {
    set a | a in rows :: NodeKey(a)
  }

  /** The graph's nodes: the distinct keys, in the order of their first occurrence. */
  function Nodes(rows: seq<Asset>): (ns: seq<string>)
    ensures forall i, j :: 0 <= i < j < |ns| ==> ns[i] != ns[j]
    ensures forall k :: k in ns <==> k in KeySet(rows)
    decreases |rows|
  {
    if rows == [] then []
    else
      var ns := Nodes(rows[..|rows| - 1]);
      var k := NodeKey(rows[|rows| - 1]);
      assert rows == rows[..|rows| - 1] + [rows[|rows| - 1]];
      if k in ns then ns else ns + [k]
  }

  /** Two rows with different keys give two nodes, in row order. */
  lemma TwoNodes(a: Asset, b: Asset)
    requires NodeKey(a) != NodeKey(b)
    ensures Nodes([a, b]) == [NodeKey(a), NodeKey(b)]
  {
    assert [a, b][..1] == [a];
    assert [a][..0] == [];
    assert Nodes([a]) == [NodeKey(a)];
  }

  /** The `label` attribute of each node: the label of the first row producing its key. */
  function FirstLabels(rows: seq<Asset>): (m: map<string, string>)
    ensures m.Keys == KeySet(rows)
    decreases |rows|
  {
    if rows == [] then map[]
    else
      var m := FirstLabels(rows[..|rows| - 1]);
      var a := rows[|rows| - 1];
      assert rows == rows[..|rows| - 1] + [a];
      if NodeKey(a) in m then m else m[NodeKey(a) := NodeLabel(a)]
  }

  /** Every stored label is the label of some row producing that key. */
  lemma {:induction false} LabelFromSomeRow(rows: seq<Asset>, k: string)
    requires k in FirstLabels(rows)
    ensures exists a :: a in rows && NodeKey(a) == k && FirstLabels(rows)[k] == NodeLabel(a)
    decreases |rows|
  {
    var prefix, last := rows[..|rows| - 1], rows[|rows| - 1];
    var m := FirstLabels(prefix);
    assert rows == prefix + [last];
    if k in m {
      LabelFromSomeRow(prefix, k);
      var a :| a in prefix && NodeKey(a) == k && m[k] == NodeLabel(a);
      assert a in rows;
    } else {
      assert NodeKey(last) == k && FirstLabels(rows)[k] == NodeLabel(last);
    }
  }

  /** When rows sharing a key also share a label, any permutation of the rows labels alike. */
  lemma ReorderingKeepsFirstLabels(rows: seq<Asset>, shuffled: seq<Asset>)
    requires multiset(rows) == multiset(shuffled)
    requires forall a, b :: a in rows && b in rows && NodeKey(a) == NodeKey(b) ==> NodeLabel(a) == NodeLabel(b)
    ensures FirstLabels(rows) == FirstLabels(shuffled)
  {
    forall a ensures a in rows <==> a in shuffled {
      assert a in rows <==> a in multiset(rows);
      assert a in shuffled <==> a in multiset(shuffled);
    }
    assert KeySet(rows) == KeySet(shuffled);
    forall k | k in FirstLabels(rows) ensures FirstLabels(rows)[k] == FirstLabels(shuffled)[k] {
      LabelFromSomeRow(rows, k);
      LabelFromSomeRow(shuffled, k);
    }
  }

  /** The first row producing a key supplies the node's label. */
  lemma {:induction false} FirstLabelWins(rows: seq<Asset>, i: int)
    requires 0 <= i < |rows|
    requires forall j :: 0 <= j < i ==> NodeKey(rows[j]) != NodeKey(rows[i])
    ensures NodeKey(rows[i]) in FirstLabels(rows)
    ensures FirstLabels(rows)[NodeKey(rows[i])] == NodeLabel(rows[i])
    decreases |rows|
  {
    var prefix, last := rows[..|rows| - 1], rows[|rows| - 1];
    var m := FirstLabels(prefix);
    var k := NodeKey(rows[i]);
    assert FirstLabels(rows) == if NodeKey(last) in m then m else m[NodeKey(last) := NodeLabel(last)];
    if i == |rows| - 1 {
      assert k !in KeySet(prefix);
    } else {
      assert prefix[i] == rows[i];
      FirstLabelWins(prefix, i);
    }
  }

  /** Some edge starts or ends at n: the node is not isolated in NetworkX's sense. */
  predicate Incident(n: string, edges: set<Edge>)
  {
    exists e :: e in edges && (e.0 == n || e.1 == n)
  }

  /** nx.isolates followed by remove_nodes_from: the nodes that touch an edge, in node order. */
  function WithoutIsolates(nodes: seq<string>, edges: set<Edge>): (kept: seq<string>)
    ensures forall n :: n in kept <==> n in nodes && Incident(n, edges)
  {
    Filter(nodes, n => Incident(n, edges))
  }

  /** Two maps with the same keys and the same value at each key are equal. */
  lemma SameEntries(x: map<string, string>, y: map<string, string>)
    requires forall n :: n in x <==> n in y
    requires forall n :: n in x ==> x[n] == y[n]
    ensures x == y
  {
  }

  /** Node attributes go with their nodes. */
  function Restrict(labels: map<string, string>, kept: seq<string>): (m: map<string, string>)
    ensures forall n :: n in m <==> n in labels && n in kept
    ensures forall n :: n in m ==> m[n] == labels[n]
  {
    map n | n in labels && n in kept :: labels[n]
  }

  datatype Color = LightGreen | SkyBlue | LightCoral | Grey

  /** The colour classifier: "Policy" before "Claim" before "ReserveModel", else grey. */
  function NodeColor(n: string): (c: Color)
    ensures c == LightGreen <==> Contains(n, "Policy")
    ensures c == SkyBlue <==> !Contains(n, "Policy") && Contains(n, "Claim")
    ensures c == LightCoral <==> !Contains(n, "Policy") && !Contains(n, "Claim") && Contains(n, "ReserveModel")
    ensures c == Grey <==> !Contains(n, "Policy") && !Contains(n, "Claim") && !Contains(n, "ReserveModel")
  {
    if Contains(n, "Policy") then LightGreen
    else if Contains(n, "Claim") then SkyBlue
    else if Contains(n, "ReserveModel") then LightCoral
    else Grey
  }

  function Colors(nodes: seq<string>): (cs: seq<Color>)
    ensures |cs| == |nodes|
    ensures forall i :: 0 <= i < |nodes| ==> cs[i] == NodeColor(nodes[i])
  {
    seq(|nodes|, i requires 0 <= i < |nodes| => NodeColor(nodes[i]))
  }

  /** The node loop: add each new key to `seen` and to the graph, with its label. */
  method AddNodes(rows: seq<Asset>) returns (nodes: seq<string>, labels: map<string, string>)
    ensures nodes == Nodes(rows) && labels == FirstLabels(rows)
  {
    var seen: set<string> := {};
    nodes, labels := [], map[];
    for i := 0 to |rows|
      invariant nodes == Nodes(rows[..i]) && labels == FirstLabels(rows[..i])
      invariant forall k :: k in seen <==> k in nodes
    {
      assert rows[..i + 1][..i] == rows[..i];
      var key := NodeKey(rows[i]);
      if key !in seen {
        nodes := nodes + [key];
        labels := labels[key := NodeLabel(rows[i])];
        seen := seen + {key};
      }
    }
    assert rows[..|rows|] == rows;
  }

  /** Removes the isolated nodes, and their labels, from the graph. */
  method RemoveIsolates(nodes: seq<string>, labels: map<string, string>, edges: set<Edge>)
    returns (kept: seq<string>, keptLabels: map<string, string>)
    ensures kept == WithoutIsolates(nodes, edges)
    ensures keptLabels == Restrict(labels, kept)
  {
    kept := [];
    for i := 0 to |nodes|
      invariant kept == Filter(nodes[..i], n => Incident(n, edges))
    {
      assert nodes[..i + 1][..i] == nodes[..i];
      if Incident(nodes[i], edges) {
        kept := kept + [nodes[i]];
      }
    }
    assert nodes[..|nodes|] == nodes;
    keptLabels := map n | n in labels && n in kept :: labels[n];
  }

  /** The colour loop over the remaining nodes. */
  method PaintNodes(nodes: seq<string>) returns (colors: seq<Color>)
    ensures colors == Colors(nodes)
  {
    colors := [];
    for i := 0 to |nodes|
      invariant |colors| == i
      invariant forall j :: 0 <= j < i ==> colors[j] == NodeColor(nodes[j])
    {
      var n := nodes[i];
      if Contains(n, "Policy") {
        colors := colors + [LightGreen];
      } else if Contains(n, "Claim") {
        colors := colors + [SkyBlue];
      } else if Contains(n, "ReserveModel") {
        colors := colors + [LightCoral];
      } else {
        colors := colors + [Grey];
      }
    }
  }
}
