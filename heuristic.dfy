/** graph.py, the older lineage script: nodes as in app.py, but edges from every policy to every
    claim and from every claim to every reserve model, whatever the rows' links say. */
module Heuristic {
  import opened Wrappers
  import opened Strings
  import opened Seqs
  import opened Tables
  import opened Graphs

  /** `[n for n in G.nodes if word in n]`. */
  function Mentioning(nodes: seq<string>, word: string): (r: seq<string>)
    ensures forall n :: n in r <==> n in nodes && Contains(n, word)
  {
    Filter(nodes, n => Contains(n, word))
  }

  /** What the inner loop appends for one x: (x, y) for every y, in order. */
  function Pairs(x: string, ys: seq<string>): (r: seq<Edge>)
    ensures |r| == |ys|
    decreases |ys|
  {
    if ys == [] then []
    else Pairs(x, ys[..|ys| - 1]) + [(x, ys[|ys| - 1])]
  }

  /** What the nested loops append: the pairs of xs and ys, x-major. */
  function Cross(xs: seq<string>, ys: seq<string>): (r: seq<Edge>)
    decreases |xs|
  {
    if xs == [] then []
    else Cross(xs[..|xs| - 1], ys) + Pairs(xs[|xs| - 1], ys)
  }

  /** The pairs for x are exactly the edges from x into ys. */
  lemma {:induction false} PairsMembers(x: string, ys: seq<string>, e: Edge)
    ensures e in Pairs(x, ys) <==> e.0 == x && e.1 in ys
    decreases |ys|
  {
    if ys != [] {
      var ys' := ys[..|ys| - 1];
      PairsMembers(x, ys', e);
      assert ys == ys' + [ys[|ys| - 1]];
    }
  }

  /** The cross product holds exactly the edges from xs into ys. */
  lemma {:induction false} CrossMembers(xs: seq<string>, ys: seq<string>, e: Edge)
    ensures e in Cross(xs, ys) <==> e.0 in xs && e.1 in ys
    decreases |xs|
  {
    if xs != [] {
      var xs' := xs[..|xs| - 1];
      CrossMembers(xs', ys, e);
      PairsMembers(xs[|xs| - 1], ys, e);
      assert xs == xs' + [xs[|xs| - 1]];
    }
  }

  /** The edge relation stated on keys alone: policy to claim, and claim to reserve model. */
  predicate HeuristicEdge(e: Edge, keys: set<string>)
  {
    e.0 in keys && e.1 in keys && HeuristicPair(e)
  }

  /** Policy to claim, or claim to reserve model, judged on the two keys' text alone. */
  predicate HeuristicPair(e: Edge)
  {
    (Contains(e.0, "Policy") && Contains(e.1, "Claim")) || (Contains(e.0, "Claim") && Contains(e.1, "ReserveModel"))
  }

  /** P x C + C x R over a set of keys, where P, C and R are the keys mentioning "Policy",
      "Claim" and "ReserveModel". */
  function HeuristicEdges(keys: set<string>): (es: set<Edge>)
    ensures forall e :: e in es <==> HeuristicEdge(e, keys)
  {
    (set p, c | p in keys && c in keys && Contains(p, "Policy") && Contains(c, "Claim") :: (p, c))
    + (set c, r | c in keys && r in keys && Contains(c, "Claim") && Contains(r, "ReserveModel") :: (c, r))
  }

  /** Every edge touches a key that mentions "Claim". */
  lemma EveryEdgeTouchesClaim(keys: set<string>, e: Edge)
    requires e in HeuristicEdges(keys)
    ensures Contains(e.0, "Claim") || Contains(e.1, "Claim")
  {
  }

  /** A key mentioning both "Policy" and "Claim" is joined to itself. */
  lemma SelfLoop(keys: set<string>, k: string)
    requires k in keys && Contains(k, "Policy") && Contains(k, "Claim")
    ensures (k, k) in HeuristicEdges(keys)
  {
    assert HeuristicEdge((k, k), keys);
  }

  /** The `edges` list the two nested loops build over the node list: exactly the heuristic edges
      over the nodes. */
  function EdgeList(nodes: seq<string>): (r: seq<Edge>)
    ensures forall e :: e in r <==> e.0 in nodes && e.1 in nodes && HeuristicPair(e)
  {
    var pc := Cross(Mentioning(nodes, "Policy"), Mentioning(nodes, "Claim"));
    var cr := Cross(Mentioning(nodes, "Claim"), Mentioning(nodes, "ReserveModel"));
    assert forall e :: e in pc + cr <==> e.0 in nodes && e.1 in nodes && HeuristicPair(e) by {
      forall e ensures e in pc + cr <==> e.0 in nodes && e.1 in nodes && HeuristicPair(e) {
        CrossMembers(Mentioning(nodes, "Policy"), Mentioning(nodes, "Claim"), e);
        CrossMembers(Mentioning(nodes, "Claim"), Mentioning(nodes, "ReserveModel"), e);
      }
    }
    pc + cr
  }

  /** G.add_edges_from: a DiGraph keeps each edge once. */
  function EdgeSet(edges: seq<Edge>): (es: set<Edge>)
    ensures forall e :: e in es <==> e in edges
  {
    set e | e in edges
  }

  /** What graph.py draws. */
  datatype HeuristicView = HeuristicView(nodes: seq<string>, labels: map<string, string>, edges: set<Edge>, colors: seq<Color>)

  /** The script's construction: dedup, partition, the two cross products, isolate removal, colours. */
  function HeuristicGraph(rows: seq<Asset>): (v: HeuristicView)
    ensures v.edges == HeuristicEdges(KeySet(rows))
    ensures forall n :: n in v.nodes <==> n in KeySet(rows) && Incident(n, v.edges)
    ensures forall i, j :: 0 <= i < j < |v.nodes| ==> v.nodes[i] != v.nodes[j]
    ensures forall n :: n in v.labels <==> n in v.nodes
    ensures forall n :: n in v.labels ==> v.labels[n] == FirstLabels(rows)[n]
    ensures v.colors == Colors(v.nodes)
  {
    var nodes := Nodes(rows);
    var edges := EdgeSet(EdgeList(nodes));
    assert edges == HeuristicEdges(KeySet(rows)) by {
      forall e ensures e in edges <==> HeuristicEdge(e, KeySet(rows)) {
      }
    }
    var kept := WithoutIsolates(nodes, edges);
    FilterDistinct(nodes, n => Incident(n, edges));
    HeuristicView(kept, Restrict(FirstLabels(rows), kept), edges, Colors(kept))
  }

  /** One more x appends its pairs. */
  lemma CrossStep(xs: seq<string>, i: int, ys: seq<string>)
    requires 0 <= i < |xs|
    ensures Cross(xs[..i + 1], ys) == Cross(xs[..i], ys) + Pairs(xs[i], ys)
  {
    assert xs[..i + 1][..i] == xs[..i];
  }

  /** One more y appends one pair. */
  lemma PairsStep(x: string, ys: seq<string>, j: int)
    requires 0 <= j < |ys|
    ensures Pairs(x, ys[..j + 1]) == Pairs(x, ys[..j]) + [(x, ys[j])]
  {
    assert ys[..j + 1][..j] == ys[..j];
  }

  /** The inner loop `for y in ys: edges.append((x, y))`. */
  method AppendRow(edges: seq<Edge>, x: string, ys: seq<string>) returns (out: seq<Edge>)
    ensures out == edges + Pairs(x, ys)
  {
    out := edges;
    for j := 0 to |ys|
      invariant out == edges + Pairs(x, ys[..j])
    {
      PairsStep(x, ys, j);
      out := out + [(x, ys[j])];
    }
    assert ys[..|ys|] == ys;
  }

  /** The nested loops `for x in xs: for y in ys: edges.append((x, y))`. */
  method AppendPairs(edges: seq<Edge>, xs: seq<string>, ys: seq<string>) returns (out: seq<Edge>)
    ensures out == edges + Cross(xs, ys)
  {
    out := edges;
    for i := 0 to |xs|
      invariant out == edges + Cross(xs[..i], ys)
    {
      CrossStep(xs, i, ys);
      out := AppendRow(out, xs[i], ys);
    }
    assert xs[..|xs|] == xs;
  }

  /** The partition into P, C and R and the two nested loops over it. */
  method BuildEdges(nodes: seq<string>) returns (edges: seq<Edge>)
    ensures edges == EdgeList(nodes)
  {
    var policies := Mentioning(nodes, "Policy");
    var claims := Mentioning(nodes, "Claim");
    var reserves := Mentioning(nodes, "ReserveModel");
    edges := [];
    edges := AppendPairs(edges, policies, claims);
    assert edges == Cross(policies, claims);
    edges := AppendPairs(edges, claims, reserves);
  }

  /** The script from the fetched rows to the colour list. */
  method BuildHeuristic(rows: seq<Asset>) returns (v: HeuristicView)
    ensures v == HeuristicGraph(rows)
    ensures forall n :: n in v.nodes ==> Incident(n, v.edges)
  {
    var nodes, labels := AddNodes(rows);
    var edges := BuildEdges(nodes);
    var edgeSet := EdgeSet(edges);
    var kept, keptLabels := RemoveIsolates(nodes, labels, edgeSet);
    var colors := PaintNodes(kept);
    v := HeuristicView(kept, keptLabels, edgeSet, colors);
  }

  /** No node that survives isolate removal is grey: each touches an edge, and every edge
      joins keys mentioning "Policy", "Claim" or "ReserveModel". */
  lemma NoGreyNodes(rows: seq<Asset>, i: int)
    requires 0 <= i < |HeuristicGraph(rows).nodes|
    ensures HeuristicGraph(rows).colors[i] != Grey
  {
    var v := HeuristicGraph(rows);
    var n := v.nodes[i];
    assert n in v.nodes;
    var e :| e in v.edges && (e.0 == n || e.1 == n);
    assert HeuristicEdge(e, KeySet(rows));
  }

  /** Without a key mentioning "Claim" there are no edges, so every node is isolated and dropped. */
  lemma NoClaimsNoGraph(rows: seq<Asset>)
    requires forall k :: k in KeySet(rows) ==> !Contains(k, "Claim")
    ensures HeuristicGraph(rows).edges == {} && HeuristicGraph(rows).nodes == []
  {
    var v := HeuristicGraph(rows);
    forall e | e in v.edges ensures false {
      EveryEdgeTouchesClaim(KeySet(rows), e);
    }
    FilterDropsAll(Nodes(rows), n => Incident(n, v.edges));
  }

  /** The edges, and the set of nodes drawn, depend only on which keys occur, not on row order. */
  lemma ReorderingKeepsGraph(rows: seq<Asset>, shuffled: seq<Asset>)
    requires multiset(rows) == multiset(shuffled)
    ensures HeuristicGraph(rows).edges == HeuristicGraph(shuffled).edges
    ensures forall n :: n in HeuristicGraph(rows).nodes <==> n in HeuristicGraph(shuffled).nodes
  {
    forall a ensures a in rows <==> a in shuffled {
      assert a in rows <==> a in multiset(rows);
      assert a in shuffled <==> a in multiset(shuffled);
    }
    assert KeySet(rows) == KeySet(shuffled);
  }

  /** A row that is the first to produce a key mentioning both "Policy" and "Claim" names a node
      that survives, with a self-loop and that row's label. */
  lemma SelfLoopSurvives(rows: seq<Asset>, i: int)
    requires 0 <= i < |rows|
    requires forall j :: 0 <= j < i ==> NodeKey(rows[j]) != NodeKey(rows[i])
    requires Contains(NodeKey(rows[i]), "Policy") && Contains(NodeKey(rows[i]), "Claim")
    ensures var v, k := HeuristicGraph(rows), NodeKey(rows[i]);
            (k, k) in v.edges && k in v.labels && v.labels[k] == NodeLabel(rows[i])
  {
    var v, k := HeuristicGraph(rows), NodeKey(rows[i]);
    assert rows[i] in rows;
    SelfLoop(KeySet(rows), k);
    FirstLabelWins(rows, i);
    assert Incident(k, v.edges);
  }

  /** Of two rows sharing a key that mentions "Policy" and "Claim", the first labels the node. */
  lemma SharedKeyTakesFirstLabel(first: Asset, second: Asset)
    requires NodeKey(first) == NodeKey(second)
    requires Contains(NodeKey(first), "Policy") && Contains(NodeKey(first), "Claim")
    ensures var v, k := HeuristicGraph([first, second]), NodeKey(first);
            (k, k) in v.edges && k in v.labels && v.labels[k] == NodeLabel(first)
  {
    var rows := [first, second];
    assert rows[0] == first;
    SelfLoopSurvives(rows, 0);
  }

  /** Only the labels depend on row order: two rows sharing such a key (for instance
      ("Claim_x", "Policy") and ("Claim", "x_Policy"), both keyed "Claim_x_Policy") give the
      same self-looped node, labelled after whichever row comes first. */
  lemma SharedKeyEitherOrder(a: Asset, b: Asset)
    requires NodeKey(a) == NodeKey(b)
    requires Contains(NodeKey(a), "Policy") && Contains(NodeKey(a), "Claim")
    ensures var k := NodeKey(a);
            && (k, k) in HeuristicGraph([a, b]).edges
            && k in HeuristicGraph([a, b]).labels && HeuristicGraph([a, b]).labels[k] == NodeLabel(a)
            && (k, k) in HeuristicGraph([b, a]).edges
            && k in HeuristicGraph([b, a]).labels && HeuristicGraph([b, a]).labels[k] == NodeLabel(b)
  {
    SharedKeyTakesFirstLabel(a, b);
    SharedKeyTakesFirstLabel(b, a);
  }

  /** Labels are order-independent when rows sharing a key share a label: then any permutation
      of the rows draws the same labelled nodes. */
  lemma ReorderingKeepsLabels(rows: seq<Asset>, shuffled: seq<Asset>)
    requires multiset(rows) == multiset(shuffled)
    requires forall a, b :: a in rows && b in rows && NodeKey(a) == NodeKey(b) ==> NodeLabel(a) == NodeLabel(b)
    ensures HeuristicGraph(rows).labels == HeuristicGraph(shuffled).labels
  {
    var v, w := HeuristicGraph(rows), HeuristicGraph(shuffled);
    ReorderingKeepsGraph(rows, shuffled);
    ReorderingKeepsFirstLabels(rows, shuffled);
    forall n ensures n in v.labels <==> n in w.labels {
      assert n in v.labels <==> n in v.nodes;
      assert n in w.labels <==> n in w.nodes;
    }
    forall n | n in v.labels ensures v.labels[n] == w.labels[n] {
      assert v.labels[n] == FirstLabels(rows)[n];
      assert w.labels[n] == FirstLabels(shuffled)[n];
    }
    SameEntries(v.labels, w.labels);
  }
}
