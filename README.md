# Insurance metadata catalogue and claim scoring, modelled in Dafny

The system is a small Flask service (`app.py`) over a SQLite database with two tables:
`metadata`, which holds assets (name, type, tags, description and an optional `linked_to` parent),
and `claims`, which holds scored insurance claims. A standalone script (`graph.py`) draws a lineage
graph from the same assets. This project models their core in Dafny:

- **Scoring** (`scoring.dfy`): the fixed fraud rule `score_claim`. Scores are kept in integer
  tenths, so 0.3 is 3 and the four possible outcomes are exact. Also here: Python's `int()` on a
  float, and the 0.5 threshold of the learned classifier.
- **SqlLike** (`like.dfy`): SQLite's default `LIKE`, which the tag search uses, and what the
  pattern `'%' + tag + '%'` means.
- **Tables** (`tables.dfy`): the two tables as sequences of rows in rowid order. It holds the pure
  functions the SQL statements compute (`UPDATE … WHERE id=?`, `DELETE … WHERE id=?`, the
  `LIKE` search, the dashboard's counts and fraud rate) and the data frame that `train_model`
  builds.
- **Catalog** (`catalog.dfy`): a class `Catalog` whose fields are the two tables, their
  AUTOINCREMENT counters and the process-wide `model`. Every route handler except the static
  `/lineage_html` page has a method; `/lineage`'s is `ShowLineage`, which builds the graph of
  `lineage.dfy` from the asset table. The global `ROLE` string is a parameter of every handler
  that checks it.
- **Graphs** (`graphs.dfy`): the NetworkX steps both lineage builders share. Each distinct
  `"{name}_{type}"` key is one node, labelled by the first row that produces it. Isolated nodes
  are removed, and each remaining node gets a colour by keyword precedence.
- **Lineage** (`lineage.dfy`): the `/lineage` route's graph. An edge runs from a guessed parent key
  (the link plus `_Policy` when the link mentions "Policy", plus `_Claim` otherwise) to each linked
  row.
- **Heuristic** (`heuristic.dfy`): `graph.py`'s graph. Edges run from every key mentioning "Policy"
  to every key mentioning "Claim", and from every "Claim" key to every "ReserveModel" key.
- `strings.dfy`, `seqs.dfy` and `wrappers.dfy` hold the helpers: Python's substring `in`, an
  order-preserving filter, and `Option`/`Result`.

Three behaviours of the code are easy to misread:

- The node key puts an underscore between name and type (`f"{name}_{typ}"`, app.py:194). It is
  not the plain concatenation of the two.
- Search binds the pattern `'%' + tag + '%'`, built in Python, to `tags LIKE ?` (app.py:122).
  That match ignores ASCII case, and `%` and `_` inside the tag act as wildcards. It is not a
  case-sensitive substring test. A missing tag fails while the pattern is built, before any SQL
  runs. `SqlLike.SearchPatternMeaning` and `SqlLike.WildcardExample` show both halves.
- With the assets `[(A, Policy, null), (B, Claim, "A")]`, the code guesses the parent key
  `"A_Claim"`, because "A" does not mention "Policy". So no edge is drawn, and both nodes are
  dropped as isolated (`Lineage.UnresolvedLinkExample`). A link edge appears only when the link
  text itself mentions "Policy" or names a claim (`Lineage.ResolvedLinkExample`).

## Model

| member | source | states |
|---|---|---|
| Scoring.ScoreClaim | app.py:50-57 | The score is one of 0, 0.3, 0.7, 1.0. The 0.7 part is present iff amount > 10000, and the 0.3 part iff history > 2. The label is Suspicious iff score ≥ 0.7, which is iff amount > 10000. |
| Scoring.ScoreClaimExamples | app.py:50-57 | Both thresholds are strict (10000 and 2 score 0), and the rule has four outcomes. |
| Scoring.TruncateTowardZero | app.py:251 | `int()` truncates toward zero: the result lies within one unit of x, on the zero side. |
| Scoring.MlLabel | app.py:256 | The ML label is Suspicious iff the probability is ≥ 0.5. |
| Scoring.LabelText | app.py:56 | The stored label text is "Suspicious" exactly for Suspicious and "OK" exactly for OK, so the comparison `x == 'Suspicious'` at app.py:274 recovers the label. |
| Scoring.ScoreValue | app.py:50-57 | A score held in tenths reads as a real ten times smaller and never negative; this is the `fraud_score` value stored, returned and used as a feature (app.py:141, 254, 275). |
| Strings.Contains | app.py:202 | Defines Python's `t in s` on str, also used at app.py:214-218, graph.py:34-36 and graph.py:60-64; `Strings.ContainsAt` states its meaning. |
| Strings.ContainsAt | app.py:214-221 | Python's `t in s` holds iff t occurs at some index of s. |
| SqlLike.Like | app.py:122 | Defines SQLite's LIKE without ESCAPE: `%` matches any run, `_` any one character, other characters up to ASCII case. Its meaning is stated by the lemmas below. |
| SqlLike.PercentMatchesAll | app.py:122 | The pattern `%` matches every string. |
| SqlLike.LiteralThenPercent | app.py:122 | A wildcard-free t followed by `%` matches exactly the strings that t prefixes, ignoring ASCII case. |
| SqlLike.LeadingPercent | app.py:122 | A leading `%` matches iff the rest of the pattern matches some suffix. |
| SqlLike.SearchPatternMeaning | app.py:122 | For a wildcard-free tag t, `s LIKE '%'+t+'%'` holds iff t occurs in s, ignoring ASCII case. |
| SqlLike.WildcardExample | app.py:122 | The tag "a_c" finds "ABC", although "ABC" does not contain "a_c" in any case. |
| Tables.Updated | app.py:98-100 | The update keeps the length, every id and every `linked_to`. It leaves rows with another id unchanged, and gives matching rows the four new fields. |
| Tables.UpdateUnknownIdIsNoop | app.py:98-100 | Updating an id that no row carries leaves the table unchanged. |
| Tables.UpdateIdempotent | app.py:98-100 | Repeating the same update changes nothing further. |
| Tables.UpdatedKeepsIds | app.py:98-100 | An update keeps the ids positive, below the counter and increasing. |
| Tables.Deleted | app.py:112 | A row survives iff it was present and its id differs from the deleted one. |
| Tables.DeleteUnknownIdIsNoop | app.py:112 | Deleting an id that no row carries leaves the table unchanged. |
| Tables.DeleteIdempotent | app.py:112 | A second delete of the same id removes nothing. |
| Tables.DeletedKeepsIds | app.py:112 | A delete keeps the ids positive, below the counter and increasing. |
| Tables.FilterKeepsIds | app.py:112 | Any row filter keeps those id invariants. |
| Tables.Search | app.py:122 | A row is returned iff it is in the table, its tags are not NULL, and they are LIKE `'%'+tag+'%'`. |
| Tables.SearchLiteralTag | app.py:122 | For a wildcard-free tag, a row is returned iff its tags contain the tag, ignoring ASCII case. |
| Tables.SearchEmptyTag | app.py:122 | The empty tag returns exactly the rows whose tags are not NULL. |
| Tables.SearchKeepsOrder | app.py:122 | Results keep table order: searching a concatenation concatenates the results. |
| Tables.CountSuspicious | app.py:157 | The count is at most the number of claims, and equals it iff every claim is Suspicious. |
| Tables.RoundHalfEven | app.py:165 | `round(n/d)`: the nearest integer, with ties going to the even one. |
| Tables.FraudRateTenths | app.py:165 | With no claims the rate is 0. Otherwise it is within half a tenth of 100·s/t, at most 100% when s ≤ t, and exactly 100% when all claims are suspicious. |
| Tables.FraudRateExamples | app.py:165 | 0/0 gives 0, 3/10 gives 30.0%, 1/3 gives 33.3% and 1/16 gives 6.2% (the tie goes to even). |
| Tables.DashboardOf | app.py:153-165 | The total counts match the table lengths, suspicious ≤ total, the rate lies between 0 and 100%, it is 0 with no claims, and 100% when all claims are suspicious. |
| Tables.TrainingFeatures | app.py:275 | There is one feature row [amount, history, score] per claim, in table order. |
| Tables.TrainingTargets | app.py:274 | There is one target per claim: 1 iff the label is Suspicious, and 0 otherwise. |
| Tables.OneClass | app.py:255 | Defines a forest fitted on a single class: all its targets agree, so `predict_proba` has no class-1 column and `[0][1]` fails. |
| Tables.Features | app.py:254 | The feature row has three entries: amount, history and the score as a real. The same row is used for training at app.py:275. |
| Tables.AllOkTrainsOneClass | app.py:274-279 | On rule-scored rows with no amount above 10000, training fits a one-class forest. |
| Tables.MixedAmountsTrainTwoClasses | app.py:274-279 | A claim on each side of the amount threshold makes the forest see both classes. |
| Tables.TargetsCountSuspicious | app.py:274 | The targets sum to the dashboard's suspicious count. |
| Tables.TargetsFollowAmount | app.py:274 | On rows the rule scored, the target is 1 iff the amount is > 10000. |
| Catalog.IsAdmin | app.py:63 | Defines the role gate: only the exact string "admin" passes. |
| Catalog.StatusCode | app.py:63-64 | A reply is 200 iff it is done, 403 iff access was denied, and 400 iff there were too few rows to train (app.py:271-272). |
| Catalog.ScoreStatus | app.py:128-129 | /fraud_score answers 200 iff it scored, and 403 iff the role is not admin. |
| Catalog.SearchStatus | app.py:118-124 | /search answers 200 iff the pattern was built, and 500 iff the tag is missing. |
| Catalog.MlStatus | app.py:254-256 | /fraud_score_ml answers 500 iff the class-1 column is missing, and 200 otherwise. |
| Catalog.OrZero | app.py:132-133 | `data.get(key, 0)`: the value sent, or 0 when the field is absent. |
| Catalog.Catalog.Valid | app.py:24-44 | Defines the state every handler keeps: asset and claim ids are positive, strictly increasing and below their AUTOINCREMENT counters (app.py:26, 38); every id ever issued is below the asset counter, and every stored asset id was issued; every stored claim carries the rule's score and label of its amount and history. AddAsset's "never issued before" rests on it. |
| Catalog.Catalog.constructor | app.py:12-47 | An empty database sets both counters to 1, and `model` to whatever was loaded at start-up. |
| Catalog.Catalog.AddAsset | app.py:61-80 | A non-admin gets 403 and nothing changes. An admin's call appends a row with the next id and all five fields as given, and bumps the counter. The new id was never issued before, including to since-deleted rows. Nothing else changes. |
| Catalog.Catalog.GetAssets | app.py:83-88 | Returns every row in rowid order, with increasing ids. |
| Catalog.Catalog.UpdateAsset | app.py:91-103 | A non-admin gets 403 and nothing changes. An admin's call makes the table `Updated(...)` and reports "Asset updated" whether or not a row matched. |
| Catalog.Catalog.DeleteAsset | app.py:106-115 | A non-admin gets 403 and nothing changes. An admin's call makes the table `Deleted(...)`, keeps the counter, and reports success either way. |
| Catalog.Catalog.SearchAssets | app.py:118-124 | A missing tag is an error. Otherwise the result is `Search(assets, tag)`, made only of table rows with non-NULL tags. |
| Catalog.Catalog.FraudScore | app.py:126-147 | A non-admin gets 403 and nothing changes. An admin's call treats missing fields as 0, stores the rule's score and label with the next id, and returns them. |
| Catalog.Catalog.GetDashboard | app.py:149-175 | The reply is DashboardOf the tables: suspicious ≤ total, and a rate ≤ 100%. |
| Catalog.Catalog.ShowLineage | app.py:177-209 | The graph drawn by /lineage is LineageGraph of the asset table in rowid order, and none of its nodes is isolated. |
| Catalog.Catalog.FraudScoreMl | app.py:247-259 | The rule runs on the amount and `int(history)`. With no model the ML part says so. A model fitted on one class has no class-1 column, and the call fails there. Otherwise the ML part is the model's class-1 probability on [amount, history, score] and the 0.5-threshold label. Nothing is stored and no role is checked. |
| Catalog.Catalog.TrainModel | app.py:261-283 | With fewer than 10 claims the reply is 400 with the source's message, and the model is kept. Otherwise the model becomes the classifier fitted on the features and targets of all claims. |
| Catalog.AppendKeepsIds | app.py:26 | Appending a row carrying the counter value keeps the ids fresh once the counter is bumped. |
| Catalog.IdsAreNeverReused | app.py:26 | Add, delete, add: the second id is larger than the first, and the deleted id is gone from the table. |
| Graphs.Shown | app.py:194 | Defines how an f-string renders a nullable column: NULL reads as "None". |
| Graphs.NodeKey | app.py:194 | Defines the key f"{name}_{typ}"; graph.py:25 builds the same key. |
| Graphs.NodeKeyParts | app.py:194 | The key reads back as the shown name, one underscore and the shown type. |
| Graphs.NodeLabel | app.py:196 | Defines the label f"{name}\n({typ})"; graph.py:27 builds the same label. |
| Graphs.NodeLabelParts | app.py:196 | The label reads back as the shown name, a line break, and the shown type in parentheses. |
| Graphs.Nodes | app.py:192-197 | The nodes are pairwise distinct, and a key is a node iff some row produces it (same loop as graph.py:23-29). |
| Graphs.TwoNodes | app.py:192-197 | Two rows with different keys give two nodes, in row order. |
| Graphs.FirstLabels | app.py:192-197 | The labelled keys are exactly the keys the rows produce. |
| Graphs.LabelFromSomeRow | app.py:195-196 | Every stored label is the label of some row producing that key. |
| Graphs.ReorderingKeepsFirstLabels | app.py:192-197 | When rows sharing a key share a label, any permutation of the rows gives the same label map. |
| Graphs.FirstLabelWins | app.py:195-196 | The first row producing a key supplies that node's label. |
| Graphs.AddNodes | app.py:190-197 | The `seen`-set loop yields Nodes(rows) and FirstLabels(rows). |
| Graphs.Incident | app.py:208 | Defines what `nx.isolates` tests: a node is not isolated iff some edge starts or ends at it (same test at graph.py:54). |
| Graphs.WithoutIsolates | app.py:207-209 | A node is kept iff it touches an edge (same as graph.py:54-55). |
| Graphs.Restrict | app.py:207-209 | Labels go with the nodes that remain, unchanged. |
| Graphs.RemoveIsolates | app.py:207-209 | The removal loop yields WithoutIsolates and the matching labels. |
| Graphs.NodeColor | app.py:212-221 | The colour is green iff the key mentions "Policy"; blue iff "Claim" but not "Policy"; coral iff only "ReserveModel"; grey otherwise (same as graph.py:58-67). |
| Graphs.Colors | app.py:212-221 | There is one colour per node, in node order. |
| Graphs.PaintNodes | app.py:212-221 | The colour loop yields Colors(nodes). |
| Lineage.Linked | app.py:201 | Defines `if linked_to:`: the link is neither NULL nor empty. |
| Lineage.LinkSource | app.py:202 | The guessed parent key starts with the link plus "_", is green when the link mentions "Policy", and is always green or blue. |
| Lineage.LinkEdges | app.py:200-205 | Every edge joins two existing nodes. |
| Lineage.LinkEdgeMeaning | app.py:200-205 | An edge exists iff both ends are nodes, and some row with a non-empty link produces it (guessed parent → the row's own key). |
| Lineage.AddLinkEdges | app.py:200-205 | The edge loop yields exactly LinkEdges. |
| Lineage.LineageGraph | app.py:189-221 | Nodes are distinct keys that touch an edge, every edge joins drawn nodes, labels are the first rows' labels of the drawn nodes, and colours follow NodeColor. |
| Lineage.BuildLineage | app.py:189-221 | The three loops and the isolate removal compute LineageGraph, and no drawn node is isolated. |
| Lineage.EdgesLeaveColouredParents | app.py:202-219 | Every edge starts at a green or blue node. |
| Lineage.UnresolvedLinkExample | app.py:200-209 | A policy A and a claim B linked to "A" give no edge and no nodes. |
| Lineage.ResolvedLinkEdge | app.py:200-205 | A claim linked to "Policy1" gets the single edge Policy1_Policy → Claim1_Claim. |
| Lineage.ResolvedLinkExample | app.py:200-209 | In that case both nodes are drawn, in row order. |
| Heuristic.Mentioning | graph.py:34-36 | A node is selected iff it contains the word. |
| Heuristic.Pairs | graph.py:43-44 | The inner loop appends one pair per element of ys. |
| Heuristic.Cross | graph.py:42-44 | Defines the x-major list the nested loops build: Pairs for each x in order. |
| Heuristic.PairsMembers | graph.py:43-44 | The inner loop appends exactly the pairs (x, y) with y taken from the list. |
| Heuristic.CrossMembers | graph.py:42-44 | The nested loops append exactly the pairs from xs × ys. |
| Heuristic.EdgeList | graph.py:39-49 | The edges list holds exactly the Policy→Claim and Claim→ReserveModel pairs over the nodes. |
| Heuristic.EdgeSet | graph.py:51 | `add_edges_from` keeps exactly the listed edges, each once. |
| Heuristic.HeuristicEdges | graph.py:34-49 | An edge exists iff it is Policy-key → Claim-key or Claim-key → ReserveModel-key over the keys present. |
| Heuristic.EveryEdgeTouchesClaim | graph.py:41-49 | Every edge has an end that mentions "Claim". |
| Heuristic.SelfLoop | graph.py:34-44 | A key mentioning both "Policy" and "Claim" is joined to itself. |
| Heuristic.HeuristicGraph | graph.py:17-67 | The edges are HeuristicEdges of the keys present. Nodes are distinct keys that touch an edge, and labels and colours are as in the lineage view. |
| Heuristic.AppendRow | graph.py:43-44 | The inner loop appends Pairs(x, ys) to the list. |
| Heuristic.AppendPairs | graph.py:42-44 | The nested loops append Cross(xs, ys) to the list. |
| Heuristic.BuildEdges | graph.py:34-49 | The partition and both nested loops build EdgeList(nodes). |
| Heuristic.BuildHeuristic | graph.py:17-67 | The script's steps compute HeuristicGraph, and no drawn node is isolated. |
| Heuristic.NoGreyNodes | graph.py:53-67 | No node that survives isolate removal is grey. |
| Heuristic.NoClaimsNoGraph | graph.py:41-55 | When no key mentions "Claim", there are no edges and no nodes. |
| Heuristic.ReorderingKeepsGraph | graph.py:23-51 | Reordering the rows leaves the edges and the set of drawn nodes unchanged. |
| Heuristic.SelfLoopSurvives | graph.py:23-55 | The first row producing a key that mentions "Policy" and "Claim" gives a drawn, self-looped node with that row's label. |
| Heuristic.SharedKeyTakesFirstLabel | graph.py:25-29 | Of two rows sharing such a key, the first one labels the node. |
| Heuristic.SharedKeyEitherOrder | graph.py:25-29 | In either order the node is drawn with its self-loop; swapping the two rows swaps the label. |
| Heuristic.ReorderingKeepsLabels | graph.py:23-29 | When rows sharing a key share a label, any permutation of the rows draws the same labels. |

## Left out

- HTTP and Flask: request parsing, JSON encoding and the rendering of replies are left out. Replies are datatypes. Their status codes are given by `Catalog.StatusCode`, `Catalog.ScoreStatus`, `Catalog.SearchStatus` and `Catalog.MlStatus`; a reply without an error field there is a 200.
- The dashboard's HTML text is left out; only its four numbers are modelled.
- SQLite I/O is left out. The tables are sequences held by the `Catalog` object, and connections, commits and storage failures are not modelled.
- Process start-up: the result of `joblib.load` and `os.path.exists` of the model file is a constructor parameter. The constructor models `init_db` on an empty database; since `CREATE TABLE IF NOT EXISTS` (app.py:24-44) keeps an existing database's rows, starting on a non-empty database is any state satisfying `Valid()`. `app.run` (serving requests) is left out.
- `joblib.dump` of a trained model is left out, so persistence across restarts is not modelled.
- Drawing is left out: `spring_layout`, matplotlib, the PNG in `BytesIO`, `plt.show`, and `graph.py`'s `print` calls. The model stops at the node list, labels, edge set and colour list passed to `nx.draw`.
- `/lineage_html` and its template only serve a static page and are left out.
- `train_model.py` and `create.py` are not part of this model.
- Catalog.Catalog.TrainModel: scikit-learn is foreign code. A classifier fitted with a fixed `random_state` is represented by the data it was fitted on.
- Catalog.Catalog.FraudScoreMl: `predict_proba` is a function parameter. For a classifier that saw both classes, it stands for the class-1 column, `[0][1]`. Its values are not constrained, for example to lie in [0, 1].
- Catalog.Catalog.FraudScoreMl: the one-class test looks at the training targets. A model loaded from disk is taken to be one of this model's classifiers.
- Catalog.Catalog.FraudScoreMl: at app.py:250-251 `float()` accepts numeric strings such as "12.5", `int()` accepts integer strings such as "3", and both raise on other strings. The `Option<real>` inputs cannot express either case.
- Catalog.Catalog.TrainModel: `fillna(0)` is not modelled, because every stored claim has all three features.
- Catalog.Catalog.FraudScoreMl: concurrent `train_model` and `fraud_score_ml` requests race on the global `model`; that race is not modelled, since each handler runs atomically here.
- Catalog.Catalog.FraudScore: JSON values are taken to be numbers. A string or other non-numeric `claim_amount`/`claim_history` raises a TypeError in the comparison, and that case is not modelled.
- A request without a JSON body is not modelled either; `data.get` on None raises there.
- Catalog.Catalog.FraudScore: the claim history is a real number, as a JSON number can be. The column's INTEGER affinity is not modelled.
- Scoring.ScoreClaim: scores are exact tenths. Binary floating-point representation of 0.3, 0.7 and their sum is not modelled.
- Tables.FraudRateTenths: rounds the exact quotient half-to-even. Python rounds the float `s / t * 100`, whose binary error can move a value lying on a tie to either side. Such cases are not modelled.
- SqlLike.Like: only the 26 ASCII letters fold, as in SQLite's default build. ICU case folding and `PRAGMA case_sensitive_like` are not modelled.
- Catalog.Catalog.SearchAssets: a missing `tag` raises a TypeError (an HTTP 500) in the source. Here it is the error value `TagMissing`.
- Strings.Contains: Python's `in` compares code points, as `seq<char>` does. A Python str can hold lone surrogates, which a Dafny char cannot; such strings are not modelled.
