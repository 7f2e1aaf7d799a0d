/** The two SQLite tables of app.py, `metadata` (assets) and `claims`, as sequences of rows in
    rowid order, and the pure functions the route handlers' SQL statements compute over them. */
module Tables {
  import opened Wrappers
  import opened Seqs
  import opened SqlLike
  import opened Scoring

  /** A `metadata` row. Every text column is nullable: a field missing from the JSON body is NULL.
      (`type` is a Dafny keyword, hence `typ`.) */
  datatype Asset = Asset(
    id: int,
    name: Option<string>,
    typ: Option<string>,
    tags: Option<string>,
    description: Option<string>,
    linkedTo: Option<string>)

  /** A `claims` row; `score` is `fraud_score` in tenths and `verdict` is `label`. */
  datatype Claim = Claim(id: int, amount: real, history: real, score: nat, verdict: Label)

  /** AUTOINCREMENT ids: positive, below the next id to hand out, increasing in rowid order. */
  ghost predicate AssetIdsFresh(rows: seq<Asset>, next: int)
  {
    && (forall i :: 0 <= i < |rows| ==> 1 <= rows[i].id < next)
    && (forall i, j :: 0 <= i < j < |rows| ==> rows[i].id < rows[j].id)
  }

  ghost predicate ClaimIdsFresh(rows: seq<Claim>, next: int)
  {
    && (forall i :: 0 <= i < |rows| ==> 1 <= rows[i].id < next)
    && (forall i, j :: 0 <= i < j < |rows| ==> rows[i].id < rows[j].id)
  }

  /** Every stored score and label is what the rule gives for the stored amount and history. */
  ghost predicate ScoredByRule(rows: seq<Claim>)
  {
    forall i :: 0 <= i < |rows| ==> ScoreClaim(rows[i].amount, rows[i].history) == RuleScore(rows[i].score, rows[i].verdict)
  }

  // ---------------------------------------------------------------- UPDATE metadata ... WHERE id=?

  /** `UPDATE metadata SET name=?, type=?, tags=?, description=? WHERE id=?`. */
  function Updated(rows: seq<Asset>, id: int, name: Option<string>, typ: Option<string>,
                   tags: Option<string>, description: Option<string>): (r: seq<Asset>)
    ensures |r| == |rows|
    ensures forall i :: 0 <= i < |r| ==> r[i].id == rows[i].id && r[i].linkedTo == rows[i].linkedTo
    ensures forall i :: 0 <= i < |r| && rows[i].id != id ==> r[i] == rows[i]
    ensures forall i :: 0 <= i < |r| && rows[i].id == id ==>
              r[i].name == name && r[i].typ == typ && r[i].tags == tags && r[i].description == description
  {
    seq(|rows|, i requires 0 <= i < |rows| =>
      if rows[i].id == id then rows[i].(name := name, typ := typ, tags := tags, description := description)
      else rows[i])
  }

  /** Updating an id no row carries leaves the table as it was. */
  lemma UpdateUnknownIdIsNoop(rows: seq<Asset>, id: int, name: Option<string>, typ: Option<string>,
                              tags: Option<string>, description: Option<string>)
    requires forall a :: a in rows ==> a.id != id
    ensures Updated(rows, id, name, typ, tags, description) == rows
  {
    var r := Updated(rows, id, name, typ, tags, description);
    forall i | 0 <= i < |rows| ensures r[i] == rows[i] {
      assert rows[i] in rows;
    }
  }

  /** Repeating an update changes nothing further. */
  lemma UpdateIdempotent(rows: seq<Asset>, id: int, name: Option<string>, typ: Option<string>,
                         tags: Option<string>, description: Option<string>)
    ensures Updated(Updated(rows, id, name, typ, tags, description), id, name, typ, tags, description)
         == Updated(rows, id, name, typ, tags, description)
  {
  }

  lemma UpdatedKeepsIds(rows: seq<Asset>, next: int, id: int, name: Option<string>, typ: Option<string>,
                        tags: Option<string>, description: Option<string>)
    requires AssetIdsFresh(rows, next)
    ensures AssetIdsFresh(Updated(rows, id, name, typ, tags, description), next)
  {
  }

  // ---------------------------------------------------------------- DELETE FROM metadata WHERE id=?

  /** `DELETE FROM metadata WHERE id=?`. */
  function Deleted(rows: seq<Asset>, id: int): (r: seq<Asset>)
    ensures forall a :: a in r <==> a in rows && a.id != id
  {
    Filter(rows, (a: Asset) => a.id != id)
  }

  /** Deleting an id no row carries leaves the table as it was. */
  lemma DeleteUnknownIdIsNoop(rows: seq<Asset>, id: int)
    requires forall a :: a in rows ==> a.id != id
    ensures Deleted(rows, id) == rows
  {
    FilterKeepsAll(rows, (a: Asset) => a.id != id);
  }

  /** A second delete of the same id finds nothing more to remove. */
  lemma DeleteIdempotent(rows: seq<Asset>, id: int)
    ensures Deleted(Deleted(rows, id), id) == Deleted(rows, id)
  {
    DeleteUnknownIdIsNoop(Deleted(rows, id), id);
  }

  /** Deleting rows keeps the remaining ids fresh and in rowid order. */
  lemma DeletedKeepsIds(rows: seq<Asset>, next: int, id: int)
    requires AssetIdsFresh(rows, next)
    ensures AssetIdsFresh(Deleted(rows, id), next)
  {
    FilterKeepsIds(rows, next, (a: Asset) => a.id != id);
  }

  lemma {:induction false} FilterKeepsIds(rows: seq<Asset>, next: int, p: Asset -> bool)
    requires AssetIdsFresh(rows, next)
    ensures AssetIdsFresh(Filter(rows, p), next)
    decreases |rows|
  {
    if rows != [] {
      var prefix, last := rows[..|rows| - 1], rows[|rows| - 1];
      assert AssetIdsFresh(prefix, next);
      FilterKeepsIds(prefix, next, p);
      var kept := Filter(prefix, p);
      if p(last) {
        assert Filter(rows, p) == kept + [last];
        forall i | 0 <= i < |kept| ensures kept[i].id < last.id {
          assert kept[i] in prefix;
          var k :| 0 <= k < |prefix| && prefix[k] == kept[i];
          assert rows[k] == kept[i];
        }
        assert 1 <= last.id < next;
        Extend(kept, last, next);
      } else {
        assert Filter(rows, p) == kept;
      }
    }
  }

  lemma Extend(kept: seq<Asset>, last: Asset, next: int)
    requires AssetIdsFresh(kept, next) && 1 <= last.id < next
    requires forall i :: 0 <= i < |kept| ==> kept[i].id < last.id
    ensures AssetIdsFresh(kept + [last], next)
  {
    var r := kept + [last];
    forall i, j | 0 <= i < j < |r| ensures r[i].id < r[j].id {
      if j == |kept| {
        assert r[j] == last && r[i] == kept[i];
      } else {
        assert r[j] == kept[j] && r[i] == kept[i];
      }
    }
  }

  // ---------------------------------------------------------------- SELECT * FROM metadata WHERE tags LIKE ?

  /** The rows kept by `WHERE tags LIKE ?` with the pattern built in Python as '%' + tag + '%'
      (so the tag is a string here); a NULL `tags` never matches. */
  predicate TagMatches(a: Asset, tag: string)
  {
    a.tags.Some? && Like(a.tags.value, "%" + tag + "%")
  }

  function Search(rows: seq<Asset>, tag: string): (r: seq<Asset>)
    ensures forall a :: a in r <==> a in rows && a.tags.Some? && Like(a.tags.value, "%" + tag + "%")
  {
    Filter(rows, (a: Asset) => TagMatches(a, tag))
  }

  /** For a tag with no wildcard, a row matches exactly when its tags contain the tag up to ASCII case. */
  lemma SearchLiteralTag(rows: seq<Asset>, tag: string, a: Asset)
    requires Literal(tag)
    ensures a in Search(rows, tag) <==> a in rows && a.tags.Some? && ContainsIgnoringCase(a.tags.value, tag)
  {
    if a.tags.Some? {
      SearchPatternMeaning(a.tags.value, tag);
    }
  }

  /** An empty tag returns every row whose tags are not NULL. */
  lemma SearchEmptyTag(rows: seq<Asset>, a: Asset)
    ensures a in Search(rows, "") <==> a in rows && a.tags.Some?
  {
    if a.tags.Some? {
      SearchPatternMeaning(a.tags.value, "");
      assert OccursIgnoringCase(a.tags.value, "", 0);
    }
  }

  /** Results come in table order: searching a concatenation concatenates the results. */
  lemma SearchKeepsOrder(front: seq<Asset>, back: seq<Asset>, tag: string)
    ensures Search(front + back, tag) == Search(front, tag) + Search(back, tag)
  {
    FilterAppend(front, back, (a: Asset) => TagMatches(a, tag));
  }

  // ---------------------------------------------------------------- the dashboard's COUNT(*) queries

  /** `SELECT COUNT(*) FROM claims WHERE label='Suspicious'`. */
  function CountSuspicious(rows: seq<Claim>): (n: nat)
    ensures n <= |rows|
    ensures n == |rows| <==> forall i :: 0 <= i < |rows| ==> rows[i].verdict == Suspicious
    decreases |rows|
  {
    if rows == [] then 0
    else CountSuspicious(rows[..|rows| - 1]) + if rows[|rows| - 1].verdict == Suspicious then 1 else 0
  }

  /** round(x, 1) of Python on an exact quotient n / d, in units of the last kept digit:
      the nearest integer, ties to the even one. */
  function RoundHalfEven(n: nat, d: nat): (r: nat)
    requires d > 0
    ensures 2 * (n - r * d) <= d && 2 * (r * d - n) <= d
    ensures (2 * (n - r * d) == d || 2 * (r * d - n) == d) ==> r % 2 == 0
  {
    var q, rem := n / d, n % d;
    assert n == q * d + rem;
    assert (q + 1) * d == q * d + d;
    if 2 * rem < d then q
    else if 2 * rem > d then q + 1
    else if q % 2 == 0 then q
    else q + 1
  }

  /** Multiplication by a natural number is monotone. */
  lemma {:induction false} MulMonotone(a: int, b: int, d: nat)
    requires a >= b
    ensures a * d >= b * d
    decreases a - b
  {
    if a > b {
      MulMonotone(a - 1, b, d);
      assert a * d == (a - 1) * d + d;
    }
  }

  /** Within half a unit of k * d, a multiple r * d has r == k. */
  lemma NearestMultiple(r: int, k: int, d: nat)
    requires d > 0
    requires 2 * (r * d - k * d) <= d && 2 * (k * d - r * d) <= d
    ensures r == k
  {
    if r > k {
      assert (k + 1) * d == k * d + d;
      MulMonotone(r, k + 1, d);
    } else if r < k {
      assert (r + 1) * d == r * d + d;
      MulMonotone(k, r + 1, d);
    }
  }

  /** The dashboard's fraud rate, `round(suspicious / total * 100, 1)` or 0 without claims,
      in tenths of a percent. */
  function FraudRateTenths(suspicious: nat, total: nat): (r: nat)
    ensures total == 0 ==> r == 0
    ensures total > 0 ==> 2 * (1000 * suspicious - r * total) <= total && 2 * (r * total - 1000 * suspicious) <= total
    ensures suspicious <= total ==> r <= 1000
    ensures 0 < suspicious == total ==> r == 1000
    ensures total > 0 && (2 * (1000 * suspicious - r * total) == total || 2 * (r * total - 1000 * suspicious) == total) ==> r % 2 == 0
  {
    if total == 0 then 0
    else
      var r := RoundHalfEven(1000 * suspicious, total);
      assert suspicious <= total ==> r <= 1000 by {
        if suspicious <= total && r > 1000 {
          MulMonotone(r, 1001, total);
        }
      }
      assert suspicious == total ==> r == 1000 by {
        if suspicious == total {
          NearestMultiple(r, 1000, total);
        }
      }
      r
  }

  lemma FraudRateExamples()
    ensures FraudRateTenths(0, 0) == 0
    ensures FraudRateTenths(3, 10) == 300
    ensures FraudRateTenths(1, 3) == 333
    ensures FraudRateTenths(1, 16) == 62
  {
  }

  /** What the dashboard shows, with the fraud rate in tenths of a percent. */
  datatype Dashboard = Dashboard(totalClaims: nat, suspiciousClaims: nat, fraudRateTenths: nat, totalAssets: nat)

  function DashboardOf(assets: seq<Asset>, claims: seq<Claim>): (d: Dashboard)
    ensures d.totalClaims == |claims| && d.totalAssets == |assets|
    ensures d.suspiciousClaims <= d.totalClaims
    ensures d.fraudRateTenths <= 1000
    ensures d.totalClaims == 0 ==> d.fraudRateTenths == 0
    ensures 0 < d.suspiciousClaims == d.totalClaims ==> d.fraudRateTenths == 1000
  {
    var suspicious := CountSuspicious(claims);
    Dashboard(|claims|, suspicious, FraudRateTenths(suspicious, |claims|), |assets|)
  }

  // ---------------------------------------------------------------- train_model's data frame

  /** Fewer rows than this and train_model refuses to fit. */
  const MinTrainingRows: nat := 10

  /** The classifier. A RandomForestClassifier fitted with a fixed random_state is determined by the
      data it was fitted on, so the model is that data; its predictions are foreign. */
  datatype Classifier = Forest(features: seq<seq<real>>, targets: seq<int>)

  /** The feature row [claim_amount, claim_history, fraud_score]. */
  function Features(amount: real, history: real, score: nat): (f: seq<real>)
    ensures |f| == 3 && f[0] == amount && f[1] == history && f[2] == score as real / 10.0
  {
    [amount, history, ScoreValue(score)]
  }

  function TrainingFeatures(rows: seq<Claim>): (x: seq<seq<real>>)
    ensures |x| == |rows|
    ensures forall i :: 0 <= i < |rows| ==> x[i] == Features(rows[i].amount, rows[i].history, rows[i].score)
  {
    seq(|rows|, i requires 0 <= i < |rows| => Features(rows[i].amount, rows[i].history, rows[i].score))
  }

  /** The `label_bin` column: 1 for "Suspicious", 0 for anything else. */
  function TrainingTargets(rows: seq<Claim>): (y: seq<int>)
    ensures |y| == |rows|
    ensures forall i :: 0 <= i < |rows| ==> (y[i] == 1 <==> rows[i].verdict == Suspicious)
    ensures forall i :: 0 <= i < |rows| ==> (y[i] == 0 <==> rows[i].verdict != Suspicious)
  {
    seq(|rows|, i requires 0 <= i < |rows| => if LabelText(rows[i].verdict) == "Suspicious" then 1 else 0)
  }

  /** A forest fitted on targets of a single class knows one class only: its `predict_proba` has
      one column, so asking for column 1 fails. */
  predicate OneClass(c: Classifier)
  {
    forall i, j :: 0 <= i < |c.targets| && 0 <= j < |c.targets| ==> c.targets[i] == c.targets[j]
  }

  function Sum(y: seq<int>): int
    decreases |y|
  {
    if y == [] then 0 else Sum(y[..|y| - 1]) + y[|y| - 1]
  }

  /** The training targets count the same claims as the dashboard's suspicious count. */
  lemma {:induction false} TargetsCountSuspicious(rows: seq<Claim>)
    ensures Sum(TrainingTargets(rows)) == CountSuspicious(rows)
    decreases |rows|
  {
    if rows != [] {
      var prefix := rows[..|rows| - 1];
      TargetsCountSuspicious(prefix);
      assert TrainingTargets(rows)[..|rows| - 1] == TrainingTargets(prefix);
    }
  }

  /** On rows the rule scored, the target is 1 exactly for amounts above 10000. */
  lemma TargetsFollowAmount(rows: seq<Claim>, i: int)
    requires ScoredByRule(rows) && 0 <= i < |rows|
    ensures TrainingTargets(rows)[i] == 1 <==> rows[i].amount > 10000.0
  {
    assert ScoreClaim(rows[i].amount, rows[i].history).verdict == rows[i].verdict;
  }

  /** Training on a table where no stored amount exceeds 10000 (so every label is "OK") fits a
      one-class forest. */
  lemma AllOkTrainsOneClass(rows: seq<Claim>)
    requires ScoredByRule(rows)
    requires forall i :: 0 <= i < |rows| ==> rows[i].amount <= 10000.0
    ensures OneClass(Forest(TrainingFeatures(rows), TrainingTargets(rows)))
  {
    forall i | 0 <= i < |rows| ensures TrainingTargets(rows)[i] == 0 {
      TargetsFollowAmount(rows, i);
    }
  }

  /** With a claim on each side of the amount threshold, training sees both classes. */
  lemma MixedAmountsTrainTwoClasses(rows: seq<Claim>, i: int, j: int)
    requires ScoredByRule(rows)
    requires 0 <= i < |rows| && 0 <= j < |rows|
    requires rows[i].amount > 10000.0 && rows[j].amount <= 10000.0
    ensures !OneClass(Forest(TrainingFeatures(rows), TrainingTargets(rows)))
  {
    TargetsFollowAmount(rows, i);
    TargetsFollowAmount(rows, j);
  }
}
