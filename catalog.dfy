/** The route handlers of app.py that read and write the two tables and the global `model`.
    The process-wide ROLE string is passed to every handler that checks it. */
module Catalog {
  import opened Wrappers
  import opened Scoring
  import opened Tables
  import Graphs
  import Lineage

  /** JSON replies of the handlers: a message with status 200, 403 for a non-admin role,
      400 when there is too little data to train. */
  datatype Reply = Done(message: string) | AccessDenied | NotEnoughData(message: string)

  function StatusCode(r: Reply): (code: nat)
    ensures code == 200 <==> r.Done?
    ensures code == 403 <==> r.AccessDenied?
    ensures code == 400 <==> r.NotEnoughData?
  {
    match r
    case Done(_) => 200
    case AccessDenied => 403
    case NotEnoughData(_) => 400
  }

  /** Reply of /fraud_score. */
  datatype ScoreReply = Scored(score: nat, verdict: Label) | ScoreDenied

  /** Reply of /fraud_score_ml: the rule's result and what became of the classifier's part. */
  datatype MlReply = MlReply(ruleScore: nat, ruleVerdict: Label, ml: MlOutcome)

  /** No classifier loaded (`ml_available: False`); a one-class classifier, on which
      `predict_proba(X)[0][1]` raises IndexError (an HTTP 500); or a prediction. */
  datatype MlOutcome = NoModel | MissingClassColumn | Predicted(probability: real, verdict: Label)

  /** /fraud_score answers 403 to a non-admin role (app.py:128-129). */
  function ScoreStatus(r: ScoreReply): (code: nat)
    ensures code == 200 <==> r.Scored?
    ensures code == 403 <==> r.ScoreDenied?
  {
    if r.Scored? then 200 else 403
  }

  /** /fraud_score_ml fails with 500 exactly when `[0][1]` finds no class-1 column. */
  function MlStatus(r: MlReply): (code: nat)
    ensures code == 500 <==> r.ml == MissingClassColumn
    ensures code == 200 <==> r.ml != MissingClassColumn
  {
    if r.ml == MissingClassColumn then 500 else 200
  }

  /** /search without a `tag` parameter: `'%' + None` raises a TypeError. */
  datatype SearchError = TagMissing

  /** /search answers 500 when the pattern cannot be built, 200 with the rows otherwise. */
  function SearchStatus(r: Result<seq<Asset>, SearchError>): (code: nat)
    ensures code == 200 <==> r.Success?
    ensures code == 500 <==> r.Failure?
  {
    if r.Success? then 200 else 500
  }

  const AdminRole: string := "admin"

  /** `ROLE != "admin"` refuses every role but exactly "admin". */
  predicate IsAdmin(role: string)
  {
    role == AdminRole
  }

  /** `data.get(key, 0)` for a numeric field: the value sent, or 0 when the key is absent. */
  function OrZero(v: Option<real>): (r: real)
    ensures v.Some? ==> r == v.value
    ensures v.None? ==> r == 0.0
  {
    match v
    case None => 0.0
    case Some(x) => x
  }

  class Catalog {
    /** The `metadata` table, in rowid order. */
    var assets: seq<Asset>
    /** The AUTOINCREMENT counter of `metadata`: the id the next insert receives. */
    var nextAssetId: int
    /** The `claims` table, in rowid order. */
    var claims: seq<Claim>
    var nextClaimId: int
    /** The global `model`: None until a classifier is loaded or trained. */
    var model: Option<Classifier>
    /** Every asset id handed out so far, including those of deleted rows. */
    ghost var issued: set<int>

    ghost predicate Valid()
      reads this
    {
      && 1 <= nextAssetId && AssetIdsFresh(assets, nextAssetId)
      && (forall x :: x in issued ==> x < nextAssetId)
      && (forall i :: 0 <= i < |assets| ==> assets[i].id in issued)
      && 1 <= nextClaimId && ClaimIdsFresh(claims, nextClaimId)
      && ScoredByRule(claims)
    }

    /** init_db on an empty database; `loaded` is what joblib.load found at start-up, if anything. */
    constructor (loaded: Option<Classifier>)
      ensures Valid()
      ensures assets == [] && claims == [] && nextAssetId == 1 && nextClaimId == 1 && model == loaded
      ensures issued == {}
    {
      assets, claims := [], [];
      nextAssetId, nextClaimId := 1, 1;
      issued := {};
      model := loaded;
    }

    /** POST /add_asset. */
    method AddAsset(role: string, name: Option<string>, typ: Option<string>, tags: Option<string>,
                    description: Option<string>, linkedTo: Option<string>) returns (reply: Reply)
      requires Valid()
      modifies this
      ensures Valid()
      ensures !IsAdmin(role) ==> reply == AccessDenied && unchanged(this)
      ensures IsAdmin(role) ==>
        && reply == Done("Asset added successfully")
        && assets == old(assets) + [Asset(old(nextAssetId), name, typ, tags, description, linkedTo)]
        && nextAssetId == old(nextAssetId) + 1
        && claims == old(claims) && nextClaimId == old(nextClaimId) && model == old(model)
        && old(nextAssetId) !in old(issued) && issued == old(issued) + {old(nextAssetId)}
    {
      if !IsAdmin(role) {
        return AccessDenied;
      }
      var row := Asset(nextAssetId, name, typ, tags, description, linkedTo);
      AppendKeepsIds(assets, row, nextAssetId);
      assets := assets + [row];
      issued := issued + {nextAssetId};
      nextAssetId := nextAssetId + 1;
      reply := Done("Asset added successfully");
    }

    /** GET /assets: every row, in rowid order, which is the order of insertion. */
    method GetAssets() returns (rows: seq<Asset>)
      requires Valid()
      ensures rows == assets
      ensures forall i, j :: 0 <= i < j < |rows| ==> rows[i].id < rows[j].id
    {
      rows := assets;
    }

    /** PUT /update_asset/<id>: overwrites name, type, tags and description of the matching row,
        keeps its id and linked_to, and reports success whether or not a row matched. */
    method UpdateAsset(role: string, id: int, name: Option<string>, typ: Option<string>,
                       tags: Option<string>, description: Option<string>) returns (reply: Reply)
      requires Valid()
      modifies this
      ensures Valid()
      ensures !IsAdmin(role) ==> reply == AccessDenied && unchanged(this)
      ensures IsAdmin(role) ==>
        && reply == Done("Asset updated")
        && assets == Updated(old(assets), id, name, typ, tags, description)
        && nextAssetId == old(nextAssetId) && issued == old(issued)
        && claims == old(claims) && nextClaimId == old(nextClaimId) && model == old(model)
    {
      if !IsAdmin(role) {
        return AccessDenied;
      }
      UpdatedKeepsIds(assets, nextAssetId, id, name, typ, tags, description);
      assets := Updated(assets, id, name, typ, tags, description);
      reply := Done("Asset updated");
    }

    /** DELETE /delete_asset/<id>: removes the matching row, if any, and reports success either way.
        The counter is untouched, so a deleted id is never handed out again. */
    method DeleteAsset(role: string, id: int) returns (reply: Reply)
      requires Valid()
      modifies this
      ensures Valid()
      ensures !IsAdmin(role) ==> reply == AccessDenied && unchanged(this)
      ensures IsAdmin(role) ==>
        && reply == Done("Asset deleted")
        && assets == Deleted(old(assets), id)
        && nextAssetId == old(nextAssetId) && issued == old(issued)
        && claims == old(claims) && nextClaimId == old(nextClaimId) && model == old(model)
    {
      if !IsAdmin(role) {
        return AccessDenied;
      }
      DeletedKeepsIds(assets, nextAssetId, id);
      assets := Deleted(assets, id);
      reply := Done("Asset deleted");
    }

    /** GET /search?tag=: the rows whose tags are LIKE '%' + tag + '%', in table order. */
    method SearchAssets(tag: Option<string>) returns (result: Result<seq<Asset>, SearchError>)
      requires Valid()
      ensures tag.None? ==> result == Failure(TagMissing)
      ensures tag.Some? ==> result == Success(Search(assets, tag.value))
      ensures result.Success? ==> forall a :: a in result.value ==> a in assets && a.tags.Some?
    {
      if tag.None? {
        return Failure(TagMissing);
      }
      result := Success(Search(assets, tag.value));
    }

    /** POST /fraud_score: scores the claim by the rule, stores it and returns the score and label.
        A field missing from the body counts as 0. */
    method FraudScore(role: string, amount: Option<real>, history: Option<real>) returns (reply: ScoreReply)
      requires Valid()
      modifies this
      ensures Valid()
      ensures !IsAdmin(role) ==> reply == ScoreDenied && unchanged(this)
      ensures IsAdmin(role) ==>
        var rule := ScoreClaim(OrZero(amount), OrZero(history));
        && reply == Scored(rule.tenths, rule.verdict)
        && claims == old(claims) + [Claim(old(nextClaimId), OrZero(amount), OrZero(history), rule.tenths, rule.verdict)]
        && nextClaimId == old(nextClaimId) + 1
        && assets == old(assets) && nextAssetId == old(nextAssetId) && model == old(model)
        && issued == old(issued)
    {
      if !IsAdmin(role) {
        return ScoreDenied;
      }
      var a, h := OrZero(amount), OrZero(history);
      var rule := ScoreClaim(a, h);
      var row := Claim(nextClaimId, a, h, rule.tenths, rule.verdict);
      assert ScoredByRule(claims + [row]) by {
        forall i | 0 <= i < |claims| + 1
          ensures ScoreClaim((claims + [row])[i].amount, (claims + [row])[i].history)
               == RuleScore((claims + [row])[i].score, (claims + [row])[i].verdict)
        {
          if i < |claims| {
            assert (claims + [row])[i] == claims[i];
          }
        }
      }
      assert ClaimIdsFresh(claims + [row], nextClaimId + 1) by {
        forall i | 0 <= i < |claims| + 1 ensures 1 <= (claims + [row])[i].id < nextClaimId + 1 {
          if i < |claims| {
            assert (claims + [row])[i] == claims[i];
          }
        }
        forall i, j | 0 <= i < j < |claims| + 1 ensures (claims + [row])[i].id < (claims + [row])[j].id {
          assert (claims + [row])[i] == claims[i];
        }
      }
      claims := claims + [row];
      nextClaimId := nextClaimId + 1;
      reply := Scored(rule.tenths, rule.verdict);
    }

    /** POST /fraud_score_ml: the rule's result on float(amount) and int(history), and, when a
        classifier of two classes is loaded, the probability `predictProba` gives for class 1 on the
        feature row and the label at the 0.5 threshold. Nothing is stored and no role is checked. */
    method FraudScoreMl(amount: Option<real>, history: Option<real>,
                        predictProba: (Classifier, seq<real>) -> real) returns (reply: MlReply)
      requires Valid()
      ensures var h := TruncateTowardZero(OrZero(history)) as real;
              var rule := ScoreClaim(OrZero(amount), h);
              && reply.ruleScore == rule.tenths && reply.ruleVerdict == rule.verdict
              && (model.None? <==> reply.ml == NoModel)
              && (model.Some? && OneClass(model.value) <==> reply.ml == MissingClassColumn)
              && (model.Some? && !OneClass(model.value) ==>
                    && reply.ml.Predicted?
                    && reply.ml.probability == predictProba(model.value, Features(OrZero(amount), h, rule.tenths))
                    && (reply.ml.verdict == Suspicious <==> reply.ml.probability >= 0.5))
    {
      var a := OrZero(amount);
      var h := TruncateTowardZero(OrZero(history)) as real;
      var rule := ScoreClaim(a, h);
      if model.None? {
        reply := MlReply(rule.tenths, rule.verdict, NoModel);
      } else if OneClass(model.value) {
        reply := MlReply(rule.tenths, rule.verdict, MissingClassColumn);
      } else {
        var p := predictProba(model.value, Features(a, h, rule.tenths));
        reply := MlReply(rule.tenths, rule.verdict, Predicted(p, MlLabel(p)));
      }
    }

    /** POST /train_model: with at least 10 claims, fits a classifier on
        [claim_amount, claim_history, fraud_score] against label == "Suspicious" and replaces `model`;
        with fewer, answers 400 and keeps the old one. */
    method TrainModel() returns (reply: Reply)
      requires Valid()
      modifies this`model
      ensures Valid()
      ensures |claims| < MinTrainingRows ==>
        reply == NotEnoughData("Not enough data to train model (>=10 rows needed)") && model == old(model)
      ensures |claims| >= MinTrainingRows ==>
        reply == Done("ML model trained successfully")
        && model == Some(Forest(TrainingFeatures(claims), TrainingTargets(claims)))
    {
      if |claims| < MinTrainingRows {
        return NotEnoughData("Not enough data to train model (>=10 rows needed)");
      }
      model := Some(Forest(TrainingFeatures(claims), TrainingTargets(claims)));
      reply := Done("ML model trained successfully");
    }

    /** GET /lineage up to the drawing: the graph built from the `metadata` rows, in rowid order. */
    method ShowLineage() returns (v: Lineage.LineageView)
      requires Valid()
      ensures v == Lineage.LineageGraph(assets)
      ensures forall n :: n in v.nodes ==> Graphs.Incident(n, v.edges)
    {
      v := Lineage.BuildLineage(assets);
    }

    /** GET /dashboard: the claim counts, the fraud rate and the asset count. */
    method GetDashboard() returns (d: Dashboard)
      requires Valid()
      ensures d == DashboardOf(assets, claims)
      ensures d.suspiciousClaims == CountSuspicious(claims) <= |claims| == d.totalClaims
      ensures d.fraudRateTenths <= 1000
    {
      d := DashboardOf(assets, claims);
    }
  }

  lemma AppendKeepsIds(rows: seq<Asset>, row: Asset, next: int)
    requires AssetIdsFresh(rows, next) && row.id == next && 1 <= next
    ensures AssetIdsFresh(rows + [row], next + 1)
  {
    Extend(rows, row, next + 1);
  }

  /** Adding, deleting the new row and adding again never hands out the deleted id a second time. */
  method IdsAreNeverReused(c: Catalog) returns (first: int, second: int)
    requires c.Valid()
    modifies c
    ensures c.Valid()
    ensures first < second
    ensures forall a :: a in c.assets ==> a.id != first
    ensures exists a :: a in c.assets && a.id == second
  {
    var _ := c.AddAsset(AdminRole, Some("p"), Some("Policy"), None, None, None);
    first := c.assets[|c.assets| - 1].id;
    var _ := c.DeleteAsset(AdminRole, first);
    var _ := c.AddAsset(AdminRole, Some("p"), Some("Policy"), None, None, None);
    second := c.assets[|c.assets| - 1].id;
    assert c.assets[|c.assets| - 1] in c.assets;
  }
}
