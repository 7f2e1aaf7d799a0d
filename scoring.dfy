/** The fixed fraud rule `score_claim` of app.py and the numeric conversions around it.
    Scores are kept in integer tenths (0.3 is 3), so the rule's four results are exact. */
module Scoring {

  datatype Label = OK | Suspicious

  /** The text stored in the `label` column and returned in replies. */
  function LabelText(l: Label): (s: string)
    ensures s == "Suspicious" <==> l == Suspicious
    ensures s == "OK" <==> l == OK
  {
    match l
    case OK => "OK"
    case Suspicious => "Suspicious"
  }

  /** A rule result: the score in tenths and the label derived from it (`label` is a Dafny keyword, hence `verdict`). */
  datatype RuleScore = RuleScore(tenths: nat, verdict: Label)

  /** The score as the real number the source stores in `fraud_score` and feeds to the classifier. */
  function ScoreValue(tenths: nat): (v: real)
    ensures v * 10.0 == tenths as real && v >= 0.0
  {
    tenths as real / 10.0
  }

  /** score_claim: 0.7 for an amount above 10000, 0.3 more for a history above 2,
      "Suspicious" from 0.7 upwards. */
  function ScoreClaim(amount: real, history: real): (r: RuleScore)
    ensures r.tenths == 0 || r.tenths == 3 || r.tenths == 7 || r.tenths == 10
    ensures (r.tenths == 7 || r.tenths == 10) <==> amount > 10000.0
    ensures (r.tenths == 3 || r.tenths == 10) <==> history > 2.0
    ensures r.verdict == Suspicious <==> r.tenths >= 7
    ensures r.verdict == Suspicious <==> amount > 10000.0
  {
    var fromAmount := if amount > 10000.0 then 7 else 0;
    var score := fromAmount + if history > 2.0 then 3 else 0;
    RuleScore(score, if score >= 7 then Suspicious else OK)
  }

  /** The thresholds themselves add nothing; the examples of the rule's four outcomes. */
  lemma ScoreClaimExamples()
    ensures ScoreClaim(10000.0, 2.0) == RuleScore(0, OK)
    ensures ScoreClaim(15000.0, 0.0) == RuleScore(7, Suspicious)
    ensures ScoreClaim(5000.0, 5.0) == RuleScore(3, OK)
    ensures ScoreClaim(15000.0, 5.0) == RuleScore(10, Suspicious)
    ensures ScoreClaim(100.0, 0.0) == RuleScore(0, OK)
  {
  }

  /** Python's int() on a float: truncation toward zero. */
  function TruncateTowardZero(x: real): (n: int)
    ensures x >= 0.0 ==> n >= 0 && n as real <= x < n as real + 1.0
    ensures x < 0.0 ==> n <= 0 && n as real - 1.0 < x <= n as real
  {
    if x >= 0.0 then x.Floor else -((-x).Floor)
  }

  /** The classifier's decision: "Suspicious" when the predicted probability reaches 0.5. */
  function MlLabel(probability: real): (l: Label)
    ensures l == Suspicious <==> probability >= 0.5
  {
    if probability >= 0.5 then Suspicious else OK
  }
}
