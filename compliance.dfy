/** The scoring step of the Compliance page (src/pages/Compliance.jsx, `analyzeCompliance`): the
    model's reply is parsed, or replaced by a one-alert fallback when it is not JSON; a missing or
    non-list `alerts` becomes the empty list; the alerts are counted by priority and the score the
    model supplied is overwritten by 100 minus five points per weighted alert, never below 0. A
    request that fails, a reply that parses to a primitive, or one whose alert list holds `null`
    makes the step throw and no score is produced. */
module Compliance {
  import opened Strings

  /** One element of the alert list. A missing `priority` is `None`; like any value other than
      "High" and "Medium" it counts as low (a number or a string in the list reads as an alert
      without a priority). `NullAlert` is a `null` element, on which `a.priority` throws. */
  datatype Alert =
    | Alert(priority: Option<string>, issue: string, location: string, suggestedFix: string)
    | NullAlert

  /** The `alerts` member of the parsed reply: a list, or anything else (missing included). */
  datatype AlertsField = AlertList(items: seq<Alert>) | NotAList

  /** How the request ended. `RequestFailed`: the fetch rejected, or the response was not ok,
      and the step throws before any parsing. Otherwise, what `JSON.parse` made of the reply
      text: an object (an array included), a primitive (`null`, a number, a string or a
      boolean, on which reading or setting `alerts` throws in strict mode), or nothing because
      the text is not JSON. */
  datatype Reply =
    | RequestFailed
    | Json(complianceScore: Option<int>, alerts: AlertsField)
    | JsonPrimitive
    | NotJson(rawText: string)

  datatype Analysis = Analysis(complianceScore: int, alerts: seq<Alert>)

  /** What the scoring step ends with: the analysis, or the error it throws. */
  datatype Outcome = Scored(analysis: Analysis) | Threw

  predicate IsHigh(a: Alert) { a.Alert? && a.priority == Some("High") }

  predicate IsMedium(a: Alert) { a.Alert? && a.priority == Some("Medium") }

  predicate IsLow(a: Alert) { !IsHigh(a) && !IsMedium(a) }

  /** Number of alerts of each bucket, counted from the end so that a loop over a prefix extends
      them one alert at a time. */
  function HighCount(alerts: seq<Alert>): nat
    decreases |alerts|
  {
    if alerts == [] then 0
    else HighCount(alerts[..|alerts| - 1]) + (if IsHigh(alerts[|alerts| - 1]) then 1 else 0)
  }

  function MediumCount(alerts: seq<Alert>): nat
    decreases |alerts|
  {
    if alerts == [] then 0
    else MediumCount(alerts[..|alerts| - 1]) + (if IsMedium(alerts[|alerts| - 1]) then 1 else 0)
  }

  function LowCount(alerts: seq<Alert>): nat
    decreases |alerts|
  {
    if alerts == [] then 0
    else LowCount(alerts[..|alerts| - 1]) + (if IsLow(alerts[|alerts| - 1]) then 1 else 0)
  }

  function Deduction(alerts: seq<Alert>): nat {
    3 * HighCount(alerts) + 2 * MediumCount(alerts) + LowCount(alerts)
  }

  /** What one alert costs: 15 points for High, 10 for Medium, 5 for anything else. */
  function Weight(a: Alert): nat {
    if IsHigh(a) then 3 else if IsMedium(a) then 2 else 1
  }

  function Max(a: int, b: int): int { if a < b then b else a }

  /** `Math.max(0, 100 - deduction * 5)`. */
  function ScoreOf(alerts: seq<Alert>): (score: int)
    ensures 0 <= score <= 100
  {
    Max(0, 100 - Deduction(alerts) * 5)
  }

  /** The alert the page invents when the reply is not JSON. */
  function FallbackAlert(rawText: string): Alert {
    Alert(Some("Medium"), "Unable to parse AI response", "Document", Prefix(rawText, 200))
  }

  /** The alert list after parsing and normalisation (none for a failed request or a primitive,
      which throw). */
  function AlertsOf(reply: Reply): seq<Alert> {
    match reply
    case NotJson(raw) => [FallbackAlert(raw)]
    case Json(_, AlertList(items)) => items
    case Json(_, NotAList) => []
    case JsonPrimitive => []
    case RequestFailed => []
  }

  /** The step throws: the request failed, the parsed reply is a primitive, or some alert is
      `null`. */
  predicate Throws(reply: Reply) {
    reply.RequestFailed? || reply.JsonPrimitive? || exists i :: 0 <= i < |AlertsOf(reply)| && AlertsOf(reply)[i].NullAlert?
  }

  /** The analysis returned for a reply: its normalised alerts and their score. */
  function AnalysisOf(reply: Reply): Analysis {
    Analysis(ScoreOf(AlertsOf(reply)), AlertsOf(reply))
  }

  /** What the scoring step ends with for a reply. */
  function OutcomeOf(reply: Reply): Outcome {
    if Throws(reply) then Threw else Scored(AnalysisOf(reply))
  }

  /** The post-processing of `analyzeCompliance`: normalise the alerts, count them by priority
      in one pass and overwrite the score. */
  method Analyze(reply: Reply) returns (result: Outcome)
    ensures result == OutcomeOf(reply)
    ensures result.Scored? ==> result.analysis.complianceScore == ScoreOf(AlertsOf(reply))
  {
    var alerts: seq<Alert>;
    match reply {
      case NotJson(raw) =>
        alerts := [FallbackAlert(raw)];
      case RequestFailed =>
        return Threw;
      case JsonPrimitive =>
        return Threw;
      case Json(_, field) =>
        if field.AlertList? {
          alerts := field.items;
        } else {
          alerts := [];
        }
    }
    var high, medium, low := 0, 0, 0;
    var i := 0;
    while i < |alerts|
      invariant 0 <= i <= |alerts|
      invariant forall j :: 0 <= j < i ==> alerts[j].Alert?
      invariant high == HighCount(alerts[..i])
      invariant medium == MediumCount(alerts[..i])
      invariant low == LowCount(alerts[..i])
    {
      assert alerts[..i + 1][..i] == alerts[..i];
      var a := alerts[i];
      if a.NullAlert? {
        return Threw;
      }
      if a.priority == Some("High") {
        high := high + 1;
      } else if a.priority == Some("Medium") {
        medium := medium + 1;
      } else {
        low := low + 1;
      }
      i := i + 1;
    }
    assert alerts[..i] == alerts;
    var deduction := high * 3 + medium * 2 + low;
    result := Scored(Analysis(Max(0, 100 - deduction * 5), alerts));
  }

  /** Every alert lands in exactly one bucket. */
  lemma {:induction false} BucketsPartition(alerts: seq<Alert>)
    ensures HighCount(alerts) + MediumCount(alerts) + LowCount(alerts) == |alerts|
    decreases |alerts|
  {
    if alerts != [] {
      BucketsPartition(alerts[..|alerts| - 1]);
    }
  }

  /** The deduction is the sum of the alerts' weights; appending one alert adds its weight. */
  lemma DeductionStep(alerts: seq<Alert>, a: Alert)
    ensures Deduction(alerts + [a]) == Deduction(alerts) + Weight(a)
  {
    assert (alerts + [a])[..|alerts|] == alerts;
  }

  /** Each alert costs at least one point of deduction. */
  lemma DeductionAtLeastCount(alerts: seq<Alert>)
    ensures |alerts| <= Deduction(alerts) <= 3 * |alerts|
  {
    BucketsPartition(alerts);
  }

  /** The score is 100 exactly when there are no alerts. */
  lemma FullScoreIffNoAlerts(alerts: seq<Alert>)
    ensures ScoreOf(alerts) == 100 <==> alerts == []
  {
    DeductionAtLeastCount(alerts);
  }

  /** One more alert lowers the score by five points per unit of its weight, down to 0: adding
      an alert never raises the score. */
  lemma AlertNeverRaisesScore(alerts: seq<Alert>, a: Alert)
    ensures ScoreOf(alerts + [a]) == Max(0, ScoreOf(alerts) - 5 * Weight(a))
    ensures ScoreOf(alerts + [a]) <= ScoreOf(alerts)
    ensures ScoreOf(alerts) > 0 ==> ScoreOf(alerts + [a]) < ScoreOf(alerts)
  {
    DeductionStep(alerts, a);
  }

  /** The score the model supplied plays no part: two replies with the same alerts get the same
      outcome. */
  lemma SuppliedScoreOverwritten(s1: Option<int>, s2: Option<int>, alerts: AlertsField)
    ensures OutcomeOf(Json(s1, alerts)) == OutcomeOf(Json(s2, alerts))
    ensures AnalysisOf(Json(s1, alerts)).complianceScore == ScoreOf(AlertsOf(Json(s1, alerts)))
  {
  }

  /** A reply whose `alerts` is not a list is scored as having no alerts. */
  lemma NonListAlertsScoreFull(score: Option<int>)
    ensures OutcomeOf(Json(score, NotAList)) == Scored(Analysis(100, []))
  {
  }

  /** A reply that parses to a primitive throws before any alert is looked at. */
  lemma PrimitiveReplyThrows()
    ensures OutcomeOf(JsonPrimitive) == Threw
  {
  }

  /** A failed request (a rejected fetch or a response that is not ok) throws, and the
      analysis shown stays the previous one. */
  lemma FailedRequestThrows(previous: Option<Analysis>)
    ensures OutcomeOf(RequestFailed) == Threw
    ensures AnalysisAfter(previous, RequestFailed) == previous
  {
  }

  /** One `null` anywhere in the alert list makes the whole step throw, whatever the other
      alerts are; a list without `null` is always scored. */
  lemma NullAlertThrows(score: Option<int>, items: seq<Alert>)
    ensures OutcomeOf(Json(score, AlertList(items))) == Threw <==> NullAlert in items
  {
    if NullAlert in items {
      var i :| 0 <= i < |items| && items[i] == NullAlert;
      assert AlertsOf(Json(score, AlertList(items)))[i].NullAlert?;
    }
  }

  /** A reply that is not JSON ends with one Medium alert and a score of 90. */
  lemma FallbackScoresNinety(rawText: string)
    ensures OutcomeOf(NotJson(rawText)) == Scored(Analysis(90, [FallbackAlert(rawText)]))
    ensures IsMedium(FallbackAlert(rawText))
  {
    var a := [FallbackAlert(rawText)];
    assert |"Medium"| != |"High"|;
    assert !IsHigh(a[0]) && IsMedium(a[0]);
    assert a[..0] == [];
    assert HighCount(a) == 0 && MediumCount(a) == 1 && LowCount(a) == 0;
  }

  /** `analysis?.complianceScore ?? 0`: the score shown, 0 before any analysis. */
  function DisplayedScore(analysis: Option<Analysis>): int {
    if analysis.Some? then analysis.value.complianceScore else 0
  }

  /** The analysis shown after a scoring step: the new one, or the previous one when the step
      threw (the handler reports the error and does not call `setAnalysis`). */
  function AnalysisAfter(previous: Option<Analysis>, reply: Reply): Option<Analysis> {
    match OutcomeOf(reply)
    case Scored(a) => Some(a)
    case Threw => previous
  }

  /** The score shown is 0 before any analysis and always lies in [0, 100]. */
  lemma DisplayedScoreInRange(previous: Option<Analysis>, reply: Reply)
    requires previous.Some? ==> 0 <= previous.value.complianceScore <= 100
    ensures DisplayedScore(None) == 0
    ensures 0 <= DisplayedScore(AnalysisAfter(previous, reply)) <= 100
  {
  }
}
