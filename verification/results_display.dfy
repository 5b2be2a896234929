/** What the result card shows (src/components/diagnosis/ResultsDisplay.tsx):
    the summary's fields, with fall-backs when there is no summary or its
    confidence is NaN or 0. */
module ResultsDisplay {
  import opened Wrappers
  import opened ImageAnalysis

  /** The placeholder scores shown before any analysis, colours as listed. */
  const DefaultScores: seq<EmotionScore> := [
    EmotionScore("Anger", 0, "bg-chart-5"),
    EmotionScore("Disgust", 0, "bg-chart-4"),
    EmotionScore("Fear", 0, "bg-chart-3"),
    EmotionScore("Happiness", 0, "bg-chart-2"),
    EmotionScore("Sadness", 0, "bg-chart-1"),
    EmotionScore("Surprise", 0, "bg-chart-2")]

  datatype Shown = Shown(diagnosis: Diagnosis, confidence: real, isPD: bool, emotionScores: seq<EmotionScore>)

  /** `confidence || 0`: NaN and 0 are falsy and both show as 0. */
  function ShownConfidence(c: Number): (r: real)
    ensures c.NaN? ==> r == 0.0
    ensures c.Num? ==> r == c.value
  {
    match c
    case NaN => 0.0
    case Num(x) => if x == 0.0 then 0.0 else x
  }

  /** The card's values: the summary's diagnosis (never empty, so `|| "NPD"`
      only applies without a summary), its confidence through `|| 0`, and
      its scores (an array, so never replaced, even when empty). */
  function Show(result: Option<Summary>): (s: Shown)
    ensures result.None? ==> s == Shown(NPD, 0.0, false, DefaultScores)
    ensures result.Some? ==> s.diagnosis == result.value.diagnosis && s.emotionScores == result.value.emotionScores
    ensures s.isPD <==> s.diagnosis == PD
    ensures result.Some? ==> s.confidence == ShownConfidence(result.value.confidence)
  {
    match result
    case None => Shown(NPD, 0.0, false, DefaultScores)
    case Some(r) => Shown(r.diagnosis, ShownConfidence(r.confidence), r.diagnosis == PD, r.emotionScores)
  }

  /** An analysis of no files shows confidence 0, NPD, and no scores at all. */
  lemma NoFilesShowsZero(patientInfo: Option<PatientInfo>)
    ensures Show(Some(AnalyzeImages([], patientInfo))) == Shown(NPD, 0.0, false, [])
  {
    assert PdCount([]) == 0 && NpdCount([]) == 0;
  }

  /** The card warns of PD exactly when PD markers outnumber NPD markers. */
  lemma CardWarnsOnPdMajority(names: seq<string>, patientInfo: Option<PatientInfo>)
    ensures Show(Some(AnalyzeImages(names, patientInfo))).isPD <==> PdCount(names) > NpdCount(names)
  {
  }
}
