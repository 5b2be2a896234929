/** The filename-based analysis (src/utils/imageAnalysis.ts): every uploaded
    file is read only through its name, and the diagnosis is a vote of the
    PD / NPD markers found in the names. JavaScript numbers are modelled as
    exact reals with an explicit NaN. */
module ImageAnalysis {
  import opened Wrappers
  import opened Lists
  import opened Text

  /** The prefixes of `EMOTION_MAP` in its iteration order, and their emotions. */
  const EmotionKeys: seq<string> := ["ang", "dis", "fea", "hap", "sad", "sup"]
  const EmotionNames: seq<string> := ["anger", "disgust", "fear", "happiness", "sadness", "surprise"]
  /** The display order of the emotions and the chart colour of each. */
  const EmotionOrder: seq<string> := ["Anger", "Disgust", "Fear", "Happiness", "Sadness", "Surprise"]
  const Colors: seq<string> := ["bg-chart-1", "bg-chart-2", "bg-chart-3", "bg-chart-4", "bg-chart-5", "bg-chart-6"]

  function Min(a: int, b: int): int {
    if a < b then a else b
  }

  /** Position `k` starts what `/\.[^/.]+$/` matches: a dot followed by at
      least one character, none of them a dot or a slash, up to the end. */
  predicate Extension(s: string, k: int) {
    0 <= k && k + 1 < |s| && s[k] == '.' && forall j :: k < j < |s| ==> s[j] != '.' && s[j] != '/'
  }

  /** Scanning back from position `j`, past characters that are neither dot
      nor slash, for the dot that starts the extension. */
  function ExtensionFrom(s: string, j: nat): (r: Option<nat>)
    requires j <= |s|
    requires forall i :: j <= i < |s| ==> s[i] != '.' && s[i] != '/'
    ensures r.Some? ==> Extension(s, r.value)
    ensures r.None? ==> forall k :: 0 <= k < |s| ==> !Extension(s, k)
  {
    if j == 0 then None
    else if s[j - 1] == '.' then (if j < |s| then Some(j - 1) else None)
    else if s[j - 1] == '/' then None
    else ExtensionFrom(s, j - 1)
  }

  /** `replace(/\.[^/.]+$/, '')`: drops the extension, if there is one. */
  function StripExtension(s: string): (r: string)
    ensures |r| <= |s| && r == s[..|r|]
    ensures r == s <==> forall k :: 0 <= k < |s| ==> !Extension(s, k)
    ensures r != s ==> Extension(s, |r|)
  {
    match ExtensionFrom(s, |s|)
    case Some(k) => s[..k]
    case None => s
  }

  /** The base name the analysis reads: lower-cased, extension removed. */
  function BaseName(filename: string): (r: string)
    ensures |r| <= |filename|
    ensures forall i :: 0 <= i < |r| ==> r[i] == LowerChar(filename[i])
  {
    StripExtension(Lower(filename))
  }

  /** The emotion a base name denotes: the emotion whose key the name starts
      with; otherwise the first key, in map order, found anywhere in it;
      otherwise its first three characters. */
  function EmotionOf(base: string): (e: string)
    ensures forall k :: 0 <= k < |EmotionKeys| && OccursAt(base, EmotionKeys[k], 0) ==> e == EmotionNames[k]
    ensures forall k :: (0 <= k < |EmotionKeys| && (forall j :: 0 <= j < |EmotionKeys| ==> !OccursAt(base, EmotionKeys[j], 0)) &&
      Includes(base, EmotionKeys[k]) && (forall j :: 0 <= j < k ==> !Includes(base, EmotionKeys[j]))) ==> e == EmotionNames[k]
    ensures (forall j :: 0 <= j < |EmotionKeys| ==> !Includes(base, EmotionKeys[j])) ==> e == base[..Min(3, |base|)]
  {
    match FindIndex(EmotionKeys, (k: string) => OccursAt(base, k, 0))
    case Some(i) =>
      assert forall k :: 0 <= k < |EmotionKeys| && OccursAt(base, EmotionKeys[k], 0) ==> k == i by {
        forall k | 0 <= k < |EmotionKeys| && OccursAt(base, EmotionKeys[k], 0)
          ensures k == i
        {
          assert base[..3] == EmotionKeys[k] == EmotionKeys[i];
        }
      }
      EmotionNames[i]
    case None =>
      match FindIndex(EmotionKeys, (k: string) => Includes(base, k))
      case Some(i) => EmotionNames[i]
      case None => base[..Min(3, |base|)]
  }

  /** `charAt(0).toUpperCase() + slice(1)`. */
  function Capitalize(s: string): (r: string)
    ensures |r| == |s|
    ensures |s| > 0 ==> r[0] == UpperChar(s[0]) && r[1..] == s[1..]
  {
    if |s| == 0 then "" else [UpperChar(s[0])] + s[1..]
  }

  predicate Separator(c: char) {
    c == '_' || IsSpace(c)
  }

  /** `w` at position `i` matches one of the alternatives of
      `/[_\s]w[_\s]|^w[_\s]|[_\s]w$/`. A name that is just `w` matches none. */
  predicate MarkerAt(s: string, w: string, i: nat) {
    OccursAt(s, w, i) &&
    (|| (i > 0 && Separator(s[i - 1]) && i + |w| < |s| && Separator(s[i + |w|]))
     || (i == 0 && i + |w| < |s| && Separator(s[i + |w|]))
     || (i > 0 && Separator(s[i - 1]) && i + |w| == |s|))
  }

  /** Whether the marker occurs at some position from `i` on. */
  function FindMarker(s: string, w: string, i: nat): (r: bool)
    requires i <= |s|
    ensures r <==> exists j :: i <= j <= |s| && MarkerAt(s, w, j)
    decreases |s| - i
  {
    if MarkerAt(s, w, i) then true
    else if i == |s| then false
    else FindMarker(s, w, i + 1)
  }

  predicate HasMarker(s: string, w: string) {
    FindMarker(s, w, 0)
  }

  datatype ImageResult = ImageResult(emotion: string, percentage: int, isPD: bool, isNPD: bool, filename: string)

  /** `analyzeImageFilename`: the capitalised emotion of the base name, 80
      per cent plus 5 per `+` in it, capped at 100, and its markers. */
  function AnalyzeImageFilename(filename: string): (r: ImageResult)
    ensures r.filename == filename
    ensures 80 <= r.percentage <= 100
    ensures r.percentage == Min(100, 80 + 5 * Count(BaseName(filename), '+'))
    ensures r.isPD == HasMarker(BaseName(filename), "pd") && r.isNPD == HasMarker(BaseName(filename), "npd")
    ensures r.emotion == Capitalize(EmotionOf(BaseName(filename)))
  {
    var base := BaseName(filename);
    ImageResult(Capitalize(EmotionOf(base)), Min(100, 80 + 5 * Count(base, '+')),
                HasMarker(base, "pd"), HasMarker(base, "npd"), filename)
  }

  datatype Diagnosis = PD | NPD

  /** A JavaScript number: a finite value or NaN. */
  datatype Number = Num(value: real) | NaN

  datatype EmotionScore = EmotionScore(emotion: string, score: int, color: string)

  datatype PatientInfo = PatientInfo(name: string, email: string, userType: string)

  datatype Summary = Summary(diagnosis: Diagnosis, confidence: Number, emotionScores: seq<EmotionScore>,
                             patientInfo: Option<PatientInfo>)

  /** The colour slot of the `index`-th result: its emotion's place in the
      display order, compared case-insensitively, else `index % 6`. */
  function ColorIndex(emotion: string, index: nat): (r: nat)
    ensures r < |Colors|
    ensures forall k :: (0 <= k < |EmotionOrder| && Lower(EmotionOrder[k]) == Lower(emotion) &&
      (forall j :: 0 <= j < k ==> Lower(EmotionOrder[j]) != Lower(emotion))) ==> r == k
    ensures (forall k :: 0 <= k < |EmotionOrder| ==> Lower(EmotionOrder[k]) != Lower(emotion)) ==> r == index % 6
  {
    match FindIndex(EmotionOrder, (e: string) => Lower(e) == Lower(emotion))
    case Some(k) => k
    case None => index % |Colors|
  }

  function Results(names: seq<string>): (rs: seq<ImageResult>)
    ensures |rs| == |names|
    ensures forall i :: 0 <= i < |names| ==> rs[i] == AnalyzeImageFilename(names[i])
  {
    Map(names, AnalyzeImageFilename)
  }

  function Scores(rs: seq<ImageResult>): (ss: seq<EmotionScore>)
    ensures |ss| == |rs|
    ensures forall i :: 0 <= i < |rs| ==>
      ss[i].emotion == rs[i].emotion && ss[i].score == rs[i].percentage &&
      ss[i].color == Colors[ColorIndex(rs[i].emotion, i)]
  {
    seq(|rs|, i requires 0 <= i < |rs| => EmotionScore(rs[i].emotion, rs[i].percentage, Colors[ColorIndex(rs[i].emotion, i)]))
  }

  predicate IsPD(r: ImageResult) {
    r.isPD
  }

  predicate IsNPD(r: ImageResult) {
    r.isNPD
  }

  /** `reduce((sum, e) => sum + e.score, 0)`. */
  function SumScores(ss: seq<EmotionScore>): (r: int)
    ensures (forall i :: 0 <= i < |ss| ==> 80 <= ss[i].score <= 100) ==> 80 * |ss| <= r <= 100 * |ss|
    decreases |ss|
  {
    if |ss| == 0 then 0 else SumScores(ss[..|ss| - 1]) + ss[|ss| - 1].score
  }

  /** `Math.max(50, Math.min(95, x))`. */
  function Clamp(x: real): (r: real)
    ensures 50.0 <= r <= 95.0
    ensures 50.0 <= x <= 95.0 ==> r == x
  {
    if x > 95.0 then 95.0 else if x < 50.0 then 50.0 else x
  }

  /** `Math.round(x * 10) / 10`: the nearest tenth, halves rounded up. */
  function RoundTenth(x: real): (r: real)
    ensures x - 0.05 < r <= x + 0.05
    ensures (r * 10.0).Floor as real == r * 10.0
  {
    ((x * 10.0 + 0.5).Floor as real) / 10.0
  }

  /** Rounding to a tenth keeps a value inside bounds that are whole numbers. */
  lemma RoundTenthWithin(x: real, lo: int, hi: int)
    requires lo as real <= x <= hi as real
    ensures lo as real <= RoundTenth(x) <= hi as real
  {
    var f := (x * 10.0 + 0.5).Floor;
    assert (10 * lo) as real + 0.5 <= x * 10.0 + 0.5 < (10 * hi + 1) as real;
    assert 10 * lo <= f <= 10 * hi;
  }

  /** The vote before rounding. */
  function Vote(pd: nat, npd: nat, ss: seq<EmotionScore>): (r: (Diagnosis, Number))
    requires pd + npd > 0 ==> |ss| > 0
    ensures r.0 == PD <==> pd > npd
    ensures r.1.NaN? <==> pd == 0 && npd == 0 && |ss| == 0
  {
    if pd > npd then (PD, Num(Min(100, 50 + pd * 10) as real))
    else if npd > pd then (NPD, Num(Min(100, 50 + npd * 10) as real))
    else if pd == 0 && npd == 0 then
      if |ss| == 0 then (NPD, NaN)
      else (NPD, Num(Clamp((SumScores(ss) as real / |ss| as real) * 0.9)))
    else (NPD, Num(Clamp((SumScores(ss) as real / |ss| as real) * 0.85)))
  }

  function PdCount(names: seq<string>): (n: nat)
    ensures n <= |names|
  {
    |Filter(Results(names), IsPD)|
  }

  function NpdCount(names: seq<string>): (n: nat)
    ensures n <= |names|
  {
    |Filter(Results(names), IsNPD)|
  }

  /** `analyzeImages`: one score per image in upload order, and a majority
      vote of the markers. A clear majority gives 50 plus 10 per winning
      marker, at most 100; a tie falls back on the average score, which is
      at least 80, so the clamps to [50, 95] never bind; no image at all
      divides zero by zero. */
  function AnalyzeImages(names: seq<string>, patientInfo: Option<PatientInfo>): (s: Summary)
    ensures s.patientInfo == patientInfo
    ensures |s.emotionScores| == |names|
    ensures forall i :: 0 <= i < |names| ==>
      s.emotionScores[i].emotion == AnalyzeImageFilename(names[i]).emotion &&
      s.emotionScores[i].score == AnalyzeImageFilename(names[i]).percentage &&
      s.emotionScores[i].color == Colors[ColorIndex(AnalyzeImageFilename(names[i]).emotion, i)] &&
      s.emotionScores[i].color in Colors
    ensures s.diagnosis == PD <==> PdCount(names) > NpdCount(names)
    ensures s.confidence.NaN? <==> |names| == 0
    ensures PdCount(names) > NpdCount(names) ==> s.confidence == Num(Min(100, 50 + 10 * PdCount(names)) as real)
    ensures NpdCount(names) > PdCount(names) ==> s.confidence == Num(Min(100, 50 + 10 * NpdCount(names)) as real)
    ensures PdCount(names) == NpdCount(names) > 0 ==> 68.0 <= s.confidence.value <= 85.0
    ensures PdCount(names) == NpdCount(names) == 0 && |names| > 0 ==> 72.0 <= s.confidence.value <= 90.0
    ensures s.confidence.Num? ==> 50.0 <= s.confidence.value <= 100.0
  {
    var rs := Results(names);
    var ss := Scores(rs);
    var pd, npd := PdCount(names), NpdCount(names);
    var (diagnosis, raw) := Vote(pd, npd, ss);
    var confidence := match raw
      case NaN => NaN
      case Num(x) => Num(RoundTenth(x));
    ScoreBounds(names);
    VoteBounds(pd, npd, ss);
    Summary(diagnosis, confidence, ss, patientInfo)
  }

  /** The rounded vote stays inside the range of its branch. */
  lemma VoteBounds(pd: nat, npd: nat, ss: seq<EmotionScore>)
    requires pd + npd > 0 ==> |ss| > 0
    requires forall i :: 0 <= i < |ss| ==> 80 <= ss[i].score <= 100
    ensures var v := Vote(pd, npd, ss).1;
      && (pd != npd ==> RoundTenth(v.value) == v.value)
      && (pd == npd > 0 ==> 68.0 <= RoundTenth(v.value) <= 85.0)
      && (pd == npd == 0 && |ss| > 0 ==> 72.0 <= RoundTenth(v.value) <= 90.0)
      && (v.Num? ==> 50.0 <= RoundTenth(v.value) <= 100.0)
  {
    var v := Vote(pd, npd, ss).1;
    if pd != npd {
      var n := Min(100, 50 + 10 * (if pd > npd then pd else npd));
      assert v.value == n as real;
      assert (n as real * 10.0 + 0.5).Floor == 10 * n;
    } else if |ss| > 0 {
      var avg := SumScores(ss) as real / |ss| as real;
      AverageWithin(SumScores(ss), |ss|);
      if pd > 0 {
        RoundTenthWithin(avg * 0.85, 68, 85);
      } else {
        RoundTenthWithin(avg * 0.9, 72, 90);
      }
    }
  }

  lemma ScoreBounds(names: seq<string>)
    ensures forall i :: 0 <= i < |names| ==> 80 <= Scores(Results(names))[i].score <= 100
  {
  }

  lemma AverageWithin(sum: int, n: nat)
    requires n > 0 && 80 * n <= sum <= 100 * n
    ensures 80.0 <= sum as real / n as real <= 100.0
  {
    var m := n as real;
    assert (80 * n) as real == 80.0 * m && (100 * n) as real == 100.0 * m;
    QuotientAtLeast(sum as real, m, 80.0);
    QuotientAtMost(sum as real, m, 100.0);
  }

  /** `lo * m <= x` with a positive divisor gives `lo <= x / m`. */
  lemma QuotientAtLeast(x: real, m: real, lo: real)
    requires m > 0.0 && lo * m <= x
    ensures lo <= x / m
  {
    var q := x / m;
    assert q * m == x;
    assert (q - lo) * m == x - lo * m;
  }

  /** `x <= hi * m` with a positive divisor gives `x / m <= hi`. */
  lemma QuotientAtMost(x: real, m: real, hi: real)
    requires m > 0.0 && x <= hi * m
    ensures x / m <= hi
  {
    var q := x / m;
    assert q * m == x;
    assert (hi - q) * m == hi * m - x;
  }

  /** A name without a dot has no extension to strip. */
  lemma NoDotNoExtension(s: string)
    requires forall i :: 0 <= i < |s| ==> s[i] != '.'
    ensures StripExtension(s) == s
  {
  }

  /** Only the last dot can start an extension, so stripping removes
      exactly the suffix from it. */
  lemma StripAt(s: string, k: nat)
    requires Extension(s, k)
    ensures StripExtension(s) == s[..k]
  {
  }

  lemma AngBase()
    ensures BaseName("ang_NPD") == "ang_npd"
  {
    assert Lower("ang_NPD") == "ang_npd";
    NoDotNoExtension("ang_npd");
  }

  lemma AngEmotion()
    ensures EmotionOf("ang_npd") == "anger" && Capitalize("anger") == "Anger"
  {
    assert OccursAt("ang_npd", EmotionKeys[0], 0);
  }

  lemma AngMarkers()
    ensures HasMarker("ang_npd", "npd") && !HasMarker("ang_npd", "pd")
  {
    var base := "ang_npd";
    assert MarkerAt(base, "npd", 4);
    forall j | 0 <= j <= |base|
      ensures !MarkerAt(base, "pd", j)
    {
      if OccursAt(base, "pd", j) {
        assert base[j] == base[j..j + 2][0] == 'p';
        assert j == 5;
      }
    }
  }

  /** The first documented example: `ang_NPD` is 80 per cent anger, NPD. */
  lemma AngerNpdExample()
    ensures AnalyzeImageFilename("ang_NPD").emotion == "Anger"
    ensures AnalyzeImageFilename("ang_NPD").percentage == 80
    ensures !AnalyzeImageFilename("ang_NPD").isPD && AnalyzeImageFilename("ang_NPD").isNPD
  {
    AngBase();
    AngEmotion();
    AngMarkers();
    assert Count("ang_npd", '+') == 0;
  }

  lemma HapBase()
    ensures BaseName("hap++_PD.jpg") == "hap++_pd"
  {
    assert Lower("hap++_PD.jpg") == "hap++_pd.jpg";
    StripAt("hap++_pd.jpg", 8);
  }

  lemma HapEmotion()
    ensures EmotionOf("hap++_pd") == "happiness"
  {
    var base := "hap++_pd";
    assert base[..3] == "hap";
    assert OccursAt(base, EmotionKeys[3], 0);
  }

  lemma HapMarkers()
    ensures HasMarker("hap++_pd", "pd") && !HasMarker("hap++_pd", "npd")
  {
    var base := "hap++_pd";
    assert MarkerAt(base, "pd", 6);
    forall j | 0 <= j <= |base|
      ensures !MarkerAt(base, "npd", j)
    {
    }
  }

  /** The second documented example, with an extension: two `+` make 90
      per cent, the extension is ignored, and the marker is PD. */
  lemma HappinessPdExample()
    ensures AnalyzeImageFilename("hap++_PD.jpg").emotion == "Happiness"
    ensures AnalyzeImageFilename("hap++_PD.jpg").percentage == 90
    ensures AnalyzeImageFilename("hap++_PD.jpg").isPD && !AnalyzeImageFilename("hap++_PD.jpg").isNPD
  {
    HapBase();
    HapEmotion();
    HapMarkers();
    HapPluses();
  }

  lemma HapPluses()
    ensures Count("hap++_pd", '+') == 2 && Capitalize("happiness") == "Happiness"
  {

  }

  /** A name that is only the marker carries none: every alternative of
      the pattern needs a separator on at least one side. */
  lemma BareMarkerIsNoMarker()
    ensures !HasMarker("pd", "pd")
  {
    assert !MarkerAt("pd", "pd", 0);
    assert !MarkerAt("pd", "pd", 1) && !MarkerAt("pd", "pd", 2);
  }
}
