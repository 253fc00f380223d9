/** The API's own decisions: which uploaded file names are accepted, and the
    overall risk assessment that combines the text analysis, the photo
    analysis and the student reviews into a level, a recommendation and a
    one-sentence summary. */
module Assessment {
  import opened Wrappers
  import opened Text
  import opened Analyzers
  import opened StudentContext
  import Reviews

  // ---- Upload names ----

  const AllowedExtensions: set<string> := {"png", "jpg", "jpeg", "gif", "webp"}

  /** `filename.rsplit('.', 1)[1]` when the name has a dot: the text after the
      last dot (the whole name when there is none). */
  function Extension(name: string): (r: string)
    ensures |r| <= |name| && r == name[|name| - |r|..]
    ensures '.' !in r
    ensures |r| < |name| ==> name[|name| - |r| - 1] == '.'
  {
    if |name| == 0 then ""
    else if name[|name| - 1] == '.' then ""
    else
      var init := name[..|name| - 1];
      var e := Extension(init);
      assert name == init + [name[|name| - 1]];
      e + [name[|name| - 1]]
  }

  /** A name without a dot is its own extension. */
  lemma {:induction false} NoDotWholeName(name: string)
    requires '.' !in name
    ensures Extension(name) == name
  {
    if |name| > 0 {
      var last := name[|name| - 1];
      var init := name[..|name| - 1];
      assert last != '.' by {
        assert last in name;
      }
      assert '.' !in init by {
        forall k | 0 <= k < |init| ensures init[k] != '.' {
          assert init[k] == name[k];
        }
      }
      NoDotWholeName(init);
      assert Extension(name) == Extension(init) + [last];
      assert name == init + [last];
    }
  }

  /** Once the name has a dot, the extension is a proper suffix after a dot. */
  lemma DotSplitsName(name: string)
    requires '.' in name
    ensures var e := Extension(name);
      |e| < |name| && name == name[..|name| - |e| - 1] + ['.'] + e
  {
    var e := Extension(name);
    assert name == name[..|name| - |e| - 1] + [name[|name| - |e| - 1]] + name[|name| - |e|..];
  }

  /** `_allowed_file`: accepted names have a dot followed by a three- or
      four-letter image extension. */
  function AllowedFile(name: string): (ok: bool)
    ensures ok ==> '.' in name
    ensures ok ==> var e := Extension(name);
      && 3 <= |e| <= 4 && |e| < |name| && name == name[..|name| - |e| - 1] + ['.'] + e
  {
    if '.' in name then
      DotSplitsName(name);
      var l := Lower(Extension(name));
      AllowedLength(l);
      l in AllowedExtensions
    else false
  }

  lemma AllowedLength(x: string)
    ensures x in AllowedExtensions ==> 3 <= |x| <= 4
  {
  }

  lemma {:induction false} ExtensionAfterDot(stem: string, ext: string)
    requires '.' !in ext
    ensures Extension(stem + ['.'] + ext) == ext
  {
    var name := stem + ['.'] + ext;
    if |ext| == 0 {
      assert name[|name| - 1] == '.';
    } else {
      var init := name[..|name| - 1];
      assert init == stem + ['.'] + ext[..|ext| - 1];
      assert name[|name| - 1] == ext[|ext| - 1];
      var e := ext[..|ext| - 1];
      assert '.' !in e by {
        forall k | 0 <= k < |e| ensures e[k] != '.' {
          assert e[k] == ext[k];
        }
      }
      ExtensionAfterDot(stem, e);
      assert ext == ext[..|ext| - 1] + [ext[|ext| - 1]];
    }
  }

  /** A name is accepted exactly when what follows its last dot, in any letter
      case, is one of the five image extensions. */
  lemma AllowedFileByExtension(stem: string, ext: string)
    requires '.' !in ext
    ensures AllowedFile(stem + ['.'] + ext) <==> Lower(ext) in AllowedExtensions
  {
    ExtensionAfterDot(stem, ext);
    assert (stem + ['.'] + ext)[|stem|] == '.';
  }

  // ---- Risk components ----

  /** The text analyzer's own risk word: 1 for "low", 3 for "high", 2 for
      anything else, a missing word reading as "medium". */
  function TextRisk(overallRisk: Option<string>): (r: int)
    ensures 1 <= r <= 3
    ensures r == 1 <==> overallRisk == Some("low")
    ensures r == 3 <==> overallRisk == Some("high")
  {
    var word := overallRisk.GetOr("medium");
    if word == "low" then 1 else if word == "high" then 3 else 2
  }

  /** Photo quality on 0-10 (a missing score reads as 5): 7 or more is low
      risk, 4 or more medium, below 4 high. */
  function ImageRisk(qualityScore: Option<real>): (r: int)
    ensures 1 <= r <= 3
    ensures qualityScore.None? ==> r == 2
    ensures qualityScore.Some? ==> (r == 1 <==> qualityScore.value >= 7.0) && (r == 3 <==> qualityScore.value < 4.0)
  {
    var q := qualityScore.GetOr(5.0);
    if q >= 7.0 then 1 else if q >= 4.0 then 2 else 3
  }

  /** The share of negative reviews as the assessment computes it: the negative
      count divided by 100, or 0.5 without a (non-empty) breakdown. */
  function NegativeRatio(breakdown: Option<map<string, int>>): (r: real)
    ensures breakdown.None? || |breakdown.value| == 0 ==> r == 0.5
    ensures breakdown.Some? && |breakdown.value| > 0 ==>
      var n := if "negative" in breakdown.value then breakdown.value["negative"] else 0;
      && (r < 0.3 <==> n < 30) && (r < 0.6 <==> n < 60)
  {
    match breakdown
    case None => 0.5
    case Some(m) =>
      if |m| == 0 then 0.5
      else (if "negative" in m then m["negative"] else 0) as real / 100.0
  }

  function StudentRisk(breakdown: Option<map<string, int>>): (r: int)
    ensures 1 <= r <= 3
  {
    var ratio := NegativeRatio(breakdown);
    if ratio < 0.3 then 1 else if ratio < 0.6 then 2 else 3
  }

  /** The ratio thresholds on the count itself: fewer than 30 negative reviews is
      low risk, fewer than 60 medium; no breakdown at all is medium. */
  lemma StudentRiskByCount(breakdown: Option<map<string, int>>)
    ensures breakdown.None? ==> StudentRisk(breakdown) == 2
    ensures breakdown.Some? && |breakdown.value| == 0 ==> StudentRisk(breakdown) == 2
    ensures breakdown.Some? && |breakdown.value| > 0 ==>
      var n := if "negative" in breakdown.value then breakdown.value["negative"] else 0;
      && (StudentRisk(breakdown) == 1 <==> n < 30)
      && (StudentRisk(breakdown) == 3 <==> n >= 60)
  {
  }

  /** The breakdown holds counts, not percentages, so any review set with fewer
      than 30 negative comments (every set the processor builds from fewer than
      30 comments) reads as low student risk. */
  lemma FewNegativeReviewsAreLowRisk(raws: seq<Reviews.RawComment>, replies: seq<Option<string>>)
    requires |replies| == |raws| && |raws| < 30
    ensures StudentRisk(StudentInsights(Some(Reviews.StudentReviews(raws, replies))).breakdown) == 1
  {
    var b := StudentInsights(Some(Reviews.StudentReviews(raws, replies))).breakdown.value;
    assert "positive" in b;
    StudentRiskByCount(Some(b));
  }

  /** A failed review lookup answers with a non-empty breakdown whose negative
      count is 0, so it reads as the lowest student risk, not the 0.5 default. */
  lemma FailedLookupIsLowRisk()
    ensures StudentRisk(StudentInsights(None).breakdown) == 1
  {
    var b := StudentInsights(None).breakdown.value;
    assert "positive" in b;
    StudentRiskByCount(Some(b));
  }

  // ---- Overall level ----

  datatype Level = Low | Medium | High {
    function Name(): string {
      match this
      case Low => "low"
      case Medium => "medium"
      case High => "high"
    }
  }

  /** The average of the three risks: at most 1.5 is low, at most 2.5 medium,
      above that high. */
  function OverallLevel(textRisk: int, imageRisk: int, studentRisk: int): (l: Level)
    ensures var sum := textRisk + imageRisk + studentRisk;
      && (l == Low <==> sum <= 4)
      && (l == High <==> sum >= 8)
  {
    var average := (textRisk + imageRisk + studentRisk) as real / 3.0;
    if average <= 1.5 then Low else if average <= 2.5 then Medium else High
  }

  /** Raising any one risk never lowers the level. */
  lemma LevelMonotone(t: int, i: int, s: int, t2: int, i2: int, s2: int)
    requires t <= t2 && i <= i2 && s <= s2
    ensures OverallLevel(t, i, s) == High ==> OverallLevel(t2, i2, s2) == High
    ensures OverallLevel(t2, i2, s2) == Low ==> OverallLevel(t, i, s) == Low
  {
  }

  /** The fixed advice for each level. Each text is written as its sentences
      joined by `+`: the verifier reads a character out of a short literal
      readily, and `RecommendationNamesLevel` needs the first character. */
  function Recommendation(l: Level): (r: string)
    ensures |r| > 0
  {
    match l
    case Low => "This listing looks relatively safe." + " Still ask the suggested questions!"
    case Medium => "Proceed with caution." + " Make sure to ask all the suggested questions and schedule a tour."
    case High => "Major red flags detected." + " Consider other options or investigate thoroughly before proceeding."
  }

  /** The three levels get three different recommendations, so the advice names
      the level. */
  lemma RecommendationNamesLevel(a: Level, b: Level)
    ensures Recommendation(a) == Recommendation(b) <==> a == b
  {
    assert Recommendation(Low)[0] == 'T';
    assert Recommendation(Medium)[0] == 'P';
    assert Recommendation(High)[0] == 'M';
  }

  // ---- Summary ----

  /** The phrase one risk contributes: `serious` at 3 or more, `some` at 2,
      nothing below. */
  function Phrase(risk: int, serious: string, some: string): (r: seq<string>)
    ensures risk >= 3 ==> r == [serious]
    ensures risk == 2 ==> r == [some]
    ensures risk < 2 ==> r == []
  {
    if risk >= 3 then [serious] else if risk >= 2 then [some] else []
  }

  /** The concern phrases, one per risk of 2 or more, in text, photo, student order. */
  function Concerns(textRisk: int, imageRisk: int, studentRisk: int): (cs: seq<string>)
    ensures |cs| == (if textRisk >= 2 then 1 else 0) + (if imageRisk >= 2 then 1 else 0) + (if studentRisk >= 2 then 1 else 0)
    ensures |cs| == 0 <==> textRisk < 2 && imageRisk < 2 && studentRisk < 2
    ensures textRisk >= 2 ==> (cs[0] ==
      if textRisk >= 3 then "listing description has serious issues" else "listing description raises some concerns")
    ensures imageRisk >= 2 ==> (cs[if textRisk >= 2 then 1 else 0] ==
      if imageRisk >= 3 then "photos are misleading or poor quality" else "photo quality could be better")
    ensures studentRisk >= 2 ==> (cs[|cs| - 1] ==
      if studentRisk >= 3 then "student reviews are largely negative" else "student reviews are mixed")
  {
    Phrase(textRisk, "listing description has serious issues", "listing description raises some concerns")
      + Phrase(imageRisk, "photos are misleading or poor quality", "photo quality could be better")
      + Phrase(studentRisk, "student reviews are largely negative", "student reviews are mixed")
  }

  /** The summary when no risk reaches 2, split in two for the same reason as
      the advice texts (`FoundIsNotSolid` reads its first character). */
  const Solid := "This listing looks relatively solid." + " No major red flags detected."

  /** "Found N red flag(s). " */
  function FoundHead(redFlagCount: nat): (h: string)
    ensures |h| == 6 + |NatToString(redFlagCount)| + 14
    ensures h[..6] == "Found " && h[|h| - 14..] == " red flag(s). "
    ensures h[6..|h| - 14] == NatToString(redFlagCount)
  {
    var n := NatToString(redFlagCount);
    var h := "Found " + n + " red flag(s). ";
    assert h[6..|h| - 14] == n;
    h
  }

  /** The head names the count: different counts give different heads. */
  lemma FoundHeadNamesCount(m: nat, n: nat)
    ensures FoundHead(m) == FoundHead(n) <==> m == n
  {
    if FoundHead(m) == FoundHead(n) {
      NatToStringInjective(m, n);
    }
  }

  lemma FoundIsNotSolid(redFlagCount: nat, rest: string)
    ensures FoundHead(redFlagCount) + rest != Solid
  {
    assert (FoundHead(redFlagCount) + rest)[0] == FoundHead(redFlagCount)[..6][0] == 'F';
    assert Solid[0] == 'T';
  }

  /** The summary of a list of concern phrases: the fixed solid text exactly when
      there is none, else the red-flag count and the phrases joined by commas,
      capitalized, with a closing period. */
  function SummaryOf(concerns: seq<string>, redFlagCount: nat): (s: string)
    ensures s == Solid <==> |concerns| == 0
    ensures |concerns| > 0 ==> s == FoundHead(redFlagCount) + Capitalize(Join(concerns, ", ")) + "."
  {
    if |concerns| == 0 then Solid
    else
      var rest := Capitalize(Join(concerns, ", ")) + ".";
      FoundIsNotSolid(redFlagCount, rest);
      FoundHead(redFlagCount) + rest
  }

  /** `_generate_summary`: the solid text exactly when no risk reaches 2. */
  function Summary(textRisk: int, imageRisk: int, studentRisk: int, redFlagCount: nat): (s: string)
    ensures s == Solid <==> textRisk < 2 && imageRisk < 2 && studentRisk < 2
    ensures !(textRisk < 2 && imageRisk < 2 && studentRisk < 2) ==>
      s == FoundHead(redFlagCount) + Capitalize(Join(Concerns(textRisk, imageRisk, studentRisk), ", ")) + "."
  {
    SummaryOf(Concerns(textRisk, imageRisk, studentRisk), redFlagCount)
  }

  lemma HeadOfSameTail(a: string, b: string, t: string)
    requires a + t == b + t
    ensures a == b
  {
    assert |a| == |b|;
    assert a == (a + t)[..|a|];
    assert b == (b + t)[..|b|];
  }

  lemma SummaryOfNamesCount(concerns: seq<string>, m: nat, n: nat)
    requires |concerns| > 0
    ensures SummaryOf(concerns, m) == SummaryOf(concerns, n) <==> m == n
  {
    var rest := Capitalize(Join(concerns, ", ")) + ".";
    if SummaryOf(concerns, m) == SummaryOf(concerns, n) {
      HeadOfSameTail(FoundHead(m), FoundHead(n), rest);
      FoundHeadNamesCount(m, n);
    }
  }

  /** A summary with concerns reports its red-flag count: the same risks with
      different counts give different summaries. */
  lemma SummaryNamesCount(textRisk: int, imageRisk: int, studentRisk: int, m: nat, n: nat)
    requires !(textRisk < 2 && imageRisk < 2 && studentRisk < 2)
    ensures Summary(textRisk, imageRisk, studentRisk, m) == Summary(textRisk, imageRisk, studentRisk, n) <==> m == n
  {
    var cs := Concerns(textRisk, imageRisk, studentRisk);
    assert |cs| > 0;
    SummaryOfNamesCount(cs, m, n);
    assert Summary(textRisk, imageRisk, studentRisk, m) == SummaryOf(cs, m);
    assert Summary(textRisk, imageRisk, studentRisk, n) == SummaryOf(cs, n);
  }

  // ---- The assessment ----

  datatype Assessment = Assessment(
    riskLevel: Level, recommendation: string, redFlagCount: nat, photoIssueCount: nat,
    studentScore: real, summary: string)

  /** `_calculate_overall_assessment` */
  function Assess(text: TextAnalysis, image: ImageAnalysis, reviews: StudentReviews): (a: Assessment)
    ensures var t, i, s := TextRisk(text.overallRisk), ImageRisk(image.qualityScore), StudentRisk(reviews.breakdown);
      && a.riskLevel == OverallLevel(t, i, s)
      && a.summary == Summary(t, i, s, |text.redFlags|)
    ensures a.recommendation == Recommendation(a.riskLevel)
    ensures a.redFlagCount == |text.redFlags| && a.photoIssueCount == |image.photoIssues|
    ensures a.studentScore == reviews.overallScore.GetOr(0.0)
  {
    var t, i, s := TextRisk(text.overallRisk), ImageRisk(image.qualityScore), StudentRisk(reviews.breakdown);
    var level := OverallLevel(t, i, s);
    Assessment(level, Recommendation(level), |text.redFlags|, |image.photoIssues|,
               reviews.overallScore.GetOr(0.0), Summary(t, i, s, |text.redFlags|))
  }

  /** The level and the summary agree: a "relatively solid" summary comes only
      with a low level, and a high level never comes with it. */
  lemma SummaryAgreesWithLevel(text: TextAnalysis, image: ImageAnalysis, reviews: StudentReviews)
    ensures Assess(text, image, reviews).summary == Solid ==> Assess(text, image, reviews).riskLevel == Low
    ensures Assess(text, image, reviews).riskLevel != Low ==> Assess(text, image, reviews).summary != Solid
  {
  }

  /** With no analyzer output at all (no risk word, no quality score, no
      breakdown) every component reads as medium, and so does the level. */
  lemma EmptyInputsAreMedium(text: TextAnalysis, image: ImageAnalysis, reviews: StudentReviews)
    requires text.overallRisk.None? && image.qualityScore.None? && reviews.breakdown.None?
    ensures Assess(text, image, reviews).riskLevel == Medium
    ensures Assess(text, image, reviews).summary != Solid
  {
  }
}
