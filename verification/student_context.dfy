/** The student-context analyzer: the review set as its consumers read it,
    and the extraction of key concerns (negative or neutral comments) and
    positive highlights, each shortened to 150 characters and capped at five. */
module StudentContext {
  import opened Wrappers
  import opened Text
  import opened Sentiment
  import Reviews

  /** A review comment as a dictionary: the category may be absent, and a
      sentiment other than the three labels reads as `None`. */
  datatype StudentComment = StudentComment(text: string, category: Option<string>, sentiment: Option<Label>)

  /** The review set as a dictionary: `comments` and `sentiment_breakdown` may be
      absent, and `overall_score` too. */
  datatype StudentReviews = StudentReviews(
    comments: Option<seq<StudentComment>>,
    breakdown: Option<map<string, int>>,
    overallScore: Option<real>)

  function AsStudentComment(c: Reviews.Comment): StudentComment {
    StudentComment(c.text, Some(c.category), Some(c.sentiment))
  }

  /** `get_student_insights`: the review set, or the fixed empty answer when
      building it raised (`None`). */
  function StudentInsights(r: Option<Reviews.ReviewSet>): (s: StudentReviews)
    ensures r.None? ==> s.comments == Some([]) && s.overallScore == Some(0.0)
    ensures r.None? ==> s.breakdown == Some(map["positive" := 0, "neutral" := 0, "negative" := 0])
    ensures r.Some? ==> s.comments.Some? && |s.comments.value| == |r.value.comments|
    ensures r.Some? ==> forall k :: 0 <= k < |r.value.comments| ==>
      s.comments.value[k] == AsStudentComment(r.value.comments[k])
    ensures r.Some? ==>
      && s.breakdown.Some? && s.breakdown.value.Keys == {"positive", "negative", "neutral"}
      && s.breakdown.value["positive"] == r.value.breakdown.positive
      && s.breakdown.value["negative"] == r.value.breakdown.negative
      && s.breakdown.value["neutral"] == r.value.breakdown.neutral
    ensures r.Some? ==> s.overallScore == Some(r.value.overallScore)
  {
    match r
    case None =>
      StudentReviews(Some([]), Some(map["positive" := 0, "neutral" := 0, "negative" := 0]), Some(0.0))
    case Some(rs) =>
      var b := rs.breakdown;
      StudentReviews(
        Some(seq(|rs.comments|, i requires 0 <= i < |rs.comments| => AsStudentComment(rs.comments[i]))),
        Some(map["positive" := b.positive, "negative" := b.negative, "neutral" := b.neutral]),
        Some(rs.overallScore))
  }

  const MaxShown: nat := 150
  const MaxItems: nat := 5

  /** A text longer than 150 characters becomes its first 150 and "..."; a
      shorter one is kept whole. */
  function Shorten(t: string): (r: string)
    ensures |r| <= MaxShown + 3
    ensures |t| <= MaxShown ==> r == t
    ensures |t| > MaxShown ==> |r| == MaxShown + 3 && r[..MaxShown] == t[..MaxShown] && r[MaxShown..] == "..."
  {
    if |t| > MaxShown then t[..MaxShown] + "..." else t
  }

  datatype Concern = Concern(text: string, category: string, sentiment: Label)

  datatype Highlight = Highlight(text: string, category: string)

  predicate IsConcern(c: StudentComment) {
    c.sentiment == Some(Negative) || c.sentiment == Some(Neutral)
  }

  predicate IsHighlight(c: StudentComment) {
    c.sentiment == Some(Positive)
  }

  function ConcernOf(c: StudentComment): Concern
    requires IsConcern(c)
  {
    Concern(Shorten(c.text), c.category.GetOr("general"), c.sentiment.value)
  }

  function HighlightOf(c: StudentComment): Highlight {
    Highlight(Shorten(c.text), c.category.GetOr("general"))
  }

  /** Every concern, uncapped, in comment order. */
  function AllConcerns(cs: seq<StudentComment>): (r: seq<Concern>)
    ensures |r| <= |cs|
    ensures forall k :: 0 <= k < |r| ==> r[k].sentiment != Positive && |r[k].text| <= MaxShown + 3
  {
    if |cs| == 0 then []
    else (if IsConcern(cs[0]) then [ConcernOf(cs[0])] else []) + AllConcerns(cs[1..])
  }

  /** Every highlight, uncapped, in comment order. */
  function AllHighlights(cs: seq<StudentComment>): (r: seq<Highlight>)
    ensures |r| <= |cs|
    ensures forall k :: 0 <= k < |r| ==> |r[k].text| <= MaxShown + 3
  {
    if |cs| == 0 then []
    else (if IsHighlight(cs[0]) then [HighlightOf(cs[0])] else []) + AllHighlights(cs[1..])
  }

  lemma {:induction false} AllConcernsAppend(a: seq<StudentComment>, b: seq<StudentComment>)
    ensures AllConcerns(a + b) == AllConcerns(a) + AllConcerns(b)
  {
    if |a| == 0 {
      assert a + b == b;
    } else {
      assert (a + b)[1..] == a[1..] + b;
      AllConcernsAppend(a[1..], b);
    }
  }

  lemma {:induction false} AllHighlightsAppend(a: seq<StudentComment>, b: seq<StudentComment>)
    ensures AllHighlights(a + b) == AllHighlights(a) + AllHighlights(b)
  {
    if |a| == 0 {
      assert a + b == b;
    } else {
      assert (a + b)[1..] == a[1..] + b;
      AllHighlightsAppend(a[1..], b);
    }
  }

  function Min(a: nat, b: nat): nat {
    if a < b then a else b
  }

  /** `get_key_concerns`: the first five concerns; nothing without a comment list. */
  method KeyConcerns(reviews: StudentReviews) returns (r: seq<Concern>)
    ensures reviews.comments.None? ==> r == []
    ensures reviews.comments.Some? ==>
      var all := AllConcerns(reviews.comments.value);
      |r| == Min(MaxItems, |all|) && r == all[..|r|]
    ensures forall k :: 0 <= k < |r| ==> r[k].sentiment != Positive && |r[k].text| <= MaxShown + 3
  {
    if reviews.comments.None? {
      return [];
    }
    var cs := reviews.comments.value;
    var acc: seq<Concern> := [];
    var i := 0;
    while i < |cs|
      invariant 0 <= i <= |cs|
      invariant acc == AllConcerns(cs[..i])
    {
      AllConcernsAppend(cs[..i], [cs[i]]);
      assert cs[..i + 1] == cs[..i] + [cs[i]];
      if IsConcern(cs[i]) {
        acc := acc + [ConcernOf(cs[i])];
      }
      i := i + 1;
    }
    assert cs[..i] == cs;
    r := acc[..Min(MaxItems, |acc|)];
  }

  /** `get_positive_highlights`: the first five highlights; nothing without a comment list. */
  method PositiveHighlights(reviews: StudentReviews) returns (r: seq<Highlight>)
    ensures reviews.comments.None? ==> r == []
    ensures reviews.comments.Some? ==>
      var all := AllHighlights(reviews.comments.value);
      |r| == Min(MaxItems, |all|) && r == all[..|r|]
    ensures forall k :: 0 <= k < |r| ==> |r[k].text| <= MaxShown + 3
  {
    if reviews.comments.None? {
      return [];
    }
    var cs := reviews.comments.value;
    var acc: seq<Highlight> := [];
    var i := 0;
    while i < |cs|
      invariant 0 <= i <= |cs|
      invariant acc == AllHighlights(cs[..i])
    {
      AllHighlightsAppend(cs[..i], [cs[i]]);
      assert cs[..i + 1] == cs[..i] + [cs[i]];
      if IsHighlight(cs[i]) {
        acc := acc + [HighlightOf(cs[i])];
      }
      i := i + 1;
    }
    assert cs[..i] == cs;
    r := acc[..Min(MaxItems, |acc|)];
  }

  /** Nothing is listed that no comment gave rise to: every concern comes from
      a negative or neutral comment and every highlight from a positive one. */
  lemma {:induction false} FiltersSound(cs: seq<StudentComment>)
    ensures forall x :: x in AllConcerns(cs) ==> exists c :: c in cs && IsConcern(c) && x == ConcernOf(c)
    ensures forall h :: h in AllHighlights(cs) ==> exists c :: c in cs && IsHighlight(c) && h == HighlightOf(c)
  {
    if |cs| > 0 {
      FiltersSound(cs[1..]);
      assert forall c :: c in cs[1..] ==> c in cs;
    }
  }

  /** The two filters are disjoint: no comment yields both a concern and a
      highlight, so together they never outnumber the comments. */
  lemma {:induction false} ConcernsAndHighlightsDisjoint(cs: seq<StudentComment>)
    ensures |AllConcerns(cs)| + |AllHighlights(cs)| <= |cs|
  {
    if |cs| > 0 {
      ConcernsAndHighlightsDisjoint(cs[1..]);
    }
  }

  /** Every negative or neutral comment is listed among the uncapped concerns,
      and every positive one among the uncapped highlights. */
  lemma {:induction false} FiltersComplete(cs: seq<StudentComment>, i: nat)
    requires i < |cs|
    ensures IsConcern(cs[i]) ==> ConcernOf(cs[i]) in AllConcerns(cs)
    ensures IsHighlight(cs[i]) ==> HighlightOf(cs[i]) in AllHighlights(cs)
  {
    if i > 0 {
      FiltersComplete(cs[1..], i - 1);
    }
  }
}
