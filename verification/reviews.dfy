/** The review-level block of the mock review processor: every selected
    comment is classified and weighted, the labels are counted, and the
    recency-weighted shares of positive and negative comments are mapped onto
    one of five fixed scores. The model replies for the classifier are one
    input per comment. */
module Reviews {
  import opened Wrappers
  import opened Sentiment
  import opened Recency

  /** A comment as the data loader hands it over. */
  datatype RawComment = RawComment(text: string, score: int, category: Option<string>, timePosted: Option<string>)

  /** A comment with its inferred label and recency weight. */
  datatype Comment = Comment(
    text: string, score: int, category: string, sentiment: Label,
    timePosted: string, recencyWeight: real)

  datatype Breakdown = Breakdown(positive: nat, negative: nat, neutral: nat)

  datatype ReviewSet = ReviewSet(comments: seq<Comment>, totalMentions: nat, overallScore: real, breakdown: Breakdown)

  /** The posting month assumed for weighting when a comment has none. */
  const DefaultTimePosted := "2024-06"

  /** One formatted comment: the label comes from the hybrid classifier, the
      weight from the posting month (or the default month), the shown month
      falls back to "unknown" and the category to "general". */
  function FormatComment(raw: RawComment, reply: Option<string>): (c: Comment)
    ensures c.text == raw.text && c.score == raw.score
    ensures c.sentiment == InferSentiment(raw.text, true, reply).sentiment
    ensures 0.7 <= c.recencyWeight <= 1.5
    ensures c.category == raw.category.GetOr("general")
    ensures raw.timePosted.None? ==> c.recencyWeight == 1.0 && c.timePosted == "unknown"
    ensures raw.timePosted.Some? ==>
      c.recencyWeight == RecencyWeight(raw.timePosted.value) && c.timePosted == raw.timePosted.value
  {
    var w := RecencyWeight(raw.timePosted.GetOr(DefaultTimePosted));
    assert raw.timePosted.None? ==> w == 1.0 by {
      if raw.timePosted.None? {
        assert ParseYearMonth(DefaultTimePosted) == Some(YearMonth(2024, 6)) by {
          assert DefaultTimePosted[5..] == "06";
        }
      }
    }
    Comment(raw.text, raw.score, raw.category.GetOr("general"),
            InferSentiment(raw.text, true, reply).sentiment,
            raw.timePosted.GetOr("unknown"), w)
  }

  function Count(cs: seq<Comment>, l: Label): (n: nat)
    ensures n <= |cs|
  {
    if |cs| == 0 then 0 else (if cs[0].sentiment == l then 1 else 0) + Count(cs[1..], l)
  }

  /** The label counts; every comment carries exactly one label, so they add up. */
  function Tally(cs: seq<Comment>): (b: Breakdown)
    ensures b.positive + b.negative + b.neutral == |cs|
    ensures b.positive == Count(cs, Positive) && b.negative == Count(cs, Negative)
    ensures b.neutral == Count(cs, Neutral)
  {
    if |cs| == 0 then Breakdown(0, 0, 0)
    else
      var t := Tally(cs[1..]);
      match cs[0].sentiment
      case Positive => Breakdown(t.positive + 1, t.negative, t.neutral)
      case Negative => Breakdown(t.positive, t.negative + 1, t.neutral)
      case Neutral => Breakdown(t.positive, t.negative, t.neutral + 1)
  }

  function TotalWeight(cs: seq<Comment>): real {
    if |cs| == 0 then 0.0 else cs[0].recencyWeight + TotalWeight(cs[1..])
  }

  /** Summed weight of the comments carrying label `l`. */
  function LabelWeight(cs: seq<Comment>, l: Label): real {
    if |cs| == 0 then 0.0
    else (if cs[0].sentiment == l then cs[0].recencyWeight else 0.0) + LabelWeight(cs[1..], l)
  }

  predicate PositiveWeights(cs: seq<Comment>) {
    forall i :: 0 <= i < |cs| ==> cs[i].recencyWeight > 0.0
  }

  /** The five-step score: a negative weighted majority gives 2.0, else a positive
      one 4.5, else a positive lead 3.5, else a negative lead 2.5, else 3.0; no
      weight at all gives 3.0. Shares are compared by cross-multiplying. */
  function OverallScore(cs: seq<Comment>): (s: real)
    ensures s == 2.0 || s == 2.5 || s == 3.0 || s == 3.5 || s == 4.5
    ensures |cs| == 0 ==> s == 3.0
  {
    var total := TotalWeight(cs);
    var pos := LabelWeight(cs, Positive);
    var neg := LabelWeight(cs, Negative);
    if total > 0.0 then
      if 2.0 * neg > total then 2.0
      else if 2.0 * pos > total then 4.5
      else if pos > neg then 3.5
      else if neg > pos then 2.5
      else 3.0
    else 3.0
  }

  /** The rule as the processor writes it, on the weighted shares. */
  function ScoreFromRatios(posRatio: real, negRatio: real): real {
    if negRatio > 0.5 then 2.0
    else if posRatio > 0.5 then 4.5
    else if posRatio > negRatio then 3.5
    else if negRatio > posRatio then 2.5
    else 3.0
  }

  lemma RatioComparisons(pos: real, neg: real, total: real)
    requires total > 0.0
    ensures (neg / total > 0.5) <==> 2.0 * neg > total
    ensures (pos / total > 0.5) <==> 2.0 * pos > total
    ensures (pos / total > neg / total) <==> pos > neg
    ensures (neg / total > pos / total) <==> neg > pos
  {
    assert neg / total * total == neg;
    assert pos / total * total == pos;
  }

  /** Cross-multiplying decides exactly as dividing by the total weight does. */
  lemma OverallScoreMatchesRatios(cs: seq<Comment>)
    requires TotalWeight(cs) > 0.0
    ensures OverallScore(cs) ==
      ScoreFromRatios(LabelWeight(cs, Positive) / TotalWeight(cs), LabelWeight(cs, Negative) / TotalWeight(cs))
  {
    RatioComparisons(LabelWeight(cs, Positive), LabelWeight(cs, Negative), TotalWeight(cs));
  }

  /** The weights of the three labels make up the total weight. */
  lemma {:induction false} LabelWeightsSum(cs: seq<Comment>)
    ensures LabelWeight(cs, Positive) + LabelWeight(cs, Negative) + LabelWeight(cs, Neutral) == TotalWeight(cs)
  {
    if |cs| > 0 {
      LabelWeightsSum(cs[1..]);
    }
  }

  lemma {:induction false} LabelWeightNonNegative(cs: seq<Comment>, l: Label)
    requires PositiveWeights(cs)
    ensures LabelWeight(cs, l) >= 0.0
  {
    if |cs| > 0 {
      LabelWeightNonNegative(cs[1..], l);
    }
  }

  lemma {:induction false} AbsentLabelWeighsNothing(cs: seq<Comment>, l: Label)
    requires Count(cs, l) == 0
    ensures LabelWeight(cs, l) == 0.0
  {
    if |cs| > 0 {
      AbsentLabelWeighsNothing(cs[1..], l);
    }
  }

  lemma {:induction false} TotalWeightPositive(cs: seq<Comment>)
    requires PositiveWeights(cs) && |cs| > 0
    ensures TotalWeight(cs) > 0.0
  {
    if |cs| > 1 {
      TotalWeightPositive(cs[1..]);
    }
  }

  /** Without any negative comment the score is at least neutral, and without
      any positive comment it is at most neutral. */
  lemma OneSidedReviews(cs: seq<Comment>)
    requires PositiveWeights(cs)
    ensures Count(cs, Negative) == 0 ==> OverallScore(cs) >= 3.0
    ensures Count(cs, Positive) == 0 ==> OverallScore(cs) <= 3.0
  {
    LabelWeightNonNegative(cs, Positive);
    LabelWeightNonNegative(cs, Negative);
    if Count(cs, Negative) == 0 {
      AbsentLabelWeighsNothing(cs, Negative);
    }
    if Count(cs, Positive) == 0 {
      AbsentLabelWeighsNothing(cs, Positive);
    }
  }

  /** A non-empty set of comments that are all negative scores 2.0, and one that
      is all positive scores 4.5. */
  lemma UnanimousReviews(cs: seq<Comment>)
    requires PositiveWeights(cs) && |cs| > 0
    ensures Count(cs, Negative) == |cs| ==> OverallScore(cs) == 2.0
    ensures Count(cs, Positive) == |cs| ==> OverallScore(cs) == 4.5
  {
    TotalWeightPositive(cs);
    LabelWeightsSum(cs);
    LabelWeightNonNegative(cs, Neutral);
    if Count(cs, Negative) == |cs| {
      assert Tally(cs).positive == 0 && Tally(cs).neutral == 0;
      AbsentLabelWeighsNothing(cs, Positive);
      AbsentLabelWeighsNothing(cs, Neutral);
    }
    if Count(cs, Positive) == |cs| {
      assert Tally(cs).negative == 0 && Tally(cs).neutral == 0;
      AbsentLabelWeighsNothing(cs, Negative);
      AbsentLabelWeighsNothing(cs, Neutral);
    }
  }

  function FormatAll(raws: seq<RawComment>, replies: seq<Option<string>>): (cs: seq<Comment>)
    requires |replies| == |raws|
    ensures |cs| == |raws| && PositiveWeights(cs)
    ensures forall i :: 0 <= i < |cs| ==> cs[i] == FormatComment(raws[i], replies[i])
  {
    if |raws| == 0 then [] else [FormatComment(raws[0], replies[0])] + FormatAll(raws[1..], replies[1..])
  }

  /** `get_mock_student_reviews` after the comments are selected: one model reply
      per comment (consulted or not, as the classifier decides). */
  function StudentReviews(raws: seq<RawComment>, replies: seq<Option<string>>): (r: ReviewSet)
    requires |replies| == |raws|
    ensures r.comments == FormatAll(raws, replies) && r.totalMentions == |raws|
    ensures r.breakdown == Tally(r.comments) && r.overallScore == OverallScore(r.comments)
    ensures |r.comments| == |raws|
    ensures r.breakdown.positive + r.breakdown.negative + r.breakdown.neutral == |raws|
    ensures r.overallScore == 2.0 || r.overallScore == 2.5 || r.overallScore == 3.0 ||
            r.overallScore == 3.5 || r.overallScore == 4.5
    ensures |raws| == 0 ==> r.overallScore == 3.0
    ensures |raws| > 0 && r.breakdown.negative == |raws| ==> r.overallScore == 2.0
    ensures |raws| > 0 && r.breakdown.positive == |raws| ==> r.overallScore == 4.5
  {
    var cs := FormatAll(raws, replies);
    assert |cs| > 0 ==> (Count(cs, Negative) == |cs| ==> OverallScore(cs) == 2.0) by {
      if |cs| > 0 {
        UnanimousReviews(cs);
      }
    }
    assert |cs| > 0 ==> (Count(cs, Positive) == |cs| ==> OverallScore(cs) == 4.5) by {
      if |cs| > 0 {
        UnanimousReviews(cs);
      }
    }
    ReviewSet(cs, |cs|, OverallScore(cs), Tally(cs))
  }
}
