/** The hybrid comment classifier of the mock review processor: a weighted
    keyword score over seven fixed term lists decides clear cases, an external
    language-model verdict is asked for only in the low-confidence middle band,
    and a softer rule decides whatever is left. The model's reply is an input:
    `None` stands for a call that raised. */
module Sentiment {
  import opened Wrappers
  import opened Text

  datatype Label = Positive | Negative | Neutral {
    function Name(): string {
      match this
      case Positive => "positive"
      case Negative => "negative"
      case Neutral => "neutral"
    }
  }

  /** What the reply normaliser makes of a model answer. */
  datatype Verdict = Says(said: Label) | Unknown

  // The fixed vocabulary, weight 3 (college phrases), 2 (strong) and 1 (moderate).
  const CollegeNegative: seq<string> := [
    "sketchy", "loud parties", "thin walls", "far from campus",
    "overpriced", "landlord sucks", "avoid", "scam", "dirty",
    "roaches", "mold", "broken ac", "parking nightmare"]

  const CollegePositive: seq<string> := [
    "close to campus", "quiet", "great location", "worth it",
    "responsive landlord", "clean", "spacious", "good deal",
    "highly recommend", "love living here", "clutch"]

  const StrongNegative: seq<string> := [
    "worst", "terrible", "awful", "disgusting", "avoid", "nightmare",
    "scam", "shady", "broken", "horrible", "trash", "sucks", "hate",
    "miserable", "brutal", "never again", "rip off"]

  const ModerateNegative: seq<string> := [
    "bad", "issue", "problem", "annoying", "inconvenient", "sketchy",
    "loud", "noisy", "far", "expensive", "old", "small",
    "complaint", "disappointing", "meh", "mediocre"]

  const StrongPositive: seq<string> := [
    "best", "amazing", "perfect", "excellent", "love", "great",
    "wonderful", "fantastic", "highly recommend", "awesome", "clutch",
    "gem", "steal", "couldn't be happier"]

  const ModeratePositive: seq<string> := [
    "good", "nice", "clean", "safe", "convenient", "happy", "worth",
    "solid", "recommend", "impressed", "comfortable", "spacious",
    "decent", "satisfied"]

  const Negations: seq<string> := [
    "not", "no", "never", "don't", "didn't", "won't", "barely"]

  /** Number of entries of `terms` that occur somewhere in `text`; an entry
      listed twice would count twice. */
  function Hits(terms: seq<string>, text: string): (r: nat)
    ensures r <= |terms|
  {
    if |terms| == 0 then 0
    else (if Contains(text, terms[0]) then 1 else 0) + Hits(terms[1..], text)
  }

  /** The positions of the entries of `terms` that occur somewhere in `text`. */
  function Found(terms: seq<string>, text: string): set<nat> {
    set k: nat | k < |terms| && Contains(text, terms[k])
  }

  /** Every position moved one place on. */
  function Shift(s: set<nat>): set<nat> {
    set k | k in s :: k + 1
  }

  lemma {:induction false} ShiftSize(s: set<nat>)
    ensures |Shift(s)| == |s|
    decreases |s|
  {
    if |s| > 0 {
      var x :| x in s;
      var r := s - {x};
      ShiftSize(r);
      assert Shift(s) == Shift(r) + {x + 1} by {
        forall y | y in Shift(s) ensures y in Shift(r) + {x + 1} {
          var k :| k in s && y == k + 1;
          if k != x { assert k in r; }
        }
        forall y | y in Shift(r) + {x + 1} ensures y in Shift(s) {
          if y != x + 1 {
            var k :| k in r && y == k + 1;
            assert k in s;
          }
        }
      }
      assert x + 1 !in Shift(r);
    }
  }

  /** The positions found in a list are those found in its tail, moved one
      place on, and 0 when the head entry occurs. */
  lemma FoundCons(terms: seq<string>, text: string)
    requires |terms| > 0
    ensures Found(terms, text) ==
      Shift(Found(terms[1..], text)) + (if Contains(text, terms[0]) then {0} else {})
  {
    var rest := Found(terms[1..], text);
    forall k | k in Found(terms, text) && k > 0
      ensures k in Shift(rest)
    {
      assert terms[1..][k - 1] == terms[k];
      assert k - 1 in rest;
    }
    forall k | k in Shift(rest)
      ensures k in Found(terms, text)
    {
      assert k - 1 in rest;
      assert terms[1..][k - 1] == terms[k];
    }
  }

  /** The hit count is the number of positions whose entry occurs. */
  lemma {:induction false} HitsCountsFound(terms: seq<string>, text: string)
    ensures Hits(terms, text) == |Found(terms, text)|
  {
    if |terms| > 0 {
      var rest := Found(terms[1..], text);
      HitsCountsFound(terms[1..], text);
      ShiftSize(rest);
      FoundCons(terms, text);
      assert 0 !in Shift(rest);
    }
  }

  /** No hit at all exactly when no entry occurs. */
  lemma {:induction false} HitsZero(terms: seq<string>, text: string)
    ensures Hits(terms, text) == 0 <==> forall k :: 0 <= k < |terms| ==> !Contains(text, terms[k])
  {
    if |terms| > 0 {
      HitsZero(terms[1..], text);
      assert forall k :: 1 <= k < |terms| ==> terms[k] == terms[1..][k - 1];
    }
  }

  /** Every entry that occurs contributes one hit. */
  lemma {:induction false} HitsAtLeastOne(terms: seq<string>, text: string, k: nat)
    requires k < |terms| && Contains(text, terms[k])
    ensures Hits(terms, text) >= 1
  {
    if k > 0 {
      HitsAtLeastOne(terms[1..], text, k - 1);
    }
  }

  /** Two entries that both occur contribute two hits. */
  lemma {:induction false} HitsAtLeastTwo(terms: seq<string>, text: string, j: nat, k: nat)
    requires j < k < |terms| && Contains(text, terms[j]) && Contains(text, terms[k])
    ensures Hits(terms, text) >= 2
  {
    if j > 0 {
      HitsAtLeastTwo(terms[1..], text, j - 1, k - 1);
    } else {
      HitsAtLeastOne(terms[1..], text, k - 1);
    }
  }

  /** The seven hit counts of one lower-cased text. */
  datatype Signals = Signals(
    collegePos: nat, collegeNeg: nat, strongPos: nat, strongNeg: nat,
    pos: nat, neg: nat, negations: nat)
  {
    /** Weighted positive hits minus weighted negative hits. */
    function Raw(): (r: int)
      ensures collegeNeg == 0 && strongNeg == 0 && neg == 0 ==> r >= 0
      ensures collegePos == 0 && strongPos == 0 && pos == 0 ==> r <= 0
      ensures r <= 3 * Total() && -3 * Total() <= r
    {
      3 * collegePos + 2 * strongPos + pos - 3 * collegeNeg - 2 * strongNeg - neg
    }

    /** Hits over the six scored lists; negations are not counted. */
    function Total(): nat {
      collegePos + collegeNeg + strongPos + strongNeg + pos + neg
    }

    /** The raw score, damped by 0.7 once any negation occurs. */
    function Score(): (s: real)
      ensures negations == 0 ==> s == Raw() as real
      ensures negations > 0 ==> s == 0.7 * Raw() as real
      ensures (s > 0.0 <==> Raw() > 0) && (s < 0.0 <==> Raw() < 0)
      ensures -(Raw() as real) <= s <= Raw() as real || Raw() as real <= s <= -(Raw() as real)
    {
      if negations > 0 then 0.7 * Raw() as real else Raw() as real
    }

    /** Hit total, less half a point per negation hit. */
    function Confidence(): (c: real)
      ensures c == Total() as real - 0.5 * negations as real
      ensures c <= Total() as real && (negations == 0 ==> c == Total() as real)
    {
      Total() as real - (if negations > 0 then 0.5 * negations as real else 0.0)
    }
  }

  /** The seven counts of a text, read case-insensitively. What each count
      means, the number of its list's entries that occur in the lower-cased
      text, is `SignalsCountFound`. */
  function SignalsOf(text: string): (sg: Signals)
    ensures var t := Lower(text);
      && sg.collegeNeg == Hits(CollegeNegative, t) && sg.collegePos == Hits(CollegePositive, t)
      && sg.strongNeg == Hits(StrongNegative, t) && sg.neg == Hits(ModerateNegative, t)
      && sg.strongPos == Hits(StrongPositive, t) && sg.pos == Hits(ModeratePositive, t)
      && sg.negations == Hits(Negations, t)
  {
    var t := Lower(text);
    Signals(Hits(CollegePositive, t), Hits(CollegeNegative, t),
            Hits(StrongPositive, t), Hits(StrongNegative, t),
            Hits(ModeratePositive, t), Hits(ModerateNegative, t),
            Hits(Negations, t))
  }

  /** Each count of a text is the number of entries of its list that occur in
      the lower-cased text. */
  lemma SignalsCountFound(text: string)
    ensures var t, sg := Lower(text), SignalsOf(text);
      && sg.collegeNeg == |Found(CollegeNegative, t)| && sg.collegePos == |Found(CollegePositive, t)|
      && sg.strongNeg == |Found(StrongNegative, t)| && sg.neg == |Found(ModerateNegative, t)|
      && sg.strongPos == |Found(StrongPositive, t)| && sg.pos == |Found(ModeratePositive, t)|
      && sg.negations == |Found(Negations, t)|
  {
    var t := Lower(text);
    HitsCountsFound(CollegePositive, t);
    HitsCountsFound(CollegeNegative, t);
    HitsCountsFound(StrongPositive, t);
    HitsCountsFound(StrongNegative, t);
    HitsCountsFound(ModeratePositive, t);
    HitsCountsFound(ModerateNegative, t);
    HitsCountsFound(Negations, t);
  }

  /** The counts ignore letter case. */
  lemma SignalsIgnoreCase(text: string)
    ensures SignalsOf(text) == SignalsOf(Lower(text))
  {
    LowerIdempotent(text);
  }

  /** A term listed in two lists scores a hit in each. */
  lemma CountedInBoth(a: seq<string>, i: nat, b: seq<string>, j: nat, t: string)
    requires i < |a| && j < |b| && a[i] == b[j] && Contains(t, a[i])
    ensures Hits(a, t) >= 1 && Hits(b, t) >= 1
  {
    HitsAtLeastOne(a, t, i);
    HitsAtLeastOne(b, t, j);
  }

  lemma Sketchy(t: string)
    requires Contains(t, "sketchy")
    ensures Hits(CollegeNegative, t) >= 1 && Hits(ModerateNegative, t) >= 1
  {
    CountedInBoth(CollegeNegative, 0, ModerateNegative, 5, t);
  }

  lemma Avoid(t: string)
    requires Contains(t, "avoid")
    ensures Hits(CollegeNegative, t) >= 1 && Hits(StrongNegative, t) >= 1
  {
    CountedInBoth(CollegeNegative, 6, StrongNegative, 4, t);
  }

  lemma Scam(t: string)
    requires Contains(t, "scam")
    ensures Hits(CollegeNegative, t) >= 1 && Hits(StrongNegative, t) >= 1
  {
    CountedInBoth(CollegeNegative, 7, StrongNegative, 6, t);
  }

  /** "sketchy", "avoid" and "scam" sit in the college list and in a general
      negative list, and are scored by both. */
  lemma DoubleListedNegative(text: string)
    ensures var t, sg := Lower(text), SignalsOf(text);
      && (Contains(t, "sketchy") ==> sg.collegeNeg >= 1 && sg.neg >= 1)
      && (Contains(t, "avoid") ==> sg.collegeNeg >= 1 && sg.strongNeg >= 1)
      && (Contains(t, "scam") ==> sg.collegeNeg >= 1 && sg.strongNeg >= 1)
  {
    var t := Lower(text);
    if Contains(t, "sketchy") { Sketchy(t); }
    if Contains(t, "avoid") { Avoid(t); }
    if Contains(t, "scam") { Scam(t); }
  }

  lemma Clean(t: string)
    requires Contains(t, "clean")
    ensures Hits(CollegePositive, t) >= 1 && Hits(ModeratePositive, t) >= 1
  {
    CountedInBoth(CollegePositive, 5, ModeratePositive, 2, t);
  }

  lemma Spacious(t: string)
    requires Contains(t, "spacious")
    ensures Hits(CollegePositive, t) >= 1 && Hits(ModeratePositive, t) >= 1
  {
    CountedInBoth(CollegePositive, 6, ModeratePositive, 11, t);
  }

  lemma HighlyRecommendTwice(t: string)
    requires Contains(t, "highly recommend")
    ensures Hits(CollegePositive, t) >= 1 && Hits(StrongPositive, t) >= 1
  {
    CountedInBoth(CollegePositive, 8, StrongPositive, 8, t);
  }

  lemma Clutch(t: string)
    requires Contains(t, "clutch")
    ensures Hits(CollegePositive, t) >= 1 && Hits(StrongPositive, t) >= 1
  {
    CountedInBoth(CollegePositive, 10, StrongPositive, 10, t);
  }

  /** "clean", "spacious", "highly recommend" and "clutch" sit in the college
      list and in a general positive list, and are scored by both. */
  lemma DoubleListedPositive(text: string)
    ensures var t, sg := Lower(text), SignalsOf(text);
      && (Contains(t, "clean") ==> sg.collegePos >= 1 && sg.pos >= 1)
      && (Contains(t, "spacious") ==> sg.collegePos >= 1 && sg.pos >= 1)
      && (Contains(t, "highly recommend") ==> sg.collegePos >= 1 && sg.strongPos >= 1)
      && (Contains(t, "clutch") ==> sg.collegePos >= 1 && sg.strongPos >= 1)
  {
    var t := Lower(text);
    if Contains(t, "clean") { Clean(t); }
    if Contains(t, "spacious") { Spacious(t); }
    if Contains(t, "highly recommend") { HighlyRecommendTwice(t); }
    if Contains(t, "clutch") { Clutch(t); }
  }

  /** A phrase of one list that contains a term of another scores a hit in both. */
  lemma CountedWithPiece(a: seq<string>, i: nat, b: seq<string>, j: nat, at: nat, t: string)
    requires i < |a| && j < |b| && Contains(t, a[i])
    requires at + |b[j]| <= |a[i]| && a[i][at..at + |b[j]|] == b[j]
    ensures Hits(a, t) >= 1 && Hits(b, t) >= 1
  {
    HitsAtLeastOne(a, t, i);
    ContainsPiece(t, a[i], b[j], at);
    HitsAtLeastOne(b, t, j);
  }

  lemma BrokenAc(t: string)
    requires Contains(t, "broken ac")
    ensures Hits(CollegeNegative, t) >= 1 && Hits(StrongNegative, t) >= 1
  {
    CountedWithPiece(CollegeNegative, 11, StrongNegative, 8, 0, t);
  }

  lemma LoudParties(t: string)
    requires Contains(t, "loud parties")
    ensures Hits(CollegeNegative, t) >= 1 && Hits(ModerateNegative, t) >= 1
  {
    CountedWithPiece(CollegeNegative, 1, ModerateNegative, 6, 0, t);
  }

  lemma FarFromCampus(t: string)
    requires Contains(t, "far from campus")
    ensures Hits(CollegeNegative, t) >= 1 && Hits(ModerateNegative, t) >= 1
  {
    CountedWithPiece(CollegeNegative, 3, ModerateNegative, 8, 0, t);
  }

  lemma ParkingNightmare(t: string)
    requires Contains(t, "parking nightmare")
    ensures Hits(CollegeNegative, t) >= 1 && Hits(StrongNegative, t) >= 1
  {
    assert "parking nightmare" == "parking " + "nightmare";
    ContainsConcat(t, "parking ", "nightmare");
    HitsAtLeastOne(CollegeNegative, t, 12);
    HitsAtLeastOne(StrongNegative, t, 5);
  }

  lemma LandlordSucks(t: string)
    requires Contains(t, "landlord sucks")
    ensures Hits(CollegeNegative, t) >= 1 && Hits(StrongNegative, t) >= 1
  {
    assert "landlord sucks" == "landlord " + "sucks";
    ContainsConcat(t, "landlord ", "sucks");
    HitsAtLeastOne(CollegeNegative, t, 5);
    HitsAtLeastOne(StrongNegative, t, 11);
  }

  /** Terms are matched as substrings, so a college phrase also counts the
      general term inside it: "broken ac" counts "broken", "loud parties"
      counts "loud", "far from campus" counts "far", "parking nightmare"
      counts "nightmare" and "landlord sucks" counts "sucks". */
  lemma NestedNegative(text: string)
    ensures var t, sg := Lower(text), SignalsOf(text);
      && (Contains(t, "broken ac") ==> sg.collegeNeg >= 1 && sg.strongNeg >= 1)
      && (Contains(t, "loud parties") ==> sg.collegeNeg >= 1 && sg.neg >= 1)
      && (Contains(t, "far from campus") ==> sg.collegeNeg >= 1 && sg.neg >= 1)
      && (Contains(t, "parking nightmare") ==> sg.collegeNeg >= 1 && sg.strongNeg >= 1)
      && (Contains(t, "landlord sucks") ==> sg.collegeNeg >= 1 && sg.strongNeg >= 1)
  {
    var t := Lower(text);
    if Contains(t, "broken ac") { BrokenAc(t); }
    if Contains(t, "loud parties") { LoudParties(t); }
    if Contains(t, "far from campus") { FarFromCampus(t); }
    if Contains(t, "parking nightmare") { ParkingNightmare(t); }
    if Contains(t, "landlord sucks") { LandlordSucks(t); }
  }

  lemma WorthIt(t: string)
    requires Contains(t, "worth it")
    ensures Hits(CollegePositive, t) >= 1 && Hits(ModeratePositive, t) >= 1
  {
    CountedWithPiece(CollegePositive, 3, ModeratePositive, 6, 0, t);
  }

  lemma GreatLocation(t: string)
    requires Contains(t, "great location")
    ensures Hits(CollegePositive, t) >= 1 && Hits(StrongPositive, t) >= 1
  {
    CountedWithPiece(CollegePositive, 2, StrongPositive, 5, 0, t);
  }

  lemma LoveLivingHere(t: string)
    requires Contains(t, "love living here")
    ensures Hits(CollegePositive, t) >= 1 && Hits(StrongPositive, t) >= 1
  {
    CountedWithPiece(CollegePositive, 9, StrongPositive, 4, 0, t);
  }

  lemma HighlyRecommend(t: string)
    requires Contains(t, "highly recommend")
    ensures Hits(ModeratePositive, t) >= 1
  {
    assert "highly recommend" == "highly " + "recommend";
    ContainsConcat(t, "highly ", "recommend");
    HitsAtLeastOne(ModeratePositive, t, 8);
  }

  lemma NotCountsNo(t: string)
    requires Contains(t, "not")
    ensures Hits(Negations, t) >= 2
  {
    ContainsPiece(t, "not", "no", 0);
    HitsAtLeastTwo(Negations, t, 0, 1);
  }

  /** The same on the positive side: "worth it" counts "worth", "great
      location" counts "great", "love living here" counts "love" and "highly
      recommend" counts "recommend"; and the negation "not" counts "no" as a
      second negation. */
  lemma NestedPositive(text: string)
    ensures var t, sg := Lower(text), SignalsOf(text);
      && (Contains(t, "worth it") ==> sg.collegePos >= 1 && sg.pos >= 1)
      && (Contains(t, "great location") ==> sg.collegePos >= 1 && sg.strongPos >= 1)
      && (Contains(t, "love living here") ==> sg.collegePos >= 1 && sg.strongPos >= 1)
      && (Contains(t, "highly recommend") ==> sg.pos >= 1)
      && (Contains(t, "not") ==> sg.negations >= 2)
  {
    var t := Lower(text);
    if Contains(t, "worth it") { WorthIt(t); }
    if Contains(t, "great location") { GreatLocation(t); }
    if Contains(t, "love living here") { LoveLivingHere(t); }
    if Contains(t, "highly recommend") { HighlyRecommend(t); }
    if Contains(t, "not") { NotCountsNo(t); }
  }

  /** With a negation present the damped score is 0.7 times an integer, so it
      never sits exactly on one of the thresholds ±1 and ±3, and each threshold
      is an integer bound on the raw score. */
  lemma DampedThresholds(sg: Signals)
    requires sg.negations > 0
    ensures sg.Score() != 3.0 && sg.Score() != -3.0 && sg.Score() != 1.0 && sg.Score() != -1.0
    ensures sg.Score() >= 3.0 <==> sg.Raw() >= 5
    ensures sg.Score() <= -3.0 <==> sg.Raw() <= -5
    ensures sg.Score() >= 1.0 <==> sg.Raw() >= 2
    ensures sg.Score() <= -1.0 <==> sg.Raw() <= -2
  {
  }

  /** The reply, trimmed and lower-cased, as the normaliser inspects it. */
  function Normalize(reply: string): (n: string)
    ensures n == Lower(Strip(reply))
    ensures Trimmed(n) && |n| <= |reply|
    ensures forall i :: 0 <= i < |n| ==> !('A' <= n[i] <= 'Z')
  {
    var s := Strip(reply);
    LowerTrimmed(s);
    LowerNoUpper(s);
    Lower(s)
  }

  lemma LowerCharNotUpper(c: char)
    ensures !('A' <= LowerChar(c) <= 'Z')
  {
  }

  lemma LowerNoUpper(s: string)
    ensures forall i :: 0 <= i < |Lower(s)| ==> !('A' <= Lower(s)[i] <= 'Z')
  {
    forall i | 0 <= i < |Lower(s)| ensures !('A' <= Lower(s)[i] <= 'Z') {
      LowerCharNotUpper(s[i]);
    }
  }

  lemma LowerTrimmed(s: string)
    requires Trimmed(s)
    ensures Trimmed(Lower(s))
  {
    if |s| > 0 {
      LowerCharSpace(s[0]);
      LowerCharSpace(s[|s| - 1]);
    }
  }

  function LabelWord(w: string): Option<Label> {
    if w == "positive" then Some(Positive)
    else if w == "negative" then Some(Negative)
    else if w == "neutral" then Some(Neutral)
    else None
  }

  /** The model-reply normaliser: an exact first word wins, then a
      "positive" substring, then a "negative" substring; anything else, and a
      call that raised, is `Unknown`. */
  function ParseReply(reply: Option<string>): (v: Verdict)
    ensures reply.None? ==> v == Unknown
    ensures reply.Some? && LabelWord(FirstWord(Normalize(reply.value))).Some? ==>
      v == Says(LabelWord(FirstWord(Normalize(reply.value))).value)
    ensures v == Says(Neutral) ==> reply.Some? && FirstWord(Normalize(reply.value)) == "neutral"
    ensures v == Says(Positive) ==> reply.Some? && Contains(Normalize(reply.value), "positive")
    ensures v == Unknown && reply.Some? ==>
      !Contains(Normalize(reply.value), "positive") && !Contains(Normalize(reply.value), "negative")
    ensures reply.Some? && LabelWord(FirstWord(Normalize(reply.value))).None? ==>
      var n := Normalize(reply.value);
      && (v == Says(Positive) <==> Contains(n, "positive"))
      && (v == Says(Negative) <==> !Contains(n, "positive") && Contains(n, "negative"))
      && v != Says(Neutral)
  {
    match reply
    case None => Unknown
    case Some(raw) =>
      var s := Normalize(raw);
      var w := if |s| == 0 then "unknown" else FirstWord(s);
      match LabelWord(w)
      case Some(l) =>
        PrefixContained(s, w);
        Says(l)
      case None =>
        if Contains(s, "positive") then Says(Positive)
        else if Contains(s, "negative") then Says(Negative)
        else Unknown
  }

  lemma PrefixContained(s: string, p: string)
    requires |p| <= |s| && p == s[..|p|]
    ensures Contains(s, p)
  {
  }

  lemma {:induction false} LowerAppend(a: string, b: string)
    ensures Lower(a + b) == Lower(a) + Lower(b)
  {
    var l, r := Lower(a + b), Lower(a) + Lower(b);
    forall i | 0 <= i < |a + b| ensures l[i] == r[i] {
      if i < |a| {
        assert (a + b)[i] == a[i];
        assert r[i] == Lower(a)[i];
      } else {
        assert (a + b)[i] == b[i - |a|];
        assert r[i] == Lower(b)[i - |a|];
      }
    }
    assert |l| == |r|;
  }

  lemma TrimRightPrepend(w: string, rest: string)
    requires |w| > 0 && !IsSpace(w[|w| - 1])
    ensures TrimRight(w + rest) == w + TrimRight(rest)
    decreases |rest|
  {
    if |rest| > 0 && IsSpace(rest[|rest| - 1]) {
      assert (w + rest)[..|w + rest| - 1] == w + rest[..|rest| - 1];
      TrimRightPrepend(w, rest[..|rest| - 1]);
    }
  }

  /** Stripping a word wrapped in whitespace keeps the word and what follows it,
      less trailing whitespace. */
  lemma StripAroundWord(pad: string, w: string, rest: string)
    requires AllSpace(pad)
    requires |w| > 0 && !IsSpace(w[0]) && !IsSpace(w[|w| - 1])
    ensures Strip(pad + w + rest) == w + TrimRight(rest)
  {
    assert pad + w + rest == pad + (w + rest);
    TrimLeftSpacePrefix(pad, w + rest);
    assert TrimLeft(w + rest) == w + rest;
    TrimRightPrepend(w, rest);
  }

  /** What the normaliser sees of a padded word followed by more text. */
  lemma NormalizePadded(pad: string, w: string, rest: string)
    requires AllSpace(pad)
    requires |w| > 0 && forall i :: 0 <= i < |w| ==> !IsSpace(w[i])
    ensures Normalize(pad + w + rest) == Lower(w) + Lower(TrimRight(rest))
  {
    StripAroundWord(pad, w, rest);
    LowerAppend(w, TrimRight(rest));
  }

  lemma LowerCharSpace(c: char)
    ensures IsSpace(LowerChar(c)) <==> IsSpace(c)
  {
  }

  /** Lower-casing keeps whitespace where it was. */
  lemma LowerKeepsLeadingSpace(rest: string)
    requires |rest| == 0 || IsSpace(rest[0])
    ensures var t := Lower(TrimRight(rest)); |t| == 0 || IsSpace(t[0])
  {
    var tr := TrimRight(rest);
    if |tr| > 0 {
      assert tr[0] == rest[0];
      assert Lower(tr)[0] == LowerChar(tr[0]);
      LowerCharSpace(tr[0]);
    }
  }

  lemma LowerNoSpace(w: string)
    requires forall i :: 0 <= i < |w| ==> !IsSpace(w[i])
    ensures forall i :: 0 <= i < |Lower(w)| ==> !IsSpace(Lower(w)[i])
  {
    forall i | 0 <= i < |w| ensures !IsSpace(Lower(w)[i]) {
      LowerCharSpace(w[i]);
    }
  }

  /** The first word the normaliser sees in a padded word followed by more text
      is that word, lower-cased. */
  lemma {:induction false} NormalizedFirstWord(pad: string, w: string, rest: string)
    requires AllSpace(pad)
    requires |w| > 0 && forall i :: 0 <= i < |w| ==> !IsSpace(w[i])
    requires |rest| == 0 || IsSpace(rest[0])
    ensures FirstWord(Normalize(pad + w + rest)) == Lower(w)
  {
    NormalizePadded(pad, w, rest);
    LowerKeepsLeadingSpace(rest);
    LowerNoSpace(w);
    FirstWordOf(Lower(w), Lower(TrimRight(rest)));
  }

  predicate Letter(c: char) {
    'A' <= c <= 'Z' || 'a' <= c <= 'z'
  }

  /** A reply made of a label word in any letter case, optionally surrounded by
      whitespace and followed by further words, is read back as that label. */
  lemma {:induction false} ParseReplyRoundTrip(l: Label, pad: string, w: string, rest: string)
    requires AllSpace(pad)
    requires forall i :: 0 <= i < |w| ==> Letter(w[i])
    requires Lower(w) == l.Name()
    requires |rest| == 0 || IsSpace(rest[0])
    ensures ParseReply(Some(pad + w + rest)) == Says(l)
  {
    assert |w| > 0;
    assert forall i :: 0 <= i < |w| ==> !IsSpace(w[i]);
    NormalizedFirstWord(pad, w, rest);
    ParseReplyByFirstWord(pad + w + rest, l);
  }

  lemma ParseReplyByFirstWord(raw: string, l: Label)
    requires FirstWord(Normalize(raw)) == l.Name()
    ensures ParseReply(Some(raw)) == Says(l)
  {
    var w := FirstWord(Normalize(raw));
    assert LabelWord(w) == Some(l) by {
      match l
      case Positive => assert w == "positive";
      case Negative => assert w == "negative";
      case Neutral => assert w == "neutral";
    }
  }

  /** The sign rule of the last tier: at least 1 positive, at most -1 negative. */
  function RuleLabel(score: real): (l: Label)
    ensures l == Positive <==> score >= 1.0
    ensures l == Negative <==> score <= -1.0
  {
    if score >= 1.0 then Positive else if score <= -1.0 then Negative else Neutral
  }

  /** The label and whether the model was asked for it. */
  datatype Classification = Classification(sentiment: Label, consulted: bool)

  /** Whether a text falls into the band where the model is asked: no clear
      rule score and a confidence below 2. */
  predicate Borderline(sg: Signals) {
    -3.0 < sg.Score() < 3.0 && sg.Confidence() < 2.0
  }

  /** The three-tier classifier; `reply` is what the model would answer if asked. */
  function InferSentiment(text: string, useHybrid: bool, reply: Option<string>): (c: Classification)
    ensures var sg := SignalsOf(text);
      && (c.consulted <==> useHybrid && Borderline(sg))
      && (sg.Score() >= 3.0 ==> c.sentiment == Positive)
      && (sg.Score() <= -3.0 ==> c.sentiment == Negative)
      && (!c.consulted || ParseReply(reply).Unknown? ==> c.sentiment == RuleLabel(sg.Score()))
      && (c.consulted && ParseReply(reply).Says? ==> c.sentiment == ParseReply(reply).said)
  {
    var sg := SignalsOf(text);
    var s := sg.Score();
    if s >= 3.0 then Classification(Positive, false)
    else if s <= -3.0 then Classification(Negative, false)
    else if useHybrid && sg.Confidence() < 2.0 then
      match ParseReply(reply)
      case Says(l) => Classification(l, true)
      case Unknown => Classification(RuleLabel(s), true)
    else Classification(RuleLabel(s), false)
  }

  /** Without the model's help the result depends on the text alone: whatever the
      reply would have been, the label is the sign rule of the lexical score. */
  lemma RulesOnly(text: string, r1: Option<string>, r2: Option<string>)
    ensures InferSentiment(text, false, r1) == InferSentiment(text, false, r2)
    ensures InferSentiment(text, false, r1).sentiment == RuleLabel(SignalsOf(text).Score())
    ensures !InferSentiment(text, false, r1).consulted
  {
  }

  /** A clear rule score is never overridden by the model, whatever it says. */
  lemma ClearScoreIgnoresModel(text: string, useHybrid: bool, r1: Option<string>, r2: Option<string>)
    requires SignalsOf(text).Score() >= 3.0 || SignalsOf(text).Score() <= -3.0
    ensures InferSentiment(text, useHybrid, r1) == InferSentiment(text, useHybrid, r2)
  {
  }
}
