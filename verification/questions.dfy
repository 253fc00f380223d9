/** The grounded question pipeline: every issue found by the analyzers (and
    the first three negative student comments) becomes a flag with an id
    "<source>_<index>"; a generator is asked for questions that cite those ids;
    a candidate survives only if every id it cites exists; three ordered rules
    decide whether to keep the survivors or to fall back to one deterministic
    question that lists every flag by severity.

    The generator is two inputs: its raw reply (`None` when the call raised)
    and the JSON decoding of that reply after code-fence stripping (`None` when
    decoding, or reading the decoded shape, raised). */
module Questions {
  import opened Wrappers
  import opened Text
  import opened Sentiment
  import opened Analyzers
  import opened StudentContext

  datatype Severity = Low | Medium | High | Unrecognized(name: string)

  function ParseSeverity(s: string): (r: Severity)
    ensures r == Low <==> s == "low"
    ensures r == Medium <==> s == "medium"
    ensures r == High <==> s == "high"
    ensures r.Unrecognized? <==> s != "low" && s != "medium" && s != "high"
    ensures r.Unrecognized? ==> r.name == s
  {
    if s == "low" then Low else if s == "medium" then Medium else if s == "high" then High
    else Unrecognized(s)
  }

  /** Where a flag came from; the id prefix names the source. */
  datatype Source = TextFlag | MissingInfo | PhotoIssue | StudentConcern {
    function Prefix(): string {
      match this
      case TextFlag => "text_flag"
      case MissingInfo => "missing_info"
      case PhotoIssue => "photo_issue"
      case StudentConcern => "student_concern"
    }
  }

  datatype Flag = Flag(id: string, source: Source, description: string, severity: Severity, reason: string)

  /** "<prefix>_<index>" */
  function FlagId(src: Source, i: nat): string {
    src.Prefix() + "_" + NatToString(i)
  }

  lemma PrefixesDiffer(a: Source, b: Source)
    requires a != b
    ensures a.Prefix()[0] != b.Prefix()[0]
  {
  }

  lemma FlagIdHead(src: Source, i: nat)
    ensures FlagId(src, i)[0] == src.Prefix()[0]
  {
  }

  /** Ids never collide: the prefixes start with different letters, and equal
      prefixes leave equal decimal indices. */
  lemma FlagIdInjective(a: Source, i: nat, b: Source, j: nat)
    requires FlagId(a, i) == FlagId(b, j)
    ensures a == b && i == j
  {
    if a != b {
      PrefixesDiffer(a, b);
      FlagIdHead(a, i);
      FlagIdHead(b, j);
    } else {
      var n := |a.Prefix()| + 1;
      assert FlagId(a, i)[n..] == NatToString(i);
      assert FlagId(b, j)[n..] == NatToString(j);
      NatToStringInjective(i, j);
    }
  }

  function FromRedFlag(r: RedFlagRecord, i: nat): (f: Flag)
    ensures f.id == FlagId(TextFlag, i) && f.source == TextFlag
    ensures f.description == r.flag.GetOr("") && f.reason == r.reason.GetOr("")
    ensures r.severity.None? ==> f.severity == Medium
    ensures r.severity.Some? ==> f.severity == ParseSeverity(r.severity.value)
  {
    Flag(FlagId(TextFlag, i), TextFlag, r.flag.GetOr(""), ParseSeverity(r.severity.GetOr("medium")), r.reason.GetOr(""))
  }

  function FromMissingInfo(m: MissingInfoRecord, i: nat): (f: Flag)
    ensures f.id == FlagId(MissingInfo, i) && f.source == MissingInfo
    ensures f.description == "Missing: " + m.item.GetOr("") && f.reason == m.why.GetOr("")
    ensures m.importance.None? ==> f.severity == Medium
    ensures m.importance.Some? ==> f.severity == ParseSeverity(m.importance.value)
  {
    Flag(FlagId(MissingInfo, i), MissingInfo, "Missing: " + m.item.GetOr(""),
         ParseSeverity(m.importance.GetOr("medium")), m.why.GetOr(""))
  }

  function FromPhotoIssue(p: PhotoIssueRecord, i: nat): (f: Flag)
    ensures f.id == FlagId(PhotoIssue, i) && f.source == PhotoIssue
    ensures f.description == p.issue.GetOr("") && f.reason == p.explanation.GetOr("")
    ensures p.severity.None? ==> f.severity == Medium
    ensures p.severity.Some? ==> f.severity == ParseSeverity(p.severity.value)
  {
    Flag(FlagId(PhotoIssue, i), PhotoIssue, p.issue.GetOr(""),
         ParseSeverity(p.severity.GetOr("medium")), p.explanation.GetOr(""))
  }

  function FromConcern(c: StudentComment, i: nat): (f: Flag)
    ensures f.id == FlagId(StudentConcern, i) && f.source == StudentConcern
    ensures f.severity == Medium && f.reason == Take(c.text, 100)
    ensures f.description == "Student feedback: " + c.category.GetOr("general") + " concerns"
  {
    Flag(FlagId(StudentConcern, i), StudentConcern,
         "Student feedback: " + c.category.GetOr("general") + " concerns", Medium, Take(c.text, 100))
  }

  function Negatives(cs: seq<StudentComment>): (r: seq<StudentComment>)
    ensures |r| <= |cs|
    ensures forall k :: 0 <= k < |r| ==> r[k].sentiment == Some(Negative) && r[k] in cs
    ensures forall k :: 0 <= k < |cs| && cs[k].sentiment == Some(Negative) ==> cs[k] in r
  {
    if |cs| == 0 then []
    else
      var rest := Negatives(cs[1..]);
      assert forall x :: x in cs[1..] ==> x in cs;
      assert forall k :: 1 <= k < |cs| ==> cs[k] == cs[1..][k - 1];
      (if cs[0].sentiment == Some(Negative) then [cs[0]] else []) + rest
  }

  /** The filter works comment by comment, so it keeps the comments' order. */
  lemma {:induction false} NegativesAppend(a: seq<StudentComment>, b: seq<StudentComment>)
    ensures Negatives(a + b) == Negatives(a) + Negatives(b)
  {
    if |a| == 0 {
      assert a + b == b;
    } else {
      assert (a + b)[1..] == a[1..] + b;
      NegativesAppend(a[1..], b);
    }
  }

  /** At most the first three negative comments, in comment order. */
  function NegativeConcerns(reviews: StudentReviews): (r: seq<StudentComment>)
    ensures |r| <= 3
    ensures var n := Negatives(reviews.comments.GetOr([]));
      |r| == Min(3, |n|) && r == n[..|r|]
  {
    var n := Negatives(reviews.comments.GetOr([]));
    n[..Min(3, |n|)]
  }

  datatype Tagging = Tagging(flags: seq<Flag>, validIds: set<string>)

  function IdSet(fs: seq<Flag>): set<string> {
    if |fs| == 0 then {} else {fs[0].id} + IdSet(fs[1..])
  }

  predicate DistinctIds(fs: seq<Flag>) {
    forall i, j :: 0 <= i < j < |fs| ==> fs[i].id != fs[j].id
  }

  /** The id set holds exactly the flags' ids. */
  lemma {:induction false} IdSetMembers(fs: seq<Flag>)
    ensures forall k :: 0 <= k < |fs| ==> fs[k].id in IdSet(fs)
    ensures forall id :: id in IdSet(fs) ==> exists k :: 0 <= k < |fs| && fs[k].id == id
  {
    if |fs| > 0 {
      var rest := fs[1..];
      IdSetMembers(rest);
      assert IdSet(fs) == {fs[0].id} + IdSet(rest);
      forall k | 0 <= k < |fs| ensures fs[k].id in IdSet(fs) {
        if k > 0 {
          assert fs[k] == rest[k - 1];
        }
      }
      forall id | id in IdSet(fs) ensures exists k :: 0 <= k < |fs| && fs[k].id == id {
        if id != fs[0].id {
          var k :| 0 <= k < |rest| && rest[k].id == id;
          assert fs[k + 1].id == id;
        }
      }
    }
  }

  /** With distinct ids the id set has one member per flag. */
  lemma {:induction false} IdSetSize(fs: seq<Flag>)
    requires DistinctIds(fs)
    ensures |IdSet(fs)| == |fs|
  {
    if |fs| > 0 {
      var rest := fs[1..];
      assert DistinctIds(rest) by {
        forall i, j | 0 <= i < j < |rest| ensures rest[i].id != rest[j].id {
          assert rest[i] == fs[i + 1] && rest[j] == fs[j + 1];
        }
      }
      IdSetSize(rest);
      IdSetMembers(rest);
      forall k | 0 <= k < |rest| ensures rest[k].id != fs[0].id {
        assert rest[k] == fs[k + 1];
      }
      assert fs[0].id !in IdSet(rest);
      assert IdSet(fs) == {fs[0].id} + IdSet(rest);
    }
  }

  /** The id set holds exactly the flags' ids, one per flag when they are distinct. */
  lemma IdSetExact(fs: seq<Flag>)
    requires DistinctIds(fs)
    ensures |IdSet(fs)| == |fs|
    ensures forall k :: 0 <= k < |fs| ==> fs[k].id in IdSet(fs)
    ensures forall id :: id in IdSet(fs) ==> exists k :: 0 <= k < |fs| && fs[k].id == id
  {
    IdSetMembers(fs);
    IdSetSize(fs);
  }

  /** Flags numbered from 0 within their source. */
  predicate Numbered(fs: seq<Flag>, src: Source) {
    forall i :: 0 <= i < |fs| ==> fs[i].id == FlagId(src, i)
  }

  function RedFlagBlock(red: seq<RedFlagRecord>): (r: seq<Flag>)
    ensures |r| == |red| && Numbered(r, TextFlag)
    ensures forall i :: 0 <= i < |red| ==> r[i] == FromRedFlag(red[i], i)
  {
    seq(|red|, i requires 0 <= i < |red| => FromRedFlag(red[i], i))
  }

  function MissingInfoBlock(miss: seq<MissingInfoRecord>): (r: seq<Flag>)
    ensures |r| == |miss| && Numbered(r, MissingInfo)
    ensures forall i :: 0 <= i < |miss| ==> r[i] == FromMissingInfo(miss[i], i)
  {
    seq(|miss|, i requires 0 <= i < |miss| => FromMissingInfo(miss[i], i))
  }

  function PhotoIssueBlock(photo: seq<PhotoIssueRecord>): (r: seq<Flag>)
    ensures |r| == |photo| && Numbered(r, PhotoIssue)
    ensures forall i :: 0 <= i < |photo| ==> r[i] == FromPhotoIssue(photo[i], i)
  {
    seq(|photo|, i requires 0 <= i < |photo| => FromPhotoIssue(photo[i], i))
  }

  function ConcernBlock(neg: seq<StudentComment>): (r: seq<Flag>)
    ensures |r| == |neg| && Numbered(r, StudentConcern)
    ensures forall i :: 0 <= i < |neg| ==> r[i] == FromConcern(neg[i], i)
  {
    seq(|neg|, i requires 0 <= i < |neg| => FromConcern(neg[i], i))
  }

  /** The source and in-source index that position `k` of four concatenated
      numbered blocks carries in its id. */
  lemma BlockPosition(a: seq<Flag>, b: seq<Flag>, c: seq<Flag>, d: seq<Flag>, k: nat)
      returns (src: Source, n: nat, offset: nat)
    requires Numbered(a, TextFlag) && Numbered(b, MissingInfo)
    requires Numbered(c, PhotoIssue) && Numbered(d, StudentConcern)
    requires k < |a + b + c + d|
    ensures (a + b + c + d)[k].id == FlagId(src, n) && n == k - offset
    ensures src == TextFlag ==> offset == 0
    ensures src == MissingInfo ==> offset == |a|
    ensures src == PhotoIssue ==> offset == |a| + |b|
    ensures src == StudentConcern ==> offset == |a| + |b| + |c|
  {
    var fs := a + b + c + d;
    if k < |a| {
      src, n, offset := TextFlag, k, 0;
      assert fs[k] == a[k];
    } else if k < |a| + |b| {
      src, n, offset := MissingInfo, k - |a|, |a|;
      assert fs[k] == b[k - |a|];
    } else if k < |a| + |b| + |c| {
      src, n, offset := PhotoIssue, k - |a| - |b|, |a| + |b|;
      assert fs[k] == c[k - |a| - |b|];
    } else {
      src, n, offset := StudentConcern, k - |a| - |b| - |c|, |a| + |b| + |c|;
      assert fs[k] == d[k - |a| - |b| - |c|];
    }
  }

  /** Four numbered blocks of different sources never repeat an id. */
  lemma BlocksDistinct(a: seq<Flag>, b: seq<Flag>, c: seq<Flag>, d: seq<Flag>)
    requires Numbered(a, TextFlag) && Numbered(b, MissingInfo)
    requires Numbered(c, PhotoIssue) && Numbered(d, StudentConcern)
    ensures DistinctIds(a + b + c + d)
  {
    var fs := a + b + c + d;
    forall i, j | 0 <= i < j < |fs| ensures fs[i].id != fs[j].id {
      var si, ni, oi := BlockPosition(a, b, c, d, i);
      var sj, nj, oj := BlockPosition(a, b, c, d, j);
      if fs[i].id == fs[j].id {
        FlagIdInjective(si, ni, sj, nj);
      }
    }
  }

  /** Where each record lands in the concatenation of the four numbered blocks. */
  lemma {:induction false} TaggedLayout(red: seq<RedFlagRecord>, miss: seq<MissingInfoRecord>,
                     photo: seq<PhotoIssueRecord>, neg: seq<StudentComment>)
    ensures var fs := RedFlagBlock(red) + MissingInfoBlock(miss) + PhotoIssueBlock(photo) + ConcernBlock(neg);
      && |fs| == |red| + |miss| + |photo| + |neg|
      && (forall i :: 0 <= i < |red| ==> fs[i] == FromRedFlag(red[i], i))
      && (forall i :: 0 <= i < |miss| ==> fs[|red| + i] == FromMissingInfo(miss[i], i))
      && (forall i :: 0 <= i < |photo| ==> fs[|red| + |miss| + i] == FromPhotoIssue(photo[i], i))
      && (forall i :: 0 <= i < |neg| ==> fs[|red| + |miss| + |photo| + i] == FromConcern(neg[i], i))
  {
    var a, b, c, d := RedFlagBlock(red), MissingInfoBlock(miss), PhotoIssueBlock(photo), ConcernBlock(neg);
    var fs := a + b + c + d;
    assert |fs| == |a| + |b| + |c| + |d|;
    forall i | 0 <= i < |red| ensures fs[i] == FromRedFlag(red[i], i) {
      assert fs[i] == a[i];
    }
    forall i | 0 <= i < |miss| ensures fs[|red| + i] == FromMissingInfo(miss[i], i) {
      assert fs[|a| + i] == b[i];
    }
    forall i | 0 <= i < |photo| ensures fs[|red| + |miss| + i] == FromPhotoIssue(photo[i], i) {
      assert fs[|a| + |b| + i] == c[i];
    }
    forall i | 0 <= i < |neg| ensures fs[|red| + |miss| + |photo| + i] == FromConcern(neg[i], i) {
      assert fs[|a| + |b| + |c| + i] == d[i];
    }
  }

  /** The tagged flags of `_prepare_flags_with_ids`: red flags, then missing
      information, then photo issues, then student concerns, each numbered from
      0 in input order. */
  function AllFlags(text: TextAnalysis, image: ImageAnalysis, reviews: StudentReviews): (fs: seq<Flag>)
    ensures var red, miss, photo, neg := text.redFlags, text.missingInfo, image.photoIssues, NegativeConcerns(reviews);
      && |fs| == |red| + |miss| + |photo| + |neg|
      && (forall i :: 0 <= i < |red| ==> fs[i] == FromRedFlag(red[i], i))
      && (forall i :: 0 <= i < |miss| ==> fs[|red| + i] == FromMissingInfo(miss[i], i))
      && (forall i :: 0 <= i < |photo| ==> fs[|red| + |miss| + i] == FromPhotoIssue(photo[i], i))
      && (forall i :: 0 <= i < |neg| ==> fs[|red| + |miss| + |photo| + i] == FromConcern(neg[i], i))
    ensures DistinctIds(fs)
  {
    var a := RedFlagBlock(text.redFlags);
    var b := MissingInfoBlock(text.missingInfo);
    var c := PhotoIssueBlock(image.photoIssues);
    var d := ConcernBlock(NegativeConcerns(reviews));
    TaggedLayout(text.redFlags, text.missingInfo, image.photoIssues, NegativeConcerns(reviews));
    BlocksDistinct(a, b, c, d);
    a + b + c + d
  }

  /** `_prepare_flags_with_ids`: the tagged flags and the set of their ids, which
      has one id per flag. */
  function TagFlags(text: TextAnalysis, image: ImageAnalysis, reviews: StudentReviews): (t: Tagging)
    ensures t.flags == AllFlags(text, image, reviews)
    ensures |t.validIds| == |t.flags|
    ensures forall k :: 0 <= k < |t.flags| ==> t.flags[k].id in t.validIds
    ensures forall id :: id in t.validIds ==> exists k :: 0 <= k < |t.flags| && t.flags[k].id == id
  {
    var fs := AllFlags(text, image, reviews);
    IdSetExact(fs);
    Tagging(fs, IdSet(fs))
  }

  // ---- Candidates and validation ----

  /** One decoded candidate question; `flagIds` is absent when the generator left it out. */
  datatype Candidate = Candidate(question: string, flagIds: Option<seq<string>>, priority: string, reasoning: string)

  function CitedIds(c: Candidate): seq<string> {
    c.flagIds.GetOr([])
  }

  predicate GroundedIn(ids: seq<string>, valid: set<string>) {
    forall k :: 0 <= k < |ids| ==> ids[k] in valid
  }

  datatype Category = ListingDescription | MissingDetails | Photos | StudentConcerns | General | ComprehensiveReview {
    function Name(): string {
      match this
      case ListingDescription => "listing_description"
      case MissingDetails => "missing_details"
      case Photos => "photos"
      case StudentConcerns => "student_concerns"
      case General => "general"
      case ComprehensiveReview => "comprehensive_review"
    }
  }

  /** A text starts with at most one of the source prefixes. */
  lemma OnePrefix(x: string)
    ensures forall a: Source, b: Source :: a != b && StartsWith(x, a.Prefix()) ==> !StartsWith(x, b.Prefix())
  {
    forall a: Source, b: Source | a != b && StartsWith(x, a.Prefix())
      ensures !StartsWith(x, b.Prefix())
    {
      assert x[0] == a.Prefix()[0];
      PrefixesDiffer(a, b);
    }
  }

  lemma NoPrefix(x: string)
    requires !StartsWith(x, TextFlag.Prefix()) && !StartsWith(x, MissingInfo.Prefix())
    requires !StartsWith(x, PhotoIssue.Prefix()) && !StartsWith(x, StudentConcern.Prefix())
    ensures forall src: Source :: !StartsWith(x, src.Prefix())
  {
    forall src: Source ensures !StartsWith(x, src.Prefix()) {
      match src
      case TextFlag =>
      case MissingInfo =>
      case PhotoIssue =>
      case StudentConcern =>
    }
  }

  /** `_determine_category`: by the prefix of the first cited id; no id, or an
      id of no known source, files the question under "general". */
  function CategoryOf(ids: seq<string>): (r: Category)
    ensures r != ComprehensiveReview
    ensures |ids| == 0 ==> r == General
  {
    if |ids| == 0 then General
    else if StartsWith(ids[0], "text_flag") then ListingDescription
    else if StartsWith(ids[0], "missing_info") then MissingDetails
    else if StartsWith(ids[0], "photo_issue") then Photos
    else if StartsWith(ids[0], "student_concern") then StudentConcerns
    else General
  }

  function SourceCategory(src: Source): Category {
    match src
    case TextFlag => ListingDescription
    case MissingInfo => MissingDetails
    case PhotoIssue => Photos
    case StudentConcern => StudentConcerns
  }

  /** The prefixes start with different letters, so at most one of them
      matches, and the order of the tests does not matter: the category is a
      source's exactly when the first id carries that source's prefix, and
      "general" exactly when it carries none. */
  lemma CategoryByPrefix(ids: seq<string>)
    ensures forall src: Source :: CategoryOf(ids) == SourceCategory(src) <==> |ids| > 0 && StartsWith(ids[0], src.Prefix())
    ensures CategoryOf(ids) == General <==> |ids| == 0 || forall src: Source :: !StartsWith(ids[0], src.Prefix())
  {
    if |ids| > 0 {
      var x := ids[0];
      OnePrefix(x);
      if !StartsWith(x, TextFlag.Prefix()) && !StartsWith(x, MissingInfo.Prefix())
        && !StartsWith(x, PhotoIssue.Prefix()) && !StartsWith(x, StudentConcern.Prefix())
      {
        NoPrefix(x);
      }
    }
  }

  /** A question that cites a tagged flag first is filed under that flag's source. */
  lemma CategoryOfTaggedId(src: Source, i: nat, rest: seq<string>)
    ensures CategoryOf([FlagId(src, i)] + rest) == SourceCategory(src)
  {
    var id := FlagId(src, i);
    assert id[..|src.Prefix()|] == src.Prefix();
    assert id[0] == src.Prefix()[0];
  }

  /** A question handed back: an accepted candidate with its category, or the
      composite fallback question. */
  datatype Question =
    | Accepted(candidate: Candidate, category: Category)
    | Composite(text: string, priority: Severity, reason: string)
  {
    /** The category shown with the question. */
    function Filed(): Category {
      match this
      case Accepted(_, c) => c
      case Composite(_, _, _) => ComprehensiveReview
    }

    function Cited(): seq<string> {
      match this
      case Accepted(c, _) => CitedIds(c)
      case Composite(_, _, _) => []
    }
  }

  datatype Validation = Validation(accepted: seq<Question>, rejected: nat)

  /** The per-candidate check: keep a candidate iff every id it cites is valid,
      filed under the category of its first id. */
  function Validate(cands: seq<Candidate>, valid: set<string>): (v: Validation)
    ensures |v.accepted| + v.rejected == |cands|
  {
    if |cands| == 0 then Validation([], 0)
    else
      var c := cands[0];
      var rest := Validate(cands[1..], valid);
      if GroundedIn(CitedIds(c), valid) then
        Validation([Accepted(c, CategoryOf(CitedIds(c)))] + rest.accepted, rest.rejected)
      else
        Validation(rest.accepted, rest.rejected + 1)
  }

  /** Every question handed back cites valid ids only. */
  predicate AllGrounded(qs: seq<Question>, valid: set<string>) {
    forall k :: 0 <= k < |qs| ==> GroundedIn(qs[k].Cited(), valid)
  }

  /** Only grounded candidates survive, unchanged and filed by their first id. */
  lemma {:induction false} ValidateSound(cands: seq<Candidate>, valid: set<string>)
    ensures forall k :: 0 <= k < |Validate(cands, valid).accepted| ==>
      && Validate(cands, valid).accepted[k].Accepted?
      && GroundedIn(Validate(cands, valid).accepted[k].Cited(), valid)
      && Validate(cands, valid).accepted[k].category == CategoryOf(Validate(cands, valid).accepted[k].Cited())
      && Validate(cands, valid).accepted[k].candidate in cands
  {
    if |cands| > 0 {
      ValidateSound(cands[1..], valid);
      assert forall x :: x in cands[1..] ==> x in cands;
    }
  }

  /** Every grounded candidate survives. */
  lemma {:induction false} ValidateComplete(cands: seq<Candidate>, valid: set<string>)
    ensures forall c :: c in cands && GroundedIn(CitedIds(c), valid) ==>
      Accepted(c, CategoryOf(CitedIds(c))) in Validate(cands, valid).accepted
  {
    if |cands| > 0 {
      ValidateComplete(cands[1..], valid);
      assert forall x :: x in cands ==> x == cands[0] || x in cands[1..];
    }
  }

  /** Validation works candidate by candidate: the survivors of a concatenation are
      the survivors of each part, in order. */
  lemma {:induction false} ValidateAppend(a: seq<Candidate>, b: seq<Candidate>, valid: set<string>)
    ensures Validate(a + b, valid).accepted == Validate(a, valid).accepted + Validate(b, valid).accepted
    ensures Validate(a + b, valid).rejected == Validate(a, valid).rejected + Validate(b, valid).rejected
  {
    if |a| == 0 {
      assert a + b == b;
    } else {
      var ab, c := a + b, a[0];
      assert ab[0] == c;
      assert ab[1..] == a[1..] + b;
      ValidateAppend(a[1..], b, valid);
      var rest, restA := Validate(ab[1..], valid), Validate(a[1..], valid);
      if GroundedIn(CitedIds(c), valid) {
        var q := [Accepted(c, CategoryOf(CitedIds(c)))];
        assert Validate(ab, valid).accepted == q + rest.accepted;
        assert Validate(a, valid).accepted == q + restA.accepted;
      }
    }
  }

  /** A candidate citing even one unknown id is rejected. */
  lemma UngroundedRejected(c: Candidate, valid: set<string>)
    requires !GroundedIn(CitedIds(c), valid)
    ensures Validate([c], valid) == Validation([], 1)
  {
  }

  datatype FallbackReason =
    | NoValidQuestions
    | TooManyHallucinations(rejected: nat, valid: nat)
    | LowCoverage(valid: nat, total: nat)

  datatype Check = Check(validated: seq<Question>, shouldFallback: bool, reason: Option<FallbackReason>)

  function Max(a: nat, b: nat): nat {
    if a < b then b else a
  }

  /** `_validate_llm_output`: validate, then fall back on the first rule that
      fires: nothing accepted although flags exist; more rejected than accepted;
      under half coverage (accepted / max(1, total) < 0.5) with three or more flags. */
  function CheckCandidates(cands: seq<Candidate>, valid: set<string>, total: nat): (r: Check)
    ensures var v := Validate(cands, valid);
      var a, h := |v.accepted|, v.rejected;
      && (r.shouldFallback <==> !((a > 0 || total == 0) && h <= a && (total < 3 || 2 * a >= total)))
      && (r.shouldFallback ==> r.validated == [] && r.reason.Some?)
      && (!r.shouldFallback ==> r.validated == v.accepted && r.reason.None?)
      && (r.reason == Some(NoValidQuestions) <==> a == 0 && total > 0)
      && (r.reason.Some? && r.reason.value.TooManyHallucinations? <==> !(a == 0 && total > 0) && h > a)
    ensures AllGrounded(r.validated, valid)
    ensures forall k :: 0 <= k < |r.validated| ==> r.validated[k].Accepted?
  {
    var v := Validate(cands, valid);
    ValidateSound(cands, valid);
    var a, h := |v.accepted|, v.rejected;
    if a == 0 && total > 0 then Check([], true, Some(NoValidQuestions))
    else if h > a then Check([], true, Some(TooManyHallucinations(h, a)))
    else if 2 * a < Max(1, total) && total >= 3 then Check([], true, Some(LowCoverage(a, total)))
    else Check(v.accepted, false, None)
  }

  // ---- Code-fence stripping ----

  const Fence := "```"

  /** The reply as handed to the JSON decoder: trimmed, and when it starts with a
      code fence and has more than two lines, without its first and last line. */
  function StripFence(reply: string): (r: string)
    ensures !StartsWith(Strip(reply), Fence) ==> r == Strip(reply)
    ensures |Split(Strip(reply), '\n')| <= 2 ==> r == Strip(reply)
  {
    var t := Strip(reply);
    if StartsWith(t, Fence) then
      var lines := Split(t, '\n');
      if |lines| > 2 then Join(lines[1..|lines| - 1], "\n") else t
    else t
  }

  lemma NoNewlineInFenceLine(tag: string)
    requires '\n' !in tag
    ensures '\n' !in Fence + tag
  {
    var first := Fence + tag;
    forall k | 0 <= k < |first| ensures first[k] != '\n' {
      if k >= |Fence| {
        assert first[k] == tag[k - |Fence|];
      }
    }
  }

  /** The lines of a fenced body: the opening fence line, the body's own lines,
      the closing fence. */
  lemma FencedLines(tag: string, body: string)
    requires '\n' !in tag
    ensures Split(Fence + tag + "\n" + body + "\n" + Fence, '\n') == [Fence + tag] + Split(body, '\n') + [Fence]
  {
    var first, rest := Fence + tag, body + ['\n'] + Fence;
    assert Fence + tag + "\n" + body + "\n" + Fence == first + ['\n'] + rest;
    NoNewlineInFenceLine(tag);
    SplitNoSeparator(first, '\n');
    SplitNoSeparator(Fence, '\n');
    SplitAround(first, rest, '\n');
    SplitAround(body, Fence, '\n');
  }

  lemma FencedTrimmed(tag: string, body: string)
    ensures var f := Fence + tag + "\n" + body + "\n" + Fence; Trimmed(f) && StartsWith(f, Fence)
  {
    var f := Fence + tag + "\n" + body + "\n" + Fence;
    assert f[..|Fence|] == Fence;
    assert f[|f| - 1] == Fence[2];
  }

  /** A body wrapped in a fence line (with an optional language tag) and a closing
      fence, with any whitespace around, is unwrapped to exactly that body. */
  lemma StripFenceRoundTrip(pad: string, tag: string, body: string, pad2: string)
    requires AllSpace(pad) && AllSpace(pad2)
    requires '\n' !in tag
    ensures StripFence(pad + Fence + tag + "\n" + body + "\n" + Fence + pad2) == body
  {
    var fenced := Fence + tag + "\n" + body + "\n" + Fence;
    assert pad + Fence + tag + "\n" + body + "\n" + Fence + pad2 == pad + fenced + pad2;
    StripPadding(pad, fenced, pad2);
    FencedTrimmed(tag, body);
    StripTrimmed(fenced);
    FencedLines(tag, body);
    var lines := Split(fenced, '\n');
    assert lines[1..|lines| - 1] == Split(body, '\n');
    JoinSplit(body, '\n');
  }

  // ---- The fallback question ----

  function WithSeverity(fs: seq<Flag>, s: Severity): (r: seq<Flag>)
    ensures |r| <= |fs|
    ensures forall k :: 0 <= k < |r| ==> r[k].severity == s && r[k] in fs
    ensures forall k :: 0 <= k < |fs| && fs[k].severity == s ==> fs[k] in r
  {
    if |fs| == 0 then []
    else
      var rest := WithSeverity(fs[1..], s);
      assert forall x :: x in fs[1..] ==> x in fs;
      assert forall k :: 1 <= k < |fs| ==> fs[k] == fs[1..][k - 1];
      (if fs[0].severity == s then [fs[0]] else []) + rest
  }

  /** The filter works flag by flag, so it keeps the flags' order. */
  lemma {:induction false} WithSeverityAppend(a: seq<Flag>, b: seq<Flag>, s: Severity)
    ensures WithSeverity(a + b, s) == WithSeverity(a, s) + WithSeverity(b, s)
  {
    if |a| == 0 {
      assert a + b == b;
    } else {
      assert (a + b)[1..] == a[1..] + b;
      WithSeverityAppend(a[1..], b, s);
    }
  }

  /** The three groups share out the flags: together they hold every flag whose
      severity is high, medium or low, and nothing else. */
  lemma {:induction false} SeverityPartition(fs: seq<Flag>)
    ensures |WithSeverity(fs, High)| + |WithSeverity(fs, Medium)| + |WithSeverity(fs, Low)| <= |fs|
    ensures (forall k :: 0 <= k < |fs| ==> !fs[k].severity.Unrecognized?) ==>
      |WithSeverity(fs, High)| + |WithSeverity(fs, Medium)| + |WithSeverity(fs, Low)| == |fs|
  {
    if |fs| > 0 {
      SeverityPartition(fs[1..]);
      assert forall k :: 1 <= k < |fs| ==> fs[k] == fs[1..][k - 1];
    }
  }

  const Bullet := "  • "

  function Bullets(fs: seq<Flag>): (r: seq<string>)
    ensures |r| == |fs|
  {
    if |fs| == 0 then [] else [Bullet + fs[0].description] + Bullets(fs[1..])
  }

  /** One severity group: its heading and one bullet per flag, preceded by a blank
      line when an earlier group was written. */
  function Section(heading: string, fs: seq<Flag>, afterEarlier: bool): (r: seq<string>)
    ensures |fs| == 0 <==> r == []
    ensures |fs| > 0 ==> var h := if afterEarlier then 1 else 0;
      && |r| == h + 1 + |fs| && r[h] == heading && (afterEarlier ==> r[0] == "")
  {
    if |fs| == 0 then []
    else (if afterEarlier then [""] else []) + [heading] + Bullets(fs)
  }

  /** The three severity groups, high first, each only when it has a flag. */
  function ConcernLines(fs: seq<Flag>): (r: seq<string>)
    ensures r == [] <==> forall k :: 0 <= k < |fs| ==> fs[k].severity.Unrecognized?
    ensures HasHigh(fs) ==> r[0] == "High Priority Issues:"
  {
    var high, medium, low := WithSeverity(fs, High), WithSeverity(fs, Medium), WithSeverity(fs, Low);
    WithSeverityEmpty(fs, High);
    WithSeverityEmpty(fs, Medium);
    WithSeverityEmpty(fs, Low);
    Section("High Priority Issues:", high, false)
      + Section("Additional Concerns:", medium, |high| > 0)
      + Section("Other Items:", low, |high| > 0 || |medium| > 0)
  }

  const Opening := "I reviewed the listing and noticed the following points I'd like to address:\n\n"
  const Closing := "\n\nCould you please provide clarification on each of these items?"

  predicate HasHigh(fs: seq<Flag>) {
    exists k :: 0 <= k < |fs| && fs[k].severity == High
  }

  lemma {:induction false} WithSeverityEmpty(fs: seq<Flag>, s: Severity)
    ensures |WithSeverity(fs, s)| == 0 <==> forall k :: 0 <= k < |fs| ==> fs[k].severity != s
  {
    if |fs| > 0 {
      WithSeverityEmpty(fs[1..], s);
      assert forall k :: 1 <= k < |fs| ==> fs[k] == fs[1..][k - 1];
    }
  }

  /** `_generate_fallback_questions`: no flags, no question; otherwise exactly one
      composite question, high priority iff some flag is high, whose reason counts
      every flag. */
  function FallbackQuestions(fs: seq<Flag>): (qs: seq<Question>)
    ensures |fs| == 0 ==> qs == []
    ensures |fs| > 0 ==> |qs| == 1 && qs[0].Composite? && qs[0].Filed() == ComprehensiveReview
    ensures |fs| > 0 ==> (qs[0].priority == High <==> HasHigh(fs)) && (qs[0].priority == High || qs[0].priority == Medium)
    ensures |fs| > 0 ==> qs[0].reason == NatToString(|fs|) + " concerns identified during listing analysis"
    ensures |fs| > 0 ==> qs[0].text == Opening + Join(ConcernLines(fs), "\n") + Closing
    ensures forall k :: 0 <= k < |qs| ==> qs[k].Cited() == []
  {
    if |fs| == 0 then []
    else
      WithSeverityEmpty(fs, High);
      var priority := if |WithSeverity(fs, High)| > 0 then High else Medium;
      [Composite(Opening + Join(ConcernLines(fs), "\n") + Closing, priority,
                 NatToString(|fs|) + " concerns identified during listing analysis")]
  }

  /** Whether an analyzer reported some issue with the severity word "high";
      student concerns are always medium. */
  predicate SaysHigh(text: TextAnalysis, image: ImageAnalysis) {
    || (exists i :: 0 <= i < |text.redFlags| && text.redFlags[i].severity == Some("high"))
    || (exists i :: 0 <= i < |text.missingInfo| && text.missingInfo[i].importance == Some("high"))
    || (exists i :: 0 <= i < |image.photoIssues| && image.photoIssues[i].severity == Some("high"))
  }

  /** A high flag comes from an analyzer issue marked "high". */
  lemma HighFlagFromWord(text: TextAnalysis, image: ImageAnalysis, reviews: StudentReviews, k: nat)
    requires k < |AllFlags(text, image, reviews)| && AllFlags(text, image, reviews)[k].severity == High
    ensures SaysHigh(text, image)
  {
    var fs := AllFlags(text, image, reviews);
    var red, miss, photo, neg := text.redFlags, text.missingInfo, image.photoIssues, NegativeConcerns(reviews);
    var tail := |red| + |miss| + |photo|;
    forall j | tail <= j < |fs|
      ensures fs[j].severity == Medium
    {
      var i := j - tail;
      assert fs[tail + i] == FromConcern(neg[i], i);
    }
    if k < |red| {
      assert fs[k] == FromRedFlag(red[k], k);
      assert red[k].severity == Some("high");
    } else if k < |red| + |miss| {
      var i := k - |red|;
      assert fs[|red| + i] == FromMissingInfo(miss[i], i);
      assert miss[i].importance == Some("high");
    } else {
      assert k < tail;
      var i := k - |red| - |miss|;
      assert fs[|red| + |miss| + i] == FromPhotoIssue(photo[i], i);
      assert photo[i].severity == Some("high");
    }
  }

  /** An analyzer issue marked "high" gives a high flag. */
  lemma HighWordGivesHighFlag(text: TextAnalysis, image: ImageAnalysis, reviews: StudentReviews)
    requires SaysHigh(text, image)
    ensures HasHigh(AllFlags(text, image, reviews))
  {
    var fs := AllFlags(text, image, reviews);
    var red, miss, photo := text.redFlags, text.missingInfo, image.photoIssues;
    if i :| 0 <= i < |red| && red[i].severity == Some("high") {
      assert fs[i] == FromRedFlag(red[i], i);
      assert fs[i].severity == High;
    } else if i :| 0 <= i < |miss| && miss[i].importance == Some("high") {
      assert fs[|red| + i] == FromMissingInfo(miss[i], i);
      assert fs[|red| + i].severity == High;
    } else {
      var i :| 0 <= i < |photo| && photo[i].severity == Some("high");
      assert fs[|red| + |miss| + i] == FromPhotoIssue(photo[i], i);
      assert fs[|red| + |miss| + i].severity == High;
    }
  }

  /** Over the flags of an assessment, the fallback question is high priority
      exactly when an analyzer used the word "high". */
  lemma FallbackPriorityFromWords(text: TextAnalysis, image: ImageAnalysis, reviews: StudentReviews)
    requires |AllFlags(text, image, reviews)| > 0
    ensures FallbackQuestions(AllFlags(text, image, reviews))[0].priority == High <==> SaysHigh(text, image)
  {
    var fs := AllFlags(text, image, reviews);
    if HasHigh(fs) {
      var k :| 0 <= k < |fs| && fs[k].severity == High;
      HighFlagFromWord(text, image, reviews, k);
    }
    if SaysHigh(text, image) {
      HighWordGivesHighFlag(text, image, reviews);
    }
  }

  function Descriptions(fs: seq<Flag>): (r: seq<string>)
    ensures |r| == |fs|
  {
    if |fs| == 0 then [] else [fs[0].description] + Descriptions(fs[1..])
  }

  /** The descriptions carried by the bullet lines among `lines`, in order. */
  function BulletTexts(lines: seq<string>): seq<string> {
    if |lines| == 0 then []
    else (if StartsWith(lines[0], Bullet) then [lines[0][|Bullet|..]] else []) + BulletTexts(lines[1..])
  }

  lemma {:induction false} BulletTextsAppend(a: seq<string>, b: seq<string>)
    ensures BulletTexts(a + b) == BulletTexts(a) + BulletTexts(b)
  {
    if |a| == 0 {
      assert a + b == b;
    } else {
      assert (a + b)[0] == a[0];
      assert (a + b)[1..] == a[1..] + b;
      var head := if StartsWith(a[0], Bullet) then [a[0][|Bullet|..]] else [];
      assert BulletTexts(a + b) == head + BulletTexts(a[1..] + b);
      assert BulletTexts(a) == head + BulletTexts(a[1..]);
      BulletTextsAppend(a[1..], b);
    }
  }

  lemma {:induction false} BulletTextsOfBullets(fs: seq<Flag>)
    ensures BulletTexts(Bullets(fs)) == Descriptions(fs)
  {
    if |fs| > 0 {
      var line := Bullet + fs[0].description;
      assert StartsWith(line, Bullet) && line[|Bullet|..] == fs[0].description;
      BulletTextsOfBullets(fs[1..]);
      BulletTextsAppend([line], Bullets(fs[1..]));
    }
  }

  lemma SectionBullets(heading: string, fs: seq<Flag>, afterEarlier: bool)
    requires |heading| > 0 && heading[0] != ' '
    ensures BulletTexts(Section(heading, fs, afterEarlier)) == Descriptions(fs)
  {
    if |fs| > 0 {
      var pre := (if afterEarlier then [""] else []) + [heading];
      assert Section(heading, fs, afterEarlier) == pre + Bullets(fs);
      BulletTextsAppend(pre, Bullets(fs));
      if afterEarlier {
        BulletTextsAppend([""], [heading]);
      }
      BulletTextsOfBullets(fs);
    }
  }

  /** The fallback text lists, as bullets, the descriptions of the high flags,
      then of the medium flags, then of the low flags; each group is the
      order-keeping filter `WithSeverity`, so every flag of a recognised
      severity gets exactly one bullet and a flag of any other severity gets
      none. */
  lemma FallbackBullets(fs: seq<Flag>)
    ensures BulletTexts(ConcernLines(fs)) ==
      Descriptions(WithSeverity(fs, High)) + Descriptions(WithSeverity(fs, Medium)) + Descriptions(WithSeverity(fs, Low))
  {
    var high, medium, low := WithSeverity(fs, High), WithSeverity(fs, Medium), WithSeverity(fs, Low);
    var s1 := Section("High Priority Issues:", high, false);
    var s2 := Section("Additional Concerns:", medium, |high| > 0);
    var s3 := Section("Other Items:", low, |high| > 0 || |medium| > 0);
    SectionBullets("High Priority Issues:", high, false);
    SectionBullets("Additional Concerns:", medium, |high| > 0);
    SectionBullets("Other Items:", low, |high| > 0 || |medium| > 0);
    BulletTextsAppend(s1, s2);
    BulletTextsAppend(s1 + s2, s3);
  }

  // ---- The pipeline ----

  datatype Path = NoFlags | GeneratorPath | FallbackPath

  datatype Generated = Generated(questions: seq<Question>, path: Path)

  /** What the generator path yields: `None` when the call raised or its answer
      could not be decoded, else the decoded candidates. */
  function Decoded(reply: Option<string>, decode: string -> Option<seq<Candidate>>): (d: Option<seq<Candidate>>)
    ensures reply.None? ==> d.None?
    ensures reply.Some? ==> d == decode(StripFence(reply.value))
  {
    match reply
    case None => None
    case Some(s) => decode(StripFence(s))
  }

  /** With flags present: the validated candidates when the checks pass, the
      fallback question on any failure. */
  function Decide(t: Tagging, decoded: Option<seq<Candidate>>): (g: Generated)
    requires |t.flags| > 0
    ensures g.path != NoFlags
    ensures g.path == FallbackPath <==> decoded.None? || CheckCandidates(decoded.value, t.validIds, |t.flags|).shouldFallback
    ensures g.path == FallbackPath ==> g.questions == FallbackQuestions(t.flags) && |g.questions| == 1
    ensures g.path == GeneratorPath ==> g.questions == CheckCandidates(decoded.value, t.validIds, |t.flags|).validated
    ensures AllGrounded(g.questions, t.validIds)
  {
    var fallback := FallbackQuestions(t.flags);
    assert AllGrounded(fallback, t.validIds) by {
      forall k | 0 <= k < |fallback| ensures GroundedIn(fallback[k].Cited(), t.validIds) {
        assert fallback[k].Cited() == [];
      }
    }
    match decoded
    case None => Generated(fallback, FallbackPath)
    case Some(cands) =>
      var chk := CheckCandidates(cands, t.validIds, |t.flags|);
      if chk.shouldFallback then Generated(fallback, FallbackPath)
      else Generated(chk.validated, GeneratorPath)
  }

  /** `generate_questions`. `reply` is the generator's raw answer (`None`: the call
      raised); `decode` reads the fence-stripped answer (`None`: decoding raised). */
  function GenerateQuestions(
    text: TextAnalysis, image: ImageAnalysis, reviews: StudentReviews,
    reply: Option<string>, decode: string -> Option<seq<Candidate>>): (g: Generated)
    ensures var t := TagFlags(text, image, reviews);
      && (g.path == NoFlags <==> |t.flags| == 0)
      && (g.path == NoFlags ==> g.questions == [])
      && (|t.flags| > 0 ==> g == Decide(t, Decoded(reply, decode)))
      && AllGrounded(g.questions, t.validIds)
  {
    var t := TagFlags(text, image, reviews);
    if |t.flags| == 0 then Generated([], NoFlags)
    else Decide(t, Decoded(reply, decode))
  }

  /** Without a grounded candidate nothing is accepted. */
  lemma {:induction false} NoneGroundedNoneAccepted(cands: seq<Candidate>, valid: set<string>)
    requires forall c :: c in cands ==> !GroundedIn(CitedIds(c), valid)
    ensures Validate(cands, valid).accepted == []
  {
    if |cands| > 0 {
      assert cands[0] in cands;
      assert forall x :: x in cands[1..] ==> x in cands;
      NoneGroundedNoneAccepted(cands[1..], valid);
    }
  }

  /** When no decoded candidate is grounded the checks fail on the first rule. */
  lemma NothingGroundedFallsBack(cands: seq<Candidate>, valid: set<string>, total: nat)
    requires total > 0
    requires forall c :: c in cands ==> !GroundedIn(CitedIds(c), valid)
    ensures CheckCandidates(cands, valid, total).shouldFallback
    ensures CheckCandidates(cands, valid, total).reason == Some(NoValidQuestions)
  {
    NoneGroundedNoneAccepted(cands, valid);
  }

  /** A generator that cites nothing real cannot get a question through: when no
      decoded candidate is grounded, the answer is the fallback question. */
  lemma HallucinatingGeneratorFallsBack(
    text: TextAnalysis, image: ImageAnalysis, reviews: StudentReviews,
    reply: string, decode: string -> Option<seq<Candidate>>)
    requires |TagFlags(text, image, reviews).flags| > 0
    requires decode(StripFence(reply)).Some?
    requires forall c :: c in decode(StripFence(reply)).value ==>
      !GroundedIn(CitedIds(c), TagFlags(text, image, reviews).validIds)
    ensures GenerateQuestions(text, image, reviews, Some(reply), decode).path == FallbackPath
  {
    var t := TagFlags(text, image, reviews);
    NothingGroundedFallsBack(decode(StripFence(reply)).value, t.validIds, |t.flags|);
  }

  /** A failed call or an undecodable answer gives the fallback question. */
  lemma FailureFallsBack(
    text: TextAnalysis, image: ImageAnalysis, reviews: StudentReviews,
    reply: Option<string>, decode: string -> Option<seq<Candidate>>)
    requires |TagFlags(text, image, reviews).flags| > 0
    requires reply.None? || decode(StripFence(reply.value)).None?
    ensures GenerateQuestions(text, image, reviews, reply, decode).questions
      == FallbackQuestions(TagFlags(text, image, reviews).flags)
  {
  }

  /** With nothing flagged the generator is never asked: the answer is the same
      for every reply and every decoding. */
  lemma NoFlagsNoCall(
    text: TextAnalysis, image: ImageAnalysis, reviews: StudentReviews,
    r1: Option<string>, d1: string -> Option<seq<Candidate>>,
    r2: Option<string>, d2: string -> Option<seq<Candidate>>)
    requires |TagFlags(text, image, reviews).flags| == 0
    ensures GenerateQuestions(text, image, reviews, r1, d1) == GenerateQuestions(text, image, reviews, r2, d2) == Generated([], NoFlags)
  {
  }
}
