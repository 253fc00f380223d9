# Apartment Hunter backend core, modelled in Dafny

Apartment Hunter helps students judge a rental listing. A Flask API takes the
listing text, photos, an address and a university. It runs a text analyzer and
an image analyzer, backed by a large language model. It pulls mock Reddit
reviews of the area and combines everything into a risk assessment and a list
of grounded questions for the landlord. This project models the deterministic
logic around the model calls as pure functions over immutable datatypes, and
proves what that logic promises.

Each model call is an input:
- A sentiment reply is an `Option<string>`. `None` means the call raised.
- The question generator is two inputs:
  - its raw reply, an `Option<string>`;
  - a `decode` function. It turns the fence-stripped reply into candidate
    questions, or gives `None` when the JSON (or its shape) could not be read.

Modules (one file each):

- `Wrappers`: `Option`.
- `Text`: the Python string operations the code relies on, restricted to ASCII:
  `strip`, `lower`, `capitalize`, substring `in`, `startswith`, `split()[0]`,
  `split('\n')`, `join` and `str(n)`.
- `Sentiment`: the hybrid comment classifier of `backend/mock_reddit_data.py`:
  - a keyword score over seven fixed term lists, with a 0.7 damping when any
    negation occurs;
  - a confidence value;
  - a three-tier decision;
  - the normaliser for the model's reply.
- `Recency`: `calculate_recency_weight`. `strptime("%Y-%m")` is modelled on
  ASCII digits: four year digits, a dash, and a one- or two-digit month with
  nothing after it. The age is measured against the fixed month 2025-01.
- `Reviews`: the aggregate block of `get_mock_student_reviews`:
  - per-comment labels and weights;
  - the label counts;
  - the five-step overall score.
- `StudentContext`: the review set as the API reads it, plus
  `get_key_concerns` and `get_positive_highlights`.
- `Analyzers`: the shapes of the text and photo analyses.
- `Questions`: `backend/utils/question_generator.py`:
  - flag tagging with `<source>_<index>` ids;
  - validation of generated candidates against the id set;
  - the three ordered fallback rules;
  - code-fence stripping;
  - the severity-grouped fallback question;
  - the whole `generate_questions` pipeline.
- `Assessment`: `_allowed_file`, `_calculate_overall_assessment` and
  `_generate_summary` of `backend/app.py`.
- `Validators`: the four validators of `backend/utils/validators.py`.

Where the code and its description differ, the model follows the code:

- The generator's reply is always stripped of surrounding whitespace before it
  is decoded, not only when it starts with a code fence.
- The recency docstring gives a weight range of 0.5 to 1.5. The code returns
  0.7 to 1.5.
- The student risk divides the negative comment count by 100, although the
  variable is named a ratio. So a review set built from fewer than 30 comments
  always reads as low student risk. `Assessment.FewNegativeReviewsAreLowRisk`
  states this as written.
  A failed review lookup answers with a non-empty breakdown holding no
  negatives, so it also reads as student risk 1, not through the 0.5 default
  for a missing breakdown (`Assessment.FailedLookupIsLowRisk`).
- The fallback question's docstring promises that it covers every flag. The
  code groups flags only by the severities "high", "medium" and "low", so a
  flag with any other severity gets no bullet. `Questions.FallbackBullets`
  and `Questions.ConcernLines` state this as written.

Ratios are compared by cross-multiplying on exact reals: `2·neg > total`
stands for `neg/total > 0.5`. The model states no bit-exact agreement with IEEE
arithmetic on ties. Lexical scores are integers, so the damped score 0.7·s
never lands exactly on ±1 or ±3, and exact arithmetic agrees with Python's
there (`Sentiment.DampedThresholds`).

## Model

| member | source | states |
|---|---|---|
| `Sentiment.ParseReply` | backend/mock_reddit_data.py:78-99 | a failed call gives unknown; an exact label as the first word of the trimmed, lower-cased reply wins; otherwise the verdict is positive iff the reply contains "positive", negative iff it contains "negative" but not "positive", never neutral, and unknown when it contains neither |
| `Sentiment.Normalize` | backend/mock_reddit_data.py:78 | the normalised reply is the stripped reply lower-cased: no whitespace at either end, no upper-case letter, never longer than the reply |
| `Sentiment.ParseReplyRoundTrip` | backend/mock_reddit_data.py:78-85 | a label word in any letter case, padded with whitespace and followed by more words, reads back as that label |
| `Sentiment.ParseReplyByFirstWord` | backend/mock_reddit_data.py:81-85 | a reply whose normalised first word is a label name reads as that label |
| `Sentiment.HitsAtLeastOne` | backend/mock_reddit_data.py:164-170 | every list entry that occurs in the text adds a hit |
| `Sentiment.HitsAtLeastTwo` | backend/mock_reddit_data.py:164-170 | two entries that both occur add two hits |
| `Sentiment.HitsZero` | backend/mock_reddit_data.py:164-170 | a list scores no hit iff none of its entries occurs in the text |
| `Sentiment.HitsCountsFound` | backend/mock_reddit_data.py:164-170 | a list's hit count is the number of its positions whose entry occurs in the text (`Found`, a set of indices) |
| `Sentiment.SignalsCountFound` | backend/mock_reddit_data.py:117-170 | each of the seven counts of a text is the number of entries of its list that occur in the lower-cased text |
| `Sentiment.SignalsIgnoreCase` | backend/mock_reddit_data.py:117-170 | the counts of a text and of its lower-cased form are the same |
| `Sentiment.Signals.Raw` | backend/mock_reddit_data.py:173-180 | the raw score is at least 0 without negative hits and at most 0 without positive hits, and at most three times the hit total in size |
| `Sentiment.Signals.Score` | backend/mock_reddit_data.py:182-186 | the damped score is the raw score, or 0.7 times it once a negation occurs; it keeps the raw score's sign and never exceeds it in size |
| `Sentiment.Signals.Confidence` | backend/mock_reddit_data.py:183-193 | the confidence is the hit total less half a point per negation; it never exceeds the hit total and equals it without negations |
| `Sentiment.DoubleListedNegative` | backend/mock_reddit_data.py:120-158 | "sketchy", "avoid" and "scam" each count in the college list and in a general negative list |
| `Sentiment.DoubleListedPositive` | backend/mock_reddit_data.py:120-158 | "clean", "spacious", "highly recommend" and "clutch" each count in the college list and in a general positive list |
| `Sentiment.NestedNegative` | backend/mock_reddit_data.py:120-170 | substring matching counts a college phrase and the general term inside it: "broken ac"/"broken", "loud parties"/"loud", "far from campus"/"far", "parking nightmare"/"nightmare", "landlord sucks"/"sucks" |
| `Sentiment.NestedPositive` | backend/mock_reddit_data.py:120-170 | "worth it"/"worth", "great location"/"great", "love living here"/"love" and "highly recommend"/"recommend" each score in two lists, and "not" counts as two negations because it contains "no" |
| `Sentiment.DampedThresholds` | backend/mock_reddit_data.py:182-186 | with a negation present, the damped score never equals ±1 or ±3; each threshold is the integer bound raw ≥ 5, ≤ −5, ≥ 2 or ≤ −2 |
| `Sentiment.InferSentiment` | backend/mock_reddit_data.py:102-241 | the model is consulted iff hybrid mode is on, the score is strictly between −3 and 3, and confidence is below 2; a score ≥ 3 gives positive and ≤ −3 gives negative; an unknown verdict or no consultation gives the sign rule; a consulted label is returned as given |
| `Sentiment.RulesOnly` | backend/mock_reddit_data.py:219-221 | in rules-only mode the model is never consulted, and the label is the sign rule whatever the reply |
| `Sentiment.ClearScoreIgnoresModel` | backend/mock_reddit_data.py:204-207 | with a clear score the result is the same for every model reply |
| `Sentiment.RuleLabel` | backend/mock_reddit_data.py:236-241 | the last tier gives positive iff the score is at least 1 and negative iff it is at most −1, else neutral |
| `Recency.MonthField` | backend/mock_reddit_data.py:257 | the `%m` field is read iff it is one or two ASCII digits whose value is 1-12, and the month read is that value |
| `Recency.ParseYearMonth` | backend/mock_reddit_data.py:257 | the text parses iff it is four digits with a value of at least 1, a dash, and a valid month field; the result is that year and that month, in 1-9999 and 1-12 |
| `Recency.ParseExamples` | backend/mock_reddit_data.py:257 | "2024-6" and "2024-11" parse; "2024-13", "2024-00", "0000-01", "24-06", "2024/06" and "2024-06-01" do not |
| `Recency.FormatParses` | backend/mock_reddit_data.py:257 | every valid month written as zero-padded "YYYY-MM" parses back to itself |
| `Recency.WeightForAge` | backend/mock_reddit_data.py:265-272 | the weight is 1.5 iff the age is at most 2 months, 1.2 iff it is 3-6, 1.0 iff it is 7-12, and 0.7 iff it is over 12 |
| `Recency.RecencyWeight` | backend/mock_reddit_data.py:244-276 | the weight lies in 0.7-1.5; unparseable text gives 1.0; parseable text gives the step function of the age against 2025-01 |
| `Recency.WeightNonIncreasing` | backend/mock_reddit_data.py:265-272 | an older age never gets a larger weight |
| `Recency.LaterPostWeighsMore` | backend/mock_reddit_data.py:255-272 | of two valid months, the later one weighs at least as much |
| `Recency.FutureGetsTopWeight` | backend/mock_reddit_data.py:258-266 | a month at or after 2025-01 gets weight 1.5 |
| `Reviews.FormatComment` | backend/mock_reddit_data.py:466-481 | text and score are kept; the category defaults to "general"; the label is the hybrid classifier's; a dated comment weighs the recency weight of its month and shows that month; a missing month weighs 1.0 (the default 2024-06 is 7 months old) and shows as "unknown" |
| `Reviews.Tally` | backend/mock_reddit_data.py:489-492 | the three counts are the label counts and sum to the number of comments |
| `Reviews.OverallScore` | backend/mock_reddit_data.py:495-515 | the score is one of 2.0, 2.5, 3.0, 3.5, 4.5; no comments give 3.0 |
| `Reviews.RatioComparisons` | backend/mock_reddit_data.py:500-513 | each ratio comparison agrees with its cross-multiplied form |
| `Reviews.OverallScoreMatchesRatios` | backend/mock_reddit_data.py:500-515 | the cross-multiplied score equals the first-match rule on the weighted ratios |
| `Reviews.LabelWeightsSum` | backend/mock_reddit_data.py:495-497 | the weights of the three labels add up to the total weight |
| `Reviews.LabelWeightNonNegative` | backend/mock_reddit_data.py:496-497 | with positive weights, a label's weight is never negative |
| `Reviews.AbsentLabelWeighsNothing` | backend/mock_reddit_data.py:496-497 | a label no comment carries weighs 0 |
| `Reviews.TotalWeightPositive` | backend/mock_reddit_data.py:495-500 | a non-empty list of positively weighted comments has a positive total weight |
| `Reviews.OneSidedReviews` | backend/mock_reddit_data.py:504-513 | with no negative comment the score is at least 3.0; with no positive comment it is at most 3.0 |
| `Reviews.UnanimousReviews` | backend/mock_reddit_data.py:504-507 | all-negative comments score 2.0 and all-positive comments score 4.5 |
| `Reviews.FormatAll` | backend/mock_reddit_data.py:464-486 | one formatted comment per raw comment, in order, each with a positive weight |
| `Reviews.StudentReviews` | backend/mock_reddit_data.py:464-526 | the comments are the formatted inputs; the counts are their tally and sum to the number of inputs; the score is the weighted overall score, one of five values: 3.0 when empty, 2.0 when all negative, 4.5 when all positive |
| `StudentContext.StudentInsights` | backend/analyzers/student_context.py:28-51 | a failure gives no comments, score 0 and zero counts; otherwise every comment is passed on in order, the three counts are those of the review set under the keys positive, negative and neutral, and the score is the review set's |
| `StudentContext.Shorten` | backend/analyzers/student_context.py:90 | text of at most 150 characters is kept; longer text becomes its first 150 characters and "...", so the result never exceeds 153 |
| `StudentContext.AllConcerns` | backend/analyzers/student_context.py:85-94 | no concern is positive, and each concern text is at most 153 characters |
| `StudentContext.AllHighlights` | backend/analyzers/student_context.py:111-118 | each highlight text is at most 153 characters |
| `StudentContext.AllConcernsAppend` | backend/analyzers/student_context.py:86-94 | concerns are extracted comment by comment, in order |
| `StudentContext.KeyConcerns` | backend/analyzers/student_context.py:82-96 | without a comment list the result is empty; otherwise it is the first min(5, n) of all concerns, in comment order |
| `StudentContext.PositiveHighlights` | backend/analyzers/student_context.py:108-120 | without a comment list the result is empty; otherwise it is the first min(5, n) of all highlights, in comment order |
| `StudentContext.ConcernsAndHighlightsDisjoint` | backend/analyzers/student_context.py:86-113 | the two filters are disjoint, so concerns and highlights together never outnumber the comments |
| `StudentContext.FiltersComplete` | backend/analyzers/student_context.py:86-118 | every negative or neutral comment yields a concern, and every positive one a highlight |
| `StudentContext.FiltersSound` | backend/analyzers/student_context.py:86-118 | every concern comes from a negative or neutral comment and every highlight from a positive one |
| `Questions.ParseSeverity` | backend/utils/question_generator.py:307-309 | "low", "medium" and "high" give exactly the levels Low, Medium and High; any other word is kept as unrecognised |
| `Questions.FlagIdInjective` | backend/utils/question_generator.py:96-146 | two ids are equal only for the same source and index |
| `Questions.FromRedFlag` | backend/utils/question_generator.py:97-105 | id `text_flag_i`; description and reason default to empty; a given severity word is parsed into the flag's level, a missing one is medium |
| `Questions.FromMissingInfo` | backend/utils/question_generator.py:109-117 | id `missing_info_i`; description prefixed "Missing: "; a given importance word is parsed into the flag's level, a missing one is medium |
| `Questions.FromPhotoIssue` | backend/utils/question_generator.py:121-129 | id `photo_issue_i`; issue and explanation carried over; a given severity word is parsed into the flag's level, a missing one is medium |
| `Questions.FromConcern` | backend/utils/question_generator.py:135-143 | id `student_concern_i`; description "Student feedback: <category> concerns" with "general" for a missing category; severity medium; the reason is the first 100 characters of the comment |
| `Questions.Negatives` | backend/utils/question_generator.py:133-134 | the kept comments are exactly the negative ones of the input |
| `Questions.NegativesAppend` | backend/utils/question_generator.py:133-134 | the filter works comment by comment, so it keeps the input order |
| `Questions.NegativeConcerns` | backend/utils/question_generator.py:133-134 | the first min(3, n) negative comments, in input order, from a possibly absent list |
| `Questions.IdSetMembers` | backend/utils/question_generator.py:93-146 | every flag's id is in the id set, and every member of the set is some flag's id |
| `Questions.IdSetSize` | backend/utils/question_generator.py:93-146 | distinct ids give an id set with exactly one member per flag |
| `Questions.IdSetExact` | backend/utils/question_generator.py:93-146 | the id set holds exactly the flags' ids, one per flag |
| `Questions.BlocksDistinct` | backend/utils/question_generator.py:96-146 | the four numbered blocks never repeat an id |
| `Questions.TaggedLayout` | backend/utils/question_generator.py:93-146 | each record's flag sits at its block's offset plus its index in the input |
| `Questions.AllFlags` | backend/utils/question_generator.py:86-146 | count is red + missing + photo + min(3, negatives); red flags come first, then missing info, photo issues and concerns, each in input order; ids are distinct |
| `Questions.TagFlags` | backend/utils/question_generator.py:86-146 | the valid id set has one id per tagged flag and nothing else |
| `Questions.CategoryOfTaggedId` | backend/utils/question_generator.py:217-242 | a question whose first id is a tagged id is filed under that id's source |
| `Questions.CategoryOf` | backend/utils/question_generator.py:217-242 | no id gives general; a question is never filed as a comprehensive review |
| `Questions.CategoryByPrefix` | backend/utils/question_generator.py:217-242 | the category is a source's iff the first id carries that source's prefix, and general iff there is no id or it carries none |
| `Questions.Validate` | backend/utils/question_generator.py:253-272 | accepted plus rejected equals the number of candidates |
| `Questions.ValidateSound` | backend/utils/question_generator.py:257-266 | every accepted question is a given candidate citing only valid ids, filed by its first id (general when it cites none) |
| `Questions.ValidateComplete` | backend/utils/question_generator.py:257-266 | every candidate citing only valid ids is accepted |
| `Questions.ValidateAppend` | backend/utils/question_generator.py:257-272 | validation preserves order: the survivors of a concatenation are the survivors of each part |
| `Questions.UngroundedRejected` | backend/utils/question_generator.py:267-270 | a candidate citing an unknown id is rejected |
| `Questions.CheckCandidates` | backend/utils/question_generator.py:245-290 | fallback iff no candidate is accepted although flags exist, or more are rejected than accepted, or fewer than half of three or more flags are covered; the reason names the first rule that fires; on fallback the validated list is empty; otherwise it is the accepted list, all grounded |
| `Questions.NoneGroundedNoneAccepted` | backend/utils/question_generator.py:257-272 | with no grounded candidate nothing is accepted |
| `Questions.NothingGroundedFallsBack` | backend/utils/question_generator.py:276-278 | with no grounded candidate the first fallback rule fires |
| `Questions.StripFence` | backend/utils/question_generator.py:207-211 | a reply that does not start with a fence once trimmed, or that has at most two lines, is only trimmed |
| `Questions.FencedLines` | backend/utils/question_generator.py:210-211 | a fenced body splits into the fence line, the body's lines and the closing fence |
| `Questions.StripFenceRoundTrip` | backend/utils/question_generator.py:207-211 | a body wrapped in a tagged fence and a closing fence, with whitespace around, is unwrapped to exactly that body |
| `Questions.WithSeverity` | backend/utils/question_generator.py:307-309 | the group holds exactly the flags of that severity, drawn from the input |
| `Questions.WithSeverityAppend` | backend/utils/question_generator.py:307-309 | the grouping works flag by flag, so each group keeps the input order |
| `Questions.SeverityPartition` | backend/utils/question_generator.py:307-309 | the three groups together hold no more flags than the input, and all of them when every severity is high, medium or low |
| `Questions.Section` | backend/utils/question_generator.py:313-331 | an empty group writes nothing; otherwise an optional blank line, the heading and one line per flag |
| `Questions.ConcernLines` | backend/utils/question_generator.py:313-333 | no line is written iff no flag has a recognised severity; with a high flag the first line is the high-priority heading |
| `Questions.WithSeverityEmpty` | backend/utils/question_generator.py:314-343 | a severity group is empty iff no flag has that severity |
| `Questions.FallbackQuestions` | backend/utils/question_generator.py:293-346 | no flags give no question; otherwise exactly one comprehensive-review question with the fixed opening and closing text; it is high priority iff some flag is high, else medium; its reason counts every flag; it cites no ids |
| `Questions.HighFlagFromWord` | backend/utils/question_generator.py:95-146 | a flag of level high comes from a red flag, missing item or photo issue whose severity word is "high"; student concerns are never high |
| `Questions.HighWordGivesHighFlag` | backend/utils/question_generator.py:95-146 | an analyzer issue marked "high" yields a high flag |
| `Questions.FallbackPriorityFromWords` | backend/utils/question_generator.py:307-343 | over the flags of an assessment, the fallback question is high priority iff some analyzer issue carries the severity word "high" |
| `Questions.BulletTextsOfBullets` | backend/utils/question_generator.py:316-317 | the bullets carry the flag descriptions in order |
| `Questions.SectionBullets` | backend/utils/question_generator.py:314-331 | a group's lines carry exactly its flags' descriptions as bullets |
| `Questions.FallbackBullets` | backend/utils/question_generator.py:306-333 | the bullet texts are the descriptions of the high, then medium, then low groups; with the grouping exact and order-keeping, each flag of a recognised severity gets one bullet and other flags none |
| `Questions.Decoded` | backend/utils/question_generator.py:203-214 | a failed call decodes to nothing; otherwise the decoding of the fence-stripped reply |
| `Questions.Decide` | backend/utils/question_generator.py:56-83 | fallback iff the generator failed or the checks say so; the fallback path returns the single fallback question; the other path returns the validated questions; all are grounded |
| `Questions.GenerateQuestions` | backend/utils/question_generator.py:24-83 | no flags give no questions; otherwise the decision on the decoded reply; every returned question cites only tagged ids |
| `Questions.HallucinatingGeneratorFallsBack` | backend/utils/question_generator.py:257-278 | when no decoded candidate is grounded, the answer is the fallback question |
| `Questions.FailureFallsBack` | backend/utils/question_generator.py:78-83 | a failed call or an undecodable reply yields the fallback question |
| `Questions.NoFlagsNoCall` | backend/utils/question_generator.py:51-54 | with nothing flagged the answer is empty for every reply and decoding |
| `Assessment.Extension` | backend/app.py:115 | the result is the text after the last dot (the whole name when there is none) and holds no dot |
| `Assessment.NoDotWholeName` | backend/app.py:115 | a name without a dot is its own extension |
| `Assessment.ExtensionAfterDot` | backend/app.py:115 | the extension of stem + "." + ext is ext |
| `Assessment.AllowedFileByExtension` | backend/app.py:112-115 | a name is accepted iff the text after its last dot, lower-cased, is png, jpg, jpeg, gif or webp |
| `Assessment.AllowedFile` | backend/app.py:112-115 | an accepted name has a dot, followed by a three- or four-character extension that is a proper suffix |
| `Assessment.DotSplitsName` | backend/app.py:115 | a name with a dot is its stem, the last dot and the extension |
| `Assessment.TextRisk` | backend/app.py:130-137 | the risk is 1 iff the word is "low" and 3 iff it is "high"; anything else, including a missing word, gives 2 |
| `Assessment.ImageRisk` | backend/app.py:140-146 | a missing quality gives 2; otherwise 1 iff quality ≥ 7 and 3 iff quality < 4 |
| `Assessment.NegativeRatio` | backend/app.py:149-150 | a missing or empty breakdown gives 0.5; otherwise the ratio is below 0.3 iff the negative count is below 30, and below 0.6 iff it is below 60 |
| `Assessment.StudentRisk` | backend/app.py:149-156 | the risk lies in 1-3 |
| `Assessment.StudentRiskByCount` | backend/app.py:149-156 | a missing or empty breakdown gives 2; otherwise 1 iff fewer than 30 negatives, and 3 iff at least 60 |
| `Assessment.FewNegativeReviewsAreLowRisk` | backend/app.py:149-156 | a review set built from fewer than 30 comments always reads as low student risk |
| `Assessment.FailedLookupIsLowRisk` | backend/app.py:149-156 | the failure answer of the review lookup has a non-empty breakdown with no negatives, so it reads as student risk 1 |
| `Assessment.OverallLevel` | backend/app.py:159-169 | low iff the risk sum is at most 4; high iff it is at least 8 |
| `Assessment.LevelMonotone` | backend/app.py:159-169 | raising any component risk never lowers the level |
| `Assessment.Recommendation` | backend/app.py:161-169 | each level has a non-empty fixed advice |
| `Assessment.RecommendationNamesLevel` | backend/app.py:161-169 | two levels get the same advice iff they are the same level |
| `Assessment.Phrase` | backend/app.py:189-202 | a risk of 3 or more gives the serious phrase, exactly 2 the milder phrase, below 2 none |
| `Assessment.Concerns` | backend/app.py:187-202 | one phrase per risk of 2 or more, none iff all three are below 2; the text phrase comes first, the photo phrase next, the student phrase last, each the serious or the milder one by its risk |
| `Assessment.FoundHead` | backend/app.py:205 | the head is "Found ", the decimal count and " red flag(s). " |
| `Assessment.FoundHeadNamesCount` | backend/app.py:205 | two heads are equal iff their counts are equal |
| `Assessment.FoundIsNotSolid` | backend/app.py:204-207 | a "Found …" summary never equals the solid text |
| `Assessment.SummaryOf` | backend/app.py:204-207 | the solid text iff there are no concerns; otherwise the count head, the capitalized comma-joined phrases and a period |
| `Assessment.Summary` | backend/app.py:185-209 | the solid text iff all three risks are below 2; otherwise the count head, the capitalized comma-joined concern phrases and a period |
| `Assessment.SummaryOfNamesCount` | backend/app.py:204-205 | with concerns, two summaries of the same phrases are equal iff their counts are |
| `Assessment.SummaryNamesCount` | backend/app.py:185-209 | with some risk of 2 or more, the same risks give equal summaries iff the red-flag counts are equal |
| `Assessment.Assess` | backend/app.py:118-182 | level and summary come from the three risks; the recommendation matches the level; the counts are the list lengths; the student score defaults to 0 |
| `Assessment.SummaryAgreesWithLevel` | backend/app.py:159-209 | a solid summary comes only with a low level |
| `Assessment.EmptyInputsAreMedium` | backend/app.py:130-169 | with no risk word, quality score or breakdown, the level is medium and the summary is not the solid text |
| `Validators.ValidateListingText` | backend/utils/validators.py:5-24 | valid iff no error, iff a string with stripped length ≥ 50 and raw length ≤ 10000; each refusal carries the message of the first failing check |
| `Validators.PaddingDoesNotLengthen` | backend/utils/validators.py:18-19 | whitespace padding around too-short content still fails as too short |
| `Validators.PaddingCountsTowardMaximum` | backend/utils/validators.py:18-22 | padding that pushes the raw length past 10000 fails as too long, however long the content |
| `Validators.ValidateUniversity` | backend/utils/validators.py:27-44 | valid iff no error, iff a string with stripped length ≥ 2; missing and short names carry their messages |
| `Validators.ValidateAddress` | backend/utils/validators.py:47-67 | valid iff no error, iff falsy or a string of at most 500 characters |
| `Validators.ValidateImages` | backend/utils/validators.py:70-90 | valid iff no error, iff falsy or a list of at most 5 |
| `Text.StripPadding` | backend/utils/validators.py:18 | stripping ignores whitespace padding on either side |
| `Text.JoinSplit` | backend/utils/question_generator.py:210-211 | joining the parts of a split with the same separator restores the string |
| `Text.SplitAround` | backend/utils/question_generator.py:210 | splitting at a separator splits each side independently |
| `Text.NatToStringInjective` | backend/utils/question_generator.py:98 | different indices give different decimal strings |
| `Text.FirstWordOf` | backend/mock_reddit_data.py:81 | a word at the front followed by whitespace or nothing is the first word |

## Left out

- The Gemini client (`backend/utils/gemini_client.py`) is not part of this model. Every model call is an input as described above.
- `backend/config.py` is not part of this model. It handles environment loading and raises at import time.
- The text and image analyzers (`backend/analyzers/text_analyzer.py`, `backend/analyzers/image_analyzer.py`) are not part of this model. Their prompt text and JSON parsing are replaced by the `Analyzers` result shapes.
- JSON decoding of the generator's reply is the `decode` input, not a parser.
- The mock data loader, its JSON file I/O, and its `random.sample`/`random.shuffle` selection: the selected comments are an input list.
- The permalink field uses Python's salted `hash`. It is omitted from the formatted comment, along with the subreddit, user type and note fields.
- The review set's `subreddit`, `source` and `note` keys are left out (backend/mock_reddit_data.py:520-528). Its `total_mentions` is kept in `Reviews.ReviewSet` but not in the analyzer's view of the set. Also left out are the `data_source` and `disclaimer` keys the student-context analyzer adds on success, and the `error` and `data_source` keys of its failure answer (backend/analyzers/student_context.py:32-50). No modelled consumer reads them.
- Prompt-string construction, all `print` logging and the lazy global client handles are left out.
- Flask routing, CORS, request parsing and PIL image loading are left out.
- `backend/tests/test_backend.py` is left out. It holds smoke scripts that need a live API.
- Floating point: weights, scores and ratios are exact reals. Ratio comparisons are stated cross-multiplied.
- Unicode: `lower`, `capitalize`, `strip` and `split` are modelled on ASCII only, and `strptime`'s digits are ASCII digits only, although Python's `\d` also accepts other Unicode digits.
- A comment dictionary without a `text` key is not modelled: the extractors raise `KeyError` there. Comments always carry a text.
- `Sentiment.InferSentiment` and `Reviews.StudentReviews` take one fixed reply per comment. The model's nondeterminism across calls is not modelled.
- Python values of unexpected types are not modelled; the model's fields have one type each. What the code does with them:
  - a quality score that is not a number makes the comparison at `backend/app.py:141` raise `TypeError`;
  - a severity that is not a string matches none of the three groups, so its flag gets no bullet;
  - a risk word that is not a string goes to `dict.get`, which gives 2, or raises when the value is unhashable;
  - a `flag_ids` of `null` makes the loop in `_validate_llm_output` raise; the exception is caught in `generate_questions` and the fallback question is returned.
- Only the validators' form values are read by truthiness, as the code does.
- `Questions.CheckCandidates` is stated for the decoded candidates only. A candidate that is not a dictionary makes the original raise, and that case is the `None` of `decode`.
