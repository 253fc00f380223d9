/** The result shapes of the listing-text and photo analyzers, as their
    consumers read them. A list the analyzer left out reads as an empty list
    (the consumers all default it so); a field left out of a record is `None`. */
module Analyzers {
  import opened Wrappers

  datatype RedFlagRecord = RedFlagRecord(flag: Option<string>, severity: Option<string>, reason: Option<string>)

  datatype MissingInfoRecord = MissingInfoRecord(item: Option<string>, importance: Option<string>, why: Option<string>)

  datatype PhotoIssueRecord = PhotoIssueRecord(issue: Option<string>, severity: Option<string>, explanation: Option<string>)

  /** Text analysis: red flags, missing information and the analyzer's own
      risk word ("low", "medium", "high", or "unknown" after a failure). */
  datatype TextAnalysis = TextAnalysis(
    redFlags: seq<RedFlagRecord>, missingInfo: seq<MissingInfoRecord>, overallRisk: Option<string>)

  /** Photo analysis: the issues found and a 0-10 quality score. */
  datatype ImageAnalysis = ImageAnalysis(photoIssues: seq<PhotoIssueRecord>, qualityScore: Option<real>)
}
