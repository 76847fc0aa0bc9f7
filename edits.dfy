/**
  The rewriter's records: one `Transformation` per edit a rule makes, and what a rule hands
  back to `transform_file` (the new buffer and its edits, in the order they were made).
  Both package copies declare the same record.
*/
module Edits {

  import opened Wrappers

  /** One edit, as listed in the report. */
  datatype Transformation = Transformation(
    filePath: string,
    lineNumber: nat,
    originalText: string,
    newText: string,
    transformationType: string,
    description: string)

  /** A rule's result: the rewritten buffer and the edits that produced it. */
  datatype RuleResult = RuleResult(content: string, transforms: seq<Transformation>)

  /** The keys of a rule's catalog entry that the rewriter reads; a key the entry does not
      have is None. */
  datatype TransformConfig = TransformConfig(
    priority: Option<int>,
    pattern: Option<string>,
    replacement: Option<string>)

  /** A catalog-driven rule either produces a result or raises (a missing key, a pattern
      that does not compile); the exception leaves `transform_file` unhandled. */
  datatype RuleOutcome = Applied(result: RuleResult) | Raised(error: string)

  /** The result of a rule that found nothing to do. */
  function Unchanged(content: string): RuleResult {
    RuleResult(content, [])
  }
}
