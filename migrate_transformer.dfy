/**
  The `CodeTransformer` of the runtime-fallback rewriter: it holds the loaded catalog, the
  migration mode chosen at construction (`legacy_fallback`) and the list of every edit made
  so far, which each `transform_file` extends and `generate_diff_report` reads.
*/
module MigrateTransformer {

  import opened Wrappers
  import Text
  import opened Matching
  import opened Edits
  import opened Pipeline
  import Report

  class CodeTransformer {
    /** `self.transformations`: every edit of every file transformed so far. */
    var transformations: seq<Transformation>
    /** `self.legacy_fallback`. */
    const legacyFallback: bool
    /** `self.patterns['transformations']`, in the mapping's order (empty when the key is
        missing). */
    const catalog: seq<Rule>
    /** The regular-expression engine that compiles the catalog's patterns. */
    const engine: Engine
    /** The order in which Python iterates the set of DisplayAccess names declared in a text. */
    const setOrder: string -> seq<string>

    ghost predicate Valid() {
      && Sound(engine)
      && OrdersNames(setOrder)
      && DistinctNames(catalog)
      && forall i :: 0 <= i < |catalog| ==> Canonical(catalog[i].key)
    }

    /** The dispatch mode `legacy_fallback` selects. */
    function Mode(): (m: Pipeline.Mode)
      ensures m.Fallback? <==> legacyFallback
      ensures !m.Package?
    {
      if legacyFallback then Fallback else Modern
    }

    /** `__init__`, given the catalog the pattern file holds. */
    constructor (legacyFallback: bool, catalog: seq<Rule>, engine: Engine, setOrder: string -> seq<string>)
      requires Sound(engine) && OrdersNames(setOrder) && DistinctNames(catalog)
      requires forall i :: 0 <= i < |catalog| ==> Canonical(catalog[i].key)
      ensures Valid()
      ensures this.legacyFallback == legacyFallback && this.catalog == catalog
      ensures this.engine == engine && this.setOrder == setOrder
      ensures transformations == []
    {
      this.legacyFallback := legacyFallback;
      this.catalog := catalog;
      this.engine := engine;
      this.setOrder := setOrder;
      transformations := [];
    }

    /** `transform_file` on `path`, whose read gave `read` (None: the read failed): run the
        rules of the mode in priority order on the text, append the edits to
        `transformations` and return them together with the write that follows; a rule that
        raises ends the call with its exception and records nothing. */
    method TransformFile(path: string, read: Option<string>, dryRun: bool) returns (r: FileOutcome)
      requires Valid()
      modifies this
      ensures r == TransformOutcome(Mode(), engine, setOrder, catalog, path, read, dryRun)
      ensures r.Returned? ==> transformations == old(transformations) + r.transforms
      ensures r.Propagated? ==> transformations == old(transformations)
    {
      if read.None? {
        return Returned([], None);
      }
      var p := RunRules(path, read.value);
      if p.Stopped? {
        return Propagated(p.error);
      }
      transformations := transformations + p.transforms;
      r := Finish(path, p, dryRun);
    }

    /** The loop of `transform_file` over the catalog entries sorted by priority, threading
        the buffer through the rules and collecting their edits. */
    method RunRules(path: string, content: string) returns (p: Progress)
      requires Valid()
      ensures p == Run(RulesOf(Mode(), engine, setOrder, path), Running(content, []), RuleOrder(catalog))
    {
      var mode := Mode();
      ghost var rules := RulesOf(mode, engine, setOrder, path);
      var modified := content;
      var fileTransforms := [];
      var sorted := RuleOrder(catalog);
      for k := 0 to |sorted|
        invariant Run(rules, Running(content, []), sorted[..k]) == Running(modified, fileTransforms)
      {
        RunStep(rules, Running(content, []), sorted, k);
        var outcome := ApplyRule(mode, engine, setOrder, path, modified, sorted[k]);
        assert rules(modified, sorted[k]) == outcome;
        if outcome.Raised? {
          RunStopped(rules, Running(content, []), sorted, k + 1);
          return Stopped(outcome.error);
        }
        modified := outcome.result.content;
        fileTransforms := fileTransforms + outcome.result.transforms;
      }
      assert sorted[..|sorted|] == sorted;
      return Running(modified, fileTransforms);
    }

    /** `generate_diff_report`, without the optional write to a file. */
    method GenerateDiffReport() returns (report: string)
      ensures report == Text.Join("\n", Report.ReportLines(transformations))
    {
      report := Report.GenerateDiffReport(transformations);
    }
  }
}
