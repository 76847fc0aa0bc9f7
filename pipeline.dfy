/**
  What `transform_file` does with one file, in both package copies: the catalog's
  `transformations` entries are sorted by priority (999 when an entry has none), each
  recognised entry runs its rule on the buffer the previous rules produced, and the edits are
  collected in that order. A rule that raises ends the call with the exception. The write of
  the migrated file (after moving the original to `path + ".legacy"`) happens only outside a
  dry run and only when some edit was made; here it is handed back as data.

  The three ways the rules are dispatched:
  - `Fallback`: the runtime-fallback copy with `legacy_fallback` set: all four rules, the
    helper include without a directory, and the null-check pass right after the pointer pass;
  - `Modern`: the same copy without `legacy_fallback`: only the create rule, in its modern
    form;
  - `Package(helperPath)`: the packaged copy: all four rules, the helper include under
    `helperPath`, no null-check pass.
*/
module Pipeline {

  import opened Wrappers
  import opened Matching
  import opened Patterns
  import opened Sorting
  import opened Edits
  import opened InsertRules
  import opened SpliceRules
  import opened NullChecks

  datatype Mode = Fallback | Modern | Package(helperPath: string)

  /** A key of the catalog's `transformations` mapping: one of the four that `transform_file`
      acts on, or any other. */
  datatype Key = LazyBindingKey | HelperIncludeKey | CreateKey | PointerKey | OtherKey(name: string)

  /** The key as written in the catalog. */
  function KeyName(k: Key): string {
    match k
    case LazyBindingKey => "add_lazy_binding"
    case HelperIncludeKey => "add_helper_include"
    case CreateKey => "replace_display_create"
    case PointerKey => "replace_pointer_arrow"
    case OtherKey(name) => name
  }

  /** Each key string has one representation: `OtherKey` holds only the keys that are none of
      the four. */
  ghost predicate Canonical(k: Key) {
    k.OtherKey? ==> k.name !in {"add_lazy_binding", "add_helper_include", "replace_display_create", "replace_pointer_arrow"}
  }

  /** One entry of the catalog's `transformations` mapping: its key and its settings. */
  datatype Rule = Rule(key: Key, config: TransformConfig)

  /** The keys of a mapping are distinct. */
  ghost predicate DistinctNames(rs: seq<Rule>) {
    forall i, j :: 0 <= i < j < |rs| ==> rs[i].key != rs[j].key
  }

  /** The sort key `x[1].get('priority', 999)`. */
  function Priority(r: Rule): int {
    if r.config.priority.Some? then r.config.priority.value else 999
  }

  /** `sorted(transformations_config.items(), key=...)`. */
  function RuleOrder(catalog: seq<Rule>): (rs: seq<Rule>)
    ensures SortedBy(rs, Priority)
    ensures multiset(rs) == multiset(catalog)
  {
    SortBy(catalog, Priority)
  }

  /** The rules run in ascending priority, they are the catalog's entries rearranged, entries
      of equal priority keep their catalog order, and an entry without a priority runs after
      every entry whose priority is below 999. */
  lemma RuleOrderFacts(catalog: seq<Rule>, c: int)
    ensures var rs := RuleOrder(catalog);
      && SortedBy(rs, Priority)
      && multiset(rs) == multiset(catalog)
      && WithKey(rs, Priority, c) == WithKey(catalog, Priority, c)
      && (forall i, j ::
            (0 <= i < |rs| && 0 <= j < |rs| && rs[i].config.priority.None? &&
             rs[j].config.priority.Some? && rs[j].config.priority.value < 999) ==> j < i)
  {
    SortByStable(catalog, Priority, c);
  }

  /** Sorting keeps the keys distinct. */
  lemma RuleOrderDistinct(catalog: seq<Rule>)
    requires DistinctNames(catalog)
    ensures DistinctNames(RuleOrder(catalog))
  {
    DistinctKeysPermuted(catalog, RuleOrder(catalog), RuleKey);
  }

  function RuleKey(r: Rule): Key {
    r.key
  }

  lemma DistinctNamesPrefix(rs: seq<Rule>, n: nat)
    requires DistinctNames(rs) && n <= |rs|
    ensures DistinctNames(rs[..n])
    ensures forall i :: 0 <= i < n ==> rs[..n][i] == rs[i]
  {
  }

  // ---------------------------------------------------------------------------------------
  // One rule

  /** What the rule of catalog entry `rule` hands back for `content` in mode `mode`; an entry
      whose key the mode does not handle leaves the text alone. `order` is the order in which
      Python iterates the set of declared DisplayAccess names of a text. */
  function Apply(mode: Mode, engine: Engine, order: string -> seq<string>, path: string, content: string,
                 rule: Rule): (o: RuleOutcome)
    ensures o.Raised? <==>
      && rule.key == CreateKey && !mode.Modern?
      && (|| rule.config.pattern.None? || rule.config.replacement.None?
          || engine(rule.config.pattern.value, NoFlags).CompileError?)
    ensures mode.Modern? ==>
      o == Applied(if rule.key == CreateKey then ModernResult(path, content) else Unchanged(content))
    ensures rule.key.OtherKey? ==> o == Applied(Unchanged(content))
  {
    match rule.key
    case CreateKey =>
      if mode.Modern? then Applied(ModernResult(path, content)) else CreateOutcome(path, content, rule.config, engine)
    case _ => if mode.Modern? then Applied(Unchanged(content)) else ApplyInsertOrPointer(mode, order, path, content, rule)
  }

  /** The other three rules, outside modern mode. */
  function ApplyInsertOrPointer(mode: Mode, order: string -> seq<string>, path: string, content: string,
                                rule: Rule): (o: RuleOutcome)
    ensures o.Applied?
    ensures rule.key.OtherKey? || rule.key == CreateKey ==> o == Applied(Unchanged(content))
  {
    match rule.key
    case LazyBindingKey => Applied(AddLazyBinding(path, content))
    case HelperIncludeKey =>
      Applied(AddHelperInclude(path, content, if mode.Package? then Some(mode.helperPath) else None))
    case PointerKey =>
      var pointed := PointerResult(path, content);
      if mode.Package? then Applied(pointed)
      else
        var checked := NullChecksResult(path, pointed.content, order(pointed.content));
        Applied(RuleResult(checked.content, pointed.transforms + checked.transforms))
    case _ => Applied(Unchanged(content))
  }

  /** The set-order parameter lists each text's declared names once. */
  ghost predicate OrdersNames(order: string -> seq<string>) {
    forall s :: EnumeratesOnce(order(s), DeclaredNames(s))
  }

  /** The set order passed where no null-check pass runs. */
  function NoOrder(s: string): seq<string> {
    []
  }

  /** The body of the loop of `transform_file`: dispatch on the entry's key. */
  method ApplyRule(mode: Mode, engine: Engine, order: string -> seq<string>, path: string, content: string,
                   rule: Rule) returns (r: RuleOutcome)
    requires Sound(engine)
    requires mode.Fallback? ==> OrdersNames(order)
    ensures r == Apply(mode, engine, order, path, content, rule)
  {
    if mode.Modern? {
      if rule.key == CreateKey {
        var result := ReplaceDisplayCreateModern(path, content);
        return Applied(result);
      }
      return Applied(Unchanged(content));
    }
    match rule.key
    case LazyBindingKey =>
      return Applied(AddLazyBinding(path, content));
    case HelperIncludeKey =>
      return Applied(AddHelperInclude(path, content, if mode.Package? then Some(mode.helperPath) else None));
    case CreateKey =>
      r := ReplaceDisplayCreate(path, content, rule.config, engine);
    case PointerKey =>
      var pointed := ReplacePointerToDirect(path, content);
      if mode.Package? {
        return Applied(pointed);
      }
      var checked := ReplaceNullptrChecks(path, pointed.content, order(pointed.content));
      return Applied(RuleResult(checked.content, pointed.transforms + checked.transforms));
    case OtherKey(_) =>
      return Applied(Unchanged(content));
  }

  // ---------------------------------------------------------------------------------------
  // The rules in priority order

  /** The buffer and the edits so far, or the exception that ended the run. */
  datatype Progress = Running(content: string, transforms: seq<Transformation>) | Stopped(error: string)

  /** The rule of each catalog entry, as a function of the buffer it is given. */
  type Rules = (string, Rule) -> RuleOutcome

  /** The rules of mode `mode`. */
  function RulesOf(mode: Mode, engine: Engine, order: string -> seq<string>, path: string): Rules {
    (content, rule) => Apply(mode, engine, order, path, content, rule)
  }

  /** One step of the loop: run the rule on the current buffer and add its edits. */
  function Step(apply: Rules, p: Progress, rule: Rule): Progress {
    if p.Stopped? then p
    else
      match apply(p.content, rule)
      case Raised(e) => Stopped(e)
      case Applied(result) => Running(result.content, p.transforms + result.transforms)
  }

  /** The entries `rules` run one after the other from `p`. */
  function Run(apply: Rules, p: Progress, rules: seq<Rule>): Progress
    decreases |rules|
  {
    if rules == [] then p
    else
      var n := |rules| - 1;
      Step(apply, Run(apply, p, rules[..n]), rules[n])
  }

  lemma RunStep(apply: Rules, p: Progress, rules: seq<Rule>, k: nat)
    requires k < |rules|
    ensures Run(apply, p, rules[..k + 1]) == Step(apply, Run(apply, p, rules[..k]), rules[k])
  {
    assert rules[..k + 1][..k] == rules[..k];
  }

  /** A raised exception ends the run: the later rules do not run. */
  lemma {:induction false} RunStopped(apply: Rules, p: Progress, rules: seq<Rule>, k: nat)
    requires k <= |rules| && Run(apply, p, rules[..k]).Stopped?
    ensures Run(apply, p, rules) == Run(apply, p, rules[..k])
    decreases |rules| - k
  {
    if k < |rules| {
      RunStep(apply, p, rules, k);
      RunStopped(apply, p, rules, k + 1);
    } else {
      assert rules[..k] == rules;
    }
  }

  /** The edits of a run that goes through extend the starting ones, in order. */
  lemma {:induction false} RunExtends(apply: Rules, p: Progress, rules: seq<Rule>)
    requires p.Running? && Run(apply, p, rules).Running?
    ensures |Run(apply, p, rules).transforms| >= |p.transforms|
    ensures Run(apply, p, rules).transforms[..|p.transforms|] == p.transforms
    decreases |rules|
  {
    if rules != [] {
      var n := |rules| - 1;
      var q := Run(apply, p, rules[..n]);
      RunExtends(apply, p, rules[..n]);
      var f := Run(apply, p, rules);
      assert f.transforms == q.transforms + apply(q.content, rules[n]).result.transforms;
      assert f.transforms[..|p.transforms|] == q.transforms[..|p.transforms|];
    }
  }

  /** Entries whose rule leaves every text alone, except the one entry of key `key` when there is
      one, which turns `content` into `result`: the run makes exactly that entry's change. */
  lemma {:induction false} RunOnlyOne(apply: Rules, content: string, rules: seq<Rule>, key: Key, result: RuleResult)
    requires DistinctNames(rules)
    requires forall c: string, r: Rule :: r.key != key ==> apply(c, r) == Applied(Unchanged(c))
    requires forall r: Rule :: r.key == key ==> apply(content, r) == Applied(result)
    ensures (exists i :: 0 <= i < |rules| && rules[i].key == key) ==>
      Run(apply, Running(content, []), rules) == Running(result.content, result.transforms)
    ensures (forall i :: 0 <= i < |rules| ==> rules[i].key != key) ==>
      Run(apply, Running(content, []), rules) == Running(content, [])
    decreases |rules|
  {
    if rules != [] {
      var n := |rules| - 1;
      DistinctNamesPrefix(rules, n);
      RunOnlyOne(apply, content, rules[..n], key, result);
      if rules[n].key == key {
        forall i | 0 <= i < n
          ensures rules[..n][i].key != key
        {
          assert rules[i].key != rules[n].key;
        }
      } else {
        if exists i :: 0 <= i < |rules| && rules[i].key == key {
          var i :| 0 <= i < |rules| && rules[i].key == key;
          assert rules[..n][i] == rules[i];
        }
      }
    }
  }

  /** A catalog without a recognised key changes nothing, in every mode. */
  lemma {:induction false} RunUnknown(mode: Mode, engine: Engine, order: string -> seq<string>, path: string,
                                      content: string, rules: seq<Rule>)
    requires forall i :: 0 <= i < |rules| ==> rules[i].key.OtherKey?
    ensures Run(RulesOf(mode, engine, order, path), Running(content, []), rules) == Running(content, [])
    decreases |rules|
  {
    if rules != [] {
      var n := |rules| - 1;
      assert rules[n].key.OtherKey?;
      RunUnknown(mode, engine, order, path, content, rules[..n]);
      assert rules[..n] + [rules[n]] == rules;
    }
  }

  /** In modern mode only the create rewrite runs, and (the keys being distinct) at most
      once: the result is the modern create rewrite of the text when the entries include
      `replace_display_create`, and the text itself otherwise. */
  lemma ModernOnlyCreate(engine: Engine, order: string -> seq<string>, path: string, content: string,
                         rules: seq<Rule>)
    requires DistinctNames(rules)
    ensures var f := Run(RulesOf(Modern, engine, order, path), Running(content, []), rules);
      var modern := ModernResult(path, content);
      && ((exists i :: 0 <= i < |rules| && rules[i].key == CreateKey) ==>
            f == Running(modern.content, modern.transforms))
      && ((forall i :: 0 <= i < |rules| ==> rules[i].key != CreateKey) ==> f == Running(content, []))
  {
    var apply := RulesOf(Modern, engine, order, path);
    forall c: string, r: Rule | r.key != CreateKey
      ensures apply(c, r) == Applied(Unchanged(c))
    {
      ModernApply(engine, order, path, c, r);
    }
    forall r: Rule | r.key == CreateKey
      ensures apply(content, r) == Applied(ModernResult(path, content))
    {
      ModernApply(engine, order, path, content, r);
    }
    RunOnlyOne(apply, content, rules, CreateKey, ModernResult(path, content));
  }

  lemma ModernApply(engine: Engine, order: string -> seq<string>, path: string, content: string, r: Rule)
    ensures RulesOf(Modern, engine, order, path)(content, r)
      == Applied(if r.key == CreateKey then ModernResult(path, content) else Unchanged(content))
  {
  }

  // ---------------------------------------------------------------------------------------
  // The whole call

  /** The write `transform_file` makes: the original moved to `backupPath`, the new text
      written to `path`. */
  datatype Write = Write(backupPath: string, path: string, content: string)

  /** What `transform_file` returns, with the write it makes; or the exception it lets
      through. */
  datatype FileOutcome = Returned(transforms: seq<Transformation>, write: Option<Write>) | Propagated(error: string)

  /** The end of `transform_file`: the write happens only outside a dry run and only when some
      edit was made, after moving the original aside to `path + ".legacy"`. */
  function Finish(path: string, p: Progress, dryRun: bool): (r: FileOutcome)
    ensures p.Stopped? ==> r == Propagated(p.error)
    ensures p.Running? ==> r.Returned? && r.transforms == p.transforms
    ensures r.Returned? ==> (r.write.Some? <==> !dryRun && p.transforms != [])
    ensures r.Returned? && r.write.Some? ==> r.write.value == Write(path + ".legacy", path, p.content)
  {
    if p.Stopped? then Propagated(p.error)
    else if !dryRun && p.transforms != [] then Returned(p.transforms, Some(Write(path + ".legacy", path, p.content)))
    else Returned(p.transforms, None)
  }

  /** `transform_file` on a file whose read gave `read` (None: the read failed). */
  function TransformOutcome(mode: Mode, engine: Engine, order: string -> seq<string>, catalog: seq<Rule>,
                            path: string, read: Option<string>, dryRun: bool): (r: FileOutcome)
    ensures read.None? ==> r == Returned([], None)
    ensures r.Returned? && (dryRun || r.transforms == []) ==> r.write.None?
    ensures r.Returned? && r.write.Some? ==> r.write.value.backupPath == path + ".legacy" && r.write.value.path == path
  {
    if read.None? then Returned([], None)
    else Finish(path, Run(RulesOf(mode, engine, order, path), Running(read.value, []), RuleOrder(catalog)), dryRun)
  }

  /** In modern mode `transform_file` makes exactly the modern create rewrite, if the catalog
      has a create entry, and nothing otherwise. */
  lemma ModernTransform(engine: Engine, order: string -> seq<string>, catalog: seq<Rule>, path: string,
                        content: string, dryRun: bool)
    requires DistinctNames(catalog)
    ensures var r := TransformOutcome(Modern, engine, order, catalog, path, Some(content), dryRun);
      var modern := ModernResult(path, content);
      && ((exists i :: 0 <= i < |catalog| && catalog[i].key == CreateKey) ==>
            r == Finish(path, Running(modern.content, modern.transforms), dryRun))
      && ((forall i :: 0 <= i < |catalog| ==> catalog[i].key != CreateKey) ==>
            r == Returned([], None))
  {
    var rs := RuleOrder(catalog);
    RuleOrderDistinct(catalog);
    ModernOnlyCreate(engine, order, path, content, rs);
    if exists i :: 0 <= i < |catalog| && catalog[i].key == CreateKey {
      var i :| 0 <= i < |catalog| && catalog[i].key == CreateKey;
      assert catalog[i] in multiset(rs);
    } else {
      forall i | 0 <= i < |rs|
        ensures rs[i].key != CreateKey
      {
        assert rs[i] in multiset(catalog);
      }
    }
  }
}
