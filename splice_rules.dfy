/**
  The rules that rewrite every match of a pattern: each scans the buffer it is given once,
  then replaces the matches from left to right in a copy, shifting every match's position by
  a running `offset` (the length change of the replacements made so far). Each loop is proved
  to compute `Substitute` (the replacement of all matches, defined without offsets), and its
  records to carry the line of each match in the scanned buffer.
*/
module SpliceRules {

  import opened Wrappers
  import opened Text
  import opened Matching
  import opened Patterns
  import opened Edits

  /** A record describes the match `m` of the scanned `content`: its file, the line the
      match starts on, and the matched text. */
  predicate RecordsMatch(t: Transformation, path: string, content: string, m: Match) {
    && t.filePath == path
    && t.lineNumber == LineNumber(content, m.start)
    && t.originalText == Slice(content, m.start, m.end)
  }

  // ---------------------------------------------------------------------------------------
  // Catalog-driven create rewrite (`_replace_display_create`)

  /** `match.group(n)` for a group number n >= 1: None stands for a group that did not take
      part and for one the pattern does not have (which raises IndexError). */
  function GroupNumbered(m: Match, n: nat): (g: Option<string>)
    requires n >= 1
    ensures g.Some? <==> n <= |m.groups| && m.groups[n - 1].Some?
  {
    if n <= |m.groups| then m.groups[n - 1] else None
  }

  /** The variable and context names as the source computes them:
      `group(1) if lastindex >= 1 else 'display'` and `group(2) if lastindex >= 2 else
      'context'`. None stands for the TypeError raised when no group took part
      (`None >= 1`) and for the error raised when a chosen group is missing (a None
      replacement for `re.sub`, or IndexError). */
  function CreateNamesAsWritten(m: Match): (r: Option<(string, string)>)
    ensures r.None? <==>
      || m.lastIndex.None?
      || (m.lastIndex.value >= 1 && GroupNumbered(m, 1).None?)
      || (m.lastIndex.value >= 2 && GroupNumbered(m, 2).None?)
    ensures r.Some? && m.lastIndex.value == 0 ==> r.value == ("display", "context")
  {
    match m.lastIndex
    case None => None
    case Some(last) =>
      var v := if last >= 1 then GroupNumbered(m, 1) else Some("display");
      var c := if last >= 2 then GroupNumbered(m, 2) else Some("context");
      if v.None? || c.None? then None else Some((v.value, c.value))
  }

  /** The names as evidently intended: the same choice by `lastindex`, with the defaults
      standing in wherever the source would raise (no group took part, or the chosen group
      is missing). */
  function CreateNames(m: Match): (names: (string, string))
    ensures names.0 == (if m.lastIndex.Some? && m.lastIndex.value >= 1 && GroupNumbered(m, 1).Some? then GroupNumbered(m, 1).value else "display")
    ensures names.1 == (if m.lastIndex.Some? && m.lastIndex.value >= 2 && GroupNumbered(m, 2).Some? then GroupNumbered(m, 2).value else "context")
  {
    var last := if m.lastIndex.Some? then m.lastIndex.value else 0;
    var v := GroupNumbered(m, 1);
    var c := GroupNumbered(m, 2);
    (if last >= 1 && v.Some? then v.value else "display", if last >= 2 && c.Some? then c.value else "context")
  }

  /** Whenever the source's computation does not raise, it gives the intended names, and it
      raises only where the intended names fall back to a default. */
  lemma CreateNamesAgree(m: Match)
    ensures CreateNamesAsWritten(m).Some? ==> CreateNamesAsWritten(m).value == CreateNames(m)
    ensures CreateNamesAsWritten(m).None? ==> CreateNames(m).0 == "display" || CreateNames(m).1 == "context"
  {
  }

  /** A pattern whose groups all stay out of the match (in particular one without groups)
      makes the source raise, where the defaults were intended. */
  lemma CreateNamesWithoutGroups(m: Match)
    requires LastIndexed(m)
    requires forall k :: 0 <= k < |m.groups| ==> m.groups[k].None?
    ensures CreateNamesAsWritten(m).None?
    ensures CreateNames(m) == ("display", "context")
  {
  }

  /** The number of the highest group that took part, or None when none did. */
  function HighestGroup(groups: seq<Option<string>>): (r: Option<nat>)
    ensures r.Some? ==> 1 <= r.value <= |groups| && groups[r.value - 1].Some?
    ensures r.Some? ==> forall k :: r.value <= k < |groups| ==> groups[k].None?
    ensures r.None? ==> forall k :: 0 <= k < |groups| ==> groups[k].None?
    decreases |groups|
  {
    if groups == [] then None
    else if groups[|groups| - 1].Some? then Some(|groups|)
    else HighestGroup(groups[..|groups| - 1])
  }

  /** For a pattern whose groups are neither nested nor repeated, the group that closes
      last is the highest one that took part; then the names are groups 1 and 2 whenever
      they took part. */
  lemma {:induction false} CreateNamesFlat(m: Match)
    requires m.lastIndex == HighestGroup(m.groups)
    ensures |m.groups| >= 1 && m.groups[0].Some? ==> CreateNames(m).0 == m.groups[0].value
    ensures !(|m.groups| >= 1 && m.groups[0].Some?) ==> CreateNames(m).0 == "display"
    ensures |m.groups| >= 2 && m.groups[1].Some? ==> CreateNames(m).1 == m.groups[1].value
    ensures !(|m.groups| >= 2 && m.groups[1].Some?) ==> CreateNames(m).1 == "context"
  {
    if |m.groups| >= 2 && m.groups[1].Some? {
      assert m.lastIndex.value >= 2;
    }
    if |m.groups| >= 1 && m.groups[0].Some? {
      assert m.lastIndex.value >= 1;
    }
  }

  /** A nested group: in `(SR::Display\*\s*(\w+))` the outer group closes last, so
      `lastindex` is 1 and the source puts "context" for `\2` although group 2 took part. */
  lemma CreateNamesNested()
    ensures var m := Match(0, 14, [Some("SR::Display* d"), Some("d")], Some(1));
      LastIndexed(m) && CreateNamesAsWritten(m) == Some(("SR::Display* d", "context"))
      && CreateNames(m) == ("SR::Display* d", "context")
  {
  }

  /** The template with the literal `\1` replaced by the variable name, then `\2` by the
      context name. */
  function CreateReplacement(m: Match, template: string): string {
    var (v, c) := CreateNames(m);
    ReplaceAll(ReplaceAll(template, "\\1", v), "\\2", c)
  }

  /** A template without `\1` and `\2` is inserted as it stands, whatever the match. */
  lemma CreateReplacementPlain(m: Match, template: string)
    requires !Contains(template, "\\1") && !Contains(template, "\\2")
    ensures CreateReplacement(m, template) == template
  {
    var (v, c) := CreateNames(m);
    ReplaceAllAbsent(template, "\\1", v);
    ReplaceAllAbsent(template, "\\2", c);
  }

  function CreateReplacements(ms: seq<Match>, template: string): seq<string> {
    seq(|ms|, k requires 0 <= k < |ms| => CreateReplacement(ms[k], template))
  }

  /** The record of one create rewrite: its line in the scanned text, the matched text and
      its replacement. */
  function CreateRecord(path: string, content: string, m: Match, template: string): Transformation {
    Transformation(path, LineNumber(content, m.start), Slice(content, m.start, m.end),
      CreateReplacement(m, template), "replace_display_create",
      "Converted Display* " + CreateNames(m).0 + " to DisplayAccess")
  }

  function CreateRecords(path: string, content: string, ms: seq<Match>, template: string): seq<Transformation> {
    seq(|ms|, k requires 0 <= k < |ms| => CreateRecord(path, content, ms[k], template))
  }

  lemma CreateRecordsStep(path: string, content: string, ms: seq<Match>, template: string, k: nat)
    requires k < |ms|
    ensures CreateRecords(path, content, ms[..k + 1], template)
      == CreateRecords(path, content, ms[..k], template) + [CreateRecord(path, content, ms[k], template)]
  {
    assert ms[..k + 1][..k] == ms[..k];
  }

  /** What `_replace_display_create` hands back for `content`. */
  function CreateOutcome(path: string, content: string, config: TransformConfig, engine: Engine): (o: RuleOutcome)
    ensures o.Raised? <==>
      config.pattern.None? || config.replacement.None? || engine(config.pattern.value, NoFlags).CompileError?
    ensures o.Applied? ==>
      && config.pattern.Some? && engine(config.pattern.value, NoFlags).Compiled?
      && var ms := engine(config.pattern.value, NoFlags).finditer(content);
         && |o.result.transforms| == |ms|
         && forall k :: 0 <= k < |ms| ==> RecordsMatch(o.result.transforms[k], path, content, ms[k])
  {
    if config.pattern.None? then Raised("KeyError: 'pattern'")
    else if config.replacement.None? then Raised("KeyError: 'replacement'")
    else
      var compiled := engine(config.pattern.value, NoFlags);
      if compiled.CompileError? then Raised(compiled.message)
      else
        var ms := compiled.finditer(content);
        Applied(RuleResult(Substitute(content, ms, CreateReplacements(ms, config.replacement.value)),
                           CreateRecords(path, content, ms, config.replacement.value)))
  }

  /** `_replace_display_create`: read the entry's pattern and replacement (a missing one
      raises KeyError), compile the pattern (a bad one raises), then replace every match by
      the filled-in template, recording each. */
  method ReplaceDisplayCreate(path: string, content: string, config: TransformConfig, engine: Engine)
    returns (r: RuleOutcome)
    requires Sound(engine)
    ensures config.pattern.None? ==> r == Raised("KeyError: 'pattern'")
    ensures config.pattern.Some? && config.replacement.None? ==> r == Raised("KeyError: 'replacement'")
    ensures config.pattern.Some? && config.replacement.Some? ==>
      var compiled := engine(config.pattern.value, NoFlags);
      && (compiled.CompileError? ==> r == Raised(compiled.message))
      && (compiled.Compiled? ==>
            var ms := compiled.finditer(content);
            var template := config.replacement.value;
            && Ordered(|content|, ms)
            && r == Applied(RuleResult(Substitute(content, ms, CreateReplacements(ms, template)),
                                       CreateRecords(path, content, ms, template))))
    ensures r == CreateOutcome(path, content, config, engine)
  {
    if config.pattern.None? {
      return Raised("KeyError: 'pattern'");
    }
    if config.replacement.None? {
      return Raised("KeyError: 'replacement'");
    }
    var template := config.replacement.value;
    var compiled := engine(config.pattern.value, NoFlags);
    if compiled.CompileError? {
      return Raised(compiled.message);
    }
    var ms := compiled.finditer(content);
    var result := RewriteCreateMatches(path, content, ms, template);
    return Applied(result);
  }

  /** The loop of `_replace_display_create`: splice each match's filled-in template into the
      copy at the match's span shifted by `offset`, and record the edit. */
  method RewriteCreateMatches(path: string, content: string, ms: seq<Match>, template: string)
    returns (r: RuleResult)
    requires Ordered(|content|, ms)
    ensures r == RuleResult(Substitute(content, ms, CreateReplacements(ms, template)),
                            CreateRecords(path, content, ms, template))
  {
    ghost var reps := CreateReplacements(ms, template);
    SpliceBounds(content, ms, reps);
    var modified := content;
    var offset := 0;
    var transforms := [];
    var k := 0;
    while k < |ms|
      invariant 0 <= k <= |ms|
      invariant modified == Substitute(content, ms[..k], reps[..k])
      invariant offset == |modified| - |content|
      invariant transforms == CreateRecords(path, content, ms[..k], template)
    {
      var m := ms[k];
      var replacement := CreateReplacement(m, template);
      var start := m.start + offset;
      var end := m.end + offset;
      SpliceAdvance(content, ms, reps, k, modified, offset, start, end, replacement);
      modified := modified[..start] + replacement + modified[end..];
      offset := offset + |replacement| - (m.end - m.start);
      CreateRecordsStep(path, content, ms, template, k);
      transforms := transforms + [CreateRecord(path, content, m, template)];
      k := k + 1;
    }
    return RuleResult(modified, transforms);
  }

  // ---------------------------------------------------------------------------------------
  // Declared DisplayAccess variables

  /** The loop that fills `display_access_vars` from the declarations in the text. */
  method CollectDeclaredNames(content: string) returns (names: set<string>)
    ensures names == DeclaredNames(content)
  {
    var ms := FindAll(AccessDecl, content);
    names := AddFirstGroups(ms);
  }

  /** The loop of the declaration scan: add each match's first group to the set. */
  method AddFirstGroups(ms: seq<Match>) returns (names: set<string>)
    ensures names == FirstGroups(ms)
  {
    names := {};
    var k := 0;
    while k < |ms|
      invariant 0 <= k <= |ms|
      invariant names == FirstGroups(ms[..k])
    {
      assert ms[..k + 1][..k] == ms[..k];
      names := names + {Group(ms[k], 0)};
      k := k + 1;
    }
    assert ms[..k] == ms;
  }

  // ---------------------------------------------------------------------------------------
  // Pointer rewrite (`_replace_pointer_to_direct`)

  function ArrowReplacements(ms: seq<Match>): seq<string> {
    seq(|ms|, k requires 0 <= k < |ms| => Group(ms[k], 0) + ".")
  }

  function ArrowRecord(path: string, content: string, m: Match): Transformation {
    var v := Group(m, 0);
    Transformation(path, LineNumber(content, m.start), v + "->", v + ".", "replace_pointer_arrow",
      "Changed " + v + "-> to " + v + ".")
  }

  function ArrowRecords(path: string, content: string, ms: seq<Match>): seq<Transformation> {
    seq(|ms|, k requires 0 <= k < |ms| => ArrowRecord(path, content, ms[k]))
  }

  /** The `name->` occurrences of declared names in `content`. */
  function ArrowMatches(content: string): (ms: seq<Match>)
    ensures Ordered(|content|, ms)
    ensures forall k :: 0 <= k < |ms| ==>
      && |ms[k].groups| == 1 && ms[k].groups[0].Some?
      && ms[k].groups[0].value in DeclaredNames(content)
      && ms[k].end == ms[k].start + |ms[k].groups[0].value| + 2
      && content[ms[k].start..ms[k].end] == ms[k].groups[0].value + Arrow
  {
    var ms := FindAll(ArrowOf(DeclaredNames(content)), content);
    forall k | 0 <= k < |ms|
      ensures ms[k].end == ms[k].start + |ms[k].groups[0].value| + 2
      ensures content[ms[k].start..ms[k].end] == ms[k].groups[0].value + Arrow
    {
      ArrowMatchShape(DeclaredNames(content), content, ms[k]);
    }
    ms
  }

  lemma ArrowMatchShape(names: set<string>, s: string, m: Match)
    requires m.start <= |s| && MatchAt(ArrowOf(names), s, m.start) == Some(m)
    ensures |m.groups| == 1 && m.groups[0].Some?
    ensures m.end == m.start + |m.groups[0].value| + 2
    ensures s[m.start..m.end] == m.groups[0].value + Arrow
  {
    var i := m.start;
    var k := Run(s, i, IsWordChar);
    assert s[k..k + 2] == Arrow;
    assert s[i..k + 2] == s[i..k] + s[k..k + 2];
  }

  /** What `_replace_pointer_to_direct` hands back for `content`. */
  function PointerResult(path: string, content: string): (r: RuleResult)
    ensures DeclaredNames(content) == {} ==> r == Unchanged(content)
    ensures |r.content| == |content| - |r.transforms|
    ensures forall k :: 0 <= k < |r.transforms| ==>
      && r.transforms[k].filePath == path
      && exists v :: v in DeclaredNames(content) && r.transforms[k].originalText == v + Arrow && r.transforms[k].newText == v + "."
  {
    if DeclaredNames(content) == {} then Unchanged(content)
    else
      var ms := ArrowMatches(content);
      ArrowRewriteLength(content);
      RuleResult(Substitute(content, ms, ArrowReplacements(ms)), ArrowRecords(path, content, ms))
  }

  /** `_replace_pointer_to_direct`: with no declared DisplayAccess variable the text is
      returned as is; otherwise every `name->` of a declared name becomes `name.`. */
  method ReplacePointerToDirect(path: string, content: string) returns (r: RuleResult)
    ensures DeclaredNames(content) == {} ==> r == Unchanged(content)
    ensures DeclaredNames(content) != {} ==>
      var ms := ArrowMatches(content);
      r == RuleResult(Substitute(content, ms, ArrowReplacements(ms)), ArrowRecords(path, content, ms))
    ensures r == PointerResult(path, content)
  {
    var names := CollectDeclaredNames(content);
    if names == {} {
      return Unchanged(content);
    }
    var ms := FindAll(ArrowOf(names), content);
    r := RewriteArrowMatches(path, content, ms);
  }

  /** The loop of `_replace_pointer_to_direct`: splice `name.` over each `name->`. */
  method RewriteArrowMatches(path: string, content: string, ms: seq<Match>) returns (r: RuleResult)
    requires Ordered(|content|, ms)
    ensures r == RuleResult(Substitute(content, ms, ArrowReplacements(ms)), ArrowRecords(path, content, ms))
  {
    ghost var reps := ArrowReplacements(ms);
    SpliceBounds(content, ms, reps);
    var modified := content;
    var offset := 0;
    var transforms := [];
    var k := 0;
    while k < |ms|
      invariant 0 <= k <= |ms|
      invariant modified == Substitute(content, ms[..k], reps[..k])
      invariant offset == |modified| - |content|
      invariant transforms == ArrowRecords(path, content, ms[..k])
    {
      var m := ms[k];
      var replacement := Group(m, 0) + ".";
      var start := m.start + offset;
      var end := m.end + offset;
      SpliceAdvance(content, ms, reps, k, modified, offset, start, end, replacement);
      modified := modified[..start] + replacement + modified[end..];
      offset := offset + |replacement| - (m.end - m.start);
      ArrowRecordsStep(path, content, ms, k);
      transforms := transforms + [ArrowRecord(path, content, m)];
      k := k + 1;
    }
    return RuleResult(modified, transforms);
  }

  lemma ArrowRecordsStep(path: string, content: string, ms: seq<Match>, k: nat)
    requires k < |ms|
    ensures ArrowRecords(path, content, ms[..k + 1])
      == ArrowRecords(path, content, ms[..k]) + [ArrowRecord(path, content, ms[k])]
  {
    assert ms[..k + 1][..k] == ms[..k];
  }

  /** Every pointer rewrite shortens the text by exactly one character. */
  lemma ArrowRewriteLength(content: string)
    ensures var ms := ArrowMatches(content);
      |Substitute(content, ms, ArrowReplacements(ms))| == |content| - |ms|
  {
    var ms := ArrowMatches(content);
    var reps := ArrowReplacements(ms);
    SubstituteLength(content, ms, reps);
    ArrowDelta(ms, reps);
  }

  lemma {:induction false} ArrowDelta(ms: seq<Match>, reps: seq<string>)
    requires |reps| == |ms|
    requires forall k :: 0 <= k < |ms| ==>
      && ms[k].end == ms[k].start + |Group(ms[k], 0)| + 2
      && reps[k] == Group(ms[k], 0) + "."
    ensures Delta(ms, reps) == -|ms|
    decreases |ms|
  {
    if ms != [] {
      ArrowDelta(ms[..|ms| - 1], reps[..|reps| - 1]);
    }
  }

  // ---------------------------------------------------------------------------------------
  // Modern create rewrite (`_replace_display_create_modern`)

  /** The two statements that replace `SR::Display* v = SR::Display::create(arg);`. */
  function ModernReplacement(v: string, arg: string): string {
    var mgr := "displayMgr_" + v;
    "SR::IDisplayManager* " + mgr + " = SR::GetDisplayManagerInstance(" + Strip(arg) + ");\n    SR::IDisplay* "
      + v + " = " + mgr + "->getPrimaryActiveSRDisplay();"
  }

  function ModernReplacements(ms: seq<Match>): seq<string> {
    seq(|ms|, k requires 0 <= k < |ms| => ModernReplacement(Group(ms[k], 0), Group(ms[k], 1)))
  }

  function ModernRecord(path: string, content: string, m: Match): Transformation {
    Transformation(path, LineNumber(content, m.start), Slice(content, m.start, m.end),
      ModernReplacement(Group(m, 0), Group(m, 1)), "replace_display_create_modern",
      "Converted Display::create() to IDisplayManager (modern)")
  }

  function ModernRecords(path: string, content: string, ms: seq<Match>): seq<Transformation> {
    seq(|ms|, k requires 0 <= k < |ms| => ModernRecord(path, content, ms[k]))
  }

  lemma ModernRecordsMatch(path: string, content: string, ms: seq<Match>)
    ensures |ModernRecords(path, content, ms)| == |ms|
    ensures forall k :: 0 <= k < |ms| ==> RecordsMatch(ModernRecords(path, content, ms)[k], path, content, ms[k])
  {
  }

  lemma ModernRecordsStep(path: string, content: string, ms: seq<Match>, k: nat)
    requires k < |ms|
    ensures ModernRecords(path, content, ms)[..k + 1]
      == ModernRecords(path, content, ms)[..k] + [ModernRecord(path, content, ms[k])]
  {
    PrefixStep(ModernRecords(path, content, ms), k);
  }


  /** What `_replace_display_create_modern` hands back for `content`. */
  function ModernResult(path: string, content: string): (r: RuleResult)
    ensures var ms := FindAll(LegacyCreate, content);
      && (ms == [] ==> r == Unchanged(content))
      && |r.transforms| == |ms|
      && forall k :: 0 <= k < |ms| ==> RecordsMatch(r.transforms[k], path, content, ms[k])
  {
    var ms := FindAll(LegacyCreate, content);
    ModernRecordsMatch(path, content, ms);
    RuleResult(Substitute(content, ms, ModernReplacements(ms)), ModernRecords(path, content, ms))
  }

  /** `_replace_display_create_modern`: every factory call becomes a manager lookup plus a
      primary-display query, with the argument stripped. */
  method ReplaceDisplayCreateModern(path: string, content: string) returns (r: RuleResult)
    ensures var ms := FindAll(LegacyCreate, content);
      r == RuleResult(Substitute(content, ms, ModernReplacements(ms)), ModernRecords(path, content, ms))
    ensures r == ModernResult(path, content)
  {
    var ms := FindAll(LegacyCreate, content);
    r := RewriteModernMatches(path, content, ms);
  }

  /** The loop of `_replace_display_create_modern`. */
  method RewriteModernMatches(path: string, content: string, ms: seq<Match>) returns (r: RuleResult)
    requires Ordered(|content|, ms)
    ensures r == RuleResult(Substitute(content, ms, ModernReplacements(ms)), ModernRecords(path, content, ms))
  {
    SpliceBounds(content, ms, ModernReplacements(ms));
    var modified := content;
    var offset := 0;
    var transforms := [];
    var k := 0;
    while k < |ms|
      invariant 0 <= k <= |ms|
      invariant ModernLoop(path, content, ms, k, modified, offset, transforms)
    {
      modified, offset, transforms := ModernStep(path, content, ms, k, modified, offset, transforms);
      k := k + 1;
    }
    assert ModernRecords(path, content, ms)[..|ms|] == ModernRecords(path, content, ms);
    return RuleResult(modified, transforms);
  }

  ghost predicate ModernLoop(path: string, content: string, ms: seq<Match>, k: nat, modified: string, offset: int,
                             transforms: seq<Transformation>)
    requires k <= |ms|
  {
    && modified == Substitute(content, ms[..k], ModernReplacements(ms)[..k])
    && offset == |modified| - |content|
    && transforms == ModernRecords(path, content, ms)[..k]
  }

  /** One pass of the loop: splice the k-th match's replacement in at its shifted span. */
  method ModernStep(path: string, content: string, ms: seq<Match>, k: nat, modified: string, offset: int,
                    transforms: seq<Transformation>)
    returns (modified': string, offset': int, transforms': seq<Transformation>)
    requires Ordered(|content|, ms) && k < |ms|
    requires ModernLoop(path, content, ms, k, modified, offset, transforms)
    ensures ModernLoop(path, content, ms, k + 1, modified', offset', transforms')
  {
    var m := ms[k];
    var replacement := ModernReplacement(Group(m, 0), Group(m, 1));
    var start := m.start + offset;
    var end := m.end + offset;
    SpliceAdvance(content, ms, ModernReplacements(ms), k, modified, offset, start, end, replacement);
    modified' := modified[..start] + replacement + modified[end..];
    offset' := offset + |replacement| - (m.end - m.start);
    ModernRecordsStep(path, content, ms, k);
    transforms' := transforms + [ModernRecord(path, content, m)];
  }
}
