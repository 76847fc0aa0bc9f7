/**
  The detector (`CodeAnalyzer`, identical in both packages): it scans one C++ source text
  against the catalog's `detection_patterns` and reports every match as a `Detection`
  record (file, 1-based line, pattern name, matched text, up to two lines of context before
  and three after, confidence, named capture groups). Confidences come from the catalog's
  `risk_levels` and are assigned once all patterns have run. The analyzer keeps every
  detection it has reported and answers statistics about them.
*/
module Analyzer {

  import opened Wrappers
  import opened Text
  import opened Matching
  import opened Sorting

  // ---------------------------------------------------------------------------------------
  // Data

  datatype Confidence = High | Medium | Low

  /** The `Detection` dataclass; `captureGroups` is None when no group name was recorded. */
  datatype Detection = Detection(
    filePath: string,
    lineNumber: nat,
    patternName: string,
    matchedText: string,
    contextBefore: string,
    contextAfter: string,
    confidence: Confidence,
    captureGroups: Option<map<string, Option<string>>>)

  /** `pattern_config.get('type', 'regex')`: a missing type means a single regex. */
  datatype Kind = RegexKind | RegexListKind | OtherKind(name: string)

  /** A kind as loaded: an `OtherKind` is neither of the two names the analyzer knows. */
  ghost predicate Canonical(k: Kind) {
    k.OtherKind? ==> k.name != "regex" && k.name != "regex_list"
  }

  /** One entry of `detection_patterns`; None stands for a missing key, and a missing
      `multiline` is false. */
  datatype PatternConfig = PatternConfig(
    kind: Kind,
    pattern: Option<string>,
    patterns: Option<seq<string>>,
    description: Option<string>,
    multiline: bool,
    captureGroups: Option<seq<string>>)

  datatype Entry = Entry(name: string, config: PatternConfig)

  /** The three lists of `risk_levels`; a missing list is empty. */
  datatype RiskLevels = RiskLevels(high: seq<string>, medium: seq<string>, review: seq<string>)

  /** What one pass over a text yields: its detections, or the exception that ended it. */
  datatype Outcome = Detected(found: seq<Detection>) | Raised(error: string)

  // ---------------------------------------------------------------------------------------
  // Confidence

  /** `_get_confidence`: the first list naming the pattern decides; unlisted is medium. */
  function GetConfidence(risk: RiskLevels, name: string): (c: Confidence)
    ensures c == High <==> name in risk.high
    ensures c == Low <==> name !in risk.high && name !in risk.medium && name in risk.review
    ensures c == Medium <==> name !in risk.high && (name in risk.medium || name !in risk.review)
  {
    if name in risk.high then High
    else if name in risk.medium then Medium
    else if name in risk.review then Low
    else Medium
  }

  // ---------------------------------------------------------------------------------------
  // Context lines

  function Max(a: int, b: int): int {
    if a < b then b else a
  }

  function Min(a: int, b: int): int {
    if a < b then a else b
  }

  /** `lines[max(0, n - 3):n - 1]`: the lines just above line `n`. */
  function Before(lines: seq<string>, n: nat): seq<string> {
    Slice(lines, Max(0, n - 3), n - 1)
  }

  /** `lines[n:min(len(lines), n + 3)]`: the lines just below line `n`. */
  function After(lines: seq<string>, n: nat): seq<string> {
    Slice(lines, n, Min(|lines|, n + 3))
  }

  /** `w` is the run of `lines` with 0-based indices in [lo, hi), cut to the buffer. */
  ghost predicate Window(lines: seq<string>, lo: int, hi: int, w: seq<string>) {
    && |w| == Max(0, Min(hi, |lines|) - Max(lo, 0))
    && forall k :: 0 <= k < |w| ==> w[k] == lines[Max(lo, 0) + k]
  }

  /** The context never leaves the buffer: at most the two lines above line `n` (1-based
      lines n-2 and n-1) and at most the three below it (lines n+1 to n+3). */
  lemma ContextWindows(lines: seq<string>, n: nat)
    requires n >= 1
    ensures Window(lines, n - 3, n - 1, Before(lines, n)) && |Before(lines, n)| <= 2
    ensures Window(lines, n, n + 3, After(lines, n)) && |After(lines, n)| <= 3
  {
    var lo := Max(0, n - 3);
    if lo < Min(n - 1, |lines|) {
      assert Before(lines, n) == lines[lo..Min(n - 1, |lines|)];
    }
    if n < Min(|lines|, n + 3) {
      assert After(lines, n) == lines[n..Min(|lines|, n + 3)];
    }
  }

  // ---------------------------------------------------------------------------------------
  // Capture groups

  /** The dict filled by `for i, name in enumerate(names, 1): if i <= len(groups): d[name] =
      group(i)`, for the first `k` names. */
  function Captures(names: seq<string>, groups: seq<Option<string>>, k: nat): map<string, Option<string>>
    requires k <= |names|
  {
    if k == 0 then map[]
    else if k <= |groups| then Captures(names, groups, k - 1)[names[k - 1] := groups[k - 1]]
    else Captures(names, groups, k - 1)
  }

  /** A name is recorded exactly when one of the first `len(groups)` slots carries it. */
  lemma {:induction false} CapturesKeys(names: seq<string>, groups: seq<Option<string>>, k: nat, name: string)
    requires k <= |names|
    ensures name in Captures(names, groups, k) <==>
      exists i :: 0 <= i < k && i < |groups| && names[i] == name
  {
    if k > 0 {
      CapturesKeys(names, groups, k - 1, name);
      if k <= |groups| && names[k - 1] == name {
        assert names[k - 1] == name;
      } else if exists i :: 0 <= i < k && i < |groups| && names[i] == name {
        var i :| 0 <= i < k && i < |groups| && names[i] == name;
        assert i < k - 1;
      }
    }
  }

  /** A recorded name holds the group of the last slot that carries it: a later slot with
      the same name overwrites an earlier one. */
  lemma {:induction false} CapturesLast(names: seq<string>, groups: seq<Option<string>>, k: nat, name: string, i: nat)
    requires k <= |names| && i < k && i < |groups| && names[i] == name
    requires forall j :: i < j < k && j < |groups| ==> names[j] != name
    ensures name in Captures(names, groups, k) && Captures(names, groups, k)[name] == groups[i]
  {
    if i < k - 1 {
      CapturesLast(names, groups, k - 1, name, i);
    }
  }

  /** The `capture_groups` field: the dict, or None when it stays empty. */
  function CaptureField(names: Option<seq<string>>, groups: seq<Option<string>>): Option<map<string, Option<string>>> {
    if names.None? then None
    else
      var d := Captures(names.value, groups, |names.value|);
      if d == map[] then None else Some(d)
  }

  /** The loop that fills the capture dict. */
  method ExtractCaptures(names: seq<string>, groups: seq<Option<string>>) returns (d: map<string, Option<string>>)
    ensures d == Captures(names, groups, |names|)
  {
    d := map[];
    for i := 1 to |names| + 1
      invariant d == Captures(names, groups, i - 1)
    {
      if i <= |groups| {
        d := d[names[i - 1] := groups[i - 1]];
      }
    }
  }

  // ---------------------------------------------------------------------------------------
  // One regular expression

  /** `re.MULTILINE | re.DOTALL` when the rule is multiline, else `re.MULTILINE`. */
  function FlagsOf(multiline: bool): (f: Flags)
    ensures f.multiline && (f.dotall <==> multiline)
  {
    Flags(true, multiline)
  }

  /** The record for match `m` (confidence 'medium' until it is rated). */
  function MakeDetection(path: string, content: string, lines: seq<string>, name: string,
                         config: PatternConfig, m: Match): Detection
  {
    var n := LineNumber(content, m.start);
    Detection(path, n, name, Slice(content, m.start, m.end),
              Join("\n", Before(lines, n)), Join("\n", After(lines, n)),
              Medium, CaptureField(config.captureGroups, m.groups))
  }

  /** Records of file `path` made by the pattern named `name`, not yet rated. */
  ghost predicate Tagged(ds: seq<Detection>, path: string, name: string) {
    forall k :: 0 <= k < |ds| ==> ds[k].filePath == path && ds[k].patternName == name && ds[k].confidence == Medium
  }

  /** Records of file `path`. */
  ghost predicate FromFile(ds: seq<Detection>, path: string) {
    forall k :: 0 <= k < |ds| ==> ds[k].filePath == path
  }

  /** The exceptions a scan can raise: a catalog entry without one of the keys it reads. */
  const KeyErrors := {"KeyError: 'pattern'", "KeyError: 'description'", "KeyError: 'patterns'"}

  /** An outcome whose records are all of file `path`, or one of the KeyErrors. */
  ghost predicate OfFile(o: Outcome, path: string) {
    && (o.Detected? ==> FromFile(o.found, path))
    && (o.Raised? ==> o.error in KeyErrors)
  }

  /** `_detect_regex`: a missing `pattern` raises; a pattern that does not compile yields
      nothing; otherwise one record per match, in match order. */
  function DetectRegex(engine: Engine, path: string, content: string, lines: seq<string>,
                       name: string, config: PatternConfig): (r: Outcome)
    ensures r.Raised? <==> config.pattern.None?
    ensures r.Raised? ==> r.error == "KeyError: 'pattern'"
    ensures config.pattern.Some? && engine(config.pattern.value, FlagsOf(config.multiline)).CompileError? ==> r == Detected([])
    ensures config.pattern.Some? && engine(config.pattern.value, FlagsOf(config.multiline)).Compiled? ==>
      |r.found| == |engine(config.pattern.value, FlagsOf(config.multiline)).finditer(content)|
    ensures r.Detected? ==> Tagged(r.found, path, name)
  {
    if config.pattern.None? then Raised("KeyError: 'pattern'")
    else
      var compiled := engine(config.pattern.value, FlagsOf(config.multiline));
      if compiled.CompileError? then Detected([])
      else
        Detected(Detections(path, content, lines, name, config, compiled.finditer(content)))
  }

  /** One record per match, in match order. */
  function Detections(path: string, content: string, lines: seq<string>, name: string,
                      config: PatternConfig, ms: seq<Match>): seq<Detection>
  {
    seq(|ms|, k requires 0 <= k < |ms| => MakeDetection(path, content, lines, name, config, ms[k]))
  }

  method DetectRegexLoop(engine: Engine, path: string, content: string, lines: seq<string>,
                         name: string, config: PatternConfig) returns (r: Outcome)
    ensures r == DetectRegex(engine, path, content, lines, name, config)
  {
    if config.pattern.None? {
      return Raised("KeyError: 'pattern'");
    }
    var compiled := engine(config.pattern.value, FlagsOf(config.multiline));
    if compiled.CompileError? {
      return Detected([]);
    }
    var detections := DetectMatches(path, content, lines, name, config, compiled.finditer(content));
    return Detected(detections);
  }

  /** The match loop of `_detect_regex`. */
  method DetectMatches(path: string, content: string, lines: seq<string>, name: string,
                       config: PatternConfig, ms: seq<Match>) returns (detections: seq<Detection>)
    ensures detections == Detections(path, content, lines, name, config, ms)
  {
    detections := [];
    for k := 0 to |ms|
      invariant detections == seq(k, i requires 0 <= i < k => MakeDetection(path, content, lines, name, config, ms[i]))
    {
      var m := ms[k];
      var n := LineNumber(content, m.start);
      var captures := map[];
      if config.captureGroups.Some? {
        captures := ExtractCaptures(config.captureGroups.value, m.groups);
      }
      var d := Detection(path, n, name, Slice(content, m.start, m.end),
                         Join("\n", Before(lines, n)), Join("\n", After(lines, n)),
                         Medium, if captures == map[] then None else Some(captures));
      detections := detections + [d];
    }
  }

  /** Where a detection says it is: the file, the text at the reported line, and the
      context lines around that line. */
  ghost predicate Reported(path: string, content: string, d: Detection) {
    && d.filePath == path
    && (exists i: nat :: StartsAt(content, i, d.matchedText) && LineNumber(content, i) == d.lineNumber)
    && d.contextBefore == Join("\n", Before(SplitLines(content), d.lineNumber))
    && d.contextAfter == Join("\n", After(SplitLines(content), d.lineNumber))
  }

  ghost predicate AllReported(path: string, content: string, ds: seq<Detection>) {
    forall k :: 0 <= k < |ds| ==> Reported(path, content, ds[k])
  }

  /** A record built from a match inside the text points at that match. */
  lemma MakeDetectionReported(path: string, content: string, name: string, config: PatternConfig, m: Match)
    requires m.start <= m.end <= |content|
    ensures Reported(path, content, MakeDetection(path, content, SplitLines(content), name, config, m))
  {
    SliceAt(content, m.start, m.end);
    var d := MakeDetection(path, content, SplitLines(content), name, config, m);
    assert StartsAt(content, m.start, d.matchedText) && LineNumber(content, m.start) == d.lineNumber;
  }

  /** An outcome whose records all point at their matches (an exception trivially does). */
  ghost predicate OutcomeReported(path: string, content: string, o: Outcome) {
    o.Detected? ==> AllReported(path, content, o.found)
  }

  /** With an engine that keeps its promise, every record of one regex points at its match,
      and the records come in ascending line order. */
  lemma DetectRegexReported(engine: Engine, path: string, content: string, name: string, config: PatternConfig)
    requires Sound(engine)
    ensures OutcomeReported(path, content, DetectRegex(engine, path, content, SplitLines(content), name, config))
    ensures var r := DetectRegex(engine, path, content, SplitLines(content), name, config);
      r.Detected? ==> forall i, j :: 0 <= i < j < |r.found| ==> r.found[i].lineNumber <= r.found[j].lineNumber
  {
    if config.pattern.Some? {
      var compiled := engine(config.pattern.value, FlagsOf(config.multiline));
      if compiled.Compiled? {
        var ms := compiled.finditer(content);
        var found := DetectRegex(engine, path, content, SplitLines(content), name, config).found;
        assert Ordered(|content|, ms);
        forall k | 0 <= k < |found|
          ensures Reported(path, content, found[k])
        {
          MakeDetectionReported(path, content, name, config, ms[k]);
        }
        forall i, j | 0 <= i < j < |found|
          ensures found[i].lineNumber <= found[j].lineNumber
        {
          LineNumberAdvance(content, ms[i].start, ms[j].start);
        }
      }
    }
  }

  // ---------------------------------------------------------------------------------------
  // The catalog

  /** Detections of one pass followed by those of the next; the first exception wins. */
  function Then(o: Outcome, next: Outcome): (r: Outcome)
    ensures r.Raised? <==> o.Raised? || next.Raised?
    ensures r.Raised? ==> r == (if o.Raised? then o else next)
    ensures r.Detected? ==> r.found == o.found + next.found
  {
    if o.Raised? then o
    else if next.Raised? then next
    else Detected(o.found + next.found)
  }

  /** Joining two outcomes of file `path` gives one. */
  lemma OfFileThen(o: Outcome, next: Outcome, path: string)
    requires OfFile(o, path) && OfFile(next, path)
    ensures OfFile(Then(o, next), path)
  {
    if o.Detected? && next.Detected? {
      var f := o.found + next.found;
      forall k | 0 <= k < |f|
        ensures f[k].filePath == path
      {
        if k < |o.found| {
          assert f[k] == o.found[k];
        } else {
          assert f[k] == next.found[k - |o.found|];
        }
      }
    }
  }

  /** The name of the records of alternative `sub` of the list rule `name`. */
  function SubName(name: string, sub: string): string {
    name + "_" + Take(sub, 20)
  }

  /** The configuration built for one alternative: only `pattern` and `description`. */
  function SubConfig(sub: string, description: Option<string>): PatternConfig {
    PatternConfig(RegexKind, Some(sub), None, description, false, None)
  }

  /** The scans of the first `k` alternatives of a `regex_list` rule, each reading the rule's
      `description` first. */
  function DetectList(engine: Engine, path: string, content: string, lines: seq<string>,
                      name: string, description: Option<string>, subs: seq<string>, k: nat): (r: Outcome)
    requires k <= |subs|
    ensures r.Raised? <==> k > 0 && description.None?
    ensures OfFile(r, path)
  {
    if k == 0 then Detected([])
    else
      OfFileThen(DetectList(engine, path, content, lines, name, description, subs, k - 1),
                 DetectSub(engine, path, content, lines, name, description, subs[k - 1]), path);
      Then(DetectList(engine, path, content, lines, name, description, subs, k - 1),
           DetectSub(engine, path, content, lines, name, description, subs[k - 1]))
  }

  /** One alternative: `pattern_config['description']` is read first, then its regex runs. */
  function DetectSub(engine: Engine, path: string, content: string, lines: seq<string>,
                     name: string, description: Option<string>, sub: string): (r: Outcome)
    ensures r.Raised? <==> description.None?
    ensures OfFile(r, path)
  {
    if description.None? then Raised("KeyError: 'description'")
    else DetectRegex(engine, path, content, lines, SubName(name, sub), SubConfig(sub, description))
  }

  /** What one catalog entry contributes; an unknown type contributes nothing. */
  function DetectEntry(engine: Engine, path: string, content: string, lines: seq<string>, e: Entry): (r: Outcome)
    ensures OfFile(r, path)
  {
    match e.config.kind
    case RegexKind => DetectRegex(engine, path, content, lines, e.name, e.config)
    case RegexListKind =>
      if e.config.patterns.None? then Raised("KeyError: 'patterns'")
      else DetectList(engine, path, content, lines, e.name, e.config.description,
                      e.config.patterns.value, |e.config.patterns.value|)
    case OtherKind(_) => Detected([])
  }

  /** The entries in catalog order, each scanned in full before the next. */
  function Scan(engine: Engine, path: string, content: string, lines: seq<string>, es: seq<Entry>): (r: Outcome)
    ensures OfFile(r, path)
    decreases |es|
  {
    if es == [] then Detected([])
    else
      OfFileThen(Scan(engine, path, content, lines, es[..|es| - 1]), DetectEntry(engine, path, content, lines, es[|es| - 1]), path);
      Then(Scan(engine, path, content, lines, es[..|es| - 1]), DetectEntry(engine, path, content, lines, es[|es| - 1]))
  }

  /** Rating after matching: every record gets the confidence of its pattern name. */
  function Rate(risk: RiskLevels, ds: seq<Detection>): (r: seq<Detection>)
    ensures |r| == |ds|
    ensures forall k :: 0 <= k < |ds| ==>
      && r[k].confidence == GetConfidence(risk, ds[k].patternName)
      && r[k].(confidence := ds[k].confidence) == ds[k]
  {
    seq(|ds|, k requires 0 <= k < |ds| => ds[k].(confidence := GetConfidence(risk, ds[k].patternName)))
  }

  /** Once an entry raises, the scan of any longer prefix raises the same exception. */
  lemma {:induction false} ScanStopped(engine: Engine, path: string, content: string, lines: seq<string>, es: seq<Entry>, k: nat)
    requires 0 < k <= |es| && Scan(engine, path, content, lines, es[..k]).Raised?
    ensures forall j :: k <= j <= |es| ==> Scan(engine, path, content, lines, es[..j]) == Scan(engine, path, content, lines, es[..k])
    decreases |es| - k
  {
    if k < |es| {
      assert es[..k + 1][..k] == es[..k];
      ScanStopped(engine, path, content, lines, es, k + 1);
    }
  }

  /** Once an alternative raises, the later ones do not change the outcome. */
  lemma {:induction false} ListStopped(engine: Engine, path: string, content: string, lines: seq<string>, name: string,
                                       description: Option<string>, subs: seq<string>, k: nat)
    requires 0 < k <= |subs| && DetectList(engine, path, content, lines, name, description, subs, k).Raised?
    ensures DetectList(engine, path, content, lines, name, description, subs, |subs|) ==
      DetectList(engine, path, content, lines, name, description, subs, k)
    decreases |subs| - k
  {
    if k < |subs| {
      ListStopped(engine, path, content, lines, name, description, subs, k + 1);
    }
  }

  /** A C++ source file: `.cpp`, `.h`, `.hpp` or `.cc`. */
  predicate EndsWith(s: string, suffix: string) {
    |suffix| <= |s| && s[|s| - |suffix|..] == suffix
  }

  predicate IsSource(path: string) {
    EndsWith(path, ".cpp") || EndsWith(path, ".h") || EndsWith(path, ".hpp") || EndsWith(path, ".cc")
  }

  const HelperName := "display_helper.h"

  /** `analyze_file` on `path`, whose read gave `read`, against the catalog (None: the
      pattern file has no `detection_patterns`). */
  function AnalyzeOutcome(catalog: Option<seq<Entry>>, risk: RiskLevels, engine: Engine,
                          path: string, read: Option<string>): (r: Outcome)
    ensures !IsSource(path) || Contains(path, HelperName) || read.None? ==> r == Detected([])
    ensures r.Detected? ==> forall k :: 0 <= k < |r.found| ==>
      r.found[k].confidence == GetConfidence(risk, r.found[k].patternName)
  {
    if !IsSource(path) || Contains(path, HelperName) || read.None? then Detected([])
    else if catalog.None? then Raised("KeyError: 'detection_patterns'")
    else
      var found := Scan(engine, path, read.value, SplitLines(read.value), catalog.value);
      if found.Raised? then found else Detected(Rate(risk, found.found))
  }

  // ---------------------------------------------------------------------------------------
  // What a scan reports

  lemma ThenAssoc(a: Outcome, b: Outcome, c: Outcome)
    ensures Then(Then(a, b), c) == Then(a, Then(b, c))
  {
    if a.Detected? && b.Detected? && c.Detected? {
      assert a.found + b.found + c.found == a.found + (b.found + c.found);
    }
  }

  /** Scanning two runs of entries is scanning one and then the other. */
  lemma {:induction false} ScanAppend(engine: Engine, path: string, content: string, lines: seq<string>, a: seq<Entry>, b: seq<Entry>)
    ensures Scan(engine, path, content, lines, a + b) ==
      Then(Scan(engine, path, content, lines, a), Scan(engine, path, content, lines, b))
    decreases |b|
  {
    if b == [] {
      assert a + b == a;
    } else {
      var n := |b| - 1;
      assert (a + b)[..|a + b| - 1] == a + b[..n];
      assert (a + b)[|a + b| - 1] == b[n];
      ScanAppend(engine, path, content, lines, a, b[..n]);
      ThenAssoc(Scan(engine, path, content, lines, a), Scan(engine, path, content, lines, b[..n]),
                DetectEntry(engine, path, content, lines, b[n]));
    }
  }

  /** A rule whose pattern does not compile is skipped, and the other rules still run: the
      scan is the scan of the catalog without it. */
  lemma SkipMalformed(engine: Engine, path: string, content: string, lines: seq<string>,
                      a: seq<Entry>, e: Entry, b: seq<Entry>)
    requires e.config.kind.RegexKind? && e.config.pattern.Some?
    requires engine(e.config.pattern.value, FlagsOf(e.config.multiline)).CompileError?
    ensures Scan(engine, path, content, lines, a + [e] + b) == Scan(engine, path, content, lines, a + b)
  {
    ScanAppend(engine, path, content, lines, a + [e], b);
    ScanAppend(engine, path, content, lines, a, b);
    assert (a + [e])[..|a|] == a;
    var sa := Scan(engine, path, content, lines, a);
    if sa.Detected? {
      assert sa.found + [] == sa.found;
    }
  }

  lemma AllReportedAppend(path: string, content: string, a: seq<Detection>, b: seq<Detection>)
    requires AllReported(path, content, a) && AllReported(path, content, b)
    ensures AllReported(path, content, a + b)
  {
    forall k | 0 <= k < |a + b|
      ensures Reported(path, content, (a + b)[k])
    {
      if k >= |a| {
        assert (a + b)[k] == b[k - |a|];
      }
    }
  }

  lemma ThenReported(path: string, content: string, a: Outcome, b: Outcome)
    requires OutcomeReported(path, content, a) && OutcomeReported(path, content, b)
    ensures OutcomeReported(path, content, Then(a, b))
  {
    if a.Detected? && b.Detected? {
      AllReportedAppend(path, content, a.found, b.found);
    }
  }

  lemma DetectSubReported(engine: Engine, path: string, content: string, name: string,
                          description: Option<string>, sub: string)
    requires Sound(engine)
    ensures OutcomeReported(path, content, DetectSub(engine, path, content, SplitLines(content), name, description, sub))
  {
    if description.Some? {
      DetectRegexReported(engine, path, content, SubName(name, sub), SubConfig(sub, description));
    }
  }

  /** A `regex_list` rule reports well when each alternative does. */
  lemma {:induction false} DetectListReported(engine: Engine, path: string, content: string, name: string,
                                              description: Option<string>, subs: seq<string>, k: nat)
    requires k <= |subs|
    requires forall j :: 0 <= j < k ==>
      OutcomeReported(path, content, DetectSub(engine, path, content, SplitLines(content), name, description, subs[j]))
    ensures OutcomeReported(path, content, DetectList(engine, path, content, SplitLines(content), name, description, subs, k))
  {
    if k > 0 {
      DetectListReported(engine, path, content, name, description, subs, k - 1);
      ThenReported(path, content, DetectList(engine, path, content, SplitLines(content), name, description, subs, k - 1),
                   DetectSub(engine, path, content, SplitLines(content), name, description, subs[k - 1]));
    }
  }

  lemma DetectEntryReported(engine: Engine, path: string, content: string, e: Entry)
    requires Sound(engine)
    ensures OutcomeReported(path, content, DetectEntry(engine, path, content, SplitLines(content), e))
  {
    if e.config.kind.RegexKind? {
      DetectRegexReported(engine, path, content, e.name, e.config);
    } else if e.config.kind.RegexListKind? && e.config.patterns.Some? {
      var subs := e.config.patterns.value;
      forall j | 0 <= j < |subs|
        ensures OutcomeReported(path, content, DetectSub(engine, path, content, SplitLines(content), e.name, e.config.description, subs[j]))
      {
        DetectSubReported(engine, path, content, e.name, e.config.description, subs[j]);
      }
      DetectListReported(engine, path, content, e.name, e.config.description, subs, |subs|);
    }
  }

  lemma {:induction false} ScanReported(engine: Engine, path: string, content: string, es: seq<Entry>)
    requires Sound(engine)
    ensures OutcomeReported(path, content, Scan(engine, path, content, SplitLines(content), es))
    decreases |es|
  {
    if es != [] {
      var n := |es| - 1;
      ScanReported(engine, path, content, es[..n]);
      DetectEntryReported(engine, path, content, es[n]);
      ThenReported(path, content, Scan(engine, path, content, SplitLines(content), es[..n]),
                   DetectEntry(engine, path, content, SplitLines(content), es[n]));
    }
  }

  /** Every record `analyze_file` returns names the file, the matched text sitting at the
      reported line, and the context around that line. */
  lemma AnalyzeReported(catalog: Option<seq<Entry>>, risk: RiskLevels, engine: Engine, path: string, content: string)
    requires Sound(engine)
    ensures OutcomeReported(path, content, AnalyzeOutcome(catalog, risk, engine, path, Some(content)))
  {
    if IsSource(path) && !Contains(path, HelperName) && catalog.Some? {
      ScanReported(engine, path, content, catalog.value);
      var found := Scan(engine, path, content, SplitLines(content), catalog.value);
      if found.Detected? {
        var rated := Rate(risk, found.found);
        forall k | 0 <= k < |rated|
          ensures Reported(path, content, rated[k])
        {
          assert Reported(path, content, found.found[k]);
        }
      }
    }
  }

  /** The records of a `regex_list` rule are named after its alternatives. */
  lemma {:induction false} DetectListNames(engine: Engine, path: string, content: string, lines: seq<string>,
                                           name: string, description: Option<string>, subs: seq<string>, k: nat)
    requires k <= |subs|
    ensures var r := DetectList(engine, path, content, lines, name, description, subs, k);
      r.Detected? ==> forall d :: d in r.found ==> exists j :: 0 <= j < k && d.patternName == SubName(name, subs[j])
  {
    if k > 0 && description.Some? {
      DetectListNames(engine, path, content, lines, name, description, subs, k - 1);
      var last := DetectRegex(engine, path, content, lines, SubName(name, subs[k - 1]), SubConfig(subs[k - 1], description));
      if last.Detected? {
        assert forall d :: d in last.found ==> d.patternName == SubName(name, subs[k - 1]);
      }
    }
  }

  // ---------------------------------------------------------------------------------------
  // Statistics over the recorded detections

  /** The number of records with confidence `c`. */
  function CountConfidence(ds: seq<Detection>, c: Confidence): (n: nat)
    ensures n <= |ds|
    decreases |ds|
  {
    if ds == [] then 0
    else CountConfidence(ds[..|ds| - 1], c) + (if ds[|ds| - 1].confidence == c then 1 else 0)
  }

  /** Every record has one of the three confidences, so the three counts add up. */
  lemma {:induction false} ConfidenceCountsSum(ds: seq<Detection>)
    ensures CountConfidence(ds, High) + CountConfidence(ds, Medium) + CountConfidence(ds, Low) == |ds|
    decreases |ds|
  {
    if ds != [] {
      ConfidenceCountsSum(ds[..|ds| - 1]);
    }
  }

  /** The distinct pattern names of `ds` in order of first occurrence. */
  function Names(ds: seq<Detection>): (ns: seq<string>)
    ensures forall n :: n in ns <==> exists d :: d in ds && d.patternName == n
    ensures forall i, j :: 0 <= i < j < |ns| ==> ns[i] != ns[j]
    decreases |ds|
  {
    if ds == [] then []
    else
      var k := |ds| - 1;
      var ns := Names(ds[..k]);
      assert forall d :: d in ds <==> d in ds[..k] || d == ds[k] by {
        assert ds == ds[..k] + [ds[k]];
      }
      if ds[k].patternName in ns then ns else ns + [ds[k].patternName]
  }

  /** The number of records named `n`. */
  function NameCount(ds: seq<Detection>, n: string): nat
    decreases |ds|
  {
    if ds == [] then 0
    else NameCount(ds[..|ds| - 1], n) + (if ds[|ds| - 1].patternName == n then 1 else 0)
  }

  lemma NameCountStep(ds: seq<Detection>, k: nat, n: string)
    requires k < |ds|
    ensures NameCount(ds[..k + 1], n) == NameCount(ds[..k], n) + (if ds[k].patternName == n then 1 else 0)
  {
    assert ds[..k + 1][..k] == ds[..k];
  }

  lemma NamesStep(ds: seq<Detection>, k: nat)
    requires k < |ds|
    ensures Names(ds[..k + 1]) ==
      if ds[k].patternName in Names(ds[..k]) then Names(ds[..k]) else Names(ds[..k]) + [ds[k].patternName]
  {
    assert ds[..k + 1][..k] == ds[..k];
  }

  /** A name no record carries is counted zero times. */
  lemma {:induction false} NameCountNone(ds: seq<Detection>, n: string)
    requires n !in Names(ds)
    ensures NameCount(ds, n) == 0
    decreases |ds|
  {
    if ds != [] {
      var k := |ds| - 1;
      assert ds[k] in ds;
      assert forall d :: d in ds[..k] ==> d in ds;
      NameCountNone(ds[..k], n);
    }
  }

  /** The sum of the counts of the names `ns`. */
  function CountSum(ds: seq<Detection>, ns: seq<string>): nat
    decreases |ns|
  {
    if ns == [] then 0 else CountSum(ds, ns[..|ns| - 1]) + NameCount(ds, ns[|ns| - 1])
  }

  /** The per-pattern counts add up to the number of records. */
  lemma {:induction false} PatternCountsSum(ds: seq<Detection>)
    ensures CountSum(ds, Names(ds)) == |ds|
    decreases |ds|
  {
    if ds != [] {
      var k := |ds| - 1;
      var ns := Names(ds[..k]);
      PatternCountsSum(ds[..k]);
      PatternCountsStep(ds, ns);
    }
  }

  lemma PatternCountsStep(ds: seq<Detection>, ns: seq<string>)
    requires ds != [] && ns == Names(ds[..|ds| - 1])
    requires CountSum(ds[..|ds| - 1], ns) == |ds| - 1
    ensures CountSum(ds, Names(ds)) == |ds|
  {
    var k := |ds| - 1;
    var n := ds[k].patternName;
    assert ds[..k + 1] == ds;
    NamesStep(ds, k);
    forall q
      ensures NameCount(ds, q) == NameCount(ds[..k], q) + (if n == q then 1 else 0)
    {
      NameCountStep(ds, k, q);
    }
    if n in ns {
      CountSumAdd(ds, ns);
    } else {
      CountSumOther(ds, ns);
      NameCountNone(ds[..k], n);
      assert (ns + [n])[..|ns|] == ns;
    }
  }

  /** One more record with a name among the distinct names `ns` adds one to their sum. */
  lemma {:induction false} CountSumAdd(ds: seq<Detection>, ns: seq<string>)
    requires ds != [] && ds[|ds| - 1].patternName in ns
    requires forall i, j :: 0 <= i < j < |ns| ==> ns[i] != ns[j]
    requires forall q :: NameCount(ds, q) == NameCount(ds[..|ds| - 1], q) + (if ds[|ds| - 1].patternName == q then 1 else 0)
    ensures CountSum(ds, ns) == CountSum(ds[..|ds| - 1], ns) + 1
    decreases |ns|
  {
    var n := ds[|ds| - 1].patternName;
    var m := |ns| - 1;
    forall i, j | 0 <= i < j < m
      ensures ns[..m][i] != ns[..m][j]
    {
    }
    if ns[m] == n {
      assert n !in ns[..m];
      CountSumOther(ds, ns[..m]);
    } else {
      assert n in ns[..m] by {
        var i :| 0 <= i < |ns| && ns[i] == n;
        assert ns[..m][i] == ns[i];
      }
      CountSumAdd(ds, ns[..m]);
    }
  }

  /** One more record with a name outside `ns` leaves their sum alone. */
  lemma {:induction false} CountSumOther(ds: seq<Detection>, ns: seq<string>)
    requires ds != [] && ds[|ds| - 1].patternName !in ns
    requires forall q :: NameCount(ds, q) == NameCount(ds[..|ds| - 1], q) + (if ds[|ds| - 1].patternName == q then 1 else 0)
    ensures CountSum(ds, ns) == CountSum(ds[..|ds| - 1], ns)
    decreases |ns|
  {
    if ns != [] {
      var m := |ns| - 1;
      assert ns[m] in ns;
      assert forall q :: q in ns[..m] ==> q in ns;
      CountSumOther(ds, ns[..m]);
    }
  }

  /** The file paths of the records, in order. */
  function PathList(ds: seq<Detection>): (ps: seq<string>)
    ensures |ps| == |ds| && forall k :: 0 <= k < |ds| ==> ps[k] == ds[k].filePath
  {
    seq(|ds|, k requires 0 <= k < |ds| => ds[k].filePath)
  }

  /** `get_statistics`' dict. */
  datatype Statistics = Statistics(
    totalDetections: nat,
    filesToMigrate: nat,
    high: nat,
    medium: nat,
    low: nat,
    byPattern: map<string, nat>,
    files: seq<string>)

  class CodeAnalyzer {
    /** `self.detections`: every record reported so far. */
    var detections: seq<Detection>
    /** `self.patterns['detection_patterns']` in the mapping's order (None: no such key). */
    const catalog: Option<seq<Entry>>
    /** `self.patterns.get('risk_levels', {})`. */
    const risk: RiskLevels
    /** The regular-expression engine the patterns are compiled with. */
    const engine: Engine

    ghost predicate Valid() {
      && Sound(engine)
      && (catalog.Some? ==> forall i :: 0 <= i < |catalog.value| ==> Canonical(catalog.value[i].config.kind))
    }

    constructor (catalog: Option<seq<Entry>>, risk: RiskLevels, engine: Engine)
      requires Sound(engine)
      requires catalog.Some? ==> forall i :: 0 <= i < |catalog.value| ==> Canonical(catalog.value[i].config.kind)
      ensures Valid()
      ensures this.catalog == catalog && this.risk == risk && this.engine == engine
      ensures detections == []
    {
      this.catalog := catalog;
      this.risk := risk;
      this.engine := engine;
      detections := [];
    }

    /** `analyze_file` on `path`, whose read gave `read` (None: the read failed): the
        records are rated, appended to `detections` and returned; an exception leaves
        `detections` alone. */
    method AnalyzeFile(path: string, read: Option<string>) returns (r: Outcome)
      requires Valid()
      modifies this
      ensures r == AnalyzeOutcome(catalog, risk, engine, path, read)
      ensures r.Detected? ==> detections == old(detections) + r.found
      ensures r.Raised? ==> detections == old(detections)
    {
      if !IsSource(path) || Contains(path, HelperName) || read.None? {
        return Detected([]);
      }
      if catalog.None? {
        return Raised("KeyError: 'detection_patterns'");
      }
      var content := read.value;
      var lines := SplitLines(content);
      var found := ScanCatalog(path, content, lines, catalog.value);
      if found.Raised? {
        return found;
      }
      var ds := found.found;
      // Determine confidence levels
      for k := 0 to |ds|
        invariant |ds| == |found.found|
        invariant forall i :: 0 <= i < k ==> ds[i] == Rate(risk, found.found)[i]
        invariant forall i :: k <= i < |ds| ==> ds[i] == found.found[i]
      {
        ds := ds[k := ds[k].(confidence := GetConfidence(risk, ds[k].patternName))];
      }
      assert ds == Rate(risk, found.found);
      detections := detections + ds;
      r := Detected(ds);
    }

    /** The loop over the catalog entries. */
    method ScanCatalog(path: string, content: string, lines: seq<string>, es: seq<Entry>) returns (r: Outcome)
      ensures r == Scan(engine, path, content, lines, es)
    {
      var found := [];
      for k := 0 to |es|
        invariant Scan(engine, path, content, lines, es[..k]) == Detected(found)
      {
        assert es[..k + 1][..k] == es[..k];
        var e := es[k];
        var detections := Detected([]);
        match e.config.kind {
          case RegexKind =>
            detections := DetectRegexLoop(engine, path, content, lines, e.name, e.config);
          case RegexListKind =>
            if e.config.patterns.None? {
              detections := Raised("KeyError: 'patterns'");
            } else {
              detections := DetectListLoop(path, content, lines, e.name, e.config.description, e.config.patterns.value);
            }
          case OtherKind(_) =>
        }
        assert detections == DetectEntry(engine, path, content, lines, e);
        if detections.Raised? {
          ScanStopped(engine, path, content, lines, es, k + 1);
          return detections;
        }
        found := found + detections.found;
      }
      assert es[..|es|] == es;
      return Detected(found);
    }

    /** The loop over the alternatives of a `regex_list` rule. */
    method DetectListLoop(path: string, content: string, lines: seq<string>, name: string,
                          description: Option<string>, subs: seq<string>) returns (r: Outcome)
      ensures r == DetectList(engine, path, content, lines, name, description, subs, |subs|)
    {
      var found := [];
      for k := 0 to |subs|
        invariant DetectList(engine, path, content, lines, name, description, subs, k) == Detected(found)
      {
        if description.None? {
          ListStopped(engine, path, content, lines, name, description, subs, k + 1);
          return Raised("KeyError: 'description'");
        }
        var sub := subs[k];
        var detections := DetectRegexLoop(engine, path, content, lines, SubName(name, sub), SubConfig(sub, description));
        assert detections.Detected?;
        found := found + detections.found;
      }
      return Detected(found);
    }

    /** `get_files_to_migrate`: the distinct paths of the records, ascending. */
    function FilesToMigrate(): (files: seq<string>)
      reads this
      ensures StrictlySorted(files)
      ensures forall p :: p in files <==> exists d :: d in detections && d.filePath == p
    {
      var ps := PathList(detections);
      assert forall p :: p in ps <==> exists d :: d in detections && d.filePath == p by {
        forall p | p in ps
          ensures exists d :: d in detections && d.filePath == p
        {
          var k :| 0 <= k < |ps| && ps[k] == p;
          assert detections[k] in detections;
        }
        forall p | exists d :: d in detections && d.filePath == p
          ensures p in ps
        {
          var d :| d in detections && d.filePath == p;
          var k :| 0 <= k < |detections| && detections[k] == d;
          assert ps[k] == p;
        }
      }
      SortedDistinct(ps)
    }

    /** `_count_by_pattern`: the number of records of each pattern name. */
    method CountByPattern() returns (counts: map<string, nat>)
      ensures forall n :: n in counts <==> n in Names(detections)
      ensures forall n :: n in counts ==> counts[n] == NameCount(detections, n)
    {
      counts := map[];
      var ds := detections;
      for k := 0 to |ds|
        invariant forall n :: n in counts <==> n in Names(ds[..k])
        invariant forall n :: n in counts ==> counts[n] == NameCount(ds[..k], n)
      {
        var n := ds[k].patternName;
        NamesStep(ds, k);
        forall q
          ensures NameCount(ds[..k + 1], q) == NameCount(ds[..k], q) + (if n == q then 1 else 0)
        {
          NameCountStep(ds, k, q);
        }
        if n !in counts {
          NameCountNone(ds[..k], n);
        }
        counts := counts[n := (if n in counts then counts[n] else 0) + 1];
      }
      assert ds[..|ds|] == ds;
    }

    /** `get_statistics`: the three confidence counts and the per-pattern counts each add
        up to the total. */
    method GetStatistics() returns (s: Statistics)
      ensures s.totalDetections == |detections|
      ensures s.files == FilesToMigrate() && s.filesToMigrate == |s.files|
      ensures s.high == CountConfidence(detections, High)
      ensures s.medium == CountConfidence(detections, Medium)
      ensures s.low == CountConfidence(detections, Low)
      ensures s.high + s.medium + s.low == s.totalDetections
      ensures forall n :: n in s.byPattern <==> n in Names(detections)
      ensures forall n :: n in s.byPattern ==> s.byPattern[n] == NameCount(detections, n)
      ensures CountSum(detections, Names(detections)) == s.totalDetections
    {
      var files := FilesToMigrate();
      var byPattern := CountByPattern();
      ConfidenceCountsSum(detections);
      PatternCountsSum(detections);
      s := Statistics(|detections|, |files|,
                      CountConfidence(detections, High), CountConfidence(detections, Medium),
                      CountConfidence(detections, Low), byPattern, files);
    }
  }
}
