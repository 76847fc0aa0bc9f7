/**
  The null-check rewrite (`_replace_nullptr_checks`) of the runtime-fallback rewriter,
  modelled as written. For each declared DisplayAccess variable `v`, in the order in which
  Python iterates the set of them:
  - every `v != nullptr` found in the rule's input is replaced by `v.isDisplayValid()`, at its
    position shifted by one running `offset` that all variables share;
  - then every `v == nullptr` found in the buffer as it is at that moment is replaced by
    `!v.isDisplayValid()` at its position in that buffer, with no offset at all.
  Both kinds of record take their line number from the rule's input. The positions are exact
  for the first variable's `!=` pass, and in an `==` pass only while the replacements before
  a match have kept the length; the lemmas below prove exactly these cases.
*/
module NullChecks {

  import opened Text
  import opened Matching
  import opened Patterns
  import opened Edits
  import opened SpliceRules

  /** The rule's loop state: the buffer, the running offset and the records made so far. */
  datatype NullState = NullState(modified: string, offset: int, transforms: seq<Transformation>)

  function Initial(content: string): NullState {
    NullState(content, 0, [])
  }

  function ValidCall(v: string): string {
    v + ".isDisplayValid()"
  }

  function InvalidCall(v: string): string {
    "!" + v + ".isDisplayValid()"
  }

  /** The record of a `!=` rewrite: the matched text of the rule's input. */
  function NotNullRecord(path: string, content: string, v: string, m: Match): Transformation {
    Transformation(path, LineNumber(content, m.start), Slice(content, m.start, m.end), ValidCall(v),
      "replace_nullptr_check", "Changed " + v + " != nullptr to " + ValidCall(v))
  }

  /** The record of an `==` rewrite: a fixed original text, and the line that the match's
      position (in the current buffer) has in the rule's input. */
  function IsNullRecord(path: string, content: string, v: string, m: Match): Transformation {
    Transformation(path, LineNumber(content, m.start), v + " == nullptr", InvalidCall(v),
      "replace_nullptr_check", "Changed " + v + " == nullptr to " + InvalidCall(v))
  }

  /** One `!=` rewrite: splice `v.isDisplayValid()` over the match shifted by the running
      offset, with Python's clipping of out-of-range slice indices. */
  function NotNullStep(p: NullState, path: string, content: string, v: string, m: Match): NullState {
    NullState(Splice(p.modified, m.start + p.offset, m.end + p.offset, ValidCall(v)),
      p.offset + |ValidCall(v)| - (m.end - m.start),
      p.transforms + [NotNullRecord(path, content, v, m)])
  }

  /** The `!=` loop over `ms` from state `st`. */
  function NotNullSplices(st: NullState, path: string, content: string, v: string, ms: seq<Match>): NullState
    decreases |ms|
  {
    if ms == [] then st
    else
      var n := |ms| - 1;
      NotNullStep(NotNullSplices(st, path, content, v, ms[..n]), path, content, v, ms[n])
  }

  /** One `==` rewrite: splice `!v.isDisplayValid()` over the match at its own position. */
  function IsNullStep(p: NullState, path: string, content: string, v: string, m: Match): NullState {
    NullState(Splice(p.modified, m.start, m.end, InvalidCall(v)), p.offset,
      p.transforms + [IsNullRecord(path, content, v, m)])
  }

  /** The `==` loop over `ms` from state `st`. */
  function IsNullSplices(st: NullState, path: string, content: string, v: string, ms: seq<Match>): NullState
    decreases |ms|
  {
    if ms == [] then st
    else
      var n := |ms| - 1;
      IsNullStep(IsNullSplices(st, path, content, v, ms[..n]), path, content, v, ms[n])
  }

  /** Both passes for one variable. */
  function VariablePass(st: NullState, path: string, content: string, v: string): NullState {
    var a := NotNullSplices(st, path, content, v, FindAll(NotNull(v), content));
    IsNullSplices(a, path, content, v, FindAll(IsNull(v), a.modified))
  }

  /** The passes for the variables in `order`, first to last. */
  function Passes(st: NullState, path: string, content: string, order: seq<string>): NullState
    decreases |order|
  {
    if order == [] then st
    else
      var n := |order| - 1;
      VariablePass(Passes(st, path, content, order[..n]), path, content, order[n])
  }

  /** The rule's result when the set is iterated in `order`. */
  function NullChecksResult(path: string, content: string, order: seq<string>): (r: RuleResult)
    ensures order == [] ==> r == Unchanged(content)
    ensures AllNullRecords(r.transforms, path)
  {
    PassesTagged(Initial(content), path, content, order);
    var f := Passes(Initial(content), path, content, order);
    RuleResult(f.modified, f.transforms)
  }

  /** Every record names the file and is tagged as a null-check rewrite. */
  ghost predicate AllNullRecords(ts: seq<Transformation>, path: string) {
    forall k :: 0 <= k < |ts| ==> ts[k].filePath == path && ts[k].transformationType == "replace_nullptr_check"
  }

  lemma AllNullRecordsAppend(ts: seq<Transformation>, t: Transformation, path: string)
    requires AllNullRecords(ts, path) && t.filePath == path && t.transformationType == "replace_nullptr_check"
    ensures AllNullRecords(ts + [t], path)
  {
    assert forall k :: 0 <= k < |ts| ==> (ts + [t])[k] == ts[k];
  }

  lemma {:induction false} NotNullTagged(st: NullState, path: string, content: string, v: string, ms: seq<Match>)
    requires AllNullRecords(st.transforms, path)
    ensures AllNullRecords(NotNullSplices(st, path, content, v, ms).transforms, path)
    decreases |ms|
  {
    if ms != [] {
      var n := |ms| - 1;
      NotNullTagged(st, path, content, v, ms[..n]);
      var p := NotNullSplices(st, path, content, v, ms[..n]);
      AllNullRecordsAppend(p.transforms, NotNullRecord(path, content, v, ms[n]), path);
    }
  }

  lemma {:induction false} IsNullTagged(st: NullState, path: string, content: string, v: string, ms: seq<Match>)
    requires AllNullRecords(st.transforms, path)
    ensures AllNullRecords(IsNullSplices(st, path, content, v, ms).transforms, path)
    decreases |ms|
  {
    if ms != [] {
      var n := |ms| - 1;
      IsNullTagged(st, path, content, v, ms[..n]);
      var p := IsNullSplices(st, path, content, v, ms[..n]);
      AllNullRecordsAppend(p.transforms, IsNullRecord(path, content, v, ms[n]), path);
    }
  }

  lemma {:induction false} PassesTagged(st: NullState, path: string, content: string, order: seq<string>)
    requires AllNullRecords(st.transforms, path)
    ensures AllNullRecords(Passes(st, path, content, order).transforms, path)
    decreases |order|
  {
    if order != [] {
      var n := |order| - 1;
      PassesTagged(st, path, content, order[..n]);
      var p := Passes(st, path, content, order[..n]);
      NotNullTagged(p, path, content, order[n], FindAll(NotNull(order[n]), content));
      var a := NotNullSplices(p, path, content, order[n], FindAll(NotNull(order[n]), content));
      IsNullTagged(a, path, content, order[n], FindAll(IsNull(order[n]), a.modified));
    }
  }

  /** `order` lists every element of `names` exactly once: a possible iteration order. */
  ghost predicate EnumeratesOnce(order: seq<string>, names: set<string>) {
    && (forall i, j :: 0 <= i < j < |order| ==> order[i] != order[j])
    && (forall v :: v in order <==> v in names)
  }

  // ---------------------------------------------------------------------------------------
  // The rule

  /** `_replace_nullptr_checks`. Python iterates the set of declared variables in the order
      its hash table yields; `order` is that order, which lists every variable once. */
  method ReplaceNullptrChecks(path: string, content: string, order: seq<string>) returns (r: RuleResult)
    requires EnumeratesOnce(order, DeclaredNames(content))
    ensures DeclaredNames(content) == {} ==> r == Unchanged(content)
    ensures r == NullChecksResult(path, content, order)
  {
    var names := CollectDeclaredNames(content);
    if names == {} {
      EnumeratesOnceSize(order, names);
      return Unchanged(content);
    }
    var st := Initial(content);
    for k := 0 to |order|
      invariant st == Passes(Initial(content), path, content, order[..k])
    {
      PassesStep(Initial(content), path, content, order, k);
      st := RunVariable(st, path, content, order[k]);
    }
    assert order[..|order|] == order;
    return RuleResult(st.modified, st.transforms);
  }

  /** The body of the outer loop: both passes for variable `v`. */
  method RunVariable(st: NullState, path: string, content: string, v: string) returns (st': NullState)
    ensures st' == VariablePass(st, path, content, v)
  {
    var ne := FindAll(NotNull(v), content);
    var a := NotNullLoop(st, path, content, v, ne);
    var eq := FindAll(IsNull(v), a.modified);
    st' := IsNullLoop(a, path, content, v, eq);
  }

  /** The `!=` loop. */
  method NotNullLoop(st: NullState, path: string, content: string, v: string, ms: seq<Match>)
    returns (out: NullState)
    ensures out == NotNullSplices(st, path, content, v, ms)
  {
    var modified, offset, transforms := st.modified, st.offset, st.transforms;
    var k := 0;
    while k < |ms|
      invariant 0 <= k <= |ms|
      invariant NullState(modified, offset, transforms) == NotNullSplices(st, path, content, v, ms[..k])
    {
      NotNullSplicesStep(st, path, content, v, ms, k);
      modified, offset, transforms := RewriteNotNull(path, content, v, ms[k], modified, offset, transforms);
      k := k + 1;
    }
    assert ms[..k] == ms;
    return NullState(modified, offset, transforms);
  }

  /** One pass of the `!=` loop: splice the replacement over the match shifted by `offset`. */
  method RewriteNotNull(path: string, content: string, v: string, m: Match,
                        modified: string, offset: int, transforms: seq<Transformation>)
    returns (modified': string, offset': int, transforms': seq<Transformation>)
    ensures NullState(modified', offset', transforms')
      == NotNullStep(NullState(modified, offset, transforms), path, content, v, m)
  {
    var replacement := ValidCall(v);
    var start := m.start + offset;
    var end := m.end + offset;
    modified' := Splice(modified, start, end, replacement);
    offset' := offset + |replacement| - (m.end - m.start);
    transforms' := transforms + [NotNullRecord(path, content, v, m)];
  }

  /** The `==` loop. */
  method IsNullLoop(st: NullState, path: string, content: string, v: string, ms: seq<Match>)
    returns (out: NullState)
    ensures out == IsNullSplices(st, path, content, v, ms)
  {
    var modified, transforms := st.modified, st.transforms;
    var k := 0;
    while k < |ms|
      invariant 0 <= k <= |ms|
      invariant NullState(modified, st.offset, transforms) == IsNullSplices(st, path, content, v, ms[..k])
    {
      IsNullSplicesStep(st, path, content, v, ms, k);
      modified, transforms := RewriteIsNull(path, content, v, ms[k], modified, st.offset, transforms);
      k := k + 1;
    }
    assert ms[..k] == ms;
    return NullState(modified, st.offset, transforms);
  }

  lemma NotNullSplicesStep(st: NullState, path: string, content: string, v: string, ms: seq<Match>, k: nat)
    requires k < |ms|
    ensures NotNullSplices(st, path, content, v, ms[..k + 1])
      == NotNullStep(NotNullSplices(st, path, content, v, ms[..k]), path, content, v, ms[k])
  {
    assert ms[..k + 1][..k] == ms[..k];
  }

  lemma IsNullSplicesStep(st: NullState, path: string, content: string, v: string, ms: seq<Match>, k: nat)
    requires k < |ms|
    ensures IsNullSplices(st, path, content, v, ms[..k + 1])
      == IsNullStep(IsNullSplices(st, path, content, v, ms[..k]), path, content, v, ms[k])
  {
    assert ms[..k + 1][..k] == ms[..k];
  }

  /** One pass of the `==` loop: splice the replacement over the match at its own position. */
  method RewriteIsNull(path: string, content: string, v: string, m: Match,
                       modified: string, ghost offset: int, transforms: seq<Transformation>)
    returns (modified': string, transforms': seq<Transformation>)
    ensures NullState(modified', offset, transforms')
      == IsNullStep(NullState(modified, offset, transforms), path, content, v, m)
  {
    var replacement := InvalidCall(v);
    var start := m.start;
    var end := m.end;
    modified' := Splice(modified, start, end, replacement);
    transforms' := transforms + [IsNullRecord(path, content, v, m)];
  }

  lemma PassesStep(st: NullState, path: string, content: string, order: seq<string>, k: nat)
    requires k < |order|
    ensures Passes(st, path, content, order[..k + 1])
      == VariablePass(Passes(st, path, content, order[..k]), path, content, order[k])
  {
    assert order[..k + 1][..k] == order[..k];
  }

  // ---------------------------------------------------------------------------------------
  // What the rule does

  /** The first variable's `!=` pass (from the rule's input, offset 0) replaces every match
      at its own span and keeps `offset` equal to the length change. */
  lemma {:induction false} NotNullPassExact(path: string, content: string, v: string, ms: seq<Match>)
    requires Ordered(|content|, ms)
    ensures ExactSplices(content, ms, Repeat(ValidCall(v), |ms|), NotNullSplices(Initial(content), path, content, v, ms))
    decreases |ms|
  {
    var reps := Repeat(ValidCall(v), |ms|);
    if ms == [] {
      assert Substitute(content, ms, reps) == content;
    } else {
      var n := |ms| - 1;
      OrderedPrefix(|content|, ms, n, |content|);
      NotNullPassExact(path, content, v, ms[..n]);
      assert reps[..n] == Repeat(ValidCall(v), n);
      NotNullExactStep(path, content, v, ms, reps, NotNullSplices(Initial(content), path, content, v, ms[..n]));
    }
  }

  /** The state reached by replacing span k of `ms` in `s` by reps[k], with a correct offset. */
  ghost predicate ExactSplices(s: string, ms: seq<Match>, reps: seq<string>, f: NullState)
    requires |reps| == |ms|
  {
    && f.modified == Substitute(s, ms, reps)
    && f.offset == |f.modified| - |s|
  }

  lemma NotNullExactStep(path: string, content: string, v: string, ms: seq<Match>, reps: seq<string>, p: NullState)
    requires Ordered(|content|, ms) && ms != [] && |reps| == |ms| && reps[|ms| - 1] == ValidCall(v)
    requires ExactSplices(content, ms[..|ms| - 1], reps[..|ms| - 1], p)
    ensures ExactSplices(content, ms, reps, NotNullStep(p, path, content, v, ms[|ms| - 1]))
  {
    var n := |ms| - 1;
    assert ms[..n + 1] == ms && reps[..n + 1] == reps;
    var start, end := ms[n].start + p.offset, ms[n].end + p.offset;
    SpliceAdvance(content, ms, reps, n, p.modified, p.offset, start, end, ValidCall(v));
    SpliceInRange(p.modified, start, end, ValidCall(v));
  }

  /** The records of `!=` rewrites of the matches `ms`, in order. */
  function NotNullRecords(path: string, content: string, v: string, ms: seq<Match>): seq<Transformation> {
    seq(|ms|, k requires 0 <= k < |ms| => NotNullRecord(path, content, v, ms[k]))
  }

  lemma NotNullRecordsStep(path: string, content: string, v: string, ms: seq<Match>)
    requires ms != []
    ensures NotNullRecords(path, content, v, ms)
      == NotNullRecords(path, content, v, ms[..|ms| - 1]) + [NotNullRecord(path, content, v, ms[|ms| - 1])]
  {
  }

  lemma NotNullStepRecords(p: NullState, path: string, content: string, v: string, m: Match)
    ensures NotNullStep(p, path, content, v, m).transforms == p.transforms + [NotNullRecord(path, content, v, m)]
  {
  }

  /** The `!=` pass records every match, in order, with its line in the rule's input. */
  lemma {:induction false} NotNullPassRecords(st: NullState, path: string, content: string, v: string, ms: seq<Match>)
    ensures NotNullSplices(st, path, content, v, ms).transforms == st.transforms + NotNullRecords(path, content, v, ms)
    decreases |ms|
  {
    if ms != [] {
      var n := |ms| - 1;
      NotNullPassRecords(st, path, content, v, ms[..n]);
      NotNullRecordsStep(path, content, v, ms);
      NotNullStepRecords(NotNullSplices(st, path, content, v, ms[..n]), path, content, v, ms[n]);
    }
  }

  /** An `==` pass replaces every match at its own span as long as every replacement before
      the last has kept the length (in particular when there is at most one match). */
  lemma {:induction false} IsNullPassExact(st: NullState, path: string, content: string, v: string, ms: seq<Match>)
    requires Ordered(|st.modified|, ms)
    requires SpansOfLength(ms, |ms| - 1, |InvalidCall(v)|)
    ensures IsNullSplices(st, path, content, v, ms).modified == Substitute(st.modified, ms, Repeat(InvalidCall(v), |ms|))
    decreases |ms|
  {
    var reps := Repeat(InvalidCall(v), |ms|);
    if ms == [] {
      assert Substitute(st.modified, ms, reps) == st.modified;
    } else {
      var n := |ms| - 1;
      OrderedPrefix(|st.modified|, ms, n, |st.modified|);
      SpansOfLengthPrefix(ms, n, n - 1, |InvalidCall(v)|);
      IsNullPassExact(st, path, content, v, ms[..n]);
      assert reps[..n] == Repeat(InvalidCall(v), n);
      SpansOfLengthPrefix(ms, n, n, |InvalidCall(v)|);
      DeltaOfCopies(ms[..n], InvalidCall(v));
      SubstituteLength(st.modified, ms[..n], reps[..n]);
      IsNullExactStep(st.modified, path, content, v, ms, reps, IsNullSplices(st, path, content, v, ms[..n]));
    }
  }

  /** The first `n` spans of `ms` have length `len`. */
  ghost predicate SpansOfLength(ms: seq<Match>, n: int, len: nat) {
    forall k :: 0 <= k < n && k < |ms| ==> ms[k].end - ms[k].start == len
  }

  lemma SpansOfLengthPrefix(ms: seq<Match>, m: nat, n: int, len: nat)
    requires m <= |ms| && n <= m && SpansOfLength(ms, m, len)
    ensures SpansOfLength(ms[..m], n, len)
  {
    forall k | 0 <= k < n && k < m
      ensures ms[..m][k].end - ms[..m][k].start == len
    {
      assert ms[..m][k] == ms[k];
    }
  }

  lemma IsNullExactStep(s: string, path: string, content: string, v: string, ms: seq<Match>, reps: seq<string>, p: NullState)
    requires Ordered(|s|, ms) && ms != [] && |reps| == |ms| && reps[|ms| - 1] == InvalidCall(v)
    requires Substituted(p.modified, s, ms[..|ms| - 1], reps[..|ms| - 1]) && |p.modified| == |s|
    ensures Substituted(IsNullStep(p, path, content, v, ms[|ms| - 1]).modified, s, ms, reps)
  {
    var n := |ms| - 1;
    assert ms[..n + 1] == ms && reps[..n + 1] == reps;
    SpliceAdvance(s, ms, reps, n, p.modified, 0, ms[n].start, ms[n].end, InvalidCall(v));
    SpliceInRange(p.modified, ms[n].start, ms[n].end, InvalidCall(v));
  }

  /** `r` is `s` with span k of `ms` replaced by reps[k]. */
  ghost predicate Substituted(r: string, s: string, ms: seq<Match>, reps: seq<string>)
    requires |reps| == |ms|
  {
    r == Substitute(s, ms, reps)
  }

  /** Replacing spans by copies of a text of their own length changes no length. */
  lemma {:induction false} DeltaOfCopies(ms: seq<Match>, x: string)
    requires SpansOfLength(ms, |ms|, |x|)
    ensures Delta(ms, Repeat(x, |ms|)) == 0
    decreases |ms|
  {
    if ms != [] {
      var n := |ms| - 1;
      SpansOfLengthPrefix(ms, n, n, |x|);
      DeltaOfCopies(ms[..n], x);
      assert Repeat(x, |ms|)[..n] == Repeat(x, n);
    }
  }

  /** With no `!=` and no `==` comparison of any variable in the input, nothing changes. */
  lemma {:induction false} NoComparisonsUnchanged(path: string, content: string, order: seq<string>)
    requires forall v :: v in order ==> FindAll(NotNull(v), content) == [] && FindAll(IsNull(v), content) == []
    ensures Passes(Initial(content), path, content, order) == Initial(content)
    decreases |order|
  {
    if order != [] {
      var n := |order| - 1;
      forall v | v in order[..n]
        ensures FindAll(NotNull(v), content) == [] && FindAll(IsNull(v), content) == []
      {
        assert v in order;
      }
      NoComparisonsUnchanged(path, content, order[..n]);
      assert order[n] in order;
    }
  }

  /** Every variable is processed exactly once: an iteration order is as long as the set. */
  lemma {:induction false} EnumeratesOnceSize(order: seq<string>, names: set<string>)
    requires EnumeratesOnce(order, names)
    ensures |order| == |names|
    decreases |order|
  {
    if order != [] {
      var n := |order| - 1;
      var x := order[n];
      assert x in names by {
        assert x in order;
      }
      forall w
        ensures w in order[..n] <==> w in names - {x}
      {
        if w in order[..n] {
          var i :| 0 <= i < n && order[..n][i] == w;
          assert order[i] == w && order[i] != order[n];
          assert w in order;
        }
        if w in names - {x} {
          assert w in order;
          var i :| 0 <= i < |order| && order[i] == w;
          assert order[..n][i] == w;
        }
      }
      assert EnumeratesOnce(order[..n], names - {x});
      EnumeratesOnceSize(order[..n], names - {x});
    }
  }

  /** With a single declared variable the set has only one iteration order. */
  lemma OneNameOneOrder(order: seq<string>, v: string)
    requires EnumeratesOnce(order, {v})
    ensures order == [v]
  {
    EnumeratesOnceSize(order, {v});
    assert order[0] in order;
  }
}
