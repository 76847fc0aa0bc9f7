/**
  Regular-expression matches as the rewriter and the detector consume them. The catalog's
  patterns are not executed here: an `Engine` stands for Python's `re` module, turning a
  pattern (with flags) into either a compile error or a `finditer` function, and `Sound`
  states what `finditer` guarantees about the spans it reports. `Substitute` is the
  offset-free meaning of "replace every match by its replacement", against which the
  rewriter's offset-tracking splice loops are proved.
*/
module Matching {

  import opened Wrappers
  import opened Text

  /** One match: its span [start, end), one entry per capturing group of the pattern
      (None for a group that did not take part in the match), and `lastIndex`, Python's
      `match.lastindex`: the number of the capturing group that closed last, or None when
      no group took part. */
  datatype Match = Match(start: nat, end: nat, groups: seq<Option<string>>, lastIndex: Option<nat>)

  /** What `re` guarantees of `lastindex`: None exactly when no group took part, otherwise
      the number of a group that took part. It need not be the highest such group: the
      outer group of `((a)(b))` closes last, so on "ab" it is 1. */
  ghost predicate LastIndexed(m: Match) {
    && (m.lastIndex.None? <==> forall k :: 0 <= k < |m.groups| ==> m.groups[k].None?)
    && (m.lastIndex.Some? ==> 1 <= m.lastIndex.value <= |m.groups| && m.groups[m.lastIndex.value - 1].Some?)
  }

  ghost predicate AllLastIndexed(ms: seq<Match>) {
    forall k :: 0 <= k < |ms| ==> LastIndexed(ms[k])
  }

  /** Spans within a text of length `n`, ascending and pairwise non-overlapping. */
  ghost predicate Ordered(n: nat, ms: seq<Match>) {
    && (forall k :: 0 <= k < |ms| ==> ms[k].start <= ms[k].end <= n)
    && (forall i, j :: 0 <= i < j < |ms| ==> ms[i].end <= ms[j].start)
  }

  /** The `re` flags the tool uses. */
  datatype Flags = Flags(multiline: bool, dotall: bool)

  const NoFlags := Flags(false, false)

  /** The outcome of compiling a pattern. */
  datatype Compiled = Compiled(finditer: string -> seq<Match>) | CompileError(message: string)

  /** Python's `re` engine, seen from outside: a pattern and flags give a compiled matcher. */
  type Engine = (string, Flags) -> Compiled

  /** What `re.finditer` promises: its matches are in bounds, ascending and non-overlapping,
      and each carries a `lastindex` as `re` sets it. */
  ghost predicate Sound(engine: Engine) {
    forall pattern, flags, text :: engine(pattern, flags).Compiled? ==>
      Ordered(|text|, engine(pattern, flags).finditer(text))
      && AllLastIndexed(engine(pattern, flags).finditer(text))
  }

  /** The end of the last span, or 0: everything from here on is unmatched. */
  function LastEnd(ms: seq<Match>): nat {
    if ms == [] then 0 else ms[|ms| - 1].end
  }

  /** `s` with span ms[k] replaced by reps[k] for every k, defined without offsets. */
  function Substitute(s: string, ms: seq<Match>, reps: seq<string>): string
    requires |reps| == |ms|
    decreases |ms|
  {
    if ms == [] then s
    else
      var n := |ms| - 1;
      if ms[n].start <= ms[n].end <= |s| then
        Substitute(s[..ms[n].start], ms[..n], reps[..n]) + reps[n] + s[ms[n].end..]
      else s
  }

  /** The length change made by replacing the spans: sum of |reps[k]| - |span k|. */
  function Delta(ms: seq<Match>, reps: seq<string>): int
    requires |reps| == |ms|
    decreases |ms|
  {
    if ms == [] then 0
    else
      var n := |ms| - 1;
      Delta(ms[..n], reps[..n]) + |reps[n]| - (ms[n].end - ms[n].start)
  }

  /** The length change made by the spans ending at or before position `q`. */
  function DeltaBefore(ms: seq<Match>, reps: seq<string>, q: nat): int
    requires |reps| == |ms|
    decreases |ms|
  {
    if ms == [] then 0
    else
      var n := |ms| - 1;
      if ms[n].end <= q then Delta(ms, reps) else DeltaBefore(ms[..n], reps[..n], q)
  }

  lemma OrderedPrefix(n: nat, ms: seq<Match>, k: nat, m: nat)
    requires Ordered(n, ms) && k <= |ms|
    requires k > 0 ==> ms[k - 1].end <= m
    requires m <= n
    ensures Ordered(m, ms[..k])
  {
  }

  /** One unfolding of `Substitute` for spans within the text. */
  lemma SubstituteUnfold(s: string, ms: seq<Match>, reps: seq<string>)
    requires |reps| == |ms| && ms != []
    requires ms[|ms| - 1].start <= ms[|ms| - 1].end <= |s|
    ensures var n := |ms| - 1;
      Substitute(s, ms, reps) == Substitute(s[..ms[n].start], ms[..n], reps[..n]) + reps[n] + s[ms[n].end..]
  {
  }

  /** The result's length is the input's plus the change of every replacement. */
  lemma {:induction false} SubstituteLength(s: string, ms: seq<Match>, reps: seq<string>)
    requires Ordered(|s|, ms) && |reps| == |ms|
    ensures |Substitute(s, ms, reps)| == |s| + Delta(ms, reps)
    decreases |ms|
  {
    if ms != [] {
      var n := |ms| - 1;
      OrderedPrefix(|s|, ms, n, ms[n].start);
      SubstituteUnfold(s, ms, reps);
      SubstituteLength(s[..ms[n].start], ms[..n], reps[..n]);
    }
  }

  /** The text after the last span is carried over unchanged. */
  lemma SubstituteSplit(s: string, ms: seq<Match>, reps: seq<string>, q: nat)
    requires |reps| == |ms| && q <= |s|
    requires ms != [] ==> ms[|ms| - 1].start <= ms[|ms| - 1].end <= q
    ensures Substitute(s, ms, reps) == Substitute(s[..q], ms, reps) + s[q..]
  {
    if ms == [] {
      assert s == s[..q] + s[q..];
    } else {
      SubstituteSplitLast(s, ms, reps, q);
    }
  }

  lemma SubstituteSplitLast(s: string, ms: seq<Match>, reps: seq<string>, q: nat)
    requires |reps| == |ms| && q <= |s| && ms != []
    requires ms[|ms| - 1].start <= ms[|ms| - 1].end <= q
    ensures Substitute(s, ms, reps) == Substitute(s[..q], ms, reps) + s[q..]
  {
    var n := |ms| - 1;
    var st, en := ms[n].start, ms[n].end;
    var u := s[..q];
    assert u[..st] == s[..st];
    var pre := Substitute(s[..st], ms[..n], reps[..n]);
    SubstituteUnfold(s, ms, reps);
    SubstituteUnfold(u, ms, reps);
    DropAcross(s, en, q);
    AppendAssoc(pre + reps[n], u[en..], s[q..]);
  }

  lemma DropAcross(s: string, e: nat, q: nat)
    requires e <= q <= |s|
    ensures s[e..] == s[..q][e..] + s[q..]
  {
  }

  lemma AppendAssoc(a: string, b: string, c: string)
    ensures a + (b + c) == (a + b) + c
  {
  }

  /** The splice loop's invariant is kept by one step: with `cur` the buffer where spans
      0..k-1 are replaced and `offset` its length change, splicing reps[k] over span k
      shifted by `offset` gives the buffer where spans 0..k are replaced. */
  lemma SpliceAdvance(s: string, ms: seq<Match>, reps: seq<string>, k: nat, cur: string, offset: int,
                       start: int, end: int, rep: string)
    requires Ordered(|s|, ms) && |reps| == |ms| && k < |ms| && rep == reps[k]
    requires cur == Substitute(s, ms[..k], reps[..k]) && offset == |cur| - |s|
    requires start == ms[k].start + offset && end == ms[k].end + offset
    ensures 0 <= start <= end <= |cur|
    ensures cur[..start] + rep + cur[end..] == Substitute(s, ms[..k + 1], reps[..k + 1])
    ensures |cur[..start] + rep + cur[end..]| - |s| == offset + |rep| - (ms[k].end - ms[k].start)
  {
    var q, e := ms[k].start, ms[k].end;
    var pre := Substitute(s[..q], ms[..k], reps[..k]);
    if k > 0 {
      assert ms[..k][k - 1] == ms[k - 1];
    }
    SubstituteSplit(s, ms[..k], reps[..k], q);
    assert cur == pre + s[q..];
    SliceAround(cur, pre, s, q, e, offset);
    assert cur[..start] == pre && cur[end..] == s[e..];
    SubstituteLast(s, ms, reps, k);
    assert Substitute(s, ms[..k + 1], reps[..k + 1]) == pre + reps[k] + s[e..];
  }

  /** The slices of `pre + s[q..]` around a span [q, e) of `s`, shifted by |pre| - q. */
  lemma SliceAround(cur: string, pre: string, s: string, q: nat, e: nat, offset: int)
    requires q <= e <= |s| && cur == pre + s[q..] && |pre| == q + offset
    ensures 0 <= q + offset <= e + offset <= |cur|
    ensures cur[..q + offset] == pre && cur[e + offset..] == s[e..]
  {
  }

  /** Replacing spans 0..k is replacing spans 0..k-1 in the text before span k, then span k. */
  lemma SubstituteLast(s: string, ms: seq<Match>, reps: seq<string>, k: nat)
    requires |reps| == |ms| && k < |ms| && ms[k].start <= ms[k].end <= |s|
    ensures Substitute(s, ms[..k + 1], reps[..k + 1])
      == Substitute(s[..ms[k].start], ms[..k], reps[..k]) + reps[k] + s[ms[k].end..]
  {
    var ms1, reps1 := ms[..k + 1], reps[..k + 1];
    assert ms1[..k] == ms[..k] && reps1[..k] == reps[..k];
    assert ms1[k] == ms[k] && reps1[k] == reps[k];
    SubstituteUnfold(s, ms1, reps1);
  }

  /** Before the loop nothing is replaced; after it, everything is. */
  lemma SpliceBounds(s: string, ms: seq<Match>, reps: seq<string>)
    requires |reps| == |ms|
    ensures Substitute(s, ms[..0], reps[..0]) == s
    ensures ms[..|ms|] == ms && reps[..|reps|] == reps
  {
    assert ms[..0] == [];
  }

  /** Replacing every span by the text it already covers changes nothing. */
  lemma {:induction false} SubstituteIdentity(s: string, ms: seq<Match>, reps: seq<string>)
    requires Ordered(|s|, ms) && |reps| == |ms|
    requires forall k :: 0 <= k < |ms| ==> reps[k] == s[ms[k].start..ms[k].end]
    ensures Substitute(s, ms, reps) == s
    decreases |ms|
  {
    if ms != [] {
      var n := |ms| - 1;
      var t := s[..ms[n].start];
      OrderedPrefix(|s|, ms, n, ms[n].start);
      forall k | 0 <= k < n
        ensures reps[..n][k] == t[ms[..n][k].start..ms[..n][k].end]
      {
        assert ms[..n][k] == ms[k] && reps[..n][k] == reps[k];
        assert ms[k].end <= ms[n].start;
      }
      SubstituteUnfold(s, ms, reps);
      SubstituteIdentity(t, ms[..n], reps[..n]);
      assert s == t + s[ms[n].start..ms[n].end] + s[ms[n].end..];
    }
  }

  /** Text outside every span survives, shifted by the change of the spans before it. */
  lemma {:induction false} SubstituteKeepsUnmatched(s: string, ms: seq<Match>, reps: seq<string>, q: nat)
    requires Ordered(|s|, ms) && |reps| == |ms| && q < |s|
    requires forall k :: 0 <= k < |ms| ==> !(ms[k].start <= q < ms[k].end)
    ensures 0 <= q + DeltaBefore(ms, reps, q) < |Substitute(s, ms, reps)|
    ensures Substitute(s, ms, reps)[q + DeltaBefore(ms, reps, q)] == s[q]
    decreases |ms|
  {
    if ms != [] {
      var n := |ms| - 1;
      var st, en := ms[n].start, ms[n].end;
      var t := s[..st];
      var pre := Substitute(t, ms[..n], reps[..n]);
      OrderedPrefix(|s|, ms, n, st);
      SubstituteUnfold(s, ms, reps);
      SubstituteLength(t, ms[..n], reps[..n]);
      assert Substitute(s, ms, reps) == pre + reps[n] + s[en..];
      if en <= q {
        assert DeltaBefore(ms, reps, q) == Delta(ms[..n], reps[..n]) + |reps[n]| - (en - st);
        assert |pre| + |reps[n]| == en + DeltaBefore(ms, reps, q);
        assert (pre + reps[n] + s[en..])[q + DeltaBefore(ms, reps, q)] == s[en..][q - en];
      } else {
        assert q < st;
        assert DeltaBefore(ms, reps, q) == DeltaBefore(ms[..n], reps[..n], q);
        forall k | 0 <= k < n
          ensures !(ms[..n][k].start <= q < ms[..n][k].end)
        {
          assert ms[..n][k] == ms[k];
        }
        SubstituteKeepsUnmatched(t, ms[..n], reps[..n], q);
        assert (pre + reps[n] + s[en..])[q + DeltaBefore(ms, reps, q)] == pre[q + DeltaBefore(ms, reps, q)];
      }
    }
  }

  /** `x` occurs in `r` at position `at`. */
  ghost predicate PlacedAt(r: string, at: int, x: string) {
    0 <= at && at + |x| <= |r| && r[at..at + |x|] == x
  }

  /** Each replacement lands at its span's start shifted by the change of the spans before it. */
  lemma {:induction false} SubstitutePlacesReplacement(s: string, ms: seq<Match>, reps: seq<string>, k: nat)
    requires Ordered(|s|, ms) && |reps| == |ms| && k < |ms|
    ensures PlacedAt(Substitute(s, ms, reps), ms[k].start + Delta(ms[..k], reps[..k]), reps[k])
    decreases |ms|
  {
    var n := |ms| - 1;
    var st, en := ms[n].start, ms[n].end;
    var t := s[..st];
    var pre := Substitute(t, ms[..n], reps[..n]);
    var at := ms[k].start + Delta(ms[..k], reps[..k]);
    OrderedPrefix(|s|, ms, n, st);
    SubstituteUnfold(s, ms, reps);
    SubstituteLength(t, ms[..n], reps[..n]);
    if k < n {
      SubstitutePlacesReplacement(t, ms[..n], reps[..n], k);
      PrefixOfPrefix(ms, n, k);
      PrefixOfPrefix(reps, n, k);
      assert PlacedAt(pre, at, reps[k]);
      ConcatKeepsLeft(Substitute(s, ms, reps), pre, reps[n], s[en..], at, reps[k]);
    } else {
      assert ms[..n] == ms[..k] && reps[..n] == reps[..k];
      ConcatKeepsMiddle(Substitute(s, ms, reps), pre, reps[n], s[en..], at);
    }
  }

  lemma ConcatKeepsLeft(r: string, a: string, b: string, c: string, at: int, x: string)
    requires r == a + b + c && PlacedAt(a, at, x)
    ensures PlacedAt(r, at, x)
  {
    assert r[at..at + |x|] == a[at..at + |x|];
  }

  lemma ConcatKeepsMiddle(r: string, a: string, b: string, c: string, at: int)
    requires r == a + b + c && at == |a|
    ensures PlacedAt(r, at, b)
  {
    assert r[at..at + |b|] == b;
  }

  lemma PrefixOfPrefix<T>(a: seq<T>, n: nat, k: nat)
    requires k < n <= |a|
    ensures a[..n][..k] == a[..k] && a[..n][k] == a[k]
  {
  }

}
