/**
  Text primitives shared by the detector and the rewriter: the character classes of Python's
  `re` module, Python's slicing rules, newline counting (line numbers), `str.splitlines`,
  `str.strip`, literal replace-all, `'\n'.join`, code-point string order and decimal rendering.
*/
module Text {

  import opened Wrappers

  /** The characters for which Python's `str.isspace()` holds: what `\s` matches in a str pattern
      and what `str.strip()` removes. */
  predicate IsSpace(c: char) {
    c == ' ' || ('\t' <= c <= '\r') || ('\U{1C}' <= c <= '\U{1F}') || c == '\U{85}' || c == '\U{A0}'
    || c == '\U{1680}' || ('\U{2000}' <= c <= '\U{200A}') || c == '\U{2028}' || c == '\U{2029}'
    || c == '\U{202F}' || c == '\U{205F}' || c == '\U{3000}'
  }

  /** `\w` restricted to ASCII: letters, digits and underscore. */
  predicate IsWordChar(c: char) {
    ('a' <= c <= 'z') || ('A' <= c <= 'Z') || ('0' <= c <= '9') || c == '_'
  }

  /** A non-empty string of word characters: what `(\w+)` captures. */
  predicate IsWord(w: string) {
    |w| > 0 && forall k :: 0 <= k < |w| ==> IsWordChar(w[k])
  }

  /** The end of the longest run of characters satisfying `p` that starts at `i`
      (a greedy `p*` in a regular expression). */
  function Run(s: string, i: nat, p: char -> bool): (j: nat)
    requires i <= |s|
    ensures i <= j <= |s|
    ensures forall k :: i <= k < j ==> p(s[k])
    ensures j == |s| || !p(s[j])
    decreases |s| - i
  {
    if i < |s| && p(s[i]) then Run(s, i + 1, p) else i
  }

  /** A non-empty run of word characters is what `(\w+)` captures. */
  lemma RunWord(s: string, i: nat)
    requires i <= |s| && Run(s, i, IsWordChar) > i
    ensures IsWord(s[i..Run(s, i, IsWordChar)])
  {
    var j := Run(s, i, IsWordChar);
    forall k | 0 <= k < j - i
      ensures IsWordChar(s[i..j][k])
    {
      assert s[i..j][k] == s[i + k];
    }
  }

  /** A run of `p` characters up to the end of `s` is the longest run. */
  lemma {:induction false} RunToEnd(s: string, i: nat, p: char -> bool)
    requires i <= |s| && forall k :: i <= k < |s| ==> p(s[k])
    ensures Run(s, i, p) == |s|
    decreases |s| - i
  {
    if i < |s| {
      RunToEnd(s, i + 1, p);
    }
  }

  /** A run of `p` characters ended by a non-`p` character is the longest run. */
  lemma {:induction false} RunExact(s: string, i: nat, j: nat, p: char -> bool)
    requires i <= j < |s|
    requires forall k :: i <= k < j ==> p(s[k])
    requires !p(s[j])
    ensures Run(s, i, p) == j
    decreases j - i
  {
    if i < j {
      RunExact(s, i + 1, j, p);
    }
  }

  /** `lit` occurs in `s` at position `i`. */
  predicate StartsAt(s: string, i: nat, lit: string) {
    i + |lit| <= |s| && s[i..i + |lit|] == lit
  }

  /** The first position at or after `from` where `t` occurs in `s`. */
  function IndexOf(s: string, t: string, from: nat): (r: Option<nat>)
    requires from <= |s|
    ensures r.Some? ==> from <= r.value && StartsAt(s, r.value, t)
    ensures r.Some? ==> forall k :: from <= k < r.value ==> !StartsAt(s, k, t)
    ensures r.None? ==> forall k :: from <= k <= |s| ==> !StartsAt(s, k, t)
    decreases |s| - from
  {
    if StartsAt(s, from, t) then Some(from)
    else if from == |s| then None
    else IndexOf(s, t, from + 1)
  }

  /** Python's `t in s`. */
  predicate Contains(s: string, t: string) {
    IndexOf(s, t, 0).Some?
  }

  lemma ContainsAt(s: string, t: string, i: nat)
    requires StartsAt(s, i, t)
    ensures Contains(s, t)
  {
  }

  /** Python's `s.count('\n')`. */
  function CountNewlines(s: string): (n: nat)
    ensures n <= |s|
  {
    if s == [] then 0 else CountNewlines(s[..|s| - 1]) + (if s[|s| - 1] == '\n' then 1 else 0)
  }

  lemma {:induction false} CountNewlinesAppend(a: string, b: string)
    ensures CountNewlines(a + b) == CountNewlines(a) + CountNewlines(b)
    decreases |b|
  {
    if b == [] {
      assert a + b == a;
    } else {
      assert (a + b)[..|a + b| - 1] == a + b[..|b| - 1];
      CountNewlinesAppend(a, b[..|b| - 1]);
    }
  }

  /** A string without '\n' adds nothing to the count. */
  lemma {:induction false} CountNewlinesNone(s: string)
    requires forall k :: 0 <= k < |s| ==> s[k] != '\n'
    ensures CountNewlines(s) == 0
    decreases |s|
  {
    if s != [] {
      CountNewlinesNone(s[..|s| - 1]);
    }
  }

  /** Python clips a slice index: a negative index counts from the end, then the index is
      clamped into [0, n]. */
  function Clip(n: nat, i: int): (r: nat)
    ensures r <= n
    ensures 0 <= i <= n ==> r == i
    ensures i > n ==> r == n
    ensures i < 0 ==> r == if n + i < 0 then 0 else n + i
  {
    if i < 0 then (if n + i < 0 then 0 else n + i) else if i > n then n else i
  }

  /** Python's `s[:i]` for any integer `i`. */
  function Take<T>(s: seq<T>, i: int): seq<T> {
    s[..Clip(|s|, i)]
  }

  /** Python's `s[i:]` for any integer `i`. */
  function Drop<T>(s: seq<T>, i: int): seq<T> {
    s[Clip(|s|, i)..]
  }

  /** Python's `s[i:j]` for any integers `i`, `j`. */
  function Slice<T>(s: seq<T>, i: int, j: int): (r: seq<T>)
    ensures |r| <= |s|
  {
    var a := Clip(|s|, i);
    var b := Clip(|s|, j);
    if a < b then s[a..b] else []
  }

  /** Within the text, Python's slice is plain slicing, and the piece occurs where it was cut. */
  lemma SliceAt(s: string, i: nat, j: nat)
    requires i <= j <= |s|
    ensures Slice(s, i, j) == s[i..j] && StartsAt(s, i, s[i..j])
  {
  }

  /** Python's `s[:start] + rep + s[end:]`, the splice every rewrite rule performs. */
  function Splice(s: string, start: int, end: int, rep: string): string {
    Take(s, start) + rep + Drop(s, end)
  }

  /** With indices inside the text, the splice is plain slicing. */
  lemma SpliceInRange(s: string, start: int, end: int, rep: string)
    requires 0 <= start <= end <= |s|
    ensures Splice(s, start, end, rep) == s[..start] + rep + s[end..]
  {
  }

  /** The rewriter's `content[:pos].count('\n') + 1`: the 1-based line on which position
      `pos` lies, counting only '\n' as a line break. */
  function LineNumber(s: string, pos: int): (n: nat)
    ensures 1 <= n <= |s| + 1
  {
    CountNewlines(Take(s, pos)) + 1
  }

  /** Moving forward from `i` to `j` advances the line number by the newlines in between. */
  lemma LineNumberAdvance(s: string, i: nat, j: nat)
    requires i <= j <= |s|
    ensures LineNumber(s, j) == LineNumber(s, i) + CountNewlines(s[i..j])
  {
    assert s[..j] == s[..i] + s[i..j];
    CountNewlinesAppend(s[..i], s[i..j]);
  }

  /** Inserting `t` at position `p` leaves the line number of every earlier position alone... */
  lemma LineNumberBeforeInsert(s: string, p: nat, t: string, pos: nat)
    requires pos < p <= |s|
    ensures LineNumber(s[..p] + t + s[p..], pos) == LineNumber(s, pos)
  {
    var u := s[..p] + t + s[p..];
    assert u[..pos] == s[..pos];
  }

  /** ... and shifts by CountNewlines(t) the line number of every position at or after `p`. */
  lemma LineNumberAfterInsert(s: string, p: nat, t: string, pos: nat)
    requires p <= pos <= |s|
    ensures LineNumber(s[..p] + t + s[p..], pos + |t|) == LineNumber(s, pos) + CountNewlines(t)
  {
    TakeAfterInsert(s, p, t, pos);
    CountNewlinesInsert(s[..p], t, s[p..pos]);
  }

  lemma TakeAfterInsert(s: string, p: nat, t: string, pos: nat)
    requires p <= pos <= |s|
    ensures Take(s[..p] + t + s[p..], pos + |t|) == (s[..p] + t) + s[p..pos]
    ensures Take(s, pos) == s[..p] + s[p..pos]
  {
  }

  lemma CountNewlinesInsert(a: string, t: string, b: string)
    ensures CountNewlines((a + t) + b) == CountNewlines(a + b) + CountNewlines(t)
  {
    CountNewlinesAppend(a + t, b);
    CountNewlinesAppend(a, t);
    CountNewlinesAppend(a, b);
  }

  /** Python's `str.strip()` with no argument. */
  function Strip(s: string): (r: string)
    ensures |r| <= |s|
    ensures r == [] || (!IsSpace(r[0]) && !IsSpace(r[|r| - 1]))
    ensures (s == [] || (!IsSpace(s[0]) && !IsSpace(s[|s| - 1]))) ==> r == s
    ensures exists i, j :: 0 <= i <= j <= |s| && r == s[i..j] && BlankOutside(s, i, j)
  {
    var i := Run(s, 0, IsSpace);
    if i == |s| then
      assert BlankOutside(s, 0, 0) && s[0..0] == [];
      []
    else
      var j := RunBack(s, |s|, IsSpace);
      assert !IsSpace(s[i]);
      assert BlankOutside(s, i, j);
      s[i..j]
  }

  /** A prefix one longer is the prefix followed by the next element. */
  lemma PrefixStep<T>(s: seq<T>, k: nat)
    requires k < |s|
    ensures s[..k + 1] == s[..k] + [s[k]]
  {
  }

  /** `strip()` keeps every non-blank character. */
  lemma StripKeeps(s: string)
    ensures forall k :: 0 <= k < |s| && !IsSpace(s[k]) ==> exists m :: 0 <= m < |Strip(s)| && Strip(s)[m] == s[k]
  {
    var i, j :| 0 <= i <= j <= |s| && Strip(s) == s[i..j] && BlankOutside(s, i, j);
    forall k | 0 <= k < |s| && !IsSpace(s[k])
      ensures 0 <= k - i < |Strip(s)| && Strip(s)[k - i] == s[k]
    {
      assert BlankOutside(s, i, j);
      assert i <= k < j;
    }
  }

  /** Every character of `s` before `i` or from `j` on is blank. */
  ghost predicate BlankOutside(s: string, i: nat, j: nat)
    requires i <= j <= |s|
  {
    forall k :: 0 <= k < |s| && (k < i || j <= k) ==> IsSpace(s[k])
  }

  /** Stripping a line that has no blank at either end, followed by its '\n', gives the line. */
  lemma StripLine(x: string)
    requires x != [] && !IsSpace(x[0]) && !IsSpace(x[|x| - 1])
    ensures Strip(x + "\n") == x
  {
    var s := x + "\n";
    assert s[0] == x[0];
    assert Run(s, 0, IsSpace) == 0;
    assert s[|s| - 2] == x[|x| - 1];
    assert RunBack(s, |s| - 1, IsSpace) == |s| - 1;
    assert RunBack(s, |s|, IsSpace) == |s| - 1;
    assert s[..|s| - 1] == x;
  }

  /** The start of the longest run of characters satisfying `p` that ends at `j`. */
  function RunBack(s: string, j: nat, p: char -> bool): (i: nat)
    requires j <= |s|
    ensures i <= j
    ensures forall k :: i <= k < j ==> p(s[k])
    ensures i == 0 || !p(s[i - 1])
  {
    if j > 0 && p(s[j - 1]) then RunBack(s, j - 1, p) else j
  }

  /** `re.sub(<pattern matching the literal pat>, rep, s)`: replace every non-overlapping
      occurrence of `pat`, scanning left to right, by `rep`. */
  function ReplaceAll(s: string, pat: string, rep: string): string
    requires |pat| > 0
    decreases |s|
  {
    if |s| < |pat| then s
    else if s[..|pat|] == pat then rep + ReplaceAll(s[|pat|..], pat, rep)
    else [s[0]] + ReplaceAll(s[1..], pat, rep)
  }

  /** Text without an occurrence of `pat` is left as it is. */
  lemma {:induction false} ReplaceAllAbsent(s: string, pat: string, rep: string)
    requires |pat| > 0 && !Contains(s, pat)
    ensures ReplaceAll(s, pat, rep) == s
    decreases |s|
  {
    if |s| >= |pat| {
      ContainsPrefix(s, pat);
      ContainsTail(s, pat);
      ReplaceAllAbsent(s[1..], pat, rep);
      assert s == [s[0]] + s[1..];
    }
  }

  lemma ContainsPrefix(s: string, t: string)
    ensures |t| <= |s| && s[..|t|] == t ==> Contains(s, t)
  {
    if |t| <= |s| && s[..|t|] == t {
      ContainsAt(s, t, 0);
    }
  }

  /** An occurrence in the tail is an occurrence in the whole. */
  lemma ContainsTail(s: string, t: string)
    requires s != []
    ensures Contains(s[1..], t) ==> Contains(s, t)
  {
    if Contains(s[1..], t) {
      var i := IndexOf(s[1..], t, 0).value;
      assert s[i + 1..i + 1 + |t|] == s[1..][i..i + |t|];
      ContainsAt(s, t, i + 1);
    }
  }

  /** `n` copies of `x`: Python's `c * n` on a one-character string when `x` is a character. */
  function Repeat<T>(x: T, n: nat): (r: seq<T>)
    ensures |r| == n && forall k :: 0 <= k < n ==> r[k] == x
  {
    seq(n, _ => x)
  }

  /** Python's `sep.join(parts)`. */
  function Join(sep: string, parts: seq<string>): string
    decreases |parts|
  {
    if parts == [] then "" else if |parts| == 1 then parts[0] else parts[0] + sep + Join(sep, parts[1..])
  }

  /** The line boundaries of Python's `str.splitlines()`; "\r\n" counts as one boundary. */
  predicate IsLineBoundary(c: char) {
    c == '\n' || c == '\r' || c == '\U{0B}' || c == '\U{0C}' || ('\U{1C}' <= c <= '\U{1E}')
    || c == '\U{85}' || c == '\U{2028}' || c == '\U{2029}'
  }

  predicate NotLineBoundary(c: char) {
    !IsLineBoundary(c)
  }

  /** Python's `s.splitlines()`: the lines without their terminators, and no empty last line
      after a final terminator. */
  function SplitLines(s: string): (lines: seq<string>)
    ensures s == [] <==> lines == []
    ensures forall k :: 0 <= k < |lines| ==> forall c :: c in lines[k] ==> !IsLineBoundary(c)
    decreases |s|
  {
    if s == [] then []
    else
      var i := Run(s, 0, NotLineBoundary);
      if i == |s| then [s]
      else
        var skip := if s[i] == '\r' && i + 1 < |s| && s[i + 1] == '\n' then 2 else 1;
        [s[..i]] + SplitLines(s[i + skip..])
  }

  /** Where '\n' is the only line boundary, the lines rejoined with '\n' give back the text,
      less a final '\n' (which ends the last line instead of starting an empty one). */
  lemma {:induction false} SplitLinesJoin(s: string)
    requires forall k :: 0 <= k < |s| && IsLineBoundary(s[k]) ==> s[k] == '\n'
    ensures Join("\n", SplitLines(s)) + FinalNewline(s) == s
    decreases |s|
  {
    if s != [] {
      var i := Run(s, 0, NotLineBoundary);
      if i < |s| {
        var rest := s[i + 1..];
        SplitLinesStep(s, i);
        CutAt(s, i);
        if rest != [] {
          SplitLinesJoin(rest);
          JoinCons("\n", s[..i], SplitLines(rest));
          ConcatAssoc4(s[..i], "\n", Join("\n", SplitLines(rest)), FinalNewline(rest));
        }
      }
    }
  }

  /** The '\n' that ends `s`, if any. */
  function FinalNewline(s: string): string {
    if s != [] && s[|s| - 1] == '\n' then "\n" else ""
  }

  lemma CutAt(s: string, i: nat)
    requires i < |s| && s[i] == '\n'
    ensures s == s[..i] + "\n" + s[i + 1..]
    ensures s[i + 1..] == [] ==> FinalNewline(s) == "\n"
    ensures s[i + 1..] != [] ==> FinalNewline(s) == FinalNewline(s[i + 1..])
  {
  }

  lemma ConcatAssoc4(a: string, b: string, c: string, d: string)
    ensures a + b + c + d == a + b + (c + d)
  {
  }

  /** A line cut at a '\n' boundary. */
  lemma SplitLinesStep(s: string, i: nat)
    requires i < |s| && i == Run(s, 0, NotLineBoundary) && s[i] == '\n'
    ensures SplitLines(s) == [s[..i]] + SplitLines(s[i + 1..])
    ensures s[i + 1..] != [] ==> SplitLines(s[i + 1..]) != [] && s[i + 1..][|s[i + 1..]| - 1] == s[|s| - 1]
  {
  }

  lemma JoinCons(sep: string, x: string, rest: seq<string>)
    requires rest != []
    ensures Join(sep, [x] + rest) == x + sep + Join(sep, rest)
  {
    assert ([x] + rest)[1..] == rest;
  }

  /** Python's `a < b` on str: code-point lexicographic order. */
  predicate LexLess(a: string, b: string)
    decreases |a|
  {
    if a == [] then b != []
    else if b == [] then false
    else if a[0] != b[0] then a[0] < b[0]
    else LexLess(a[1..], b[1..])
  }

  lemma {:induction false} LexLessIrreflexive(a: string)
    ensures !LexLess(a, a)
    decreases |a|
  {
    if a != [] {
      LexLessIrreflexive(a[1..]);
    }
  }

  lemma {:induction false} LexLessTransitive(a: string, b: string, c: string)
    requires LexLess(a, b) && LexLess(b, c)
    ensures LexLess(a, c)
    decreases |a|
  {
    if a != [] && b != [] && c != [] && a[0] == b[0] && b[0] == c[0] {
      LexLessTransitive(a[1..], b[1..], c[1..]);
    }
  }

  lemma {:induction false} LexLessTotal(a: string, b: string)
    requires a != b
    ensures LexLess(a, b) || LexLess(b, a)
    decreases |a|
  {
    if a != [] && b != [] && a[0] == b[0] {
      assert a == [a[0]] + a[1..] && b == [b[0]] + b[1..];
      LexLessTotal(a[1..], b[1..]);
    }
  }

  function DigitChar(d: nat): (c: char)
    requires d < 10
    ensures '0' <= c <= '9'
  {
    ((('0' as int) + d) as char)
  }

  /** Python's `str(n)` for a natural number. */
  function NatToString(n: nat): (r: string)
    ensures |r| > 0 && forall k :: 0 <= k < |r| ==> '0' <= r[k] <= '9'
    decreases n
  {
    if n < 10 then [DigitChar(n)] else NatToString(n / 10) + [DigitChar(n % 10)]
  }

  /** The value of a string of decimal digits. */
  function DecimalValue(s: string): nat
    requires forall k :: 0 <= k < |s| ==> '0' <= s[k] <= '9'
  {
    if s == [] then 0 else DecimalValue(s[..|s| - 1]) * 10 + ((s[|s| - 1] as int) - ('0' as int))
  }

  /** Rendering a number in decimal and reading it back gives the number. */
  lemma {:induction false} DecimalRoundTrip(n: nat)
    ensures DecimalValue(NatToString(n)) == n
    decreases n
  {
    if n >= 10 {
      var r := NatToString(n);
      assert r[..|r| - 1] == NatToString(n / 10);
      DecimalRoundTrip(n / 10);
    }
  }
}
