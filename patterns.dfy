/**
  The regular expressions the rewriter hard-codes, as concrete matchers. Each pattern is
  built from literals, greedy whitespace runs (`\s`), greedy word runs (`\w`) and one
  greedy "anything but ')'" run; every such run is followed by a character the run cannot
  contain, so a greedy run never has to give characters back and the match starting at a
  position is determined by maximal runs. `FindFrom` is `re.finditer` for these patterns:
  leftmost match first, the next search resuming at the previous match's end.
*/
module Patterns {

  import opened Wrappers
  import opened Text
  import opened Matching

  const DefineKeyword := "#define"
  const LazyFlag := "SRDISPLAY_LAZYBINDING"
  const IncludeKeyword := "#include"
  const DisplayHeader := "\"sr/world/display/display.h\""
  const AccessType := "SR::Helper::DisplayAccess"
  const Arrow := "->"
  const NullPtr := "nullptr"

  datatype Pattern =
    | LazyDefine                  // "#define", whitespace, the lazy-binding flag
    | DisplayInclude              // "#include", whitespace, the quoted display.h path
    | DisplayIncludeLine          // the same, then whitespace up to and including its last '\n'
    | AccessDecl                  // the DisplayAccess type, whitespace, a captured identifier
    | ArrowOf(names: set<string>) // one of `names` (captured) immediately followed by "->"
    | NotNull(name: string)       // `name`, optional whitespace, "!=", optional whitespace, "nullptr"
    | IsNull(name: string)        // the same with "=="
    | LegacyCreate                // `SR::Display* v = SR::Display::create(arg)` with optional ';'

  /** End of `#include<ws+>"sr/world/display/display.h"` starting at i. */
  function IncludeEnd(s: string, i: nat): (r: Option<nat>)
    requires i <= |s|
    ensures r.Some? ==> i < r.value <= |s|
  {
    if !StartsAt(s, i, IncludeKeyword) then None
    else
      var j := Run(s, i + |IncludeKeyword|, IsSpace);
      if j > i + |IncludeKeyword| && StartsAt(s, j, DisplayHeader) then Some(j + |DisplayHeader|) else None
  }

  /** The last '\n' in s[lo..hi]. */
  function LastNewline(s: string, lo: nat, hi: nat): (r: Option<nat>)
    requires lo <= hi <= |s|
    ensures r.Some? ==> lo <= r.value < hi && s[r.value] == '\n'
    ensures r.Some? ==> forall k :: r.value < k < hi ==> s[k] != '\n'
    ensures r.None? ==> forall k :: lo <= k < hi ==> s[k] != '\n'
    decreases hi
  {
    if hi == lo then None
    else if s[hi - 1] == '\n' then Some(hi - 1)
    else LastNewline(s, lo, hi - 1)
  }

  /** End of the `v<ws*><op><ws*>nullptr` comparison starting at i. */
  function NullCompareEnd(s: string, i: nat, name: string, op: string): (r: Option<nat>)
    requires i <= |s|
    requires |op| > 0
    ensures r.Some? ==> i < r.value <= |s|
  {
    if !StartsAt(s, i, name) then None
    else
      var j := Run(s, i + |name|, IsSpace);
      if !StartsAt(s, j, op) then None
      else
        var k := Run(s, j + |op|, IsSpace);
        if StartsAt(s, k, NullPtr) then Some(k + |NullPtr|) else None
  }

  /** The match of `SR::Display<ws*>*<ws*>(\w+)<ws*>=<ws*>SR::Display::create<ws*>(([^)]+))<ws*>;?`
      starting at i, capturing the variable and the argument. */
  function LegacyCreateAt(s: string, i: nat): (r: Option<Match>)
    requires i <= |s|
    ensures r.Some? ==> r.value.start == i < r.value.end <= |s|
    ensures r.Some? ==>
      |r.value.groups| == 2 && r.value.groups[0].Some? && r.value.groups[1].Some?
      && IsWord(r.value.groups[0].value) && |r.value.groups[1].value| > 0
  {
    if !StartsAt(s, i, "SR::Display") then None
    else
      var a := Run(s, i + 11, IsSpace);
      if !StartsAt(s, a, "*") then None
      else
        var b := Run(s, a + 1, IsSpace);
        var c := Run(s, b, IsWordChar);
        if c == b then None
        else
          var d := Run(s, c, IsSpace);
          if !StartsAt(s, d, "=") then None
          else
            var e := Run(s, d + 1, IsSpace);
            var call := CreateCallAt(s, e);
            if call.None? then None
            else
              var (lo, hi, end) := call.value;
              RunWord(s, b);
              Some(Match(i, end, [Some(s[b..c]), Some(s[lo..hi])], Some(2)))
  }

  /** The tail `SR::Display::create<ws*>(([^)]+))<ws*>;?` starting at e: the bounds of the
      captured argument and the end of the match. */
  function CreateCallAt(s: string, e: nat): (r: Option<(nat, nat, nat)>)
    requires e <= |s|
    ensures r.Some? ==> e < r.value.0 < r.value.1 < r.value.2 <= |s|
  {
    if !StartsAt(s, e, "SR::Display::create") then None
    else
      var f := Run(s, e + 19, IsSpace);
      if !StartsAt(s, f, "(") then None
      else
        var g := Run(s, f + 1, ch => ch != ')');
        if g == f + 1 || !StartsAt(s, g, ")") then None
        else
          var h := Run(s, g + 1, IsSpace);
          var end := if StartsAt(s, h, ";") then h + 1 else h;
          Some((f + 1, g, end))
  }

  /** The match of `#define<ws+>SRDISPLAY_LAZYBINDING` starting at i. */
  function LazyDefineAt(s: string, i: nat): (r: Option<Match>)
    requires i <= |s|
    ensures r.Some? ==> r.value.start == i < r.value.end <= |s| && r.value.groups == []
  {
    if !StartsAt(s, i, DefineKeyword) then None
    else
      var j := Run(s, i + |DefineKeyword|, IsSpace);
      if j > i + |DefineKeyword| && StartsAt(s, j, LazyFlag) then Some(Match(i, j + |LazyFlag|, [], None)) else None
  }

  /** The match of the display.h include followed by whitespace up to its last newline. */
  function IncludeLineAt(s: string, i: nat): (r: Option<Match>)
    requires i <= |s|
    ensures r.Some? ==> r.value.start == i < r.value.end <= |s| && r.value.groups == []
    ensures r.Some? ==> s[r.value.end - 1] == '\n'
  {
    if IncludeEnd(s, i).None? then None
    else
      var e := IncludeEnd(s, i).value;
      var q := LastNewline(s, e, Run(s, e, IsSpace));
      if q.Some? then Some(Match(i, q.value + 1, [], None)) else None
  }

  /** The match of `SR::Helper::DisplayAccess<ws+>(\w+)` starting at i. */
  function AccessDeclAt(s: string, i: nat): (r: Option<Match>)
    requires i <= |s|
    ensures r.Some? ==> r.value.start == i < r.value.end <= |s|
    ensures r.Some? ==> |r.value.groups| == 1 && r.value.groups[0].Some? && IsWord(r.value.groups[0].value)
  {
    if !StartsAt(s, i, AccessType) then None
    else
      var j := Run(s, i + |AccessType|, IsSpace);
      var k := Run(s, j, IsWordChar);
      if j > i + |AccessType| && k > j then RunWord(s, j); Some(Match(i, k, [Some(s[j..k])], Some(1))) else None
  }

  /** The match of `(name1|name2|...)->` starting at i. */
  function ArrowAt(names: set<string>, s: string, i: nat): (r: Option<Match>)
    requires i <= |s|
    ensures r.Some? ==> r.value.start == i < r.value.end <= |s|
    ensures r.Some? ==> |r.value.groups| == 1 && r.value.groups[0].Some? && r.value.groups[0].value in names
  {
    var k := Run(s, i, IsWordChar);
    if k > i && s[i..k] in names && StartsAt(s, k, Arrow) then Some(Match(i, k + 2, [Some(s[i..k])], Some(1))) else None
  }

  /** The match of `name<ws*>op<ws*>nullptr` starting at i. */
  function NullCompareAt(s: string, i: nat, name: string, op: string): (r: Option<Match>)
    requires i <= |s| && |op| > 0
    ensures r.Some? ==> r.value.start == i < r.value.end <= |s| && r.value.groups == []
  {
    var e := NullCompareEnd(s, i, name, op);
    if e.Some? then Some(Match(i, e.value, [], None)) else None
  }

  /** The match of pattern `p` that starts at position i, if any. */
  function MatchAt(p: Pattern, s: string, i: nat): (r: Option<Match>)
    requires i <= |s|
    ensures r.Some? ==> r.value.start == i < r.value.end <= |s|
    ensures r.Some? && p.AccessDecl? ==>
      |r.value.groups| == 1 && r.value.groups[0].Some? && IsWord(r.value.groups[0].value)
    ensures r.Some? && p.ArrowOf? ==>
      |r.value.groups| == 1 && r.value.groups[0].Some? && r.value.groups[0].value in p.names
    ensures r.Some? && p.LegacyCreate? ==>
      |r.value.groups| == 2 && r.value.groups[0].Some? && r.value.groups[1].Some?
      && IsWord(r.value.groups[0].value) && |r.value.groups[1].value| > 0
    ensures r.Some? && !(p.AccessDecl? || p.ArrowOf? || p.LegacyCreate?) ==> r.value.groups == []
    ensures r.Some? && p.DisplayIncludeLine? ==> s[r.value.end - 1] == '\n'
  {
    match p
    case LazyDefine => LazyDefineAt(s, i)
    case DisplayInclude =>
      if IncludeEnd(s, i).Some? then Some(Match(i, IncludeEnd(s, i).value, [], None)) else None
    case DisplayIncludeLine => IncludeLineAt(s, i)
    case AccessDecl => AccessDeclAt(s, i)
    case ArrowOf(names) => ArrowAt(names, s, i)
    case NotNull(name) => NullCompareAt(s, i, name, "!=")
    case IsNull(name) => NullCompareAt(s, i, name, "==")
    case LegacyCreate => LegacyCreateAt(s, i)
  }

  /** `MatchAt` extended with "no match" past the end of the text, as a matcher value. */
  function At(p: Pattern, s: string): (at: nat -> Option<Match>)
    ensures Forward(at, |s|)
  {
    (i: nat) => if i <= |s| then MatchAt(p, s, i) else None
  }

  /** A matcher on a text of length n: a match reported at i starts at i and ends after it. */
  ghost predicate Forward(at: nat -> Option<Match>, n: nat) {
    forall i: nat :: at(i).Some? ==> at(i).value.start == i < at(i).value.end <= n
  }

  /** No match starts anywhere in [lo, hi). */
  ghost predicate NoMatchIn(at: nat -> Option<Match>, lo: nat, hi: nat) {
    forall i: nat :: lo <= i < hi ==> at(i).None?
  }

  /** `re.finditer` from `pos` on: the leftmost match at or after `pos`, then the leftmost at
      or after its end, and so on. */
  function Scan(at: nat -> Option<Match>, n: nat, pos: nat): (ms: seq<Match>)
    requires pos <= n && Forward(at, n)
    ensures Ordered(n, ms)
    ensures forall k :: 0 <= k < |ms| ==> pos <= ms[k].start && at(ms[k].start) == Some(ms[k])
    decreases n - pos
  {
    if pos == n then []
    else
      match at(pos)
      case Some(m) =>
        var rest := Scan(at, n, m.end);
        var ms := [m] + rest;
        assert forall k :: 0 < k < |ms| ==> ms[k] == rest[k - 1];
        ms
      case None =>
        Scan(at, n, pos + 1)
  }

  /** No match starts before the first reported one (anywhere, if none is reported). */
  lemma {:induction false} ScanFirst(at: nat -> Option<Match>, n: nat, pos: nat)
    requires pos <= n && Forward(at, n)
    ensures var ms := Scan(at, n, pos);
      if ms == [] then NoMatchIn(at, pos, n + 1) else NoMatchIn(at, pos, ms[0].start)
    decreases n - pos
  {
    if pos < n && at(pos).None? {
      ScanFirst(at, n, pos + 1);
    }
  }

  /** No match starts after the last reported one. */
  lemma {:induction false} ScanLast(at: nat -> Option<Match>, n: nat, pos: nat)
    requires pos <= n && Forward(at, n)
    ensures var ms := Scan(at, n, pos);
      ms != [] ==> NoMatchIn(at, ms[|ms| - 1].end, n + 1)
    decreases n - pos
  {
    if pos < n {
      if at(pos).Some? {
        var e := at(pos).value.end;
        if Scan(at, n, e) == [] {
          ScanFirst(at, n, e);
        } else {
          ScanLast(at, n, e);
        }
      } else {
        ScanLast(at, n, pos + 1);
      }
    }
  }

  /** No match starts between two consecutive matches of `ms`. */
  ghost predicate NoGaps(at: nat -> Option<Match>, ms: seq<Match>) {
    forall k :: 0 < k < |ms| ==> NoMatchIn(at, ms[k - 1].end, ms[k].start)
  }

  /** No match starts between two consecutive reported ones. */
  lemma {:induction false} ScanGaps(at: nat -> Option<Match>, n: nat, pos: nat)
    requires pos <= n && Forward(at, n)
    ensures NoGaps(at, Scan(at, n, pos))
    decreases n - pos
  {
    if pos < n {
      if at(pos).Some? {
        var e := at(pos).value.end;
        var rest := Scan(at, n, e);
        assert Scan(at, n, pos) == [at(pos).value] + rest;
        ScanGaps(at, n, e);
        ScanFirst(at, n, e);
        NoGapsCons(at, at(pos).value, rest);
      } else {
        assert Scan(at, n, pos) == Scan(at, n, pos + 1);
        ScanGaps(at, n, pos + 1);
      }
    }
  }

  lemma NoGapsCons(at: nat -> Option<Match>, m: Match, rest: seq<Match>)
    requires NoGaps(at, rest)
    requires rest != [] ==> NoMatchIn(at, m.end, rest[0].start)
    ensures NoGaps(at, [m] + rest)
  {
    var ms := [m] + rest;
    forall k | 0 < k < |ms|
      ensures NoMatchIn(at, ms[k - 1].end, ms[k].start)
    {
      if k > 1 {
        assert ms[k - 1] == rest[k - 2] && ms[k] == rest[k - 1];
      }
    }
  }

  /** `re.finditer(p, s)`. */
  function FindAll(p: Pattern, s: string): (ms: seq<Match>)
    ensures Ordered(|s|, ms)
    ensures forall k :: 0 <= k < |ms| ==> MatchAt(p, s, ms[k].start) == Some(ms[k])
  {
    Scan(At(p, s), |s|, 0)
  }

  /** `re.search(p, s)`: the leftmost match. */
  function Search(p: Pattern, s: string): (r: Option<Match>)
    ensures r.Some? ==> r.value.start <= |s| && MatchAt(p, s, r.value.start) == r
    ensures r.Some? ==> forall i :: 0 <= i < r.value.start ==> MatchAt(p, s, i).None?
    ensures r.None? ==> forall i :: 0 <= i <= |s| ==> MatchAt(p, s, i).None?
  {
    ScanFirst(At(p, s), |s|, 0);
    assert forall i: nat :: i <= |s| ==> At(p, s)(i) == MatchAt(p, s, i);
    var ms := FindAll(p, s);
    if ms == [] then None else Some(ms[0])
  }

  /** The identifiers declared as `SR::Helper::DisplayAccess <name>` in `s`: the rewriter's
      `display_access_vars` set. */
  function DeclaredNames(s: string): (names: set<string>)
    ensures forall v :: v in names ==> IsWord(v)
  {
    var ms := FindAll(AccessDecl, s);
    forall v | v in FirstGroups(ms)
      ensures IsWord(v)
    {
      FirstGroupsMember(ms, v);
      var k :| 0 <= k < |ms| && Group(ms[k], 0) == v;
      assert AccessDeclAt(s, ms[k].start) == Some(ms[k]);
    }
    FirstGroups(ms)
  }

  /** `match.group(i + 1)` for a group that took part in the match ("" otherwise). */
  function Group(m: Match, i: nat): string {
    if i < |m.groups| && m.groups[i].Some? then m.groups[i].value else ""
  }

  /** The set of the first groups of the matches. */
  function FirstGroups(ms: seq<Match>): set<string>
    decreases |ms|
  {
    if ms == [] then {} else FirstGroups(ms[..|ms| - 1]) + {Group(ms[|ms| - 1], 0)}
  }

  lemma {:induction false} FirstGroupsMember(ms: seq<Match>, v: string)
    ensures v in FirstGroups(ms) <==> exists k :: 0 <= k < |ms| && Group(ms[k], 0) == v
    decreases |ms|
  {
    if ms != [] {
      var n := |ms| - 1;
      FirstGroupsMember(ms[..n], v);
      if v in FirstGroups(ms[..n]) {
        var k :| 0 <= k < n && Group(ms[..n][k], 0) == v;
        assert ms[k] == ms[..n][k];
      }
      if exists k :: 0 <= k < |ms| && Group(ms[k], 0) == v {
        var k :| 0 <= k < |ms| && Group(ms[k], 0) == v;
        if k < n {
          assert ms[..n][k] == ms[k];
        }
      }
    }
  }

  /** A match of `ArrowOf(names)` at i is exactly an occurrence of `v->` for a word `v` in
      `names`: the regex alternation picks the one alternative that can match there. */
  lemma ArrowMatchMeaning(names: set<string>, s: string, i: nat)
    requires i <= |s|
    requires forall v :: v in names ==> IsWord(v)
    ensures MatchAt(ArrowOf(names), s, i).Some? <==> exists v :: v in names && StartsAt(s, i, v + Arrow)
    ensures forall v :: v in names && StartsAt(s, i, v + Arrow) ==>
      MatchAt(ArrowOf(names), s, i) == Some(Match(i, i + |v| + 2, [Some(v)], Some(1)))
  {
    forall v | v in names && StartsAt(s, i, v + Arrow)
      ensures MatchAt(ArrowOf(names), s, i) == Some(Match(i, i + |v| + 2, [Some(v)], Some(1)))
    {
      ArrowAtOccurrence(names, s, i, v);
    }
    if ArrowAt(names, s, i).Some? {
      ArrowAtFound(names, s, i);
    }
  }

  /** An occurrence of `v->` with `v` a declared word is matched, capturing `v`. */
  lemma ArrowAtOccurrence(names: set<string>, s: string, i: nat, v: string)
    requires i <= |s| && v in names && IsWord(v) && StartsAt(s, i, v + Arrow)
    ensures ArrowAt(names, s, i) == Some(Match(i, i + |v| + 2, [Some(v)], Some(1)))
  {
    var w := v + Arrow;
    assert s[i..i + |w|] == w;
    forall m | i <= m < i + |v|
      ensures IsWordChar(s[m])
    {
      assert s[m] == w[m - i] == v[m - i];
    }
    assert s[i + |v|] == w[|v|] == '-';
    RunExact(s, i, i + |v|, IsWordChar);
    assert s[i..i + |v|] == s[i..i + |w|][..|v|] == w[..|v|] == v;
    assert s[i + |v|..i + |v| + 2] == s[i..i + |w|][|v|..] == w[|v|..] == Arrow;
  }

  /** A match is an occurrence of `v->` for the captured `v`. */
  lemma ArrowAtFound(names: set<string>, s: string, i: nat)
    requires i <= |s| && ArrowAt(names, s, i).Some?
    ensures var v := ArrowAt(names, s, i).value.groups[0].value;
      v in names && StartsAt(s, i, v + Arrow)
  {
    var k := Run(s, i, IsWordChar);
    var v := s[i..k];
    assert s[k..k + 2] == Arrow;
    assert s[i..k + 2] == v + Arrow;
  }
}
