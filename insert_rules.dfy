/**
  The two single-splice rules of the fallback rewriter: putting the lazy-binding define in
  front of the display.h include, and adding the helper include after it. Each is guarded by
  a presence check, so running it on its own output changes nothing.
*/
module InsertRules {

  import opened Wrappers
  import opened Text
  import opened Matching
  import opened Patterns
  import opened Edits

  /** The line `_add_lazy_binding` puts in front of the include. */
  const LazyDefineLine := DefineKeyword + " " + LazyFlag + LazyDefineComment
  const LazyDefineComment := LazyDefineNote + "\n"
  const LazyDefineNote := NoteHead + NoteTail
  const NoteHead := "  // Enable modern "
  const NoteTail := "DisplayManager with fallback"

  /** The file name whose presence anywhere in a text disables `_add_helper_include`. */
  const HelperFileName := "display_helper.h"

  /** `_add_lazy_binding`: if the text has no lazy-binding define, insert the define line right
      in front of the first display.h include and record it; otherwise, or without such an
      include, leave the text alone. */
  function AddLazyBinding(path: string, content: string): (r: RuleResult)
    ensures Search(LazyDefine, content).Some? ==> r == Unchanged(content)
    ensures Search(LazyDefine, content).None? && Search(DisplayInclude, content).None? ==>
      r == Unchanged(content)
    ensures Search(LazyDefine, content).None? && Search(DisplayInclude, content).Some? ==>
      var m := Search(DisplayInclude, content).value;
      m.start <= m.end <= |content| && r == InsertDefine(path, content, m)
  {
    if Search(LazyDefine, content).Some? then Unchanged(content)
    else
      match Search(DisplayInclude, content)
      case None => Unchanged(content)
      case Some(m) => InsertDefine(path, content, m)
  }

  /** The record of the define insertion in front of the include matched by `m`. */
  function LazyBindingRecord(path: string, content: string, m: Match): Transformation
    requires m.start <= m.end <= |content|
  {
    Transformation(path, LineNumber(content, m.start), content[m.start..m.end],
      LazyDefineLine + content[m.start..m.end], "add_lazy_binding", "Added SRDISPLAY_LAZYBINDING define")
  }

  /** `content[:start] + define + original + content[end:]`, with its record. */
  function InsertDefine(path: string, content: string, m: Match): (r: RuleResult)
    requires m.start <= m.end <= |content|
    ensures r.content == content[..m.start] + LazyDefineLine + content[m.start..]
    ensures r.transforms == [LazyBindingRecord(path, content, m)]
  {
    var original := content[m.start..m.end];
    assert content[m.start..] == original + content[m.end..];
    RuleResult(content[..m.start] + (LazyDefineLine + original) + content[m.end..],
      [LazyBindingRecord(path, content, m)])
  }

  /** The define line, inserted anywhere, is found by the presence check. */
  lemma LazyDefineFound(pre: string, post: string)
    ensures Search(LazyDefine, pre + LazyDefineLine + post).Some?
  {
    var s := pre + LazyDefineLine + post;
    var head := DefineKeyword + " " + LazyFlag;
    assert s == pre + head + (LazyDefineComment + post);
    assert s[|pre|..|pre| + |head|] == head;
    LazyDefineMatches(s, |pre|);
  }

  /** `#define SRDISPLAY_LAZYBINDING` with one blank matches the presence pattern. */
  lemma LazyDefineMatches(s: string, i: nat)
    requires StartsAt(s, i, DefineKeyword + " " + LazyFlag)
    ensures MatchAt(LazyDefine, s, i).Some?
  {
    var head := DefineKeyword + " " + LazyFlag;
    assert s[i..i + 7] == head[..7] == DefineKeyword;
    assert s[i + 7] == head[7] == ' ';
    assert s[i + 8] == head[8] == 'S';
    var j := Run(s, i + 7, IsSpace);
    assert j == i + 8;
    assert s[j..j + 21] == head[8..] == LazyFlag;
  }

  /** Lazy binding is idempotent: a second run finds the define and changes nothing. */
  lemma LazyBindingIdempotent(path: string, content: string)
    ensures var once := AddLazyBinding(path, content).content;
      AddLazyBinding(path, once) == Unchanged(once)
  {
    var once := AddLazyBinding(path, content).content;
    if once != content {
      var m := Search(DisplayInclude, content).value;
      LazyDefineFound(content[..m.start], content[m.start..]);
    }
  }

  /** The include the define was put in front of now lies one line further down, and
      removing the inserted line gives back the original text. */
  lemma LazyBindingShiftsInclude(path: string, content: string, m: Match)
    requires m.start <= m.end <= |content|
    ensures var r := InsertDefine(path, content, m).content;
      && InsertedBefore(content, m, LazyDefineLine, r)
      && LineNumber(r, m.start + |LazyDefineLine|) == LineNumber(content, m.start) + 1
  {
    InsertBeforeMatch(content, m, LazyDefineLine);
    CountNewlinesOfDefine();
    LineNumberAfterInsert(content, m.start, LazyDefineLine, m.start);
  }

  /** `r` is `s` with `t` inserted in front of the span of `m`: taking `t` out again gives
      `s`, and the span's text follows `t`. */
  ghost predicate InsertedBefore(s: string, m: Match, t: string, r: string)
    requires m.start <= m.end <= |s|
  {
    && |r| == |s| + |t|
    && r[..m.start] + r[m.start + |t|..] == s
    && StartsAt(r, m.start + |t|, s[m.start..m.end])
  }

  lemma InsertBeforeMatch(s: string, m: Match, t: string)
    requires m.start <= m.end <= |s|
    ensures InsertedBefore(s, m, t, s[..m.start] + t + s[m.start..])
  {
    var r := s[..m.start] + t + s[m.start..];
    SpliceParts(s[..m.start], t, s[m.start..], r);
    assert s == s[..m.start] + s[m.start..];
    assert r[m.start + |t|..m.start + |t| + (m.end - m.start)] == s[m.start..][..m.end - m.start];
  }

  lemma SpliceParts(a: string, b: string, c: string, r: string)
    requires r == a + b + c
    ensures r[..|a|] == a && r[|a| + |b|..] == c
  {
  }

  lemma CountNewlinesOfDefine()
    ensures CountNewlines(LazyDefineLine) == 1
  {
    CountNewlinesNone(DefineKeyword);
    CountNewlinesNone(" ");
    CountNewlinesNone(LazyFlag);
    CountNewlinesNone(NoteHead);
    CountNewlinesNone(NoteTail);
    CountNewlinesAppend(NoteHead, NoteTail);
    CountNewlinesAppend(DefineKeyword, " ");
    CountNewlinesAppend(DefineKeyword + " ", LazyFlag);
    CountNewlinesAppend(LazyDefineNote, "\n");
    assert "\n"[..0] == [];
    CountNewlinesAppend(DefineKeyword + " " + LazyFlag, LazyDefineComment);
  }

  /** The include line `_add_helper_include` writes: `#include "display_helper.h"` in the
      fallback tool, `#include "<dir>/display_helper.h"` with the package's `helper_path`. */
  function HelperInclude(dir: Option<string>): string {
    match dir
    case None => "#include \"" + HelperFileName + "\"\n"
    case Some(d) => "#include \"" + d + "/" + HelperFileName + "\"\n"
  }

  /** The include line without its terminator: what `helper_include.strip()` gives. */
  lemma HelperIncludeStripped(dir: Option<string>)
    ensures var inc := HelperInclude(dir);
      |inc| > 0 && Strip(inc) == inc[..|inc| - 1]
  {
    var inc := HelperInclude(dir);
    var x := inc[..|inc| - 1];
    assert inc == x + "\n";
    assert x[0] == '#' && x[|x| - 1] == '"';
    StripLine(x);
  }

  /** Where `display_helper.h` occurs in the include line. */
  function HelperNameAt(dir: Option<string>): nat {
    match dir
    case None => 10
    case Some(d) => 11 + |d|
  }

  lemma HelperIncludeNamesHelper(dir: Option<string>)
    ensures StartsAt(HelperInclude(dir), HelperNameAt(dir), HelperFileName)
  {
  }

  /** `_add_helper_include`: unless `display_helper.h` already occurs, insert the include line
      right after the first display.h include together with the whitespace that follows it up
      to its last newline, recording the include's line plus one; without such an include
      (or without a newline after it) leave the text alone. */
  function AddHelperInclude(path: string, content: string, dir: Option<string>): (r: RuleResult)
    ensures Contains(content, HelperFileName) ==> r == Unchanged(content)
    ensures !Contains(content, HelperFileName) && Search(DisplayIncludeLine, content).None? ==>
      r == Unchanged(content)
    ensures !Contains(content, HelperFileName) && Search(DisplayIncludeLine, content).Some? ==>
      var m := Search(DisplayIncludeLine, content).value;
      m.start < m.end <= |content| && content[m.end - 1] == '\n' && r == InsertHelper(path, content, m, dir)
  {
    if Contains(content, HelperFileName) then Unchanged(content)
    else
      match Search(DisplayIncludeLine, content)
      case None => Unchanged(content)
      case Some(m) =>
        IncludeLineFound(content);
        InsertHelper(path, content, m, dir)
  }

  /** The include-line match ends just after a newline. */
  lemma IncludeLineFound(s: string)
    requires Search(DisplayIncludeLine, s).Some?
    ensures var m := Search(DisplayIncludeLine, s).value;
      m.start < m.end <= |s| && s[m.end - 1] == '\n'
  {
  }

  /** `content[:end] + helper_include + content[end:]`, with its record. */
  function InsertHelper(path: string, content: string, m: Match, dir: Option<string>): RuleResult
    requires m.start <= m.end <= |content|
  {
    RuleResult(content[..m.end] + HelperInclude(dir) + content[m.end..], [HelperIncludeRecord(path, content, m, dir)])
  }

  /** The record of the helper include: the include's line plus one, no original text, and
      the include line without its newline. */
  function HelperIncludeRecord(path: string, content: string, m: Match, dir: Option<string>): (t: Transformation)
    requires m.start <= |content|
    ensures var inc := HelperInclude(dir);
      t == Transformation(path, LineNumber(content, m.start) + 1, "", inc[..|inc| - 1],
             "add_helper_include", "Added helper include: " + inc[..|inc| - 1])
  {
    var inc := HelperInclude(dir);
    HelperIncludeStripped(dir);
    Transformation(path, LineNumber(content, m.start) + 1, "", Strip(inc),
      "add_helper_include", "Added helper include: " + Strip(inc))
  }

  /** The helper include is idempotent: a second run finds `display_helper.h` and changes nothing. */
  lemma HelperIncludeIdempotent(path: string, content: string, dir: Option<string>)
    ensures var once := AddHelperInclude(path, content, dir).content;
      AddHelperInclude(path, once, dir) == Unchanged(once)
  {
    var once := AddHelperInclude(path, content, dir).content;
    if once != content {
      var m := Search(DisplayIncludeLine, content).value;
      HelperFoundAfterInsert(content[..m.end], content[m.end..], dir);
    }
  }

  lemma HelperFoundAfterInsert(pre: string, post: string, dir: Option<string>)
    ensures Contains(pre + HelperInclude(dir) + post, HelperFileName)
  {
    var s := pre + HelperInclude(dir) + post;
    var inc := HelperInclude(dir);
    var at := |pre| + HelperNameAt(dir);
    HelperIncludeNamesHelper(dir);
    assert s[|pre|..|pre| + |inc|] == inc;
    assert s[at..at + |HelperFileName|] == inc[HelperNameAt(dir)..HelperNameAt(dir) + |HelperFileName|];
    ContainsAt(s, HelperFileName, at);
  }

  /** The inserted include starts on the line after the matched include plus the blank lines
      the match swallowed; the recorded line (include line + 1) is that line exactly when the
      include is followed by a single newline. */
  lemma HelperIncludeLine(path: string, content: string, dir: Option<string>, m: Match)
    requires m.start < m.end <= |content| && content[m.end - 1] == '\n'
    ensures var r := InsertHelper(path, content, m, dir);
      && CountNewlines(content[m.start..m.end]) >= 1
      && LineNumber(r.content, m.end) == LineNumber(content, m.start) + CountNewlines(content[m.start..m.end])
      && (r.transforms[0].lineNumber == LineNumber(r.content, m.end) <==> CountNewlines(content[m.start..m.end]) == 1)
  {
    InsertedLineNumber(content, m.start, m.end, HelperInclude(dir));
  }

  /** Text inserted at `end` starts on the line of `start` plus the newlines in between. */
  lemma InsertedLineNumber(content: string, start: nat, end: nat, inc: string)
    requires start < end <= |content| && content[end - 1] == '\n'
    ensures CountNewlines(content[start..end]) >= 1
    ensures LineNumber(content[..end] + inc + content[end..], end)
      == LineNumber(content, start) + CountNewlines(content[start..end])
  {
    var body := content[start..end - 1];
    assert content[start..end] == body + "\n";
    CountNewlinesAppend(body, "\n");
    assert "\n"[..0] == [];
    assert Take(content[..end] + inc + content[end..], end) == content[..end];
    LineNumberAdvance(content, start, end);
  }
}
