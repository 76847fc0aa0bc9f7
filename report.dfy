/**
  `generate_diff_report`, shared by both rewriters: the recorded edits grouped by file (a
  dict filled in the order the files first appear), a header with the number of files and of
  edits, then one section per file in ascending path order, each listing that file's edits
  by ascending line number (edits on the same line keep their order). The lines are joined
  with '\n'.
*/
module Report {

  import opened Text
  import opened Sorting
  import opened Edits

  /** The distinct file paths of `ts` in order of first occurrence: the keys of `by_file`. */
  function Paths(ts: seq<Transformation>): (ps: seq<string>)
    ensures forall p :: p in ps <==> exists t :: t in ts && t.filePath == p
    ensures forall i, j :: 0 <= i < j < |ps| ==> ps[i] != ps[j]
    decreases |ts|
  {
    if ts == [] then []
    else
      var n := |ts| - 1;
      var ps := Paths(ts[..n]);
      assert forall t :: t in ts <==> t in ts[..n] || t == ts[n] by {
        assert ts == ts[..n] + [ts[n]];
      }
      if ts[n].filePath in ps then ps else ps + [ts[n].filePath]
  }

  /** The edits of file `p`, in recording order: `by_file[p]`. */
  function OfFile(ts: seq<Transformation>, p: string): (r: seq<Transformation>)
    ensures |r| <= |ts|
    ensures forall t :: t in r ==> t in ts && t.filePath == p
    decreases |ts|
  {
    if ts == [] then []
    else
      var n := |ts| - 1;
      assert ts == ts[..n] + [ts[n]];
      OfFile(ts[..n], p) + (if ts[n].filePath == p then [ts[n]] else [])
  }

  lemma OfFileStep(ts: seq<Transformation>, k: nat, p: string)
    requires k < |ts|
    ensures OfFile(ts[..k + 1], p) == OfFile(ts[..k], p) + (if ts[k].filePath == p then [ts[k]] else [])
  {
    assert ts[..k + 1][..k] == ts[..k];
  }

  lemma PathsStep(ts: seq<Transformation>, k: nat)
    requires k < |ts|
    ensures Paths(ts[..k + 1]) == if ts[k].filePath in Paths(ts[..k]) then Paths(ts[..k]) else Paths(ts[..k]) + [ts[k].filePath]
  {
    assert ts[..k + 1][..k] == ts[..k];
  }

  /** The loop that fills `by_file`: a dict, i.e. a map and the order of its keys. */
  method GroupByFile(ts: seq<Transformation>) returns (files: seq<string>, byFile: map<string, seq<Transformation>>)
    ensures files == Paths(ts)
    ensures forall p :: p in byFile <==> p in files
    ensures forall p :: p in byFile ==> byFile[p] == OfFile(ts, p)
  {
    files := [];
    byFile := map[];
    for k := 0 to |ts|
      invariant files == Paths(ts[..k])
      invariant forall p :: p in byFile <==> p in files
      invariant forall p :: p in byFile ==> byFile[p] == OfFile(ts[..k], p)
    {
      var t := ts[k];
      PathsStep(ts, k);
      forall p
        ensures OfFile(ts[..k + 1], p) == OfFile(ts[..k], p) + (if t.filePath == p then [t] else [])
      {
        OfFileStep(ts, k, p);
      }
      if t.filePath !in byFile {
        OfFileNone(ts[..k], t.filePath);
        byFile := byFile[t.filePath := []];
        files := files + [t.filePath];
      }
      byFile := byFile[t.filePath := byFile[t.filePath] + [t]];
    }
    assert ts[..|ts|] == ts;
  }

  /** A file none of whose edits is recorded has no group. */
  lemma {:induction false} OfFileNone(ts: seq<Transformation>, p: string)
    requires p !in Paths(ts)
    ensures OfFile(ts, p) == []
    decreases |ts|
  {
    if ts != [] {
      var n := |ts| - 1;
      assert ts[n] in ts;
      assert forall t :: t in ts[..n] ==> t in ts;
      OfFileNone(ts[..n], p);
    }
  }

  // ---------------------------------------------------------------------------------------
  // Every edit is in exactly one group

  /** The number of edits of the files `ps`. */
  function GroupSizes(ts: seq<Transformation>, ps: seq<string>): nat
    decreases |ps|
  {
    if ps == [] then 0 else GroupSizes(ts, ps[..|ps| - 1]) + |OfFile(ts, ps[|ps| - 1])|
  }

  /** The sections together list every edit once: the changes counted per file add up to the
      total. */
  lemma {:induction false} GroupsCover(ts: seq<Transformation>)
    ensures GroupSizes(ts, Paths(ts)) == |ts|
    decreases |ts|
  {
    if ts != [] {
      var n := |ts| - 1;
      var t := ts[n];
      var ps := Paths(ts[..n]);
      GroupsCover(ts[..n]);
      assert ts[..n + 1] == ts;
      PathsStep(ts, n);
      OfFileLast(ts, n);
      if t.filePath in ps {
        GroupSizesAdd(ts, n, ps);
      } else {
        GroupSizesNew(ts, n, ps);
      }
    }
  }

  lemma OfFileLast(ts: seq<Transformation>, n: nat)
    requires n + 1 == |ts|
    ensures forall p :: OfFile(ts, p) == OfFile(ts[..n], p) + (if ts[n].filePath == p then [ts[n]] else [])
  {
    forall p
      ensures OfFile(ts, p) == OfFile(ts[..n], p) + (if ts[n].filePath == p then [ts[n]] else [])
    {
      OfFileStep(ts, n, p);
      assert ts[..n + 1] == ts;
    }
  }

  /** An edit of a file not seen before opens a group of one. */
  lemma GroupSizesNew(ts: seq<Transformation>, n: nat, ps: seq<string>)
    requires n + 1 == |ts| && ps == Paths(ts[..n]) && ts[n].filePath !in ps
    requires forall p :: OfFile(ts, p) == OfFile(ts[..n], p) + (if ts[n].filePath == p then [ts[n]] else [])
    ensures GroupSizes(ts, ps + [ts[n].filePath]) == GroupSizes(ts[..n], ps) + 1
  {
    GroupSizesOther(ts, n, ps);
    OfFileNone(ts[..n], ts[n].filePath);
    assert (ps + [ts[n].filePath])[..|ps|] == ps;
  }

  /** Adding an edit of one of the distinct files `ps` adds one to their total. */
  lemma {:induction false} GroupSizesAdd(ts: seq<Transformation>, n: nat, ps: seq<string>)
    requires n < |ts| && n + 1 == |ts| && ts[n].filePath in ps
    requires forall i, j :: 0 <= i < j < |ps| ==> ps[i] != ps[j]
    requires forall p :: OfFile(ts, p) == OfFile(ts[..n], p) + (if ts[n].filePath == p then [ts[n]] else [])
    ensures GroupSizes(ts, ps) == GroupSizes(ts[..n], ps) + 1
    decreases |ps|
  {
    var m := |ps| - 1;
    if ps[m] == ts[n].filePath {
      forall i, j | 0 <= i < j < m
        ensures ps[..m][i] != ps[..m][j]
      {
      }
      assert ts[n].filePath !in ps[..m];
      GroupSizesOther(ts, n, ps[..m]);
    } else {
      assert ts[n].filePath in ps[..m] by {
        var i :| 0 <= i < |ps| && ps[i] == ts[n].filePath;
        assert ps[..m][i] == ps[i];
      }
      forall i, j | 0 <= i < j < m
        ensures ps[..m][i] != ps[..m][j]
      {
      }
      GroupSizesAdd(ts, n, ps[..m]);
    }
  }

  /** Adding an edit of a file outside `ps` leaves their total alone. */
  lemma {:induction false} GroupSizesOther(ts: seq<Transformation>, n: nat, ps: seq<string>)
    requires n < |ts| && n + 1 == |ts| && ts[n].filePath !in ps
    requires forall p :: OfFile(ts, p) == OfFile(ts[..n], p) + (if ts[n].filePath == p then [ts[n]] else [])
    ensures GroupSizes(ts, ps) == GroupSizes(ts[..n], ps)
    decreases |ps|
  {
    if ps != [] {
      var m := |ps| - 1;
      assert ps[m] in ps;
      assert forall q :: q in ps[..m] ==> q in ps;
      GroupSizesOther(ts, n, ps[..m]);
    }
  }

  // ---------------------------------------------------------------------------------------
  // The report text

  const Title := "LeiaSR Display API Migration Transformations"

  function LineOf(t: Transformation): int {
    t.lineNumber
  }

  /** The four lines of one edit. */
  function EntryLines(t: Transformation): seq<string> {
    ["  Line " + NatToString(t.lineNumber) + ": " + t.description,
     "    - " + t.originalText,
     "    + " + t.newText,
     ""]
  }

  /** The lines of edits `es`, in the given order. */
  function EntriesLines(es: seq<Transformation>): (r: seq<string>)
    ensures |r| == 4 * |es|
    decreases |es|
  {
    if es == [] then [] else EntriesLines(es[..|es| - 1]) + EntryLines(es[|es| - 1])
  }

  /** The header of one file's section. */
  function SectionHead(p: string, group: seq<Transformation>): seq<string> {
    [Repeat('-', 80), "File: " + p, "  Changes: " + NatToString(|group|), ""]
  }

  /** One file's section: its header, then its edits by ascending line number. */
  function Section(p: string, group: seq<Transformation>): seq<string> {
    SectionHead(p, group) + EntriesLines(SortBy(group, LineOf))
  }

  /** The sections of the files `ps`, in the given order. */
  function Sections(ts: seq<Transformation>, ps: seq<string>): seq<string>
    decreases |ps|
  {
    if ps == [] then [] else Sections(ts, ps[..|ps| - 1]) + Section(ps[|ps| - 1], OfFile(ts, ps[|ps| - 1]))
  }

  /** The report's header: title, number of files, number of edits. */
  function Header(fileCount: nat, total: nat): seq<string> {
    [Repeat('=', 80), Title, Repeat('=', 80), "",
     "Files modified: " + NatToString(fileCount),
     "Total transformations: " + NatToString(total),
     ""]
  }

  /** The report's lines, before they are joined. */
  function ReportLines(ts: seq<Transformation>): seq<string> {
    Header(|Paths(ts)|, |ts|) + Sections(ts, SortedDistinct(Paths(ts)))
  }

  /** `generate_diff_report` on the recorded edits `ts`. */
  method GenerateDiffReport(ts: seq<Transformation>) returns (report: string)
    ensures report == Join("\n", ReportLines(ts))
  {
    var files, byFile := GroupByFile(ts);
    var sorted := SortedDistinct(files);
    // The sections, appended after the header once they are complete.
    var body := [];
    for k := 0 to |sorted|
      invariant body == Sections(ts, sorted[..k])
    {
      var p := sorted[k];
      assert p in files;
      assert byFile[p] == OfFile(ts, p);
      SectionsStep(ts, sorted, k);
      body := AppendSection(body, p, byFile[p]);
    }
    assert sorted[..|sorted|] == sorted;
    report := Join("\n", Header(|files|, |ts|) + body);
  }

  lemma SectionsStep(ts: seq<Transformation>, ps: seq<string>, k: nat)
    requires k < |ps|
    ensures Sections(ts, ps[..k + 1]) == Sections(ts, ps[..k]) + Section(ps[k], OfFile(ts, ps[k]))
  {
    assert ps[..k + 1][..k] == ps[..k];
  }

  /** The body of the loop over files: the section header, then the sorted edits. */
  method AppendSection(lines: seq<string>, p: string, group: seq<Transformation>) returns (lines': seq<string>)
    ensures lines' == lines + Section(p, group)
  {
    var head := SectionHead(p, group);
    var sorted := SortBy(group, LineOf);
    lines' := lines + head;
    lines' := AppendEntries(lines', sorted);
    ConcatAssoc(lines, head, EntriesLines(sorted));
  }

  lemma ConcatAssoc(a: seq<string>, b: seq<string>, c: seq<string>)
    ensures (a + b) + c == a + (b + c)
  {
  }

  /** The inner loop: four lines per edit. */
  method AppendEntries(lines: seq<string>, es: seq<Transformation>) returns (lines': seq<string>)
    ensures lines' == lines + EntriesLines(es)
  {
    lines' := lines;
    for k := 0 to |es|
      invariant lines' == lines + EntriesLines(es[..k])
    {
      var t := es[k];
      assert es[..k + 1][..k] == es[..k];
      lines' := lines' + ["  Line " + NatToString(t.lineNumber) + ": " + t.description];
      lines' := lines' + ["    - " + t.originalText];
      lines' := lines' + ["    + " + t.newText];
      lines' := lines' + [""];
    }
    assert es[..|es|] == es;
  }

  // ---------------------------------------------------------------------------------------
  // What the report says

  /** The header counts the distinct files and all edits, and the sections follow it. */
  lemma ReportHeader(ts: seq<Transformation>)
    ensures var lines := ReportLines(ts);
      && |lines| >= 7
      && lines[4] == "Files modified: " + NatToString(|set t | t in ts :: t.filePath|)
      && lines[5] == "Total transformations: " + NatToString(|ts|)
  {
    PathsCount(ts);
  }

  /** The number of keys of `by_file` is the number of distinct paths. */
  lemma PathsCount(ts: seq<Transformation>)
    ensures |Paths(ts)| == |set t | t in ts :: t.filePath|
  {
    var ps := Paths(ts);
    assert (set t | t in ts :: t.filePath) == set p | p in ps;
    DistinctCard(ps);
  }

  /** A duplicate-free sequence has as many elements as its set. */
  lemma {:induction false} DistinctCard(ps: seq<string>)
    requires forall i, j :: 0 <= i < j < |ps| ==> ps[i] != ps[j]
    ensures |set p | p in ps| == |ps|
    decreases |ps|
  {
    if ps != [] {
      var n := |ps| - 1;
      DistinctCard(ps[..n]);
      assert (set p | p in ps) == (set p | p in ps[..n]) + {ps[n]} by {
        assert ps == ps[..n] + [ps[n]];
      }
      assert ps[n] !in ps[..n];
    }
  }

  /** The sections are those of the distinct files in ascending order of path, and each
      lists its file's edits sorted by line, as a permutation that keeps the recording order
      of edits on the same line. */
  lemma SectionsOrdered(ts: seq<Transformation>, p: string, line: int)
    ensures var ps := SortedDistinct(Paths(ts));
      && StrictlySorted(ps)
      && (forall q :: q in ps <==> exists t :: t in ts && t.filePath == q)
    ensures var es := SortBy(OfFile(ts, p), LineOf);
      && SortedBy(es, LineOf)
      && multiset(es) == multiset(OfFile(ts, p))
      && WithKey(es, LineOf, line) == WithKey(OfFile(ts, p), LineOf, line)
  {
    SortByStable(OfFile(ts, p), LineOf, line);
  }
}
