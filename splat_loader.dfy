/**
  The PLY header reader of the splat viewer (`SplatLoader`). `load` clears the loader's
  state, reads the header, then the binary vertex records. The header must start with a
  `ply` line and a `binary_little_endian` format line; the lines after them are read one by
  one until `end_header`, keeping whether the current element is `vertex`, taking the vertex
  count from `element vertex N`, and appending each `property TYPE NAME` of the vertex
  element with its byte offset (the running sum of the sizes before it). The file is given as
  the lines `fgets` returns (each at most 255 characters); the vertex records are decoded
  outside this model.
*/
module SplatLoading {

  import opened Wrappers
  import opened Text

  // ---------------------------------------------------------------------------------------
  // Types of SplatLoader.h

  /** `PLYProperty::Type`. */
  datatype PropType = Float | Double | UChar | Int | UInt

  /** `sizeof` of the C type each property type is read as. */
  function SizeOf(t: PropType): (n: nat)
    ensures 1 <= n <= 8
  {
    match t
    case Float => 4
    case Double => 8
    case UChar => 1
    case Int => 4
    case UInt => 4
  }

  /** `PLYProperty`: name, type, offset within one vertex record, size in bytes. */
  datatype PLYProperty = PLYProperty(name: string, propType: PropType, offset: nat, size: nat)

  /** `SplatVertex`, its `float`s written as reals. */
  datatype SplatVertex = SplatVertex(
    position: seq<real>,
    scale: seq<real>,
    rotation: seq<real>,
    opacity: real,
    shDc: seq<real>,
    shRest: seq<real>,
    color: seq<real>)

  // ---------------------------------------------------------------------------------------
  // Reading one header line

  predicate StartsWith(s: string, prefix: string) {
    |prefix| <= |s| && s[..|prefix|] == prefix
  }

  /** `line[strcspn(line, "\r\n")] = 0`: the line up to its first CR or LF. */
  function Chomp(line: string): (r: string)
    ensures |r| <= |line| && r == line[..|r|]
    ensures forall k :: 0 <= k < |r| ==> r[k] != '\r' && r[k] != '\n'
  {
    line[..Run(line, 0, c => c != '\r' && c != '\n')]
  }

  /** C's `isspace` in the "C" locale. */
  predicate IsCSpace(c: char) {
    c == ' ' || c == '\t' || c == '\n' || c == '\U{0B}' || c == '\U{0C}' || c == '\r'
  }

  predicate IsDigit(c: char) {
    '0' <= c <= '9'
  }

  /** Which branch of the header loop a line takes, tested in the loop's order. */
  datatype LineKind = EndLine | VertexLine | ElementLine | PropertyLine | OtherLine

  function KindOf(line: string): LineKind {
    var l := Chomp(line);
    if StartsWith(l, "end_header") then EndLine
    else if StartsWith(l, "element vertex") then VertexLine
    else if StartsWith(l, "element") then ElementLine
    else if StartsWith(l, "property") then PropertyLine
    else OtherLine
  }

  /** `sscanf_s(line, "element vertex %zu", &count)` on a line starting with
      "element vertex": the number after optional blanks, or None when no digit follows
      (the count is then left as it was). */
  function CountField(l: string): (r: Option<nat>)
    requires StartsWith(l, "element vertex")
    ensures r.None? <==> Run(l, 14, IsCSpace) == |l| || !IsDigit(l[Run(l, 14, IsCSpace)])
    ensures r.Some? ==> exists i, j :: 14 <= i < j <= |l| && Digits(l, i, j) && r.value == DecimalValue(l[i..j])
  {
    var i := Run(l, 14, IsCSpace);
    var j := Run(l, i, IsDigit);
    if i < j then
      assert Digits(l, i, j);
      Some(DecimalValue(l[i..j]))
    else None
  }

  /** Positions [i, j) of `l` hold decimal digits. */
  ghost predicate Digits(l: string, i: nat, j: nat)
    requires i <= j <= |l|
  {
    forall k :: 0 <= k < j - i ==> '0' <= l[i..j][k] <= '9'
  }

  /** The count written by `element vertex N` is read back as N. */
  lemma CountFieldReadsBack(n: nat)
    ensures StartsWith("element vertex " + NatToString(n), "element vertex")
    ensures CountField("element vertex " + NatToString(n)) == Some(n)
  {
    var d := NatToString(n);
    var l := "element vertex " + d;
    assert l[..14] == "element vertex";
    assert l[14] == ' ' && l[15] == d[0];
    assert Run(l, 15, IsCSpace) == 15;
    assert Run(l, 14, IsCSpace) == 15;
    RunToEnd(l, 15, IsDigit);
    assert l[15..|l|] == d;
    DecimalRoundTrip(n);
  }

  /** `sscanf_s(line, "property %s %s", type, 32, name, 64) == 2` on a line starting
      with "property": the two blank-separated words, each fitting its buffer. */
  function PropertyFields(l: string): (r: Option<(string, string)>)
    requires StartsWith(l, "property")
    ensures r.Some? ==> 0 < |r.value.0| <= 31 && 0 < |r.value.1| <= 63
  {
    var i := Run(l, 8, IsCSpace);
    var j := Run(l, i, c => !IsCSpace(c));
    var i2 := Run(l, j, IsCSpace);
    var j2 := Run(l, i2, c => !IsCSpace(c));
    if i < j && j - i <= 31 && i2 < j2 && j2 - i2 <= 63 then Some((l[i..j], l[i2..j2])) else None
  }

  /** The five type names the loader knows. */
  function TypeNamed(s: string): (r: Option<PropType>)
    ensures r.Some? <==> s == "float" || s == "double" || s == "uchar" || s == "int" || s == "uint"
  {
    if s == "float" then Some(Float)
    else if s == "double" then Some(Double)
    else if s == "uchar" then Some(UChar)
    else if s == "int" then Some(Int)
    else if s == "uint" then Some(UInt)
    else None
  }

  // ---------------------------------------------------------------------------------------
  // The header loop

  /** `inVertexElement` and the fields the loop writes. */
  datatype HeaderState = HeaderState(inVertex: bool, size: nat, props: seq<PLYProperty>, count: nat)

  /** What one line does: go on with a new state, stop at `end_header`, or fail. */
  datatype LineStep = Next(st: HeaderState) | Stop | Fail(message: string)

  /** `e` is the message for some unrecognised property type. */
  ghost predicate IsUnknownType(e: string) {
    exists t :: e == UnknownType(t)
  }

  function UnknownType(t: string): string {
    "Unknown property type: " + t
  }

  function StepLine(st: HeaderState, line: string): LineStep {
    var l := Chomp(line);
    match KindOf(line)
    case EndLine => Stop
    case VertexLine =>
      var c := CountField(l);
      Next(st.(inVertex := true, count := if c.Some? then c.value else st.count))
    case ElementLine => Next(st.(inVertex := false))
    case PropertyLine =>
      if !st.inVertex then Next(st)
      else
        var f := PropertyFields(l);
        if f.None? then Next(st)
        else
          var t := TypeNamed(f.value.0);
          if t.None? then Fail(UnknownType(f.value.0))
          else
            var size := SizeOf(t.value);
            Next(st.(size := st.size + size, props := st.props + [PLYProperty(f.value.1, t.value, st.size, size)]))
    case OtherLine => Next(st)
  }

  /** Which prefix of the chomped line each kind stands for, tested in the code's order. */
  lemma KindOfPrefixes(line: string)
    ensures KindOf(line) == EndLine <==> StartsWith(Chomp(line), "end_header")
    ensures KindOf(line) == VertexLine <==> !StartsWith(Chomp(line), "end_header") && StartsWith(Chomp(line), "element vertex")
    ensures KindOf(line) == ElementLine <==> StartsWith(Chomp(line), "element") && !StartsWith(Chomp(line), "element vertex")
    ensures KindOf(line) == PropertyLine ==> StartsWith(Chomp(line), "property")
    ensures KindOf(line) == OtherLine <==>
      !StartsWith(Chomp(line), "end_header") && !StartsWith(Chomp(line), "element") && !StartsWith(Chomp(line), "property")
  {
    var l := Chomp(line);
    assert StartsWith(l, "end_header") ==> l[..10][1] == 'n';
    assert StartsWith(l, "element") ==> l[..7][1] == 'l';
  }

  /** The state at the end of a parse, and the error message if it failed. */
  datatype Parsed = Parsed(st: HeaderState, error: Option<string>)

  /** The loop from line `i` on: it ends at `end_header` or at the end of the file. */
  function Body(st: HeaderState, lines: seq<string>, i: nat): (r: Parsed)
    requires i <= |lines|
    ensures r.error.Some? ==> IsUnknownType(r.error.value)
    decreases |lines| - i
  {
    if i == |lines| then Parsed(st, None)
    else
      match StepLine(st, lines[i])
      case Stop => Parsed(st, None)
      case Fail(message) => Parsed(st, Some(message))
      case Next(st') => Body(st', lines, i + 1)
  }

  const MissingMagic := "Invalid PLY file: missing 'ply' magic"
  const MissingFormat := "Invalid PLY file: missing format line"
  const WrongFormat := "Only binary_little_endian PLY format is supported"
  const NoVertices := "No vertices found in PLY file"

  /** `parseHeader` from the fields' values `st0`: the two first lines are checked, then the
      vertex size restarts at zero for the loop, and a zero vertex count fails at the end. */
  function ParseHeaderSpec(lines: seq<string>, st0: HeaderState): (r: Parsed)
  {
    if lines == [] || !StartsWith(lines[0], "ply") then Parsed(st0, Some(MissingMagic))
    else if |lines| < 2 then Parsed(st0, Some(MissingFormat))
    else if !Contains(lines[1], "binary_little_endian") then Parsed(st0, Some(WrongFormat))
    else
      var r := Body(st0.(inVertex := false, size := 0), lines, 2);
      if r.error.None? && r.st.count == 0 then Parsed(r.st, Some(NoVertices)) else r
  }

  // ---------------------------------------------------------------------------------------
  // What the header loop computes, stated independently of it

  /** The index of the first `end_header` line at or after `i`, or the number of lines. */
  function End(lines: seq<string>, i: nat): (e: nat)
    requires i <= |lines|
    ensures i <= e <= |lines|
    decreases |lines| - i
  {
    if i == |lines| || KindOf(lines[i]) == EndLine then i else End(lines, i + 1)
  }

  /** Whether line `i` lies inside the vertex element when reading starts at line `k`: the
      last `element` line before it, if any, is `element vertex`. */
  function InVertexAt(lines: seq<string>, k: nat, i: nat): bool
    requires k <= i <= |lines|
    decreases i - k
  {
    if i == k then false
    else
      match KindOf(lines[i - 1])
      case VertexLine => true
      case ElementLine => false
      case _ => InVertexAt(lines, k, i - 1)
  }

  /** Line `j` is a well-formed `property` line of the vertex element. */
  ghost predicate VertexProperty(lines: seq<string>, k: nat, j: nat)
    requires k <= j < |lines|
  {
    && KindOf(lines[j]) == PropertyLine
    && InVertexAt(lines, k, j)
    && PropertyFields(Chomp(lines[j])).Some?
  }

  /** Line `j` declares a vertex property of a type the loader does not know. */
  ghost predicate Unknown(lines: seq<string>, k: nat, j: nat)
    requires k <= j < |lines|
  {
    VertexProperty(lines, k, j) && TypeNamed(PropertyFields(Chomp(lines[j])).value.0).None?
  }

  /** The name and type of every known vertex property declared on lines [k, i). */
  ghost function Declared(lines: seq<string>, k: nat, i: nat): seq<(string, PropType)>
    requires k <= i <= |lines|
    decreases i - k
  {
    if i == k then []
    else
      var j := i - 1;
      if VertexProperty(lines, k, j) && !Unknown(lines, k, j) then
        var f := PropertyFields(Chomp(lines[j])).value;
        Declared(lines, k, j) + [(f.1, TypeNamed(f.0).value)]
      else Declared(lines, k, j)
  }

  /** The vertex count after lines [k, i): the last count read, else `c0`. */
  ghost function CountAfter(lines: seq<string>, k: nat, i: nat, c0: nat): nat
    requires k <= i <= |lines|
    decreases i - k
  {
    if i == k then c0
    else
      var c := CountAfter(lines, k, i - 1, c0);
      if KindOf(lines[i - 1]) == VertexLine then
        var f := CountField(Chomp(lines[i - 1]));
        if f.Some? then f.value else c
      else c
  }

  /** The name and type of each property. */
  function Described(ps: seq<PLYProperty>): (r: seq<(string, PropType)>)
    ensures |r| == |ps| && forall k :: 0 <= k < |ps| ==> r[k] == (ps[k].name, ps[k].propType)
  {
    seq(|ps|, k requires 0 <= k < |ps| => (ps[k].name, ps[k].propType))
  }

  /** The total size of `ps`. */
  function SizeSum(ps: seq<PLYProperty>): nat
    decreases |ps|
  {
    if ps == [] then 0 else SizeSum(ps[..|ps| - 1]) + ps[|ps| - 1].size
  }

  /** From index `from` on, each property sits right after the ones before it, each has the
      size of its type, and `size` is the size of one vertex record. */
  ghost predicate Packed(ps: seq<PLYProperty>, from: nat, size: nat)
    requires from <= |ps|
  {
    && (forall i :: from <= i < |ps| ==> ps[i].offset == SizeSum(ps[from..i]) && ps[i].size == SizeOf(ps[i].propType))
    && size == SizeSum(ps[from..])
  }

  lemma PackedAppend(ps: seq<PLYProperty>, from: nat, size: nat, p: PLYProperty)
    requires from <= |ps| && Packed(ps, from, size)
    requires p.offset == size && p.size == SizeOf(p.propType)
    ensures Packed(ps + [p], from, size + p.size)
  {
    var qs := ps + [p];
    assert qs[from..][..|qs[from..]| - 1] == ps[from..];
    forall i | from <= i < |qs|
      ensures qs[i].offset == SizeSum(qs[from..i]) && qs[i].size == SizeOf(qs[i].propType)
    {
      assert qs[from..i] == ps[from..i] || i == |ps|;
    }
  }

  /** The loop keeps the properties packed. */
  lemma {:induction false} BodyPacked(st: HeaderState, lines: seq<string>, i: nat, from: nat)
    requires i <= |lines| && from <= |st.props| && Packed(st.props, from, st.size)
    ensures var r := Body(st, lines, i); from <= |r.st.props| && Packed(r.st.props, from, r.st.size)
    decreases |lines| - i
  {
    if i < |lines| {
      var s := StepLine(st, lines[i]);
      if s.Next? {
        if s.st.props != st.props {
          var l := Chomp(lines[i]);
          var f := PropertyFields(l).value;
          var t := TypeNamed(f.0).value;
          PackedAppend(st.props, from, st.size, PLYProperty(f.1, t, st.size, SizeOf(t)));
        }
        BodyPacked(s.st, lines, i + 1, from);
      }
    }
  }

  /** What the loop state holds after the lines [k, i). */
  ghost predicate Tracks(st: HeaderState, lines: seq<string>, k: nat, i: nat, from: nat, c0: nat)
    requires k <= i <= |lines|
  {
    && from <= |st.props|
    && st.inVertex == InVertexAt(lines, k, i)
    && Described(st.props[from..]) == Declared(lines, k, i)
    && st.count == CountAfter(lines, k, i, c0)
  }

  lemma DescribedAppend(ps: seq<PLYProperty>, from: nat, p: PLYProperty)
    requires from <= |ps|
    ensures Described((ps + [p])[from..]) == Described(ps[from..]) + [(p.name, p.propType)]
  {
    assert (ps + [p])[from..] == ps[from..] + [p];
  }

  /** One line keeps `Tracks`, and it fails exactly on an unknown vertex property. */
  lemma StepTracks(st: HeaderState, lines: seq<string>, k: nat, i: nat, from: nat, c0: nat)
    requires k <= i < |lines| && KindOf(lines[i]) != EndLine && Tracks(st, lines, k, i, from, c0)
    ensures StepLine(st, lines[i]).Fail? <==> Unknown(lines, k, i)
    ensures StepLine(st, lines[i]).Next? ==> Tracks(StepLine(st, lines[i]).st, lines, k, i + 1, from, c0)
  {
    var s := StepLine(st, lines[i]);
    if s.Next? && KindOf(lines[i]) == PropertyLine && st.inVertex && PropertyFields(Chomp(lines[i])).Some? {
      var f := PropertyFields(Chomp(lines[i])).value;
      var t := TypeNamed(f.0).value;
      DescribedAppend(st.props, from, PLYProperty(f.1, t, st.size, SizeOf(t)));
    }
  }

  /** No vertex property on lines [i, e) has an unknown type. */
  ghost predicate AllKnown(lines: seq<string>, k: nat, i: nat, e: nat)
    requires k <= i <= e <= |lines|
  {
    forall j :: i <= j < e ==> !Unknown(lines, k, j)
  }

  lemma AllKnownStep(lines: seq<string>, k: nat, i: nat, e: nat)
    requires k <= i < e <= |lines|
    ensures AllKnown(lines, k, i, e) <==> !Unknown(lines, k, i) && AllKnown(lines, k, i + 1, e)
  {
  }

  lemma EndStep(lines: seq<string>, i: nat)
    requires i < |lines| && KindOf(lines[i]) != EndLine
    ensures End(lines, i) == End(lines, i + 1)
  {
  }

  lemma BodyStep(st: HeaderState, lines: seq<string>, i: nat)
    requires i < |lines|
    ensures StepLine(st, lines[i]).Next? ==> Body(st, lines, i) == Body(StepLine(st, lines[i]).st, lines, i + 1)
    ensures StepLine(st, lines[i]).Fail? ==> Body(st, lines, i) == Parsed(st, Some(StepLine(st, lines[i]).message))
    ensures StepLine(st, lines[i]).Stop? ==> Body(st, lines, i) == Parsed(st, None)
  {
  }

  /** One line fails exactly on an unknown vertex property, and keeps the vertex flag right. */
  lemma StepVertex(st: HeaderState, lines: seq<string>, k: nat, i: nat)
    requires k <= i < |lines| && KindOf(lines[i]) != EndLine && st.inVertex == InVertexAt(lines, k, i)
    ensures !StepLine(st, lines[i]).Stop?
    ensures StepLine(st, lines[i]).Fail? <==> Unknown(lines, k, i)
    ensures StepLine(st, lines[i]).Next? ==> StepLine(st, lines[i]).st.inVertex == InVertexAt(lines, k, i + 1)
  {
  }

  /** The loop from a state with the right vertex flag succeeds exactly when no vertex property before
      `end_header` has an unknown type. */
  lemma {:induction false} BodyFails(st: HeaderState, lines: seq<string>, k: nat, i: nat)
    requires k <= i <= |lines| && st.inVertex == InVertexAt(lines, k, i)
    ensures Body(st, lines, i).error.None? <==> AllKnown(lines, k, i, End(lines, i))
    decreases |lines| - i
  {
    if i < |lines| && KindOf(lines[i]) != EndLine {
      StepVertex(st, lines, k, i);
      EndStep(lines, i);
      AllKnownStep(lines, k, i, End(lines, i));
      BodyStep(st, lines, i);
      var s := StepLine(st, lines[i]);
      if s.Next? {
        BodyFails(s.st, lines, k, i + 1);
      }
    }
  }

  /** When it succeeds, the loop has recorded exactly the declared vertex properties and the
      last vertex count read. */
  lemma {:induction false} BodyTracks(st: HeaderState, lines: seq<string>, k: nat, i: nat, from: nat, c0: nat)
    requires k <= i <= |lines| && Tracks(st, lines, k, i, from, c0)
    ensures var r := Body(st, lines, i); r.error.None? ==> Tracks(r.st, lines, k, End(lines, i), from, c0)
    decreases |lines| - i
  {
    if i < |lines| && KindOf(lines[i]) != EndLine {
      StepTracks(st, lines, k, i, from, c0);
      EndStep(lines, i);
      BodyStep(st, lines, i);
      var s := StepLine(st, lines[i]);
      if s.Next? {
        BodyTracks(s.st, lines, k, i + 1, from, c0);
      }
    }
  }

  /** A header is refused with one of the loader's five messages. */
  lemma HeaderErrors(lines: seq<string>, st0: HeaderState)
    ensures var r := ParseHeaderSpec(lines, st0);
      r.error.None? ==> r.st.count > 0 && 2 <= |lines|
    ensures var r := ParseHeaderSpec(lines, st0);
      r.error.Some? ==>
        || r.error.value in {MissingMagic, MissingFormat, WrongFormat, NoVertices}
        || IsUnknownType(r.error.value)
  {
  }

  /** `parseHeader` accepts a header exactly when its first two lines are right, no vertex
      property before `end_header` has an unknown type and a vertex count was read (or was
      left over); it then records exactly the declared vertex properties, packed. */
  lemma HeaderMeaning(lines: seq<string>, st0: HeaderState)
    ensures var r := ParseHeaderSpec(lines, st0);
      r.error.None? <==>
        && |lines| >= 2 && StartsWith(lines[0], "ply") && Contains(lines[1], "binary_little_endian")
        && (forall j :: 2 <= j < End(lines, 2) ==> !Unknown(lines, 2, j))
        && CountAfter(lines, 2, End(lines, 2), st0.count) > 0
    ensures var r := ParseHeaderSpec(lines, st0);
      r.error.None? ==>
        && |st0.props| <= |r.st.props|
        && Described(r.st.props[|st0.props|..]) == Declared(lines, 2, End(lines, 2))
        && Packed(r.st.props, |st0.props|, r.st.size)
        && r.st.props[..|st0.props|] == st0.props
  {
    if |lines| >= 2 && StartsWith(lines[0], "ply") && Contains(lines[1], "binary_little_endian") {
      var st := st0.(inVertex := false, size := 0);
      var n := |st0.props|;
      assert st.props[n..] == [];
      BodyFails(st, lines, 2, 2);
      BodyTracks(st, lines, 2, 2, n, st0.count);
      BodyPacked(st, lines, 2, n);
      BodyKeepsPrefix(st, lines, 2);
    }
  }

  /** The loop only appends properties. */
  lemma {:induction false} BodyKeepsPrefix(st: HeaderState, lines: seq<string>, i: nat)
    requires i <= |lines|
    ensures var r := Body(st, lines, i); |st.props| <= |r.st.props| && r.st.props[..|st.props|] == st.props
    decreases |lines| - i
  {
    if i < |lines| {
      var s := StepLine(st, lines[i]);
      if s.Next? {
        BodyKeepsPrefix(s.st, lines, i + 1);
        assert s.st.props[..|st.props|] == st.props;
      }
    }
  }

  // ---------------------------------------------------------------------------------------
  // The loader

  /** What `parseBinaryData` leaves behind: all records, or the records read before a short
      read. */
  datatype VertexData = Complete(splats: seq<SplatVertex>) | ShortRead(partial: seq<SplatVertex>)

  /** `parseBinaryData`, given the parsed layout: properties, vertex count, record size. */
  type Decoder = (seq<PLYProperty>, nat, nat) -> VertexData

  const ShortReadMessage := "Failed to read vertex data"

  class SplatLoader {
    var m_splats: seq<SplatVertex>
    var m_properties: seq<PLYProperty>
    var m_vertexCount: nat
    var m_vertexSize: nat
    var m_loaded: bool
    var m_errorMessage: string

    constructor ()
      ensures m_splats == [] && m_properties == [] && m_errorMessage == []
      ensures m_vertexCount == 0 && m_vertexSize == 0 && !m_loaded
    {
      m_splats := [];
      m_properties := [];
      m_vertexCount := 0;
      m_vertexSize := 0;
      m_loaded := false;
      m_errorMessage := [];
    }

    /** `load(filePath)`: `file` holds the lines of the opened file, None when it cannot be
        opened. Everything but the vertex count is cleared first, and the loader is marked
        loaded only when the header and the records are both read. */
    method Load(filePath: string, file: Option<seq<string>>, decode: Decoder) returns (ok: bool)
      modifies this
      ensures file.None? ==> !ok && m_errorMessage == "Failed to open file: " + filePath
      ensures file.Some? ==>
        var h := ParseHeaderSpec(file.value, HeaderState(false, old(m_vertexSize), [], old(m_vertexCount)));
        && m_properties == h.st.props && m_vertexSize == h.st.size && m_vertexCount == h.st.count
        && ok == (h.error.None? && decode(h.st.props, h.st.count, h.st.size).Complete?)
        && (h.error.Some? ==> m_splats == [] && m_errorMessage == h.error.value)
        && (h.error.None? && decode(h.st.props, h.st.count, h.st.size).Complete? ==>
              m_splats == decode(h.st.props, h.st.count, h.st.size).splats)
        && (h.error.None? && decode(h.st.props, h.st.count, h.st.size).ShortRead? ==>
              m_splats == decode(h.st.props, h.st.count, h.st.size).partial && m_errorMessage == ShortReadMessage)
      ensures m_loaded == ok
      ensures ok ==> m_errorMessage == [] && Packed(m_properties, 0, m_vertexSize) && m_vertexCount > 0
      ensures file.None? ==> m_splats == [] && m_properties == [] && m_vertexSize == old(m_vertexSize) && m_vertexCount == old(m_vertexCount)
    {
      m_loaded := false;
      m_splats := [];
      m_properties := [];
      m_errorMessage := [];
      if file.None? {
        m_errorMessage := "Failed to open file: " + filePath;
        return false;
      }
      ghost var st0 := HeaderState(false, m_vertexSize, [], m_vertexCount);
      var headerOk := ParseHeader(file.value);
      if !headerOk {
        return false;
      }
      HeaderMeaning(file.value, st0);
      var data := decode(m_properties, m_vertexCount, m_vertexSize);
      if data.ShortRead? {
        m_splats := data.partial;
        m_errorMessage := ShortReadMessage;
        return false;
      }
      m_splats := data.splats;
      m_loaded := true;
      return true;
    }

    /** `parseHeader`: the fields end as the parse leaves them; a failure sets the message. */
    method ParseHeader(lines: seq<string>) returns (ok: bool)
      modifies this
      ensures var r := ParseHeaderSpec(lines, HeaderState(false, old(m_vertexSize), old(m_properties), old(m_vertexCount)));
        && ok == r.error.None?
        && m_vertexSize == r.st.size && m_properties == r.st.props && m_vertexCount == r.st.count
        && m_errorMessage == (if r.error.Some? then r.error.value else old(m_errorMessage))
      ensures m_loaded == old(m_loaded) && m_splats == old(m_splats)
    {
      if lines == [] || !StartsWith(lines[0], "ply") {
        m_errorMessage := MissingMagic;
        return false;
      }
      if |lines| < 2 {
        m_errorMessage := MissingFormat;
        return false;
      }
      if !Contains(lines[1], "binary_little_endian") {
        m_errorMessage := WrongFormat;
        return false;
      }
      m_vertexSize := 0;
      ok := ReadBody(lines);
      if ok && m_vertexCount == 0 {
        m_errorMessage := NoVertices;
        return false;
      }
    }

    /** The line loop of `parseHeader`, from the third line on, with the vertex size already
        reset. */
    method ReadBody(lines: seq<string>) returns (ok: bool)
      requires 2 <= |lines|
      modifies this
      ensures var r := Body(HeaderState(false, old(m_vertexSize), old(m_properties), old(m_vertexCount)), lines, 2);
        && ok == r.error.None?
        && m_vertexSize == r.st.size && m_properties == r.st.props && m_vertexCount == r.st.count
        && m_errorMessage == (if r.error.Some? then r.error.value else old(m_errorMessage))
      ensures m_loaded == old(m_loaded) && m_splats == old(m_splats)
    {
      var inVertexElement := false;
      ghost var start := HeaderState(false, m_vertexSize, m_properties, m_vertexCount);
      var i := 2;
      while i < |lines|
        invariant 2 <= i <= |lines|
        invariant Body(start, lines, 2) == Body(HeaderState(inVertexElement, m_vertexSize, m_properties, m_vertexCount), lines, i)
        invariant m_errorMessage == old(m_errorMessage)
        invariant m_loaded == old(m_loaded) && m_splats == old(m_splats)
        decreases |lines| - i
      {
        var st := HeaderState(inVertexElement, m_vertexSize, m_properties, m_vertexCount);
        var step := ReadLine(st, lines[i]);
        BodyStep(st, lines, i);
        if step.Stop? {
          break;
        }
        if step.Fail? {
          m_errorMessage := step.message;
          return false;
        }
        inVertexElement := step.st.inVertex;
        m_vertexSize := step.st.size;
        m_properties := step.st.props;
        m_vertexCount := step.st.count;
        i := i + 1;
      }
      return true;
    }

    /** `findProperty(name)`: the index of the first property with that name, or None for a
        null pointer. */
    method FindProperty(name: string) returns (r: Option<nat>)
      ensures r.Some? ==> r.value < |m_properties| && m_properties[r.value].name == name
      ensures r.Some? ==> forall j :: 0 <= j < r.value ==> m_properties[j].name != name
      ensures r.None? ==> forall j :: 0 <= j < |m_properties| ==> m_properties[j].name != name
    {
      for i := 0 to |m_properties|
        invariant forall j :: 0 <= j < i ==> m_properties[j].name != name
      {
        if m_properties[i].name == name {
          return Some(i);
        }
      }
      return None;
    }
  }

  /** The body of the header loop on one line: the same branches as `StepLine`. */
  method ReadLine(st: HeaderState, line: string) returns (step: LineStep)
    ensures step == StepLine(st, line)
  {
    var l := Chomp(line);
    if StartsWith(l, "end_header") {
      return Stop;
    } else if StartsWith(l, "element vertex") {
      var c := CountField(l);
      return Next(st.(inVertex := true, count := if c.Some? then c.value else st.count));
    } else if StartsWith(l, "element") {
      return Next(st.(inVertex := false));
    } else if st.inVertex && StartsWith(l, "property") {
      var f := PropertyFields(l);
      if f.None? {
        return Next(st);
      }
      var t := TypeNamed(f.value.0);
      if t.None? {
        return Fail(UnknownType(f.value.0));
      }
      var prop := PLYProperty(f.value.1, t.value, st.size, SizeOf(t.value));
      return Next(st.(size := st.size + prop.size, props := st.props + [prop]));
    }
    return Next(st);
  }
}
