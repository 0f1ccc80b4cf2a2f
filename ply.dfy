/** parsePLY: ASCII PLY text to a flat coordinate buffer. The header is
    scanned line by line for the vertex count and the end_header line; the
    buffer of three slots per declared vertex is then filled from the lines
    that follow the header. The numeric conversions are not modelled:
    `parseInt` is a parameter (None stands for NaN) and every coordinate
    slot records the token handed to parseFloat. */
module Ply {
  import opened Text
  import opened Buffer

  /** The line that ends the header. */
  predicate IsTerminator(line: string) {
    Trim(line) == "end_header"
  }

  /** A line that declares the vertex count. */
  predicate IsVertexLine(line: string) {
    Contains(line, "element vertex")
  }

  /** What parseInt receives for a vertex line: its third ' '-separated
      token, or undefined, which parseInt reads as the string "undefined". */
  function CountToken(line: string): string {
    var tokens := Split(line, ' ');
    if |tokens| > 2 then tokens[2] else "undefined"
  }

  /** The index of the first end_header line, if there is one. */
  function TerminatorIndex(lines: seq<string>): (r: Option<nat>)
    ensures r.Some? ==> r.value < |lines|
  {
    if lines == [] then None
    else if IsTerminator(lines[0]) then Some(0)
    else
      match TerminatorIndex(lines[1..])
      case None => None
      case Some(i) => Some(i + 1)
  }

  /** TerminatorIndex finds the first end_header line, and finds none
      exactly when there is none. */
  lemma {:induction false} TerminatorIndexSpec(lines: seq<string>)
    ensures var r := TerminatorIndex(lines);
      (r.Some? ==> r.value < |lines| && IsTerminator(lines[r.value]))
      && (r.Some? ==> forall j :: 0 <= j < r.value ==> !IsTerminator(lines[j]))
      && (r.None? <==> forall j :: 0 <= j < |lines| ==> !IsTerminator(lines[j]))
  {
    if lines != [] && !IsTerminator(lines[0]) {
      TerminatorIndexSpec(lines[1..]);
      assert forall j :: 1 <= j < |lines| ==> lines[j] == lines[1..][j - 1];
    }
  }

  /** The index of the first data row: one past the terminator, or 0 when
      the header never ends. */
  function HeaderEnd(lines: seq<string>): nat {
    match TerminatorIndex(lines)
    case Some(i) => i + 1
    case None => 0
  }

  /** The lines the header scan visits: up to and including the first
      terminator, or all of them. */
  function ScannedLines(lines: seq<string>): seq<string> {
    match TerminatorIndex(lines)
    case Some(i) => lines[..i + 1]
    case None => lines
  }

  /** The vertex count after scanning `ls`: parsed from the last vertex
      line, or 0 when there is none. */
  function LastCount(ls: seq<string>, parseInt: string -> Option<int>): Option<int> {
    if ls == [] then Some(0)
    else if IsVertexLine(ls[|ls| - 1]) then parseInt(CountToken(ls[|ls| - 1]))
    else LastCount(ls[..|ls| - 1], parseInt)
  }

  /** With no vertex line the count keeps its initial value 0. */
  lemma {:induction false} LastCountNone(ls: seq<string>, parseInt: string -> Option<int>)
    requires forall j :: 0 <= j < |ls| ==> !IsVertexLine(ls[j])
    ensures LastCount(ls, parseInt) == Some(0)
  {
    if ls != [] {
      LastCountNone(ls[..|ls| - 1], parseInt);
    }
  }

  /** Otherwise the count is parsed from the last vertex line: earlier
      vertex lines are overridden. */
  lemma {:induction false} LastCountAt(ls: seq<string>, j: nat, parseInt: string -> Option<int>)
    requires j < |ls| && IsVertexLine(ls[j])
    requires forall k :: j < k < |ls| ==> !IsVertexLine(ls[k])
    ensures LastCount(ls, parseInt) == parseInt(CountToken(ls[j]))
  {
    if j < |ls| - 1 {
      LastCountAt(ls[..|ls| - 1], j, parseInt);
    }
  }

  /** Scanning one more line updates the count only if it is a vertex line. */
  lemma LastCountStep(ls: seq<string>, line: string, parseInt: string -> Option<int>)
    ensures LastCount(ls + [line], parseInt)
         == if IsVertexLine(line) then parseInt(CountToken(line)) else LastCount(ls, parseInt)
  {
    assert (ls + [line])[..|ls|] == ls;
  }

  /** The vertex count the source allocates for. */
  function DeclaredCount(lines: seq<string>, parseInt: string -> Option<int>): Option<int> {
    LastCount(ScannedLines(lines), parseInt)
  }

  /** The slot parseFloat(values[k]) fills: undefined becomes NaN. */
  function Coordinate<J>(values: seq<string>, k: nat): Slot<J> {
    if k < |values| then ParseFloat(values[k]) else Undefined
  }

  /** values = line.trim().split(' ') for a data row. */
  function Fields(line: string): seq<string> {
    Split(Trim(line), ' ')
  }

  /** The point a data row holds: parseFloat of its first three values;
      further values are never read. */
  function RowPoint<J>(line: string): seq<Slot<J>> {
    var values := Fields(line);
    [Coordinate(values, 0), Coordinate(values, 1), Coordinate(values, 2)]
  }

  /** The slots of the first `n` data rows from line `start` on, three per
      row in row order. */
  function DataSlots<J>(lines: seq<string>, start: nat, n: nat): seq<Slot<J>>
    requires start + n <= |lines|
  {
    if n == 0 then [] else DataSlots(lines, start, n - 1) + RowPoint(lines[start + n - 1])
  }

  /** There are three slots per row and point i is read from row i. */
  lemma {:induction false} DataSlotsLayout<J>(lines: seq<string>, start: nat, n: nat)
    requires start + n <= |lines|
    ensures |DataSlots<J>(lines, start, n)| == 3 * n
    ensures forall i :: 0 <= i < n ==> PointAt(DataSlots<J>(lines, start, n), i) == RowPoint(lines[start + i])
  {
    if n > 0 {
      DataSlotsLayout<J>(lines, start, n - 1);
      AppendPoint(DataSlots<J>(lines, start, n - 1), RowPoint<J>(lines[start + n - 1]), n - 1);
    }
  }

  /** What parsePLY settles with, stated on the lines of the text: a NaN
      count allocates nothing and reads no rows; a negative count cannot be
      allocated; a count beyond the lines left reads an undefined row;
      otherwise the slots of the declared number of data rows. */
  function DecodeLines<J>(lines: seq<string>, parseInt: string -> Option<int>): Result<seq<Slot<J>>> {
    var start := HeaderEnd(lines);
    match DeclaredCount(lines, parseInt)
    case None => Ok([])
    case Some(n) =>
      if n < 0 then Err(InvalidLength(n))
      else if start + n > |lines| then Err(MissingRow(|lines|))
      else Ok(DataSlots(lines, start, n))
  }

  /** What parsePLY settles with for the text of a file. */
  function Decode<J>(text: string, parseInt: string -> Option<int>): Result<seq<Slot<J>>> {
    DecodeLines(Split(text, '\n'), parseInt)
  }

  /** The header loop of parsePLY: it records the count of every vertex
      line and stops at the first terminator. */
  method ScanHeader(lines: seq<string>, parseInt: string -> Option<int>)
    returns (headerEnd: nat, vertexCount: Option<int>)
    ensures headerEnd == HeaderEnd(lines)
    ensures vertexCount == DeclaredCount(lines, parseInt)
  {
    headerEnd, vertexCount := 0, Some(0);
    for i := 0 to |lines|
      invariant forall j :: 0 <= j < i ==> !IsTerminator(lines[j])
      invariant vertexCount == LastCount(lines[..i], parseInt)
    {
      assert lines[..i + 1] == lines[..i] + [lines[i]];
      LastCountStep(lines[..i], lines[i], parseInt);
      if IsVertexLine(lines[i]) {
        vertexCount := parseInt(CountToken(lines[i]));
      }
      if IsTerminator(lines[i]) {
        headerEnd := i + 1;
        TerminatorIndexSpec(lines);
        assert TerminatorIndex(lines) == Some(i);
        break;
      }
    }
    TerminatorIndexSpec(lines);
    assert lines[..|lines|] == lines;
  }

  /** The row loop of parsePLY: it fills a preallocated buffer of 3 * n
      slots from the n lines starting at `start`, and fails on the first
      line that does not exist. */
  method ReadRows<J>(lines: seq<string>, start: nat, n: nat) returns (r: Result<seq<Slot<J>>>)
    requires start <= |lines|
    ensures start + n <= |lines| ==> r == Ok(DataSlots(lines, start, n))
    ensures start + n > |lines| ==> r == Err(MissingRow(|lines|))
  {
    var vertices := new Slot<J>[3 * n](_ => Zero);
    for i := 0 to n
      invariant start + i <= |lines|
      invariant vertices[..3 * i] == DataSlots(lines, start, i)
    {
      if start + i >= |lines| {
        return Err(MissingRow(start + i));
      }
      var values := Fields(lines[start + i]);
      StorePoint(vertices, i, Coordinate(values, 0), Coordinate(values, 1), Coordinate(values, 2));
    }
    assert vertices[..] == vertices[..3 * n];
    return Ok(vertices[..]);
  }

  /** parsePLY on the text of the file. */
  method ParsePly<J>(text: string, parseInt: string -> Option<int>) returns (r: Result<seq<Slot<J>>>)
    ensures r == Decode(text, parseInt)
  {
    var lines := Split(text, '\n');
    var headerEnd, vertexCount := ScanHeader(lines, parseInt);
    // new Float32Array(NaN * 3) is empty and `i < NaN` never holds
    var n := if vertexCount.None? then 0 else vertexCount.value;
    if n < 0 {
      return Err(InvalidLength(n));
    }
    r := ReadRows(lines, headerEnd, n);
  }
}

/** Properties of parsePLY, stated on Ply.DecodeLines and Ply.Decode. */
module PlyProperties {
  import opened Text
  import opened Buffer
  import opened Writer
  import opened Ply

  /** The header ends at the first end_header line: data starts right
      after it and the scan sees nothing beyond it. */
  lemma {:induction false} HeaderEndsAtFirstTerminator(lines: seq<string>, i: nat)
    requires i < |lines| && IsTerminator(lines[i])
    requires forall j :: 0 <= j < i ==> !IsTerminator(lines[j])
    ensures HeaderEnd(lines) == i + 1
    ensures ScannedLines(lines) == lines[..i + 1]
  {
    TerminatorIndexSpec(lines);
    assert TerminatorIndex(lines) == Some(i);
  }

  /** Without an end_header line the data rows start at line 0 and the
      count comes from the last vertex line of the whole file. */
  lemma {:induction false} MissingTerminatorReadsFromFirstLine<J>(lines: seq<string>, parseInt: string -> Option<int>, n: int)
    requires forall j :: 0 <= j < |lines| ==> !IsTerminator(lines[j])
    requires LastCount(lines, parseInt) == Some(n)
    requires 0 <= n <= |lines|
    ensures DecodeLines<J>(lines, parseInt) == Ok(DataSlots(lines, 0, n))
  {
    TerminatorIndexSpec(lines);
    assert TerminatorIndex(lines) == None;
  }

  /** A parse whose rows all exist succeeds with exactly three slots per
      declared vertex, point i read from data row i: the first three
      ' '-separated tokens of the trimmed line, extra tokens ignored. */
  lemma {:induction false} DecodeLayout<J>(lines: seq<string>, parseInt: string -> Option<int>, n: nat)
    requires DeclaredCount(lines, parseInt) == Some(n)
    requires HeaderEnd(lines) + n <= |lines|
    ensures DecodeLines<J>(lines, parseInt).Ok?
    ensures var b := DecodeLines<J>(lines, parseInt).value;
      |b| == 3 * n
      && forall i :: 0 <= i < n ==> PointAt(b, i) == RowPoint(lines[HeaderEnd(lines) + i])
  {
    DataSlotsLayout<J>(lines, HeaderEnd(lines), n);
  }

  /** The parse fails for want of a row exactly when the declared count
      needs more lines than follow the header; it then reports the first
      missing line and returns no buffer. */
  lemma TruncatedFails<J>(lines: seq<string>, parseInt: string -> Option<int>)
    ensures DecodeLines<J>(lines, parseInt).Err? && DecodeLines<J>(lines, parseInt).error.MissingRow?
      <==> (DeclaredCount(lines, parseInt).Some?
            && 0 <= DeclaredCount(lines, parseInt).value
            && HeaderEnd(lines) + DeclaredCount(lines, parseInt).value > |lines|)
    ensures DecodeLines<J>(lines, parseInt).Err? && DecodeLines<J>(lines, parseInt).error.MissingRow?
      ==> DecodeLines<J>(lines, parseInt).error.line == |lines|
  {
  }

  /** A count parseInt cannot read (NaN) gives an empty buffer; a negative
      one cannot be allocated. */
  lemma BadCounts<J>(lines: seq<string>, parseInt: string -> Option<int>)
    ensures DeclaredCount(lines, parseInt).None? ==> DecodeLines<J>(lines, parseInt) == Ok([])
    ensures (DeclaredCount(lines, parseInt).Some? && DeclaredCount(lines, parseInt).value < 0)
      ==> DecodeLines<J>(lines, parseInt) == Err(InvalidLength(DeclaredCount(lines, parseInt).value))
  {
  }

  /** Lines the scan never reaches change neither where the data starts
      nor the count. */
  lemma {:induction false} ScanIgnoresLaterLines(lines: seq<string>, more: seq<string>, parseInt: string -> Option<int>)
    requires TerminatorIndex(lines).Some?
    ensures HeaderEnd(lines + more) == HeaderEnd(lines)
    ensures DeclaredCount(lines + more, parseInt) == DeclaredCount(lines, parseInt)
  {
    var t := TerminatorIndex(lines).value;
    TerminatorIndexSpec(lines);
    forall j | 0 <= j < t
      ensures !IsTerminator((lines + more)[j])
    {
      assert (lines + more)[j] == lines[j];
    }
    HeaderEndsAtFirstTerminator(lines + more, t);
    assert (lines + more)[..t + 1] == lines[..t + 1];
  }

  /** Once the header is terminated, whatever follows the last data row is
      ignored: appending lines to a file that parses does not change the
      buffer. */
  lemma {:induction false} TrailingLinesIgnored<J>(text: string, extra: string, parseInt: string -> Option<int>)
    requires TerminatorIndex(Split(text, '\n')).Some?
    requires Decode<J>(text, parseInt).Ok?
    ensures Decode<J>(text + ['\n'] + extra, parseInt) == Decode<J>(text, parseInt)
  {
    var lines := Split(text, '\n');
    var more := Split(extra, '\n');
    SplitAtSeparator(text, extra, '\n');
    ScanIgnoresLaterLines(lines, more, parseInt);
    match DeclaredCount(lines, parseInt)
    case None =>
    case Some(n) =>
      var start := HeaderEnd(lines);
      DataSlotsPrefix<J>(lines, more, start, n);
  }

  /** The data slots only read the rows they cover. */
  lemma {:induction false} DataSlotsPrefix<J>(lines: seq<string>, more: seq<string>, start: nat, n: nat)
    requires start + n <= |lines|
    ensures DataSlots<J>(lines + more, start, n) == DataSlots<J>(lines, start, n)
  {
    if n > 0 {
      DataSlotsPrefix<J>(lines, more, start, n - 1);
      assert (lines + more)[start + n - 1] == lines[start + n - 1];
    }
  }

  /** The point the source reads from a written row: the parseFloat of
      each of its three tokens. */
  function Parsed<J>(p: Triple): seq<Slot<J>> {
    [ParseFloat(p.x), ParseFloat(p.y), ParseFloat(p.z)]
  }

  /** Writing a PLY file and reading it back: header lines (none of them an
      end_header line, the last vertex line declaring as many vertices as
      there are points), the end_header line, then one "x y z" row per
      point. The buffer holds the parseFloat of every coordinate token, in
      order. */
  lemma {:induction false} RoundTrip<J>(header: seq<string>, ps: seq<Triple>, parseInt: string -> Option<int>)
    requires forall i :: 0 <= i < |header| ==> '\n' !in header[i] && !IsTerminator(header[i])
    requires LastCount(header, parseInt) == Some(|ps|)
    requires forall i :: 0 <= i < |ps| ==> WellFormed(ps[i])
    ensures var text := Join(header + ["end_header"] + Rows(ps), '\n');
      Decode<J>(text, parseInt).Ok?
      && |Decode<J>(text, parseInt).value| == 3 * |ps|
      && forall i :: 0 <= i < |ps| ==> PointAt(Decode<J>(text, parseInt).value, i) == Parsed(ps[i])
  {
    var lines := header + ["end_header"] + Rows(ps);
    WrittenRows<J>(ps);
    WrittenLines<J>(header, Rows(ps), ps, parseInt);
    HeaderLines(header, Rows(ps));
    assert Decode<J>(Join(lines, '\n'), parseInt) == DecodeLines<J>(lines, parseInt);
  }

  /** A header followed by end_header and rows that read as the points
      decodes to those points. */
  lemma WrittenLines<J>(header: seq<string>, rows: seq<string>, ps: seq<Triple>, parseInt: string -> Option<int>)
    requires forall i :: 0 <= i < |header| ==> !IsTerminator(header[i])
    requires LastCount(header, parseInt) == Some(|ps|)
    requires |rows| == |ps|
    requires forall i :: 0 <= i < |ps| ==> RowPoint<J>(rows[i]) == Parsed(ps[i])
    ensures var lines := header + ["end_header"] + rows;
      DecodeLines<J>(lines, parseInt).Ok?
      && |DecodeLines<J>(lines, parseInt).value| == 3 * |ps|
      && forall i :: 0 <= i < |ps| ==> PointAt(DecodeLines<J>(lines, parseInt).value, i) == Parsed(ps[i])
  {
    var h := |header|;
    var lines := header + ["end_header"] + rows;
    PlyHeader(header, rows, parseInt);
    assert lines[h + 1..] == rows;
    DecodeRows<J>(lines, h + 1, rows, ps, parseInt);
  }

  /** Each written row reads back as the parseFloat of its tokens. */
  lemma WrittenRows<J>(ps: seq<Triple>)
    requires forall i :: 0 <= i < |ps| ==> WellFormed(ps[i])
    ensures forall i :: 0 <= i < |ps| ==> '\n' !in Rows(ps)[i]
    ensures forall i :: 0 <= i < |ps| ==> RowPoint<J>(Rows(ps)[i]) == Parsed(ps[i])
  {
    forall i | 0 <= i < |ps|
      ensures '\n' !in Rows(ps)[i] && RowPoint<J>(Rows(ps)[i]) == Parsed(ps[i])
    {
      RowFields(ps[i]);
    }
  }

  /** Lines whose header ends at `start` and declares as many vertices as
      there are points, followed by rows that read as the points, decode
      to those points. */
  lemma DecodeRows<J>(lines: seq<string>, start: nat, rows: seq<string>, ps: seq<Triple>, parseInt: string -> Option<int>)
    requires HeaderEnd(lines) == start && start <= |lines|
    requires DeclaredCount(lines, parseInt) == Some(|ps|)
    requires lines[start..] == rows && |rows| == |ps|
    requires forall i :: 0 <= i < |ps| ==> RowPoint<J>(rows[i]) == Parsed(ps[i])
    ensures DecodeLines<J>(lines, parseInt).Ok?
    ensures |DecodeLines<J>(lines, parseInt).value| == 3 * |ps|
    ensures forall i :: 0 <= i < |ps| ==> PointAt(DecodeLines<J>(lines, parseInt).value, i) == Parsed(ps[i])
  {
    DecodeLayout<J>(lines, parseInt, |ps|);
    var b := DecodeLines<J>(lines, parseInt).value;
    forall i | 0 <= i < |ps|
      ensures PointAt(b, i) == Parsed(ps[i])
    {
      assert lines[start + i] == rows[i];
    }
  }

  /** The lines of a written file have no line break inside them. */
  lemma HeaderLines(header: seq<string>, rows: seq<string>)
    requires forall i :: 0 <= i < |header| ==> '\n' !in header[i]
    requires forall i :: 0 <= i < |rows| ==> '\n' !in rows[i]
    ensures Split(Join(header + ["end_header"] + rows, '\n'), '\n') == header + ["end_header"] + rows
  {
    EndHeaderUnbroken();
    AvoidsConcat(header, ["end_header"], '\n');
    AvoidsConcat(header + ["end_header"], rows, '\n');
    SplitJoin(header + ["end_header"] + rows, '\n');
  }

  /** The header of a written file ends at its end_header line and declares
      the count of its last vertex line. */
  lemma PlyHeader(header: seq<string>, rows: seq<string>, parseInt: string -> Option<int>)
    requires forall i :: 0 <= i < |header| ==> !IsTerminator(header[i])
    ensures var lines := header + ["end_header"] + rows;
      HeaderEnd(lines) == |header| + 1
      && DeclaredCount(lines, parseInt) == LastCount(header, parseInt)
  {
    var lines := header + ["end_header"] + rows;
    var h := |header|;
    EndHeaderLine();
    forall j | 0 <= j < h
      ensures !IsTerminator(lines[j])
    {
      assert lines[j] == header[j];
    }
    HeaderEndsAtFirstTerminator(lines, h);
    assert lines[..h + 1] == header + ["end_header"];
    LastCountStep(header, "end_header", parseInt);
  }

  /** Tokens after the third are ignored: a row that carries more
      properties than the coordinates (colours, normals) still reads as
      its first three tokens. */
  lemma ExtraTokensIgnored<J>(p: Triple, rest: string)
    requires WellFormed(p)
    requires rest != [] && Trimmed(rest)
    ensures RowPoint<J>(Row(p) + [' '] + rest) == Parsed(p)
  {
    var line := Row(p) + [' '] + rest;
    RowFields(p);
    JoinFirst([p.x, p.y, p.z], ' ');
    assert line[0] == Row(p)[0];
    assert line[|line| - 1] == rest[|rest| - 1];
    TrimFixed(line);
    SplitAtSeparator(Row(p), rest, ' ');
  }

  /** Rows are split on single spaces, not on runs of white space: a
      doubled space puts an empty token, parseFloat("") or NaN, in the y
      slot and shifts y into the z slot. */
  lemma DoubledSpaceShifts<J>(p: Triple)
    requires WellFormed(p)
    ensures RowPoint<J>(p.x + "  " + p.y + " " + p.z) == [ParseFloat(p.x), ParseFloat(""), ParseFloat(p.y)]
  {
    var line := p.x + "  " + p.y + " " + p.z;
    DoubledSpaceFields(p);
    TrimFixed(line);
  }

  /** The single-space split of a row with a doubled space after x. */
  lemma DoubledSpaceFields(p: Triple)
    requires WellFormed(p)
    ensures var line := p.x + "  " + p.y + " " + p.z;
      Trimmed(line) && Split(line, ' ') == [p.x, [], p.y, p.z]
  {
    var line := p.x + "  " + p.y + " " + p.z;
    assert line[0] == p.x[0];
    assert line[|line| - 1] == p.z[|p.z| - 1];
    NoSpaceAvoids(p.x, ' ');
    NoSpaceAvoids(p.y, ' ');
    NoSpaceAvoids(p.z, ' ');
    SplitOfFields(p.x, p.y, p.z);
    assert line == p.x + [' '] + ([] + [' '] + (p.y + [' '] + p.z));
  }

  /** x + " " + (" " + y + " " + z) splits into x, "", y and z. */
  lemma SplitOfFields(x: string, y: string, z: string)
    requires ' ' !in x && ' ' !in y && ' ' !in z
    ensures Split(x + [' '] + ([] + [' '] + (y + [' '] + z)), ' ') == [x, [], y, z]
  {
    var yz := y + [' '] + z;
    var rest := [] + [' '] + yz;
    SplitAtSeparator(y, z, ' ');
    SplitWithoutSeparator(y, ' ');
    SplitWithoutSeparator(z, ' ');
    SplitAtSeparator([], yz, ' ');
    assert Split(rest, ' ') == [[], y, z];
    SplitAtSeparator(x, rest, ' ');
    SplitWithoutSeparator(x, ' ');
  }

  /** The end_header line written by a writer ends the header and declares
      no vertices. */
  lemma EndHeaderLine()
    ensures IsTerminator("end_header")
    ensures !IsVertexLine("end_header")
  {
    var t := "end_header";
    assert t[0] == 'e' && t[|t| - 1] == 'r';
    assert Trimmed(t);
    TrimFixed(t);
    assert Trim(t) == t;
    assert |t| < |"element vertex"|;
    assert !Contains(t, "element vertex");
  }

  /** The end_header line is a line of its own. */
  lemma EndHeaderUnbroken()
    ensures '\n' !in "end_header"
  {
    var t := "end_header";
    assert forall i :: 0 <= i < |t| ==> t[i] != '\n';
  }
}
