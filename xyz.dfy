/** parseXYZ: one point per line of the trimmed text, its coordinates the
    first three white-space separated tokens of the line. The numeric
    conversion is not modelled: a slot records the token handed to Number,
    or Undefined when the line has fewer than three tokens. */
module Xyz {
  import opened Text
  import opened Buffer

  /** text.trim().split('\n'): the lines of the file, one point each. */
  function Lines(text: string): seq<string> {
    Split(Trim(text), '\n')
  }

  /** line.trim().split(/\s+/): the tokens of a line. */
  function Values(line: string): seq<string> {
    SplitSpaces(Trim(line))
  }

  /** Component k of `const [x, y, z] = values.map(Number)`: Number of the
      token, or undefined (stored as NaN) when the line is too short. */
  function Coordinate<J>(values: seq<string>, k: nat): Slot<J> {
    if k < |values| then Number(values[k]) else Undefined
  }

  /** The point a line holds; tokens after the third are never stored. */
  function RowPoint<J>(line: string): seq<Slot<J>> {
    var values := Values(line);
    [Coordinate(values, 0), Coordinate(values, 1), Coordinate(values, 2)]
  }

  /** The slots of the first `n` lines, three per line in line order. */
  function LineSlots<J>(lines: seq<string>, n: nat): seq<Slot<J>>
    requires n <= |lines|
  {
    if n == 0 then [] else LineSlots(lines, n - 1) + RowPoint(lines[n - 1])
  }

  /** There are three slots per line and point i is read from line i. */
  lemma {:induction false} LineSlotsLayout<J>(lines: seq<string>, n: nat)
    requires n <= |lines|
    ensures |LineSlots<J>(lines, n)| == 3 * n
    ensures forall i :: 0 <= i < n ==> PointAt(LineSlots<J>(lines, n), i) == RowPoint(lines[i])
  {
    if n > 0 {
      LineSlotsLayout<J>(lines, n - 1);
      AppendPoint(LineSlots<J>(lines, n - 1), RowPoint<J>(lines[n - 1]), n - 1);
    }
  }

  /** The buffer parseXYZ resolves with; it never fails. */
  function Decode<J>(text: string): seq<Slot<J>> {
    var lines := Lines(text);
    LineSlots(lines, |lines|)
  }

  /** parseXYZ on the text of the file. */
  method ParseXyz<J>(text: string) returns (r: seq<Slot<J>>)
    ensures r == Decode(text)
  {
    var lines := Split(Trim(text), '\n');
    var vertices := new Slot<J>[|lines| * 3](_ => Zero);
    for i := 0 to |lines|
      invariant vertices[..3 * i] == LineSlots(lines, i)
    {
      var values := SplitSpaces(Trim(lines[i]));
      StorePoint(vertices, i, Coordinate(values, 0), Coordinate(values, 1), Coordinate(values, 2));
    }
    assert vertices[..] == vertices[..3 * |lines|];
    r := vertices[..];
  }
}

/** Properties of parseXYZ, stated on Xyz.Decode. */
module XyzProperties {
  import opened Text
  import opened Buffer
  import opened Writer
  import opened Xyz

  /** Three slots per line of the trimmed text; point i is read from line i. */
  lemma DecodeLayout<J>(text: string)
    ensures |Decode<J>(text)| == 3 * |Lines(text)|
    ensures forall i :: 0 <= i < |Lines(text)| ==> PointAt(Decode<J>(text), i) == RowPoint(Lines(text)[i])
  {
    LineSlotsLayout<J>(Lines(text), |Lines(text)|);
  }

  /** The number of points is one more than the number of line breaks
      between the first and the last non-blank character; blank lines in
      between count as points too. */
  lemma PointCount<J>(text: string)
    ensures |Decode<J>(text)| == 3 * (multiset(Trim(text))['\n'] + 1)
  {
    DecodeLayout<J>(text);
    SplitCount(Trim(text), '\n');
  }

  /** A file of nothing but white space is one point: Number("") and two
      missing components. */
  lemma BlankFile<J>(text: string)
    requires forall i :: 0 <= i < |text| ==> IsSpace(text[i])
    ensures Decode<J>(text) == [Number(""), Undefined, Undefined]
  {
    TrimStartShape(text);
    assert Trim(text) == [];
    assert Lines(text) == [[]];
    assert Trim([]) == [];
    assert Values([]) == [[]];
  }

  /** Trailing white space, a final line break included, changes nothing. */
  lemma TrailingSpaceIgnored<J>(text: string, c: char)
    requires IsSpace(c)
    ensures Decode<J>(text + [c]) == Decode<J>(text)
  {
    TrimAppend(text, c);
  }

  /** The point parseXYZ reads from a written row: Number of each token. */
  function Converted<J>(p: Triple): seq<Slot<J>> {
    [Number(p.x), Number(p.y), Number(p.z)]
  }

  /** Unlike a PLY row, an XYZ line may separate its tokens by any runs of
      white space (several spaces, tabs): each run counts as one separator. */
  lemma RunsCollapse<J>(p: Triple, w1: string, w2: string)
    requires WellFormed(p)
    requires w1 != [] && AllSpace(w1)
    requires w2 != [] && AllSpace(w2)
    ensures RowPoint<J>(p.x + w1 + p.y + w2 + p.z) == Converted(p)
  {
    var yz := p.y + w2 + p.z;
    var line := p.x + w1 + p.y + w2 + p.z;
    assert line == p.x + w1 + yz;
    assert line[0] == p.x[0];
    assert line[|line| - 1] == p.z[|p.z| - 1];
    TrimFixed(line);
    SplitSpacesWord(p.z);
    SplitSpacesAfterRun(p.y, w2, p.z);
    assert yz[0] == p.y[0];
    SplitSpacesAfterRun(p.x, w1, yz);
  }

  /** "1\t 2  3" reads as Number of 1, 2 and 3. */
  lemma TabsAndSpacesExample<J>()
    ensures RowPoint<J>("1\t 2  3") == [Number("1"), Number("2"), Number("3")]
  {
    var p := Triple("1", "2", "3");
    assert WellFormed(p) by {
      assert !IsSpace('1') && !IsSpace('2') && !IsSpace('3');
    }
    assert AllSpace("\t ") && AllSpace("  ");
    RunsCollapse<J>(p, "\t ", "  ");
    assert p.x + "\t " + p.y + "  " + p.z == "1\t 2  3";
  }

  /** Writing at least one point as "x y z" lines and reading the file back
      gives Number of every coordinate token, in order. */
  lemma RoundTrip<J>(ps: seq<Triple>)
    requires |ps| >= 1
    requires forall i :: 0 <= i < |ps| ==> WellFormed(ps[i])
    ensures |Decode<J>(Join(Rows(ps), '\n'))| == 3 * |ps|
    ensures forall i :: 0 <= i < |ps| ==> PointAt(Decode<J>(Join(Rows(ps), '\n')), i) == Converted(ps[i])
  {
    var rows := Rows(ps);
    var text := Join(rows, '\n');
    WrittenRows<J>(ps);
    WrittenText(ps);
    assert Lines(text) == rows;
    DecodeLayout<J>(text);
  }

  /** Each written row is a line of its own and reads back as its tokens. */
  lemma WrittenRows<J>(ps: seq<Triple>)
    requires forall i :: 0 <= i < |ps| ==> WellFormed(ps[i])
    ensures forall i :: 0 <= i < |ps| ==> '\n' !in Rows(ps)[i] && Rows(ps)[i] != []
    ensures forall i :: 0 <= i < |ps| ==> Trimmed(Rows(ps)[i])
    ensures forall i :: 0 <= i < |ps| ==> RowPoint<J>(Rows(ps)[i]) == Converted(ps[i])
  {
    forall i | 0 <= i < |ps|
      ensures '\n' !in Rows(ps)[i] && Rows(ps)[i] != [] && Trimmed(Rows(ps)[i])
      ensures RowPoint<J>(Rows(ps)[i]) == Converted(ps[i])
    {
      var p := ps[i];
      RowFields(p);
      JoinFirst([p.x, p.y, p.z], ' ');
      TrimFixed(Row(p));
    }
  }

  /** A written file neither starts nor ends with white space and splits
      into its rows. */
  lemma WrittenText(ps: seq<Triple>)
    requires |ps| >= 1
    requires forall i :: 0 <= i < |ps| ==> '\n' !in Rows(ps)[i] && Rows(ps)[i] != []
    requires forall i :: 0 <= i < |ps| ==> Trimmed(Rows(ps)[i])
    ensures Trim(Join(Rows(ps), '\n')) == Join(Rows(ps), '\n')
    ensures Split(Join(Rows(ps), '\n'), '\n') == Rows(ps)
  {
    var rows := Rows(ps);
    JoinTrimmed(rows, '\n');
    TrimFixed(Join(rows, '\n'));
    SplitJoin(rows, '\n');
  }
}
