/** The writer side of the round trips: the points a writer of a text point
    cloud emits and the "x y z" rows it puts them on. */
module Writer {
  import opened Text

  /** The three coordinate tokens of one point, as a writer of a text point
      cloud would put them on a line. */
  datatype Triple = Triple(x: string, y: string, z: string)

  /** A coordinate token a writer may emit: non-empty, no white space. */
  predicate IsToken(t: string) {
    t != [] && NoSpace(t)
  }

  predicate WellFormed(p: Triple) {
    IsToken(p.x) && IsToken(p.y) && IsToken(p.z)
  }

  /** The line "x y z" for a point. */
  function Row(p: Triple): string {
    Join([p.x, p.y, p.z], ' ')
  }

  /** The rows for a list of points. */
  function Rows(ps: seq<Triple>): (r: seq<string>)
    ensures |r| == |ps|
    ensures forall i :: 0 <= i < |ps| ==> r[i] == Row(ps[i])
  {
    if ps == [] then [] else [Row(ps[0])] + Rows(ps[1..])
  }

  /** A well-formed row has no white space at either end and splits on
      single spaces and on runs of white space into its three tokens. */
  lemma RowFields(p: Triple)
    requires WellFormed(p)
    ensures Trimmed(Row(p)) && '\n' !in Row(p)
    ensures Split(Row(p), ' ') == [p.x, p.y, p.z]
    ensures SplitSpaces(Row(p)) == [p.x, p.y, p.z]
  {
    var fields := [p.x, p.y, p.z];
    assert forall i :: 0 <= i < 3 ==> fields[i] != [] && NoSpace(fields[i]);
    NoSpaceAvoids(p.x, ' ');
    NoSpaceAvoids(p.y, ' ');
    NoSpaceAvoids(p.z, ' ');
    NoSpaceAvoids(p.x, '\n');
    NoSpaceAvoids(p.y, '\n');
    NoSpaceAvoids(p.z, '\n');
    SplitJoin(fields, ' ');
    SplitSpacesJoin(fields);
    JoinFirst(fields, ' ');
    JoinLast(fields, ' ');
    JoinAvoids(fields, ' ', '\n');
  }

  /** A string without white space contains no given white-space character. */
  lemma NoSpaceAvoids(t: string, c: char)
    requires NoSpace(t) && IsSpace(c)
    ensures c !in t
  {
    assert forall i :: 0 <= i < |t| ==> t[i] != c;
  }
}
