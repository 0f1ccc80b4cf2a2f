/** parseJSON: a buffer from the parsed JSON document, either copied from a
    flat `vertices` array or filled from a `points` array of coordinate
    arrays. JSON.parse itself is not modelled: the parsed document is an
    input, reduced to what parseJSON looks at, and its values are an opaque
    type J that a slot records unconverted. */
module Json {
  import opened Buffer

  /** An entry of data.points: an array of values, or null. */
  datatype Entry<J> = Items(items: seq<J>) | NullEntry

  /** The parsed document. `vertices` and `points` are Some exactly when
      the property of that name holds an array; any other document that is
      not null (a number, a string, an array, an object without them) has
      both None. */
  datatype Document<J> =
    | Null
    | Object(vertices: Option<seq<J>>, points: Option<seq<Entry<J>>>)

  /** new Float32Array(array): every element converted by ToNumber, in
      order; the length need not be a multiple of three. */
  function Elements<J>(vs: seq<J>): (r: seq<Slot<J>>)
    ensures |r| == |vs|
    ensures forall i :: 0 <= i < |vs| ==> r[i] == Element(vs[i])
  {
    if vs == [] then [] else [Element(vs[0])] + Elements(vs[1..])
  }

  /** Component k of an entry, point[k]: undefined (stored as NaN) past its end. */
  function Coordinate<J>(items: seq<J>, k: nat): Slot<J> {
    if k < |items| then Element(items[k]) else Undefined
  }

  /** The point an array entry holds; items after the third are never read. */
  function EntryPoint<J>(items: seq<J>): seq<Slot<J>> {
    [Coordinate(items, 0), Coordinate(items, 1), Coordinate(items, 2)]
  }

  /** The index of the first null entry, if there is one. */
  function FirstNull<J>(points: seq<Entry<J>>): (r: Option<nat>)
    ensures r.Some? ==> r.value < |points| && points[r.value].NullEntry?
    ensures r.Some? ==> forall j :: 0 <= j < r.value ==> points[j].Items?
    ensures r.None? <==> forall j :: 0 <= j < |points| ==> points[j].Items?
  {
    if points == [] then None
    else if points[0].NullEntry? then Some(0)
    else
      var t := FirstNull(points[1..]);
      assert forall j :: 1 <= j < |points| ==> points[j] == points[1..][j - 1];
      match t
      case None => None
      case Some(i) => Some(i + 1)
  }

  /** The slots of the first `n` entries, none of them null, three per
      entry in entry order. */
  function PointSlots<J>(points: seq<Entry<J>>, n: nat): seq<Slot<J>>
    requires n <= |points|
    requires forall j :: 0 <= j < n ==> points[j].Items?
  {
    if n == 0 then [] else PointSlots(points, n - 1) + EntryPoint(points[n - 1].items)
  }

  /** There are three slots per entry and point i is read from entry i. */
  lemma {:induction false} PointSlotsLayout<J>(points: seq<Entry<J>>, n: nat)
    requires n <= |points|
    requires forall j :: 0 <= j < n ==> points[j].Items?
    ensures |PointSlots(points, n)| == 3 * n
    ensures forall i :: 0 <= i < n ==> PointAt(PointSlots(points, n), i) == EntryPoint(points[i].items)
  {
    if n > 0 {
      PointSlotsLayout(points, n - 1);
      AppendPoint(PointSlots(points, n - 1), EntryPoint(points[n - 1].items), n - 1);
    }
  }

  /** What parseJSON settles with for a parsed document: `vertices` wins
      over `points`; the first null entry of `points` cannot be indexed; a
      document with neither array is rejected. */
  function Decode<J>(doc: Document<J>): Result<seq<Slot<J>>> {
    match doc
    case Null => Err(NullDocument)
    case Object(Some(vs), _) => Ok(Elements(vs))
    case Object(None, Some(points)) =>
      (match FirstNull(points)
       case Some(i) => Err(NullPoint(i))
       case None => Ok(PointSlots(points, |points|)))
    case Object(None, None) => Err(InvalidJsonFormat)
  }

  /** The points branch of parseJSON: fills a preallocated buffer entry by
      entry and fails at the first null entry. */
  method ReadPoints<J>(points: seq<Entry<J>>) returns (r: Result<seq<Slot<J>>>)
    ensures FirstNull(points).Some? ==> r == Err(NullPoint(FirstNull(points).value))
    ensures FirstNull(points).None? ==> r == Ok(PointSlots(points, |points|))
  {
    var vertices := new Slot<J>[|points| * 3](_ => Zero);
    for i := 0 to |points|
      invariant forall j :: 0 <= j < i ==> points[j].Items?
      invariant vertices[..3 * i] == PointSlots(points, i)
    {
      match points[i]
      case NullEntry =>
        assert FirstNull(points) == Some(i);
        return Err(NullPoint(i));
      case Items(point) =>
        StorePoint(vertices, i, Coordinate(point, 0), Coordinate(point, 1), Coordinate(point, 2));
    }
    assert vertices[..] == vertices[..3 * |points|];
    return Ok(vertices[..]);
  }

  /** parseJSON on the parsed document. */
  method ParseJson<J>(doc: Document<J>) returns (r: Result<seq<Slot<J>>>)
    ensures r == Decode(doc)
  {
    if doc.Null? {
      return Err(NullDocument);
    }
    if doc.vertices.Some? {
      return Ok(Elements(doc.vertices.value));
    } else if doc.points.Some? {
      r := ReadPoints(doc.points.value);
      return;
    }
    return Err(InvalidJsonFormat);
  }
}

/** Properties of parseJSON, stated on Json.Decode. */
module JsonProperties {
  import opened Buffer
  import opened Json

  /** A `vertices` array is copied element by element whatever its length
      and whatever `points` holds. */
  lemma VerticesWin<J>(vs: seq<J>, points: Option<seq<Entry<J>>>)
    ensures Decode(Object(Some(vs), points)).Ok?
    ensures var b := Decode(Object(Some(vs), points)).value;
      |b| == |vs| && forall i :: 0 <= i < |vs| ==> b[i] == Element(vs[i])
    ensures Decode(Object(Some(vs), points)) == Decode(Object(Some(vs), None))
  {
  }

  /** Without `vertices`, an array of non-null entries gives three slots
      per entry: its first three items, undefined where it is shorter. */
  lemma PointsLayout<J>(points: seq<Entry<J>>)
    requires forall j :: 0 <= j < |points| ==> points[j].Items?
    ensures Decode(Object(None, Some(points))).Ok?
    ensures var b := Decode(Object(None, Some(points))).value;
      |b| == 3 * |points|
      && forall i :: 0 <= i < |points| ==> PointAt(b, i) == EntryPoint(points[i].items)
  {
    assert FirstNull(points) == None;
    PointSlotsLayout(points, |points|);
  }

  /** A null entry fails the parse, at the first one. */
  lemma NullEntryFails<J>(points: seq<Entry<J>>, i: nat)
    requires i < |points| && points[i].NullEntry?
    requires forall j :: 0 <= j < i ==> points[j].Items?
    ensures Decode(Object(None, Some(points))) == Err(NullPoint(i))
  {
  }

  /** The format is rejected exactly when the document is an object with
      neither array; a null document fails earlier, reading its property. */
  lemma InvalidFormat<J>(doc: Document<J>)
    ensures Decode(doc) == Err(InvalidJsonFormat) <==> doc.Object? && doc.vertices.None? && doc.points.None?
    ensures Decode(doc) == Err(NullDocument) <==> doc.Null?
  {
  }

  /** The items of all entries, concatenated. */
  function Flatten<J>(points: seq<Entry<J>>): seq<J>
    requires forall j :: 0 <= j < |points| ==> points[j].Items?
  {
    if points == [] then [] else Flatten(points[..|points| - 1]) + points[|points| - 1].items
  }

  /** With three items per entry the two layouts agree: a `points` array
      gives the same buffer as the flat `vertices` array of its items. */
  lemma {:induction false} PointsAsVertices<J>(points: seq<Entry<J>>)
    requires forall j :: 0 <= j < |points| ==> points[j].Items? && |points[j].items| == 3
    ensures Decode(Object(None, Some(points))) == Decode(Object(Some(Flatten(points)), None))
  {
    assert FirstNull(points) == None;
    FlattenSlots(points, |points|);
    assert points[..|points|] == points;
  }

  /** The slots of the first n entries are the elements of their items. */
  lemma {:induction false} FlattenSlots<J>(points: seq<Entry<J>>, n: nat)
    requires n <= |points|
    requires forall j :: 0 <= j < |points| ==> points[j].Items? && |points[j].items| == 3
    ensures PointSlots(points, n) == Elements(Flatten(points[..n]))
  {
    if n > 0 {
      FlattenSlots(points, n - 1);
      var items := points[n - 1].items;
      assert points[..n][..n - 1] == points[..n - 1];
      assert Flatten(points[..n]) == Flatten(points[..n - 1]) + items;
      assert EntryPoint(items) == Elements(items);
      ElementsAppend(Flatten(points[..n - 1]), items);
    }
  }

  /** Elements distributes over concatenation. */
  lemma ElementsAppend<J>(a: seq<J>, b: seq<J>)
    ensures Elements(a + b) == Elements(a) + Elements(b)
  {
    assert |Elements(a + b)| == |Elements(a) + Elements(b)|;
    forall i | 0 <= i < |a + b|
      ensures Elements(a + b)[i] == (Elements(a) + Elements(b))[i]
    {
      if i < |a| {
        assert (a + b)[i] == a[i];
      } else {
        assert (a + b)[i] == b[i - |a|];
      }
    }
  }

  /** {"points": [[1, 2, 3], [4, 5, 6]]} gives the six values in order. */
  lemma PointsExample()
    ensures Decode(Object(None, Some([Items([1, 2, 3]), Items([4, 5, 6])])))
         == Ok([Element(1), Element(2), Element(3), Element(4), Element(5), Element(6)])
  {
    var points := [Items([1, 2, 3]), Items([4, 5, 6])];
    PointsAsVertices(points);
    FlattenExample();
    SixElements();
  }

  /** The items of [[1, 2, 3], [4, 5, 6]] are 1 to 6. */
  lemma FlattenExample()
    ensures Flatten([Items([1, 2, 3]), Items([4, 5, 6])]) == [1, 2, 3, 4, 5, 6]
  {
    var points := [Items([1, 2, 3]), Items([4, 5, 6])];
    assert points[..1] == [Items([1, 2, 3])];
    assert Flatten(points[..1]) == [1, 2, 3];
  }

  /** Copying 1 to 6 gives them in order. */
  lemma SixElements()
    ensures Elements([1, 2, 3, 4, 5, 6]) == [Element(1), Element(2), Element(3), Element(4), Element(5), Element(6)]
  {
    var r := Elements([1, 2, 3, 4, 5, 6]);
    assert r[0] == Element(1) && r[1] == Element(2) && r[2] == Element(3);
    assert r[3] == Element(4) && r[4] == Element(5) && r[5] == Element(6);
  }

  /** {"vertices": [1, 2]} is copied as it is: two slots, no point structure. */
  lemma ShortVerticesExample()
    ensures Decode(Object(Some([1, 2]), None)) == Ok([Element(1), Element(2)])
  {
    var r := Elements([1, 2]);
    assert r[0] == Element(1) && r[1] == Element(2);
    assert r == [Element(1), Element(2)];
  }
}
