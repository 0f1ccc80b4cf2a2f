/** The values the loader produces and the ways it fails. */
module Buffer {

  datatype Option<+T> = None | Some(value: T)

  /** One slot of the Float32Array the loader returns. A slot records which
      conversion the source applies to which input; it stands for the 32-bit
      float that conversion yields, whose numeric value is not modelled. */
  datatype Slot<J> =
    | Zero                      // what a fresh Float32Array holds before it is written
    | ParseFloat(token: string) // parseFloat(token) stored as a 32-bit float
    | Number(token: string)     // Number(token) stored as a 32-bit float
    | Element(value: J)         // a value of the parsed JSON document, converted by ToNumber
    | Undefined                 // NaN: what a missing array element becomes when it is stored

  /** What the loader can throw. */
  datatype Error =
    | UnsupportedFormat     // Error('Unsupported file format')
    | InvalidJsonFormat     // Error('Invalid JSON format')
    | JsonSyntaxError       // SyntaxError from JSON.parse
    | NullDocument          // TypeError: the JSON document is null and has no properties
    | InvalidLength(n: int) // RangeError: a Float32Array of negative length 3 * n
    | MissingRow(line: nat) // TypeError: lines[line] is undefined and has no trim()
    | NullPoint(index: nat) // TypeError: data.points[index] is null and cannot be indexed

  /** The message of an Error the loader throws itself; for an error raised
      by the JavaScript engine, the name of its error class. */
  function Message(e: Error): string {
    match e
    case UnsupportedFormat => "Unsupported file format"
    case InvalidJsonFormat => "Invalid JSON format"
    case JsonSyntaxError => "SyntaxError"
    case NullDocument => "TypeError"
    case InvalidLength(_) => "RangeError"
    case MissingRow(_) => "TypeError"
    case NullPoint(_) => "TypeError"
  }

  /** The settled promise of an asynchronous parse: a buffer or what was thrown. */
  datatype Result<+T> = Ok(value: T) | Err(error: Error)

  /** Point i of a flat buffer: slots 3i, 3i+1 and 3i+2. */
  function PointAt<J>(b: seq<Slot<J>>, i: nat): seq<Slot<J>>
    requires 3 * i + 3 <= |b|
  {
    b[3 * i..3 * i + 3]
  }

  /** Appending a point to a buffer of k points makes it point k and
      leaves the earlier points alone. */
  lemma AppendPoint<J>(b: seq<Slot<J>>, p: seq<Slot<J>>, k: nat)
    requires |b| == 3 * k && |p| == 3
    ensures PointAt(b + p, k) == p
    ensures forall i :: 0 <= i < k ==> PointAt(b + p, i) == PointAt(b, i)
  {
    forall i | 0 <= i < k
      ensures PointAt(b + p, i) == PointAt(b, i)
    {
      assert (b + p)[3 * i..3 * i + 3] == b[3 * i..3 * i + 3];
    }
  }

  /** Writes point i into slots 3i, 3i+1 and 3i+2 of a buffer whose
      first 3i slots are filled, extending the filled prefix by the point. */
  method StorePoint<J>(vertices: array<Slot<J>>, i: nat, x: Slot<J>, y: Slot<J>, z: Slot<J>)
    requires 3 * i + 3 <= vertices.Length
    modifies vertices
    ensures vertices[..3 * i + 3] == old(vertices[..3 * i]) + [x, y, z]
    ensures vertices[3 * i + 3..] == old(vertices[3 * i + 3..])
  {
    ghost var filled := vertices[..3 * i];
    vertices[i * 3] := x;
    vertices[i * 3 + 1] := y;
    vertices[i * 3 + 2] := z;
    assert vertices[..3 * i] == filled;
    assert vertices[3 * i..3 * i + 3] == [x, y, z];
    assert vertices[..3 * i + 3] == vertices[..3 * i] + vertices[3 * i..3 * i + 3];
  }
}
