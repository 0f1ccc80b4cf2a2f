# Point-cloud file loader

This project models the loader that turns a user's point-cloud file into a
flat `Float32Array` of coordinates. The loader is
`client/src/lib/pointCloudLoader.ts`. It looks at the lower-cased last
`.`-separated piece of the file name and picks one of three parsers:

- **PLY** (`parsePLY`): the text is split into lines. The header scan
  keeps the count from the last `element vertex` line it sees and stops at
  the first line that trims to `end_header`. Then a buffer of three slots
  per declared vertex is filled. Each of the first N lines after the
  header, N being the declared count, is trimmed and split on `' '`, and
  its first three tokens are converted with `parseFloat`. Any later lines
  are ignored.
- **XYZ** (`parseXYZ`): the trimmed text is split into lines. Every line
  is one point, holding `Number` of the first three tokens of
  `line.trim().split(/\s+/)`.
- **JSON** (`parseJSON`): a `vertices` array is copied as it is.
  Otherwise a `points` array of coordinate arrays is flattened three slots
  per entry. Otherwise the document is rejected with
  `Invalid JSON format`.

Any other extension is rejected with `Unsupported file format`.

## How it is modelled

- `text.dfy` (module `Text`) holds the JavaScript string operations. It
  covers `trim`, whose white-space set is spelled out from ECMA-262
  sections 12.2 and 12.3. It also covers `split` with a one-character
  separator, `split(/\s+/)`, `includes` and ASCII `toLowerCase`.
- `buffer.dfy` (module `Buffer`) holds the buffer and the error kinds.
  Each slot of the `Float32Array` is a symbolic `Slot`: `ParseFloat(token)`,
  `Number(token)`, `Element(v)` for a JSON value, `Undefined` for the NaN
  a missing element becomes, or `Zero`. The model therefore records
  which token lands in which slot, but not the float it converts to.
  Every outcome is a `Result`: the buffer, or the `Error` the loader (or
  the JavaScript engine under it) throws.
- `ply.dfy`, `xyz.dfy` and `json.dfy` model the parsers.
  - Each has a specification function (`Decode`) saying what the parse
    settles with.
  - Each has a method that follows the source's loops over an `array`
    and is proved equal to that function.
  - Each has a properties module with lemmas about the function.
  - `StorePoint` is the one place where three slots of the array are
    written.
- `writer.dfy` (module `Writer`) is the writer side of the round-trip
  lemmas: the coordinate tokens of a point and the `x y z` rows a writer
  puts them on.
- `loader.dfy` models the extension dispatch the same way: the function
  `Loader.Load` and the method `Loader.ParsePointCloudFile`.
- The engine's `parseInt` and `JSON.parse` are parameters of the model.
  - `parseInt` is `string -> Option<int>`, where `None` stands for NaN.
    A missing count token is handed over as the string `"undefined"`,
    which is what `parseInt` converts it to.
  - `JSON.parse` is `string -> Option<Document<J>>`, where `None` stands
    for a `SyntaxError`.
  - A JSON document is reduced to what `parseJSON` looks at: `null`, or
    whether `vertices` and `points` hold arrays, with their elements as
    values of an opaque type `J`.
- Reading the file (`file.text()`) is not modelled. A file is its name
  and its decoded text.

The model follows what the code does, including behaviours that a reader
of a PLY, XYZ or JSON loader might not expect:

- A PLY file does not have to start with `ply`.
- Empty lines are not dropped. A blank line after the header is read as
  a data row.
- A PLY file without `end_header` is not rejected. Its data rows start at
  line 0, and the count comes from the last vertex line anywhere in the
  file (`PlyProperties.MissingTerminatorReadsFromFirstLine`).
- A vertex count of 0, or one `parseInt` reads as NaN, gives an empty
  buffer. A negative count fails with a `RangeError` from the
  `Float32Array` constructor.
- A file with fewer data rows than declared fails with a `TypeError`,
  because it calls `trim` on an undefined line.
- PLY rows are split on single spaces, so a doubled space shifts the
  coordinates (`PlyProperties.DoubledSpaceShifts`). XYZ lines are split on
  runs of white space, so several spaces or tabs count as one separator
  (`XyzProperties.RunsCollapse`).
- XYZ lines with fewer than three tokens store NaN. The final line is a
  point like every other.
- A JSON `vertices` array of any length is accepted.
- A `null` entry of `points` fails with a `TypeError`.
- There is no error taxonomy beyond the messages listed in
  `Buffer.Message`.

## Model

| member | source | states |
|---|---|---|
| Loader.ParsePointCloudFile | client/src/lib/pointCloudLoader.ts:1-14 | The loader's result is `Load`. `Load` uses the PLY, XYZ or JSON parse for the lower-cased extension and fails with UnsupportedFormat for any other. JSON text that does not parse is a SyntaxError. |
| LoaderProperties.ExtensionShape | client/src/lib/pointCloudLoader.ts:2 | The extension is a dot-free suffix of the name. It is the whole name, or it is preceded by a dot, so it is the part after the last dot. |
| LoaderProperties.ExtensionAfterLastDot | client/src/lib/pointCloudLoader.ts:2 | For a dot-free `ext`, the extension of `stem.ext` is `ext`, whatever the stem holds (dots included). |
| LoaderProperties.NameWithoutDot | client/src/lib/pointCloudLoader.ts:2 | A name without a dot is its own extension. |
| LoaderProperties.CaseIgnored | client/src/lib/pointCloudLoader.ts:2-12 | Two names whose extensions have the same length and agree character by character up to ASCII case select the same format. |
| LoaderProperties.StemIgnored | client/src/lib/pointCloudLoader.ts:2-12 | The format of `stem.ext` is the format of the bare name `ext`. |
| LoaderProperties.Unsupported | client/src/lib/pointCloudLoader.ts:11-12 | A lower-cased extension other than ply, xyz and json fails with the message "Unsupported file format". |
| LoaderProperties.Dispatch | client/src/lib/pointCloudLoader.ts:4-12 | A format is chosen if and only if the lower-cased extension is ply, xyz or json. Each format's result is that parser's result on the file text. For JSON that is SyntaxError when the text does not parse, and otherwise the decoding of the parsed document. |
| Ply.TerminatorIndexSpec | client/src/lib/pointCloudLoader.ts:24-32 | The terminator index is the first line that trims to end_header. There is none if and only if no line does. |
| Ply.LastCountNone | client/src/lib/pointCloudLoader.ts:22-27 | With no `element vertex` line among the scanned lines, the count keeps its initial value 0. |
| Ply.LastCountAt | client/src/lib/pointCloudLoader.ts:24-27 | Otherwise the count is parseInt of the third token of the last vertex line. Earlier vertex lines are overridden. |
| Ply.LastCountStep | client/src/lib/pointCloudLoader.ts:25-27 | Scanning one more line changes the count only when that line contains `element vertex`. |
| Ply.DataSlotsLayout | client/src/lib/pointCloudLoader.ts:36-41 | n rows make 3n slots, and point i is the parseFloat of the first three tokens of row i. |
| Ply.ScanHeader | client/src/lib/pointCloudLoader.ts:21-32 | The header loop returns the line after the first end_header line (0 without one) and the count from the last vertex line it visited. |
| Ply.ReadRows | client/src/lib/pointCloudLoader.ts:34-41 | The row loop fills 3n slots from the n lines after the header. It fails with a TypeError at line `|lines|` when fewer lines are left. |
| Ply.ParsePly | client/src/lib/pointCloudLoader.ts:16-44 | parsePLY settles with `Decode`: the lines of the text are scanned and read as above. A NaN count gives an empty buffer and a negative count a RangeError. |
| PlyProperties.HeaderEndsAtFirstTerminator | client/src/lib/pointCloudLoader.ts:28-31 | Data starts right after the first end_header line, and the scan sees nothing beyond it. |
| PlyProperties.MissingTerminatorReadsFromFirstLine | client/src/lib/pointCloudLoader.ts:21-41 | Without an end_header line the rows are read from line 0, with the count of the last vertex line of the whole file. |
| PlyProperties.DecodeLayout | client/src/lib/pointCloudLoader.ts:34-41 | When the declared rows all exist, the parse succeeds with exactly 3n slots, point i read from data row i. |
| PlyProperties.TruncatedFails | client/src/lib/pointCloudLoader.ts:34-37 | The parse fails for want of a row if and only if a non-negative count needs more lines than follow the header. It reports the first missing line. |
| PlyProperties.BadCounts | client/src/lib/pointCloudLoader.ts:26-36 | A NaN count gives an empty buffer. A negative count gives a RangeError carrying that count. |
| PlyProperties.ScanIgnoresLaterLines | client/src/lib/pointCloudLoader.ts:24-32 | Lines after the first end_header line change neither where data starts nor the count. |
| PlyProperties.TrailingLinesIgnored | client/src/lib/pointCloudLoader.ts:18-41 | Appending lines to a terminated file that parses leaves its buffer unchanged. |
| PlyProperties.DataSlotsPrefix | client/src/lib/pointCloudLoader.ts:36-41 | Reading n rows looks at those rows only. |
| PlyProperties.PlyHeader | client/src/lib/pointCloudLoader.ts:24-32 | A header without end_header lines, followed by end_header, ends there and declares the count of its last vertex line. |
| PlyProperties.RoundTrip | client/src/lib/pointCloudLoader.ts:16-44 | Writing a header declaring N vertices, end_header and N `x y z` rows, then parsing, gives the parseFloat of every written token in order. |
| PlyProperties.ExtraTokensIgnored | client/src/lib/pointCloudLoader.ts:37-40 | A row with more tokens after the coordinates reads as its first three tokens. |
| PlyProperties.DoubledSpaceShifts | client/src/lib/pointCloudLoader.ts:37-40 | `x  y z` with a doubled space reads as parseFloat of x, of "" and of y. |
| PlyProperties.EndHeaderLine | client/src/lib/pointCloudLoader.ts:25-28 | The line `end_header` ends the header and does not declare a count. |
| Xyz.LineSlotsLayout | client/src/lib/pointCloudLoader.ts:51-56 | n lines make 3n slots, and point i is Number of the first three white-space separated tokens of line i, undefined past the end. |
| Xyz.ParseXyz | client/src/lib/pointCloudLoader.ts:46-59 | The forEach loop over a buffer of three slots per line yields the specification `Decode`. |
| XyzProperties.DecodeLayout | client/src/lib/pointCloudLoader.ts:48-56 | There are three slots per line of the trimmed text, and point i is read from line i. |
| XyzProperties.PointCount | client/src/lib/pointCloudLoader.ts:48-49 | The buffer holds three slots per line break of the trimmed text, plus three. |
| XyzProperties.BlankFile | client/src/lib/pointCloudLoader.ts:48-52 | A file of nothing but white space reads as one point: Number("") and two NaNs. |
| XyzProperties.TrailingSpaceIgnored | client/src/lib/pointCloudLoader.ts:48 | A trailing white-space character, final line break included, changes nothing. |
| XyzProperties.RunsCollapse | client/src/lib/pointCloudLoader.ts:52 | Tokens separated by any non-empty runs of white space (several spaces, tabs) read as Number of each of the three tokens, as with single spaces. |
| XyzProperties.TabsAndSpacesExample | client/src/lib/pointCloudLoader.ts:52 | The line "1\t 2  3" reads as Number of 1, 2 and 3. |
| XyzProperties.RoundTrip | client/src/lib/pointCloudLoader.ts:46-59 | Writing at least one point as `x y z` lines, then parsing, gives Number of every written token in order. |
| Json.Elements | client/src/lib/pointCloudLoader.ts:66 | Copying an array keeps its length and puts element i in slot i. |
| Json.FirstNull | client/src/lib/pointCloudLoader.ts:69-72 | This is the first null entry. There is none if and only if every entry is an array. |
| Json.PointSlotsLayout | client/src/lib/pointCloudLoader.ts:68-73 | n entries make 3n slots, and point i is items 0 to 2 of entry i, undefined past its end. |
| Json.ReadPoints | client/src/lib/pointCloudLoader.ts:67-74 | The forEach over `points` fails with a TypeError at the first null entry. Otherwise it fills three slots per entry. |
| Json.ParseJson | client/src/lib/pointCloudLoader.ts:64-77 | On the already parsed document, parseJSON settles with `Decode`: vertices first, then points, then "Invalid JSON format". A null document is a TypeError. The `JSON.parse` call of line 63 is modelled in `Loader.Load`. |
| JsonProperties.VerticesWin | client/src/lib/pointCloudLoader.ts:65-66 | A vertices array is copied element by element whatever its length, and `points` is then never looked at. |
| JsonProperties.PointsLayout | client/src/lib/pointCloudLoader.ts:67-74 | Without vertices, non-null entries give 3 slots each, read from the first three items. |
| JsonProperties.NullEntryFails | client/src/lib/pointCloudLoader.ts:69-70 | A null entry fails the parse, at the first one. |
| JsonProperties.InvalidFormat | client/src/lib/pointCloudLoader.ts:63-77 | "Invalid JSON format" is thrown if and only if the document has neither array. A TypeError for a null document is thrown if and only if the document is null. |
| JsonProperties.PointsAsVertices | client/src/lib/pointCloudLoader.ts:65-74 | Entries of exactly three items give the same buffer as the flat vertices array of their items. |
| JsonProperties.PointsExample | client/src/lib/pointCloudLoader.ts:67-74 | `{"points": [[1,2,3],[4,5,6]]}` gives the six values in order. |
| JsonProperties.ShortVerticesExample | client/src/lib/pointCloudLoader.ts:65-66 | `{"vertices": [1,2]}` gives two slots. The length is not checked. |
| Text.TrimShape | client/src/lib/pointCloudLoader.ts:28 | trim() removes exactly the white space at both ends. |
| Text.TrimFixed | client/src/lib/pointCloudLoader.ts:28 | trim() leaves a string alone if and only if neither end is white space. |
| Text.TrimAppend | client/src/lib/pointCloudLoader.ts:48 | Appending a white-space character does not change the trimmed string. |
| Text.SplitPieces | client/src/lib/pointCloudLoader.ts:18 | No piece of a split contains the separator. |
| Text.JoinSplit | client/src/lib/pointCloudLoader.ts:18 | Joining the pieces of a split with the separator gives back the string. |
| Text.SplitJoin | client/src/lib/pointCloudLoader.ts:18 | Splitting a join of separator-free pieces gives back the pieces. |
| Text.SplitAtSeparator | client/src/lib/pointCloudLoader.ts:18 | Splitting `a + sep + b` gives the pieces of a, then those of b. |
| Text.SplitWithoutSeparator | client/src/lib/pointCloudLoader.ts:18 | A string without the separator splits into itself. |
| Text.SplitCount | client/src/lib/pointCloudLoader.ts:48 | A split has one more piece than there are separators. |
| Text.SplitLast | client/src/lib/pointCloudLoader.ts:2 | The last piece of a split is the suffix after the last separator, or the whole string. |
| Text.SplitSpacesFields | client/src/lib/pointCloudLoader.ts:52 | No field of split(/\s+/) holds white space. |
| Text.SplitSpacesRun | client/src/lib/pointCloudLoader.ts:52 | A leading run of white space of any length gives one empty field before the fields of the rest. |
| Text.SplitSpacesAfterRun | client/src/lib/pointCloudLoader.ts:52 | A word followed by a run of white space of any length and mix splits off as one field, the rest splitting on its own. |
| Text.SplitSpacesJoin | client/src/lib/pointCloudLoader.ts:52 | split(/\s+/) of non-empty words joined by single spaces gives back the words. |
| Text.ContainsAt | client/src/lib/pointCloudLoader.ts:25 | `includes` holds if and only if the substring occurs at some index of the line. |
| Text.ToLowerChars | client/src/lib/pointCloudLoader.ts:2 | toLowerCase keeps the length and maps each character on its own. |
| Buffer.AppendPoint | client/src/lib/pointCloudLoader.ts:38-40 | Appending three slots to a buffer of k points makes them point k and leaves the earlier points alone. |
| Buffer.StorePoint | client/src/lib/pointCloudLoader.ts:38-40 | Writing slots 3i, 3i+1 and 3i+2 extends the filled prefix by that point and leaves every slot from 3i+3 on unchanged. |

## Left out

- The numeric conversions `parseFloat`, `Number`, the ToNumber of JSON
  values and rounding to 32-bit floats. A slot records the conversion
  and its input, not the resulting float.
- Json.Elements, Json.PointSlotsLayout: ToNumber of a JSON value can throw
  a TypeError, e.g. for an object such as `{"toString": 1}` that has no
  callable `toString` or `valueOf`. That happens inside `new Float32Array`
  on a `vertices` array and in the slot writes of `points`. The model
  stores every element as a slot and never fails there, because JSON
  values are opaque to it.
- `parseInt` and `JSON.parse`: both are parameters, because their
  grammars are not part of this loader.
- `toLowerCase` outside ASCII: non-ASCII letters are kept as they are,
  so a non-ASCII extension is never one of the three names.
- Reading the file: `file.text()`, its UTF-8 decoding and the promise
  around every parser are left out. A rejected promise is an `Err`.
- JSON values other than `null` and arrays in `points` (numbers, strings,
  objects). Indexing them with `point[k]` is not modelled, because the
  document keeps only null and array entries.
- The maximum length of a `Float32Array`: a count too large to allocate,
  which throws a RangeError in the engine, is read as a normal allocation.
- The binary scene format, which is loaded elsewhere. The viewer, its
  shaders and its UI are not part of this model.
