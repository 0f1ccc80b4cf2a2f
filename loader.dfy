/** parsePointCloudFile: picks a parser by the file name's extension and
    hands it the file. Reading the file's text is not modelled: the file is
    its name and its already decoded text. The engine's parseInt and
    JSON.parse are parameters. */
module Loader {
  import opened Text
  import opened Buffer
  import Ply
  import Xyz
  import Json

  /** A file picked by the user. */
  datatype File = File(name: string, text: string)

  /** The formats the loader reads. */
  datatype Format = PlyFile | XyzFile | JsonFile

  /** file.name.split('.').pop(): the last '.'-separated piece of the name,
      which is the whole name when it has no dot. */
  function Extension(name: string): string {
    var pieces := Split(name, '.');
    pieces[|pieces| - 1]
  }

  /** The format chosen by the lower-cased extension. */
  function FormatOf(name: string): Result<Format> {
    var ext := ToLower(Extension(name));
    if ext == "ply" then Ok(PlyFile)
    else if ext == "xyz" then Ok(XyzFile)
    else if ext == "json" then Ok(JsonFile)
    else Err(UnsupportedFormat)
  }

  /** What parsePointCloudFile settles with: the chosen parser's result on
      the file's text; JSON text that does not parse is a SyntaxError. */
  function Load<J>(file: File, parseInt: string -> Option<int>, parseJson: string -> Option<Json.Document<J>>)
    : Result<seq<Slot<J>>>
  {
    match FormatOf(file.name)
    case Err(e) => Err(e)
    case Ok(PlyFile) => Ply.Decode(file.text, parseInt)
    case Ok(XyzFile) => Ok(Xyz.Decode(file.text))
    case Ok(JsonFile) =>
      (match parseJson(file.text)
       case None => Err(JsonSyntaxError)
       case Some(doc) => Json.Decode(doc))
  }

  /** parsePointCloudFile on a file. */
  method ParsePointCloudFile<J>(file: File, parseInt: string -> Option<int>, parseJson: string -> Option<Json.Document<J>>)
    returns (r: Result<seq<Slot<J>>>)
    ensures r == Load(file, parseInt, parseJson)
  {
    var extension := ToLower(Extension(file.name));
    if extension == "ply" {
      r := Ply.ParsePly(file.text, parseInt);
    } else if extension == "xyz" {
      var vertices := Xyz.ParseXyz(file.text);
      r := Ok(vertices);
    } else if extension == "json" {
      match parseJson(file.text)
      case None =>
        r := Err(JsonSyntaxError);
      case Some(data) =>
        r := Json.ParseJson(data);
    } else {
      r := Err(UnsupportedFormat);
    }
  }
}

/** Properties of the extension dispatch. */
module LoaderProperties {
  import opened Text
  import opened Buffer
  import opened Loader

  /** The extension is the longest dot-free suffix of the name: the whole
      name when it has no dot, otherwise what follows its last dot. */
  lemma ExtensionShape(name: string)
    ensures var e := Extension(name);
      |e| <= |name| && e == name[|name| - |e|..] && '.' !in e
      && (|e| < |name| ==> name[|name| - |e| - 1] == '.')
  {
    SplitLast(name, '.');
    var pieces := Split(name, '.');
    assert Extension(name) == pieces[|pieces| - 1];
  }

  /** Whatever precedes the last dot is ignored. */
  lemma ExtensionAfterLastDot(stem: string, ext: string)
    requires '.' !in ext
    ensures Extension(stem + ['.'] + ext) == ext
  {
    SplitAtSeparator(stem, ext, '.');
    SplitWithoutSeparator(ext, '.');
  }

  /** A name without a dot is its own extension: a file named "ply" is
      read as PLY. */
  lemma NameWithoutDot(name: string)
    requires '.' !in name
    ensures Extension(name) == name
  {
    SplitWithoutSeparator(name, '.');
  }

  /** The extension is matched without regard to ASCII case: names whose
      extensions have the same length and agree letter by letter up to
      case select the same format. */
  lemma CaseIgnored(a: string, b: string)
    requires |Extension(a)| == |Extension(b)|
    requires forall i :: 0 <= i < |Extension(a)| ==> LowerChar(Extension(a)[i]) == LowerChar(Extension(b)[i])
    ensures FormatOf(a) == FormatOf(b)
  {
    ToLowerChars(Extension(a));
    ToLowerChars(Extension(b));
    assert ToLower(Extension(a)) == ToLower(Extension(b));
  }

  /** The format of `stem.ext` is the format of `ext` alone: "scan.v2.PLY"
      is read like a file named "PLY". */
  lemma StemIgnored(stem: string, ext: string)
    requires '.' !in ext
    ensures FormatOf(stem + "." + ext) == FormatOf(ext)
  {
    assert stem + "." + ext == stem + ['.'] + ext;
    ExtensionAfterLastDot(stem, ext);
    NameWithoutDot(ext);
  }

  /** Any other extension is rejected before the file is read, with the
      message "Unsupported file format". */
  lemma Unsupported<J>(file: File, parseInt: string -> Option<int>, parseJson: string -> Option<Json.Document<J>>)
    requires ToLower(Extension(file.name)) !in {"ply", "xyz", "json"}
    ensures Load(file, parseInt, parseJson) == Err(UnsupportedFormat)
    ensures Message(Load(file, parseInt, parseJson).error) == "Unsupported file format"
  {
  }

  /** An extension is recognised exactly when it lower-cases to one of the
      three format names, and each name selects its own parser. */
  lemma Dispatch<J>(file: File, parseInt: string -> Option<int>, parseJson: string -> Option<Json.Document<J>>)
    ensures FormatOf(file.name).Ok? <==> ToLower(Extension(file.name)) in {"ply", "xyz", "json"}
    ensures FormatOf(file.name) == Ok(PlyFile) ==> Load(file, parseInt, parseJson) == Ply.Decode(file.text, parseInt)
    ensures FormatOf(file.name) == Ok(XyzFile) ==> Load(file, parseInt, parseJson) == Ok(Xyz.Decode(file.text))
    ensures FormatOf(file.name) == Ok(JsonFile) && parseJson(file.text).None?
      ==> Load(file, parseInt, parseJson) == Err(JsonSyntaxError)
    ensures FormatOf(file.name) == Ok(JsonFile) && parseJson(file.text).Some?
      ==> Load(file, parseInt, parseJson) == Json.Decode(parseJson(file.text).value)
  {
  }
}
