/** The offline atlas script `AtlasGen.py`: the rebuild gate, the collection of 2x and 3x
    image paths from the image-set bundles of a catalog, the descriptor it rewrites for
    the generated bundle, and the grid sizing and placement of `makeAtlas`.
    Every exception the script does not catch ends the run; it is a `Crash` here. */
module AtlasGenPy {
  import opened Wrappers
  import opened Json
  import opened Strings

  /** The uncaught Python exceptions that end the script. */
  datatype Crash =
    | IOError(path: string)       // `open` or `os.listdir` of a path that does not exist
    | DecodeError(path: string)   // `json.load` of bytes that are not JSON
    | KeyError(key: Json)      // `d[key]` on a dictionary without that key
    | TypeError
    | IndexError
    | AtlasTooLarge               // the explicit `raise` in `getDimensions`

  const ContentsName: string := "Contents.json"

  /** The side length at which `getDimensions` refuses to build an atlas. */
  const MaxAtlasEdge: int := 4096

  // ---------------------------------------------------------------------------
  // FileManager.updateRequired

  /** Whether the root descriptor must be rebuilt. Reading or decoding the root
      `Contents.json` is not guarded, so a missing or malformed file ends the run;
      every failure of the `c['info']['customVersion']` lookup is caught. */
  function UpdateRequired(inPath: string, files: map<string, Read>): (r: Result<bool, Crash>)
    ensures r.Success? <==> ReadFile(files, inPath + "/" + ContentsName).Parsed?
    ensures ReadFile(files, inPath + "/" + ContentsName).Absent? ==>
              r == Failure(IOError(inPath + "/" + ContentsName))
    ensures ReadFile(files, inPath + "/" + ContentsName).Malformed? ==>
              r == Failure(DecodeError(inPath + "/" + ContentsName))
    ensures r.Success? ==>
              var c := ReadFile(files, inPath + "/" + ContentsName).value;
              (!r.value <==>
                 c.JObject? && "info" in c.fields && c.fields["info"].JObject?
                 && "customVersion" in c.fields["info"].fields)
  {
    var path := inPath + "/" + ContentsName;
    match ReadFile(files, path)
    case Absent => Failure(IOError(path))
    case Malformed => Failure(DecodeError(path))
    case Parsed(c) => Success(FieldOf(Field(c, "info"), "customVersion").None?)
  }

  /** The value stored under `customVersion` plays no part: even `null` there means
      no update is needed. */
  lemma UpdateRequiredIgnoresVersionValue(inPath: string, info: map<string, Json>, v: Json, w: Json)
    ensures var f1 := map[inPath + "/" + ContentsName :=
                          Parsed(JObject(map["info" := JObject(info["customVersion" := v])]))];
            var f2 := map[inPath + "/" + ContentsName :=
                          Parsed(JObject(map["info" := JObject(info["customVersion" := w])]))];
            UpdateRequired(inPath, f1) == UpdateRequired(inPath, f2) == Success(false)
  {
  }

  /** An `info` that is a list, even one holding the string "customVersion", is a
      caught `TypeError`: an update is needed. */
  lemma UpdateRequiredWhenInfoIsList(inPath: string)
    ensures var f := map[inPath + "/" + ContentsName :=
                         Parsed(JObject(map["info" := JArray([JString("customVersion")])]))];
            UpdateRequired(inPath, f) == Success(true)
  {
  }

  // ---------------------------------------------------------------------------
  // FileManager.getImageData

  /** The state a `FileManager` keeps across calls: the input root and the two lists
      it appends to. */
  datatype FileManager = FileManager(inPath: string, twoImages: seq<string>, thrImages: seq<string>)

  /** What one descriptor entry contributes. */
  datatype Placement = ToTwo(path: string) | ToThree(path: string) | Skipped(warned: bool)

  /** The 2x and 3x paths collected from some entries, in order. */
  type Lists = (seq<string>, seq<string>)

  /** The descriptor path the script builds for bundle `name`. */
  function ContentsPath(inPath: string, name: string): string
  {
    inPath + "/" + name + "/" + ContentsName
  }

  /** Python's `c[:-len('Contents.json')]`, which is empty for a shorter string. */
  function StripContents(c: string): string
  {
    if |c| >= |ContentsName| then c[..|c| - |ContentsName|] else ""
  }

  /** Stripping the descriptor name off a descriptor path gives the bundle directory
      with its trailing slash. */
  lemma StripContentsPath(inPath: string, name: string)
    ensures StripContents(ContentsPath(inPath, name)) == inPath + "/" + name + "/"
  {
    var dir := inPath + "/" + name + "/";
    assert ContentsPath(inPath, name) == dir + ContentsName;
    assert (dir + ContentsName)[..|dir|] == dir;
  }

  /** The `except` branch of the entry loop: it evaluates `i['scale']` again and, unless
      the scale is '1x', concatenates it into the warning. */
  function Handler(e: map<string, Json>): (r: Result<Placement, Crash>)
    ensures r.Success? ==> r.value.Skipped?
  {
    if "scale" !in e then Failure(KeyError(JString("scale")))
    else if e["scale"] == JString("1x") then Success(Skipped(false))
    else if e["scale"].JString? then Success(Skipped(true))
    else Failure(TypeError)
  }

  /** One descriptor entry under bundle directory `dir`. */
  function ClassifyEntry(dir: string, e: Json): (r: Result<Placement, Crash>)
    // an entry with a string filename and a scale always lands in exactly one list
    ensures e.JObject? && "filename" in e.fields && e.fields["filename"].JString?
              && "scale" in e.fields ==>
              r.Success? && !r.value.Skipped?
    ensures r.Success? && r.value.ToTwo? ==>
              e.JObject? && "filename" in e.fields && e.fields["filename"].JString?
              && r.value.path == dir + e.fields["filename"].s
              && "scale" in e.fields && e.fields["scale"] == JString("2x")
    // every other scale, '1x' included, goes to the 3x list
    ensures r.Success? && r.value.ToThree? ==>
              e.JObject? && "filename" in e.fields && e.fields["filename"].JString?
              && r.value.path == dir + e.fields["filename"].s
              && "scale" in e.fields && e.fields["scale"] != JString("2x")
    // an entry without a usable filename contributes nothing; it warns unless its scale is '1x'
    ensures r.Success? && r.value.Skipped? ==>
              e.JObject? && "scale" in e.fields
              && (r.value.warned <==> e.fields["scale"] != JString("1x"))
    ensures !e.JObject? ==> r == Failure(TypeError)
  {
    if !e.JObject? then Failure(TypeError)
    else if "filename" !in e.fields then Handler(e.fields)
    else if "scale" !in e.fields then Failure(KeyError(JString("scale")))
    else if !e.fields["filename"].JString? then Handler(e.fields)
    else if e.fields["scale"] == JString("2x") then Success(ToTwo(dir + e.fields["filename"].s))
    else Success(ToThree(dir + e.fields["filename"].s))
  }

  /** What `for i in cont['images']` iterates over. A dictionary or a string iterates
      over strings, and `str['filename']` fails twice over, so only an empty one passes. */
  function ImagesOf(cont: Json): (r: Result<seq<Json>, Crash>)
    ensures r.Success? ==> cont.JObject? && "images" in cont.fields
    ensures cont.JObject? && "images" in cont.fields && cont.fields["images"].JArray? ==>
              r == Success(cont.fields["images"].items)
  {
    if !cont.JObject? then Failure(TypeError)
    else if "images" !in cont.fields then Failure(KeyError(JString("images")))
    else match cont.fields["images"]
      case JArray(items) => Success(items)
      case JObject(m) => if |m| == 0 then Success([]) else Failure(TypeError)
      case JString(s) => if s == "" then Success([]) else Failure(TypeError)
      case _ => Failure(TypeError)
  }

  /** Sequential composition of two scans: the first crash wins, otherwise the lists
      are concatenated. */
  function Join(a: Result<Lists, Crash>, b: Result<Lists, Crash>): Result<Lists, Crash>
  {
    if a.Failure? then a
    else if b.Failure? then b
    else Success((a.value.0 + b.value.0, a.value.1 + b.value.1))
  }

  function Single(p: Placement): Lists
  {
    match p
    case ToTwo(x) => ([x], [])
    case ToThree(x) => ([], [x])
    case Skipped(_) => ([], [])
  }

  /** The entries of one bundle, in entry order. */
  function ScanEntries(dir: string, entries: seq<Json>): Result<Lists, Crash>
  {
    if entries == [] then Success(([], []))
    else
      var head := ClassifyEntry(dir, entries[0]);
      if head.Failure? then Failure(head.error)
      else Join(Success(Single(head.value)), ScanEntries(dir, entries[1..]))
  }

  /** Every collected path lies in the bundle directory, and the two lists together
      hold no more paths than there are entries. */
  lemma {:induction false} ScanEntriesPaths(dir: string, entries: seq<Json>)
    ensures var r := ScanEntries(dir, entries);
            r.Success? ==>
              |r.value.0| + |r.value.1| <= |entries|
              && (forall p :: p in r.value.0 ==> |dir| <= |p| && p[..|dir|] == dir)
              && (forall p :: p in r.value.1 ==> |dir| <= |p| && p[..|dir|] == dir)
  {
    if entries != [] {
      ScanEntriesPaths(dir, entries[1..]);
      var head := ClassifyEntry(dir, entries[0]);
      if head.Success? && !head.value.Skipped? {
        assert (dir + entries[0].fields["filename"].s)[..|dir|] == dir;
      }
    }
  }

  /** One bundle: read its descriptor (unguarded) and scan its entries. */
  function ScanBundle(inPath: string, name: string, files: map<string, Read>): Result<Lists, Crash>
  {
    var c := ContentsPath(inPath, name);
    match ReadFile(files, c)
    case Absent => Failure(IOError(c))
    case Malformed => Failure(DecodeError(c))
    case Parsed(cont) =>
      var images := ImagesOf(cont);
      if images.Failure? then Failure(images.error)
      else ScanEntries(StripContents(c), images.value)
  }

  /** The bundles in listing order. */
  function ScanBundles(inPath: string, names: seq<string>, files: map<string, Read>): Result<Lists, Crash>
  {
    if names == [] then Success(([], []))
    else Join(ScanBundle(inPath, names[0], files), ScanBundles(inPath, names[1..], files))
  }

  lemma JoinAssoc(a: Result<Lists, Crash>, b: Result<Lists, Crash>, c: Result<Lists, Crash>)
    ensures Join(Join(a, b), c) == Join(a, Join(b, c))
  {
    if a.Success? && b.Success? && c.Success? {
      assert (a.value.0 + b.value.0) + c.value.0 == a.value.0 + (b.value.0 + c.value.0);
      assert (a.value.1 + b.value.1) + c.value.1 == a.value.1 + (b.value.1 + c.value.1);
    }
  }

  /** Output order is listing order: scanning two runs of bundles one after the other is
      scanning them together. */
  lemma {:induction false} ScanBundlesAppend(inPath: string, a: seq<string>, b: seq<string>, files: map<string, Read>)
    ensures ScanBundles(inPath, a + b, files)
            == Join(ScanBundles(inPath, a, files), ScanBundles(inPath, b, files))
  {
    if a == [] {
      assert a + b == b;
      var r := ScanBundles(inPath, b, files);
      if r.Success? {
        assert [] + r.value.0 == r.value.0;
        assert [] + r.value.1 == r.value.1;
      }
    } else {
      assert (a + b)[0] == a[0];
      assert (a + b)[1..] == a[1..] + b;
      ScanBundlesAppend(inPath, a[1..], b, files);
      JoinAssoc(ScanBundle(inPath, a[0], files), ScanBundles(inPath, a[1..], files), ScanBundles(inPath, b, files));
    }
  }

  /** A single bundle's paths are its directory (with trailing slash) followed by each
      filename, whatever else its descriptor holds beside `images`. */
  lemma ScanOneBundle(inPath: string, name: string, files: map<string, Read>,
                      fields: map<string, Json>, entries: seq<Json>)
    requires ReadFile(files, ContentsPath(inPath, name)) == Parsed(JObject(fields))
    requires "images" in fields && fields["images"] == JArray(entries)
    ensures ScanBundles(inPath, [name], files)
            == Join(ScanEntries(inPath + "/" + name + "/", entries), Success(([], [])))
  {
    StripContentsPath(inPath, name);
  }

  /** `getImageData`: a missing input directory ends the run; otherwise the collected
      paths are appended to the lists held by the instance and both lists are returned. */
  function GetImageData(fm: FileManager, listing: Option<seq<string>>, files: map<string, Read>): (r: Result<FileManager, Crash>)
    ensures listing.None? ==> r == Failure(IOError(fm.inPath))
    ensures r.Success? ==>
              r.value.inPath == fm.inPath
              && |fm.twoImages| <= |r.value.twoImages| && r.value.twoImages[..|fm.twoImages|] == fm.twoImages
              && |fm.thrImages| <= |r.value.thrImages| && r.value.thrImages[..|fm.thrImages|] == fm.thrImages
  {
    if listing.None? then Failure(IOError(fm.inPath))
    else
      var scan := ScanBundles(fm.inPath, WithSuffix(listing.value, "imageset"), files);
      if scan.Failure? then Failure(scan.error)
      else Success(FileManager(fm.inPath, fm.twoImages + scan.value.0, fm.thrImages + scan.value.1))
  }

  /** The lists live on the instance: a second call on an unchanged disk appends the
      same paths again. */
  lemma GetImageDataTwice(fm: FileManager, listing: Option<seq<string>>, files: map<string, Read>)
    requires GetImageData(fm, listing, files).Success?
    ensures var once := GetImageData(fm, listing, files).value;
            var twice := GetImageData(once, listing, files);
            twice.Success?
            && twice.value.twoImages == once.twoImages + once.twoImages[|fm.twoImages|..]
            && twice.value.thrImages == once.thrImages + once.thrImages[|fm.thrImages|..]
  {
    var once := GetImageData(fm, listing, files).value;
    var scan := ScanBundles(fm.inPath, WithSuffix(listing.value, "imageset"), files).value;
    assert once.twoImages[|fm.twoImages|..] == scan.0;
    assert once.thrImages[|fm.thrImages|..] == scan.1;
  }

  // ---------------------------------------------------------------------------
  // FileManager.saveImageData: the descriptor of the generated bundle

  function Slot(scale: string): Json
  {
    JObject(map["idiom" := JString("universal"), "scale" := JString(scale)])
  }

  /** The descriptor written when the bundle has none yet, or one that is not JSON
      (both end in a caught `ValueError`). */
  function DefaultContents(): Json
  {
    JObject(map[
      "images" := JArray([Slot("1x"), Slot("2x"), Slot("3x")]),
      "info" := JObject(map["version" := JInt(1), "author" := JString("xcode")])])
  }

  /** The image slot a scale's filename is written into: '2x' is slot 1, anything else slot 2. */
  function SlotIndex(scale: string): nat
  {
    if scale == "2x" then 1 else 2
  }

  /** The file name recorded for a scale; any scale other than '2x' is named '@3x'. */
  function AtlasFileName(filename: string, scale: string): string
  {
    if scale == "2x" then filename + "@2x.png" else filename + "@3x.png"
  }

  /** `contents['images'][idx]['filename'] = name`, with the exceptions Python raises. */
  function SetFilename(contents: Json, idx: nat, name: string): Result<Json, Crash>
  {
    if !contents.JObject? then Failure(TypeError)
    else if "images" !in contents.fields then Failure(KeyError(JString("images")))
    else match contents.fields["images"]
      case JArray(items) =>
        if idx >= |items| then Failure(IndexError)
        else if !items[idx].JObject? then Failure(TypeError)
        else
          var entry := JObject(items[idx].fields["filename" := JString(name)]);
          Success(JObject(contents.fields["images" := JArray(items[idx := entry])]))
      case JObject(_) => Failure(KeyError(JInt(idx)))
      case JString(s) => if idx < |s| then Failure(TypeError) else Failure(IndexError)
      case _ => Failure(TypeError)
  }

  /** The descriptor `saveImageData` writes for scale `scale`, given what the bundle's
      `Contents.json` held before. */
  function UpdateContents(existing: Read, filename: string, scale: string): (r: Result<Json, Crash>)
    ensures !existing.Parsed? ==> r.Success?
    ensures r.Success? ==>
              var before := if existing.Parsed? then existing.value else DefaultContents();
              var idx := SlotIndex(scale);
              && before.JObject? && "images" in before.fields
              && before.fields["images"].JArray?
              && idx < |before.fields["images"].items|
              && before.fields["images"].items[idx].JObject?
              && r.value.JObject?
              && r.value.fields.Keys == before.fields.Keys
              && (forall k :: k in before.fields && k != "images" ==> r.value.fields[k] == before.fields[k])
              && r.value.fields["images"].JArray?
              && |r.value.fields["images"].items| == |before.fields["images"].items|
              && r.value.fields["images"].items[idx].JObject?
              && r.value.fields["images"].items[idx].fields
                 == before.fields["images"].items[idx].fields["filename" := JString(AtlasFileName(filename, scale))]
              && (forall j :: 0 <= j < |before.fields["images"].items| && j != idx ==>
                    r.value.fields["images"].items[j] == before.fields["images"].items[j])
  {
    var before := if existing.Parsed? then existing.value else DefaultContents();
    SetFilename(before, SlotIndex(scale), AtlasFileName(filename, scale))
  }

  /** Writing the same scale twice leaves the descriptor as the first write left it. */
  lemma UpdateContentsIdempotent(existing: Read, filename: string, scale: string)
    requires UpdateContents(existing, filename, scale).Success?
    ensures var once := UpdateContents(existing, filename, scale).value;
            UpdateContents(Parsed(once), filename, scale) == Success(once)
  {
    var once := UpdateContents(existing, filename, scale).value;
    var idx := SlotIndex(scale);
    var items := once.fields["images"].items;
    var entry := JObject(items[idx].fields["filename" := JString(AtlasFileName(filename, scale))]);
    assert entry == items[idx];
    assert items[idx := entry] == items;
    assert once.fields["images" := JArray(items)] == once.fields;
  }

  /** The script's `main` writes the 2x atlas and then the 3x one into a fresh bundle:
      the result is the default descriptor naming both files. */
  lemma FreshBundleNamesBothScales(filename: string)
    ensures var two := UpdateContents(Absent, filename, "2x");
            two.Success?
            && var three := UpdateContents(Parsed(two.value), filename, "3x");
            three.Success?
            && three.value.fields["images"].items
               == [Slot("1x"),
                   JObject(map["idiom" := JString("universal"), "scale" := JString("2x"),
                               "filename" := JString(filename + "@2x.png")]),
                   JObject(map["idiom" := JString("universal"), "scale" := JString("3x"),
                               "filename" := JString(filename + "@3x.png")])]
  {
  }

  // ---------------------------------------------------------------------------
  // AtlasGen.getDimensions and makeAtlas

  function Pow2(k: nat): (r: nat)
    ensures r >= 1
  {
    if k == 0 then 1 else 2 * Pow2(k - 1)
  }

  /** The doubling loop of `getDimensions` continued from side `d = 2^rows`. */
  function GridSideFrom(count: int, d: nat, rows: nat): (r: (nat, nat))
    requires rows >= 1 && d == Pow2(rows)
    requires rows == 1 || Pow2(rows - 1) < count
    ensures r.1 >= 1 && r.0 == Pow2(r.1)
    ensures r.0 >= count && r.0 >= d
    ensures r.1 == 1 || Pow2(r.1 - 1) < count
    decreases count - d
  {
    if d < count then GridSideFrom(count, 2 * d, rows + 1) else (d, rows)
  }

  /** The side and row count `getDimensions` settles on: the least power of two that is
      at least 2 and at least `count`, and its base-2 logarithm. */
  function GridSide(count: int): (r: (nat, nat))
    ensures r.1 >= 1 && r.0 == Pow2(r.1)
    ensures r.0 >= count && r.0 >= 2
    ensures r.1 == 1 || Pow2(r.1 - 1) < count
  {
    GridSideFrom(count, 2, 1)
  }

  /** `getDimensions(size, count)`: the atlas is `size * d` wide and `size * rows` tall;
      it raises when the width reaches 4096. */
  method GetDimensions(size: int, count: int) returns (r: Result<(int, int), Crash>)
    ensures r.Failure? <==> size * GridSide(count).0 >= MaxAtlasEdge
    ensures r.Failure? ==> r.error == AtlasTooLarge
    ensures r.Success? ==> r.value == (size * GridSide(count).0, size * GridSide(count).1)
  {
    var d: nat := 2;
    var rows: nat := 1;
    while d < count
      invariant rows >= 1 && d == Pow2(rows)
      invariant rows == 1 || Pow2(rows - 1) < count
      invariant GridSideFrom(count, d, rows) == GridSide(count)
      decreases count - d
    {
      d := d * 2;
      rows := rows + 1;
    }
    if size * d >= MaxAtlasEdge {
      return Failure(AtlasTooLarge);
    }
    return Success((size * d, size * rows));
  }

  /** One `cat.paste(image, (x, y))`. */
  datatype Paste = Paste(path: string, x: int, y: int)

  /** The atlas image `makeAtlas` composes: its size and the pastes in order. */
  datatype PyAtlas = PyAtlas(width: int, height: int, pastes: seq<Paste>)

  /** Column `i` of a grid `d` columns wide and `rows >= 1` rows tall, with cells of
      side `s`, lies inside the `s * d` by `s * rows` canvas. */
  lemma ColumnInside(i: nat, d: nat, rows: nat, s: nat)
    requires i < d && rows >= 1
    ensures i * s <= s * d && i * s + s <= s * d && s <= s * rows
  {
    MulLeRight(i + 1, d, s);
    MulLeRight(1, rows, s);
  }

  lemma MulLeRight(a: int, b: int, s: nat)
    requires a <= b
    ensures a * s <= b * s
  {
  }

  /** `makeAtlas(data)`, with `sizes` the images PIL can open and their sizes. Only the
      first image is measured: `None` when it cannot be opened or is not square. The
      row wrap compares `x * s > width`, and since the grid side is at least the image
      count it never fires: image `i` is pasted at `(i * s, 0)`. */
  method MakeAtlas(data: seq<string>, sizes: map<string, (nat, nat)>) returns (r: Result<Option<PyAtlas>, Crash>)
    ensures r == Failure(IndexError) <==> |data| == 0
    ensures r == Success(None) <==> |data| > 0 && (data[0] !in sizes || sizes[data[0]].0 != sizes[data[0]].1)
    ensures |data| > 0 && data[0] in sizes && sizes[data[0]].0 == sizes[data[0]].1 ==>
              (r == Failure(AtlasTooLarge) <==> sizes[data[0]].0 * GridSide(|data|).0 >= MaxAtlasEdge)
    ensures |data| > 0 && data[0] in sizes && sizes[data[0]].0 == sizes[data[0]].1
            && sizes[data[0]].0 * GridSide(|data|).0 < MaxAtlasEdge ==>
              (r.Success? && r.value.Some? <==> forall p :: p in data ==> p in sizes)
    ensures r.Failure? ==> r.error == IndexError || r.error == AtlasTooLarge || r.error.IOError?
    ensures r.Failure? && r.error.IOError? ==>
              exists i :: && 0 <= i < |data| && data[i] == r.error.path && data[i] !in sizes
                          && forall j :: 0 <= j < i ==> data[j] in sizes
    ensures r.Success? && r.value.Some? ==>
              var s := sizes[data[0]].0;
              var a := r.value.value;
              && (forall p :: p in data ==> p in sizes)
              && a.width == s * GridSide(|data|).0
              && a.height == s * GridSide(|data|).1
              && |a.pastes| == |data|
              && (forall i :: 0 <= i < |data| ==> a.pastes[i] == Paste(data[i], i * s, 0))
              && (forall i :: 0 <= i < |data| ==> a.pastes[i].x + s <= a.width && s <= a.height)
  {
    if |data| == 0 {
      return Failure(IndexError);
    }
    if data[0] !in sizes || sizes[data[0]].0 != sizes[data[0]].1 {
      return Success(None);
    }
    var s: nat := sizes[data[0]].0;
    var dims := GetDimensions(s, |data|);
    if dims.Failure? {
      return Failure(dims.error);
    }
    var width := dims.value.0;
    var height := dims.value.1;
    ghost var d := GridSide(|data|).0;
    var x := 0;
    var y := 0;
    var pastes: seq<Paste> := [];
    for i := 0 to |data|
      invariant x == i && y == 0
      invariant |pastes| == i
      invariant forall j :: 0 <= j < i ==> data[j] in sizes
      invariant forall j :: 0 <= j < i ==> pastes[j] == Paste(data[j], j * s, 0)
    {
      if data[i] !in sizes {
        return Failure(IOError(data[i]));
      }
      ColumnInside(x, d, GridSide(|data|).1, s);
      if x * s > width {
        y := y + 1;
        x := 0;
      }
      pastes := pastes + [Paste(data[i], x * s, y * s)];
      x := x + 1;
    }
    forall i | 0 <= i < |data|
      ensures pastes[i].x + s <= width && s <= height
    {
      ColumnInside(i, d, GridSide(|data|).1, s);
    }
    return Success(Some(PyAtlas(width, height, pastes)));
  }
}
