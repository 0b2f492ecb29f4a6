/** The Swift version of the atlas tool (`AtlasGen.swift`): its rebuild gate, the
    descriptor loader, the 2x/3x selection over a recursive enumeration of the
    catalog, and the PNG size probe. Unlike the Python script it swallows every read
    and decode failure. */
module AtlasGenSwift {
  import opened Wrappers
  import opened Json
  import opened Strings
  import opened PngHeader
  import AtlasGenPy
  import ArrayExt

  /** A JSON dictionary, `[String: AnyObject]`. */
  type Dict = map<string, Json>

  /** A descriptor path: `path + "/Contents.json"`. */
  function ContentsFile(path: string): string
  {
    path + "/Contents.json"
  }

  /** `jsonLoader(path)`: the top-level dictionary of `path/Contents.json`, or nothing
      when the file cannot be read, is not JSON, or holds some other top-level value. */
  function JsonLoader(path: string, files: map<string, Read>): (r: Option<Dict>)
    ensures r.Some? <==> ReadFile(files, ContentsFile(path)).Parsed?
                         && ReadFile(files, ContentsFile(path)).value.JObject?
  {
    match ReadFile(files, ContentsFile(path))
    case Parsed(JObject(d)) => Some(d)
    case _ => None
  }

  /** The root descriptor carries `info.customVersion` as an integer. */
  predicate HasIntVersion(d: Dict)
  {
    "info" in d && d["info"].JObject? && "customVersion" in d["info"].fields
    && AsInt(Some(d["info"].fields["customVersion"])).Some?
  }

  /** `updateRequired()`. */
  function UpdateRequired(inPath: string, files: map<string, Read>): (r: bool)
    ensures !ReadFile(files, ContentsFile(inPath)).Parsed? ==> !r
    ensures (ReadFile(files, ContentsFile(inPath)).Parsed?
             && !ReadFile(files, ContentsFile(inPath)).value.JObject?) ==> !r
    ensures (ReadFile(files, ContentsFile(inPath)).Parsed?
             && ReadFile(files, ContentsFile(inPath)).value.JObject?) ==>
              (r <==> !HasIntVersion(ReadFile(files, ContentsFile(inPath)).value.fields))
  {
    var json := JsonLoader(inPath, files);
    if json.None? then false
    else !HasIntVersion(json.value)
  }

  /** The two generators disagree on a descriptor whose `customVersion` is a string:
      the script skips the rebuild, this tool performs it. On a missing descriptor the
      script crashes and this tool skips. */
  lemma UpdateRequiredDiffersFromScript(inPath: string)
    ensures var f := map[ContentsFile(inPath) :=
                         Parsed(JObject(map["info" := JObject(map["customVersion" := JString("2")])]))];
            AtlasGenPy.UpdateRequired(inPath, f) == Success(false) && UpdateRequired(inPath, f)
    ensures var empty: map<string, Read> := map[];
            AtlasGenPy.UpdateRequired(inPath, empty).Failure? && !UpdateRequired(inPath, empty)
  {
    assert inPath + "/" + AtlasGenPy.ContentsName == ContentsFile(inPath);
  }

  /** `contents["images"] as? [[String: AnyObject]]`: an array all of whose elements
      are dictionaries. */
  function AsDictArray(j: Json): (r: Option<seq<Dict>>)
    ensures r.Some? <==> j.JArray? && forall i :: 0 <= i < |j.items| ==> j.items[i].JObject?
    ensures r.Some? ==> |r.value| == |j.items|
                        && forall i :: 0 <= i < |j.items| ==> r.value[i] == j.items[i].fields
  {
    if !j.JArray? then None
    else DictsOf(j.items)
  }

  function DictsOf(items: seq<Json>): (r: Option<seq<Dict>>)
    ensures r.Some? <==> forall i :: 0 <= i < |items| ==> items[i].JObject?
    ensures r.Some? ==> |r.value| == |items|
                        && forall i :: 0 <= i < |items| ==> r.value[i] == items[i].fields
  {
    if items == [] then Some([])
    else if !items[0].JObject? then None
    else
      var rest := DictsOf(items[1..]);
      if rest.None? then None else Some([items[0].fields] + rest.value)
  }

  /** An entry the selection accepts for `scale`: it has a `filename` key (even one
      holding `null`) and its scale is that string. */
  predicate Selected(e: Dict, scale: string)
  {
    "filename" in e && "scale" in e && e["scale"] == JString(scale)
  }

  /** The position of the first entry selected for `scale`. */
  function FirstSelected(entries: seq<Dict>, scale: string): (r: Option<nat>)
    ensures r.Some? ==> r.value < |entries| && Selected(entries[r.value], scale)
                        && forall j :: 0 <= j < r.value ==> !Selected(entries[j], scale)
    ensures r.None? <==> forall j :: 0 <= j < |entries| ==> !Selected(entries[j], scale)
  {
    if entries == [] then None
    else if Selected(entries[0], scale) then Some(0)
    else
      var rest := FirstSelected(entries[1..], scale);
      if rest.None? then None else Some(rest.value + 1)
  }

  /** `filenames.filter { scale == s }.first` with `path` set to the bundle directory. */
  function Pick(entries: seq<Dict>, scale: string, imageSet: string): (r: Option<Dict>)
    ensures r.Some? ==> Selected(r.value, scale) && "path" in r.value && r.value["path"] == JString(imageSet)
    ensures r.Some? ==>
              exists i :: && 0 <= i < |entries| && Selected(entries[i], scale)
                          && (forall j :: 0 <= j < i ==> !Selected(entries[j], scale))
                          && r.value == entries[i]["path" := JString(imageSet)]
    ensures r.None? <==> forall j :: 0 <= j < |entries| ==> !Selected(entries[j], scale)
  {
    var i := FirstSelected(entries, scale);
    if i.None? then None else Some(entries[i.value]["path" := JString(imageSet)])
  }

  function OptionToSeq(o: Option<Dict>): (r: seq<Dict>)
    ensures |r| <= 1
  {
    if o.Some? then [o.value] else []
  }

  /** What one bundle directory contributes to the 2x and 3x lists. */
  function BundlePick(imageSet: string, files: map<string, Read>): (r: (Option<Dict>, Option<Dict>))
  {
    var contents := JsonLoader(imageSet, files);
    if contents.None? || "images" !in contents.value then (None, None)
    else
      var images := AsDictArray(contents.value["images"]);
      if images.None? then (None, None)
      else (Pick(images.value, "2x", imageSet), Pick(images.value, "3x", imageSet))
  }

  /** The bundles in order. */
  function Collect(imageSets: seq<string>, files: map<string, Read>): (r: (seq<Dict>, seq<Dict>))
    ensures |r.0| <= |imageSets| && |r.1| <= |imageSets|
  {
    if imageSets == [] then ([], [])
    else
      var here := BundlePick(imageSets[0], files);
      var rest := Collect(imageSets[1..], files);
      (OptionToSeq(here.0) + rest.0, OptionToSeq(here.1) + rest.1)
  }

  /** Every selected entry has a filename, the requested scale and a `path` naming one
      of the visited bundle directories. */
  lemma {:induction false} CollectEntries(imageSets: seq<string>, files: map<string, Read>)
    ensures forall e: Dict :: e in Collect(imageSets, files).0 ==>
              Selected(e, "2x") && "path" in e && e["path"].JString? && e["path"].s in imageSets
    ensures forall e: Dict :: e in Collect(imageSets, files).1 ==>
              Selected(e, "3x") && "path" in e && e["path"].JString? && e["path"].s in imageSets
  {
    if imageSets != [] {
      CollectEntries(imageSets[1..], files);
      var r := Collect(imageSets, files);
      var rest := Collect(imageSets[1..], files);
      forall e: Dict | e in r.0
        ensures Selected(e, "2x") && "path" in e && e["path"].JString? && e["path"].s in imageSets
      {
        if e !in rest.0 {
          assert e == BundlePick(imageSets[0], files).0.value;
        }
      }
      forall e: Dict | e in r.1
        ensures Selected(e, "3x") && "path" in e && e["path"].JString? && e["path"].s in imageSets
      {
        if e !in rest.1 {
          assert e == BundlePick(imageSets[0], files).1.value;
        }
      }
    }
  }

  /** Bundle order is kept: collecting two runs of bundles one after the other is
      collecting them together. */
  lemma {:induction false} CollectAppend(a: seq<string>, b: seq<string>, files: map<string, Read>)
    ensures Collect(a + b, files).0 == Collect(a, files).0 + Collect(b, files).0
    ensures Collect(a + b, files).1 == Collect(a, files).1 + Collect(b, files).1
  {
    if a == [] {
      assert a + b == b;
    } else {
      assert (a + b)[0] == a[0];
      assert (a + b)[1..] == a[1..] + b;
      CollectAppend(a[1..], b, files);
      var here := BundlePick(a[0], files);
      var x, y := OptionToSeq(here.0), OptionToSeq(here.1);
      assert Collect(a + b, files).0 == x + (Collect(a[1..], files).0 + Collect(b, files).0);
      assert Collect(a + b, files).1 == y + (Collect(a[1..], files).1 + Collect(b, files).1);
      ArrayExt.ConcatAssoc(x, Collect(a[1..], files).0, Collect(b, files).0);
      ArrayExt.ConcatAssoc(y, Collect(a[1..], files).1, Collect(b, files).1);
    }
  }


  /** The image-set directories of a recursive enumeration of `inPath`. */
  function ImageSetPaths(inPath: string, enumeration: seq<string>): (r: seq<string>)
    ensures |r| == |WithSuffix(enumeration, "imageset")|
    ensures forall i :: 0 <= i < |r| ==> r[i] == inPath + "/" + WithSuffix(enumeration, "imageset")[i]
  {
    var folders := WithSuffix(enumeration, "imageset");
    seq(|folders|, i requires 0 <= i < |folders| => inPath + "/" + folders[i])
  }

  /** `getImageData()`: both lists are empty when the catalog cannot be enumerated. */
  function GetImageData(inPath: string, enumeration: Option<seq<string>>, files: map<string, Read>): (r: (seq<Dict>, seq<Dict>))
    ensures enumeration.None? ==> r == ([], [])
    ensures enumeration.Some? ==>
              |r.0| <= |WithSuffix(enumeration.value, "imageset")|
              && |r.1| <= |WithSuffix(enumeration.value, "imageset")|
  {
    if enumeration.None? then ([], [])
    else Collect(ImageSetPaths(inPath, enumeration.value), files)
  }

  /** A bundle whose descriptor is unreadable, or whose `images` is not an array of
      dictionaries, contributes nothing. */
  lemma SkippedBundle(imageSet: string, files: map<string, Read>)
    requires JsonLoader(imageSet, files).None?
             || "images" !in JsonLoader(imageSet, files).value
             || AsDictArray(JsonLoader(imageSet, files).value["images"]).None?
    ensures Collect([imageSet], files) == ([], [])
  {
  }

  /** A readable bundle whose entries are all dictionaries contributes the first
      selected entry of each scale, tagged with its directory, whatever else its
      descriptor holds beside `images`. */
  lemma CollectOneBundle(imageSet: string, files: map<string, Read>, fields: map<string, Json>, entries: seq<Dict>)
    requires ReadFile(files, ContentsFile(imageSet)) == Parsed(JObject(fields))
    requires "images" in fields
    requires fields["images"] == JArray(seq(|entries|, i requires 0 <= i < |entries| => JObject(entries[i])))
    ensures Collect([imageSet], files)
            == (OptionToSeq(Pick(entries, "2x", imageSet)), OptionToSeq(Pick(entries, "3x", imageSet)))
  {
    var items := seq(|entries|, i requires 0 <= i < |entries| => JObject(entries[i]));
    var d := AsDictArray(JArray(items));
    assert d.Some?;
    assert d.value == entries;
    assert JsonLoader(imageSet, files) == Some(fields);
    var here := BundlePick(imageSet, files);
    assert here == (Pick(entries, "2x", imageSet), Pick(entries, "3x", imageSet));
    assert [imageSet][1..] == [];
    assert OptionToSeq(here.0) + [] == OptionToSeq(here.0);
    assert OptionToSeq(here.1) + [] == OptionToSeq(here.1);
  }

  /** A '1x' entry is never selected, an entry without a filename is passed over, and of
      two selectable '2x' entries only the first is taken. */
  lemma FirstEntryPerScale(imageSet: string, e1: Dict, e2: Dict, e3: Dict, e4: Dict)
    requires e1 == map["scale" := JString("1x"), "filename" := JString("a.png")]
    requires e2 == map["scale" := JString("2x")]
    requires e3 == map["scale" := JString("2x"), "filename" := JString("b.png")]
    requires e4 == map["scale" := JString("2x"), "filename" := JString("c.png")]
    ensures Pick([e1, e2, e3, e4], "2x", imageSet) == Some(e3["path" := JString(imageSet)])
    ensures Pick([e1, e2, e3, e4], "3x", imageSet) == None
  {
    var entries := [e1, e2, e3, e4];
    assert !Selected(e1, "2x") && !Selected(e2, "2x") && Selected(e3, "2x");
    assert FirstSelected(entries, "2x") == Some(2) by {
      assert entries[1..] == [e2, e3, e4];
      assert entries[1..][1..] == [e3, e4];
      assert FirstSelected([e3, e4], "2x") == Some(0);
      assert FirstSelected([e2, e3, e4], "2x") == Some(1);
    }
    assert forall j :: 0 <= j < |entries| ==> !Selected(entries[j], "3x");
  }

  // ---------------------------------------------------------------------------
  // AtlasGen.calculateSize

  /** A trap raised by Foundation. */
  datatype Trap = RangeException

  /** `calculateSize(filePath)`, given the file's bytes when it can be read. The 8-byte
      read at offset 16 raises when the file is shorter than 24 bytes; the two
      `CFSwapInt32` calls turn the big-endian fields into host integers. */
  function CalculateSize(file: Option<seq<Byte>>): (r: Result<(nat, nat), Trap>)
    ensures file.None? ==> r == Success((0, 0))
    ensures r.Failure? <==> file.Some? && |file.value| < 24
  {
    if file.None? then Success((0, 0))
    else if |file.value| < 24 then Failure(RangeException)
    else Success((ReadBigEndian32(file.value[16..20]), ReadBigEndian32(file.value[20..24])))
  }

  /** On a PNG file the probe returns the width and height stored in its IHDR chunk,
      whatever follows the header. */
  lemma CalculateSizeReadsIhdr(width: nat, height: nat, rest: seq<Byte>)
    requires width < 0x1_0000_0000 && height < 0x1_0000_0000
    ensures CalculateSize(Some(HeaderPrefix(width, height) + rest)) == Success((width, height))
  {
    var bytes := HeaderPrefix(width, height) + rest;
    assert bytes[16..20] == BigEndian32(width);
    assert bytes[20..24] == BigEndian32(height);
    ReadBigEndian32Inverse(width);
    ReadBigEndian32Inverse(height);
  }
}
