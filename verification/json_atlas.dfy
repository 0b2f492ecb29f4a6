/** The first-generation texture atlas (`src/public/TextureAtlas.swift`): the atlas
    image is prebuilt, and a JSON data asset named after it and the screen scale maps
    every texture name to its frame. */
module JsonAtlas {
  import opened Wrappers
  import opened Json
  import opened Strings
  import opened TextureAtlas
  import opened AtlasGrid

  /** Swift's `Int(x)` on a floating-point value: truncation toward zero. */
  function TruncateToInt(x: real): (i: int)
    ensures x >= 0.0 ==> i as real <= x < (i + 1) as real
    ensures x < 0.0 ==> (i - 1) as real < x <= i as real
  {
    if x >= 0.0 then x.Floor else -((-x).Floor)
  }

  /** `"\(i)"`. */
  function IntToString(i: int): (s: string)
    ensures i >= 0 ==> s == NatToString(i)
    ensures i < 0 ==> s == "-" + NatToString(-i)
  {
    if i >= 0 then NatToString(i) else "-" + NatToString(-i)
  }

  /** The data asset the atlas named `name` loads on a screen of scale `screenScale`. */
  function AssetName(name: string, screenScale: real): (r: string)
    ensures |r| >= |name| + 3 && r[..|name|] == name && r[|name|] == '@' && r[|r| - 1] == 'x'
  {
    name + "@" + IntToString(TruncateToInt(screenScale)) + "x"
  }

  /** On a screen whose scale lies in [1, 10) the asset name carries one digit, the
      scale with its fractional part dropped, and that digit reads back as the scale. */
  lemma AssetNameScale(name: string, screenScale: real)
    requires 1.0 <= screenScale < 10.0
    ensures var r := AssetName(name, screenScale);
            |r| == |name| + 3 && IsDigit(r[|name| + 1])
            && DigitValue(r[|name| + 1]) == screenScale.Floor
  {
    var k := TruncateToInt(screenScale);
    assert 1 <= k < 10;
    ParseNatToString(k);
  }

  /** A loaded atlas: its frame map and its texture. */
  datatype JAtlas = JAtlas(jsonData: map<string, Json>, texture: Texture)

  /** `loadJSONData(name:scale:)`: the asset's top-level dictionary, or nothing when the
      asset is missing, is not JSON, or is not a dictionary. */
  function LoadJsonData(assetName: string, assets: map<string, Read>): (r: Option<map<string, Json>>)
    ensures r.Some? <==> ReadFile(assets, assetName).Parsed? && ReadFile(assets, assetName).value.JObject?
  {
    match ReadFile(assets, assetName)
    case Parsed(JObject(m)) => Some(m)
    case _ => None
  }

  /** `init?(named:)`; `texture` is what `Texture(named:)` loads for the atlas image. */
  function Init(named: string, screenScale: real, assets: map<string, Read>, texture: Texture): (r: Option<JAtlas>)
    ensures r.None? <==> LoadJsonData(AssetName(named, screenScale), assets).None?
    ensures r.Some? ==> r.value.texture == texture
                        && r.value.jsonData == ReadFile(assets, AssetName(named, screenScale)).value.fields
  {
    var data := LoadJsonData(AssetName(named, screenScale), assets);
    if data.None? then None else Some(JAtlas(data.value, texture))
  }

  /** `textureNames`: the top-level keys, in whatever order the dictionary yields
      them; only the set is modelled. */
  function TextureNames(atlas: JAtlas): (r: set<string>)
    ensures forall n :: n in r <==> n in atlas.jsonData
  {
    atlas.jsonData.Keys
  }

  /** `fields[key] as? Int` gives `v`. */
  predicate IntAt(fields: map<string, Json>, key: string, v: int)
  {
    key in fields && AsInt(Some(fields[key])) == Some(v)
  }

  /** The entry is a dictionary whose `frame` is a dictionary giving `rect`'s `x`,
      `y`, `width` and `height` as integers; either may hold other keys too, such
      as the `size` the generator writes next to `frame`. */
  predicate Describes(entry: Json, rect: Rect)
  {
    && entry.JObject? && "frame" in entry.fields
    && entry.fields["frame"].JObject?
    && var frame := entry.fields["frame"].fields;
       && IntAt(frame, "x", rect.x) && IntAt(frame, "y", rect.y)
       && IntAt(frame, "width", rect.width) && IntAt(frame, "height", rect.height)
  }

  /** The four integers of an entry's frame: there is a rect exactly when the entry
      describes one, and then it is that rect. */
  function FrameOf(entry: Option<Json>): (r: Option<Rect>)
    ensures r.Some? ==> entry.Some? && Describes(entry.value, r.value)
    ensures entry.Some? && (exists rect :: Describes(entry.value, rect)) ==> r.Some?
  {
    var frame := AsObject(FieldOf(entry, "frame"));
    if AsObject(entry).None? || frame.None? then None
    else
      var f := FieldOf(entry, "frame");
      var x, y := AsInt(FieldOf(f, "x")), AsInt(FieldOf(f, "y"));
      var w, h := AsInt(FieldOf(f, "width")), AsInt(FieldOf(f, "height"));
      if x.None? || y.None? || w.None? || h.None? then None
      else Some(Rect(x.value, y.value, w.value, h.value))
  }

  /** An entry describes at most one rect. */
  lemma DescribesUnique(entry: Json, a: Rect, b: Rect)
    requires Describes(entry, a) && Describes(entry, b)
    ensures a == b
  {
  }

  /** `textureNamed(named:)`: a texture sharing the atlas's GPU texture and uuid that
      shows the entry's frame; nothing for a missing entry, one that is not an object,
      or a frame without four integers. The light map is not passed on. */
  function TextureNamed(atlas: JAtlas, named: string): (r: Option<Texture>)
    ensures r.Some? <==> named in atlas.jsonData && exists rect :: Describes(atlas.jsonData[named], rect)
    ensures r.Some? ==>
              && Describes(atlas.jsonData[named],
                           Rect(r.value.frame.x, r.value.frame.y, r.value.frame.sWidth, r.value.frame.sHeight))
              && r.value.gpu == atlas.texture.gpu
              && r.value.uuid == atlas.texture.uuid
              && r.value.lightMap.None?
              && r.value.frame.tWidth == atlas.texture.width
              && r.value.frame.tHeight == atlas.texture.height
              && r.value.width == r.value.frame.sWidth && r.value.height == r.value.frame.sHeight
  {
    var rect := FrameOf(if named in atlas.jsonData then Some(atlas.jsonData[named]) else None);
    if rect.None? then None
    else
      var r := rect.value;
      var frame := TextureFrame(r.x, r.y, r.width, r.height, atlas.texture.width, atlas.texture.height);
      Some(Texture(atlas.texture.gpu, None, atlas.texture.uuid, frame.sWidth, frame.sHeight, frame))
  }

  /** An entry whose `frame` holds four integers, whatever else the entry and the
      frame hold, is read back as exactly those four. */
  lemma TextureNamedReadsFrameEntry(atlas: JAtlas, named: string, fields: map<string, Json>,
                                    frame: map<string, Json>, x: int, y: int, w: int, h: int)
    requires named in atlas.jsonData && atlas.jsonData[named] == JObject(fields)
    requires "frame" in fields && fields["frame"] == JObject(frame)
    requires "x" in frame && frame["x"] == JInt(x) && "y" in frame && frame["y"] == JInt(y)
    requires "width" in frame && frame["width"] == JInt(w) && "height" in frame && frame["height"] == JInt(h)
    ensures TextureNamed(atlas, named).Some?
    ensures TextureNamed(atlas, named).value.frame
            == TextureFrame(x, y, w, h, atlas.texture.width, atlas.texture.height)
  {
    assert Describes(atlas.jsonData[named], Rect(x, y, w, h));
    var t := TextureNamed(atlas, named).value;
    DescribesUnique(atlas.jsonData[named], Rect(x, y, w, h), Rect(t.frame.x, t.frame.y, t.frame.sWidth, t.frame.sHeight));
  }

  /** A frame whose `x`, `y`, `width` or `height` is missing, or is not a number,
      yields nothing. */
  lemma TextureNamedNeedsAllFour(atlas: JAtlas, named: string, fields: map<string, Json>,
                                 frame: map<string, Json>, key: string)
    requires key in {"x", "y", "width", "height"}
    requires named in atlas.jsonData && atlas.jsonData[named] == JObject(fields)
    requires "frame" in fields && fields["frame"] == JObject(frame)
    requires key !in frame || AsInt(Some(frame[key])).None?
    ensures TextureNamed(atlas, named).None?
  {
  }

  /** An entry without a dictionary under `frame` yields nothing. */
  lemma TextureNamedNeedsFrame(atlas: JAtlas, named: string, fields: map<string, Json>)
    requires named in atlas.jsonData && atlas.jsonData[named] == JObject(fields)
    requires "frame" !in fields || !fields["frame"].JObject?
    ensures TextureNamed(atlas, named).None?
  {
  }
}
