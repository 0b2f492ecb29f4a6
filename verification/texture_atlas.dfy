/** The in-engine texture atlas: the builder (`TextureLoader.makeTextureAtlas`, and the
    older `TextureAtlas.init(imageNames:contentScale:createLightMap:)`), which copies
    equal-size square images into one GPU texture on a near-square grid, and the lookup
    that hands out a texture sharing the atlas with the frame of one image. GPU
    textures are abstracted to an identity and a size. */
module TextureAtlas {
  import opened Wrappers
  import opened AtlasGrid

  /** The largest canvas side the builders accept is one below this. */
  const MaxCanvasEdge: int := 4096

  /** The size of a loaded image. */
  datatype Size = Size(width: nat, height: nat)

  /** A GPU texture: an identity and its size. */
  datatype Gpu = Gpu(id: nat, width: nat, height: nat)

  /** The sub-rectangle of a GPU texture a `Texture` shows, and that texture's size. */
  datatype TextureFrame = TextureFrame(x: int, y: int, sWidth: int, sHeight: int, tWidth: int, tHeight: int)

  /** A `Texture`: the GPU texture and light map it refers to, its uuid (which is also
      its hash), its size and its frame. */
  datatype Texture = Texture(gpu: Gpu, lightMap: Option<Gpu>, uuid: nat, width: int, height: int, frame: TextureFrame)

  /** `Texture(texture:)`: the whole GPU texture. */
  function WholeTexture(gpu: Gpu, uuid: nat): (t: Texture)
    ensures t.width == gpu.width && t.height == gpu.height
    ensures t.frame == TextureFrame(0, 0, gpu.width, gpu.height, gpu.width, gpu.height)
  {
    Texture(gpu, None, uuid, gpu.width, gpu.height, TextureFrame(0, 0, gpu.width, gpu.height, gpu.width, gpu.height))
  }

  /** The atlas texture: the whole of a new `columns * side` by `rows * side` GPU
      texture with identity `canvas`. */
  function CanvasTexture(canvas: nat, rows: nat, columns: nat, side: nat, uuid: nat): (t: Texture)
    ensures t.width == columns * side && t.height == rows * side
  {
    WholeTexture(Gpu(canvas, columns * side, rows * side), uuid)
  }

  /** `AtlasCreation`. */
  datatype AtlasError =
    | OneImage
    | MissingImage
    | Dimensions
    | TooLarge(rowsPixels: int, columnsPixels: int)

  /** A `TextureAtlas`: the frame of every name, the atlas texture, its optional light
      map and the names it was built from. */
  datatype Atlas = Atlas(data: map<string, Rect>, texture: Texture, lightMapTexture: Option<Texture>, textureNames: seq<string>)

  /** What both builders share once the grid is chosen: the guard on the canvas size,
      the canvas, and the cursor layout. `canvas` is the identity the GPU gives the new
      texture and `uuid` the one the new `Texture` draws; `lightMap` is what the light
      map pass produces for it, used only when asked for. */
  method Assemble(names: seq<string>, side: nat, rows: nat, columns: nat,
                  canvas: nat, uuid: nat, createLightMap: bool, lightMap: Option<Texture>)
    returns (r: Result<Atlas, AtlasError>)
    requires columns > 0 && |names| <= rows * columns
    ensures r.Failure? <==> rows * side >= MaxCanvasEdge || columns * side >= MaxCanvasEdge
    ensures r.Failure? ==> r.error == TooLarge(rows * side, columns * side)
    ensures r.Success? ==>
              && r.value.data == Frames(names, columns, side)
              && r.value.texture == CanvasTexture(canvas, rows, columns, side, uuid)
              && r.value.lightMapTexture == (if createLightMap then lightMap else None)
              && r.value.textureNames == names
    ensures r.Success? ==>
              forall n :: n in r.value.data ==> Inside(r.value.data[n], r.value.texture.width, r.value.texture.height)
    ensures r.Success? && side > 0 ==>
              forall a, b :: a in r.value.data && b in r.value.data && a != b ==>
                Disjoint(r.value.data[a], r.value.data[b])
  {
    FramesInCanvas(names, rows, columns, side);
    if side > 0 {
      FramesDisjoint(names, columns, side);
    }
    if !(rows * side < MaxCanvasEdge && columns * side < MaxCanvasEdge) {
      return Failure(TooLarge(rows * side, columns * side));
    }
    var data := Layout(names, columns, side, side);
    var texture := CanvasTexture(canvas, rows, columns, side, uuid);
    var lightMapTexture := if createLightMap then lightMap else None;
    return Success(Atlas(data, texture, lightMapTexture, names));
  }

  /** The images `makeTextureAtlas` works with: `getTexture(named:)` never fails, it
      substitutes the error texture for a name it cannot load. */
  function LoadAll(names: seq<string>, loaded: map<string, Size>, errorSize: Size): (r: seq<Size>)
    ensures |r| == |names|
    ensures forall i :: 0 <= i < |names| ==> r[i] == (if names[i] in loaded then loaded[names[i]] else errorSize)
  {
    seq(|names|, i requires 0 <= i < |names| => if names[i] in loaded then loaded[names[i]] else errorSize)
  }

  /** `TextureLoader.makeTextureAtlas(imageNames:createLightMap:)`. */
  method MakeTextureAtlas(names: seq<string>, loaded: map<string, Size>, errorSize: Size,
                          canvas: nat, uuid: nat, createLightMap: bool, lightMap: Option<Texture>)
    returns (r: Result<Atlas, AtlasError>)
    ensures |names| == 0 ==> r == Failure(Dimensions)
    ensures |names| > 0 && LoadAll(names, loaded, errorSize)[0].width != LoadAll(names, loaded, errorSize)[0].height ==>
              r == Failure(Dimensions)
    ensures |names| > 0 && LoadAll(names, loaded, errorSize)[0].width == LoadAll(names, loaded, errorSize)[0].height ==>
              var side := LoadAll(names, loaded, errorSize)[0].width;
              var grid := Factor(|names|);
              (r.Failure? <==> grid.0 * side >= MaxCanvasEdge || grid.1 * side >= MaxCanvasEdge)
              && (r.Failure? ==> r.error == TooLarge(grid.0 * side, grid.1 * side))
    ensures r.Success? ==>
              var side := LoadAll(names, loaded, errorSize)[0].width;
              var grid := Factor(|names|);
              && |names| > 0
              && grid.0 * grid.1 >= |names|
              && r.value.data == Frames(names, grid.1, side)
              && r.value.texture == CanvasTexture(canvas, grid.0, grid.1, side, uuid)
              && r.value.lightMapTexture == (if createLightMap then lightMap else None)
              && r.value.textureNames == names
              && (forall n :: n in r.value.data ==> Inside(r.value.data[n], r.value.texture.width, r.value.texture.height))
              && (side > 0 ==> forall a, b :: a in r.value.data && b in r.value.data && a != b ==>
                                 Disjoint(r.value.data[a], r.value.data[b]))
  {
    var images := LoadAll(names, loaded, errorSize);
    if |images| == 0 || images[0].width != images[0].height {
      return Failure(Dimensions);
    }
    var side := images[0].width;
    var grid := Factor(|names|);
    var rows, columns := grid.0, grid.1;
    r := Assemble(names, side, rows, columns, canvas, uuid, createLightMap, lightMap);
  }

  /** What the app bundle holds under a name, as `Texture(named:contentScale:)` sees
      it: a PNG the texture loader reads, of some size, or one it fails to read. That
      initialiser is the engine's, in GameEngine/Nodes/Rendered/Texture.swift; the
      older tree's own `Texture` has only `init(named:)`. */
  datatype Resource = Readable(size: Size) | Unreadable

  /** `Texture(named:contentScale:)` stops the program with `fatalError` when the
      bundle has no PNG of the name. */
  datatype Fatal = NotInBundle(name: string)

  /** The size of the texture `Texture(named:contentScale:)` makes from a resource:
      the PNG's, or the error texture's when the loader fails. */
  function SizeOf(res: Resource, errorSize: Size): Size
  {
    if res.Readable? then res.size else errorSize
  }

  /** The images `init(imageNames:contentScale:createLightMap:)` works with. The
      initialiser it calls never yields nil, so the `flatMap` keeps every image: the
      first name without a PNG stops the program, and a PNG the loader cannot read
      gives the error texture. */
  function LoadNamed(names: seq<string>, bundle: map<string, Resource>, errorSize: Size): (r: Result<seq<Size>, Fatal>)
    ensures r.Failure? <==> exists n :: n in names && n !in bundle
    ensures r.Failure? ==>
              exists i :: 0 <= i < |names| && names[i] == r.error.name && names[i] !in bundle
                          && forall j :: 0 <= j < i ==> names[j] in bundle
    ensures r.Success? ==>
              && |r.value| == |names|
              && forall i :: 0 <= i < |names| ==> r.value[i] == SizeOf(bundle[names[i]], errorSize)
  {
    if names == [] then Success([])
    else if names[0] !in bundle then Failure(NotInBundle(names[0]))
    else
      var rest := LoadNamed(names[1..], bundle, errorSize);
      assert forall j :: 0 < j < |names| ==> names[1..][j - 1] == names[j];
      assert forall n :: n in names <==> n == names[0] || n in names[1..];
      if rest.Failure? then
        var k :| 0 <= k < |names[1..]| && names[1..][k] == rest.error.name && names[1..][k] !in bundle
                 && forall j :: 0 <= j < k ==> names[1..][j] in bundle;
        assert names[k + 1] == rest.error.name;
        Failure(rest.error)
      else
        Success([SizeOf(bundle[names[0]], errorSize)] + rest.value)
  }

  /** `TextureAtlas.init(imageNames:contentScale:createLightMap:)`. The outer result
      is whether the program goes on past loading the images; the inner one is what
      the initialiser returns or throws. The images all come back, so the
      `missingImage` guard never fires; the grid is `factor(count)`. */
  method InitAtlas(names: seq<string>, bundle: map<string, Resource>, errorSize: Size,
                   canvas: nat, uuid: nat, createLightMap: bool, lightMap: Option<Texture>)
    returns (r: Result<Result<Atlas, AtlasError>, Fatal>)
    ensures |names| <= 1 ==> r == Success(Failure(OneImage))
    ensures |names| > 1 ==> (r.Failure? <==> exists n :: n in names && n !in bundle)
    ensures r.Success? ==> r.value != Failure(MissingImage)
    ensures |names| > 1 && (forall n :: n in names ==> n in bundle) ==>
              var first := SizeOf(bundle[names[0]], errorSize);
              var grid := Factor(|names|);
              && r.Success?
              && (first.width != first.height ==> r.value == Failure(Dimensions))
              && (first.width == first.height ==>
                    && (r.value.Failure? <==> grid.0 * first.width >= MaxCanvasEdge || grid.1 * first.width >= MaxCanvasEdge)
                    && (r.value.Failure? ==> r.value.error == TooLarge(grid.0 * first.width, grid.1 * first.width)))
    ensures r.Success? && r.value.Success? ==>
              var atlas := r.value.value;
              var side := SizeOf(bundle[names[0]], errorSize).width;
              var grid := Factor(|names|);
              && |names| > 1
              && (forall n :: n in names ==> n in bundle)
              && grid.0 * grid.1 >= |names|
              && atlas.data == Frames(names, grid.1, side)
              && atlas.texture == CanvasTexture(canvas, grid.0, grid.1, side, uuid)
              && atlas.lightMapTexture == (if createLightMap then lightMap else None)
              && atlas.textureNames == names
              && (forall n :: n in atlas.data ==> Inside(atlas.data[n], atlas.texture.width, atlas.texture.height))
              && (side > 0 ==> forall a, b :: a in atlas.data && b in atlas.data && a != b ==>
                                 Disjoint(atlas.data[a], atlas.data[b]))
  {
    if |names| <= 1 {
      return Success(Failure(OneImage));
    }
    var images := LoadNamed(names, bundle, errorSize);
    if images.Failure? {
      return Failure(images.error);
    }
    if images.value[0].width != images.value[0].height {
      return Success(Failure(Dimensions));
    }
    assert images.value[0] == SizeOf(bundle[names[0]], errorSize);
    var side := images.value[0].width;
    var grid := Factor(|names|);
    var rows, columns := grid.0, grid.1;
    var built := Assemble(names, side, rows, columns, canvas, uuid, createLightMap, lightMap);
    return Success(built);
  }

  /** `texture(named:)` (and `textureNamed`, and the subscript, which returns it): a
      texture sharing the atlas's GPU texture, light map and uuid, showing the frame
      recorded for the name. */
  function TextureNamed(atlas: Atlas, name: string): (r: Option<Texture>)
    ensures r.None? <==> name !in atlas.data
    ensures r.Some? ==>
              var rect := atlas.data[name];
              && r.value.frame == TextureFrame(rect.x, rect.y, rect.width, rect.height,
                                               atlas.texture.width, atlas.texture.height)
              && r.value.width == rect.width && r.value.height == rect.height
              && r.value.gpu == atlas.texture.gpu
              && r.value.uuid == atlas.texture.uuid
              && r.value.lightMap == (if atlas.lightMapTexture.Some? then Some(atlas.lightMapTexture.value.gpu) else None)
  {
    if name !in atlas.data then None
    else
      var rect := atlas.data[name];
      var frame := TextureFrame(rect.x, rect.y, rect.width, rect.height, atlas.texture.width, atlas.texture.height);
      var lightMap := if atlas.lightMapTexture.Some? then Some(atlas.lightMapTexture.value.gpu) else None;
      Some(Texture(atlas.texture.gpu, lightMap, atlas.texture.uuid, frame.sWidth, frame.sHeight, frame))
  }

  /** For an atlas laid out by the builders, the texture handed out for the `i`-th name
      (its last occurrence) shows cell `i` of the grid, and every texture is as large as
      one image. */
  lemma TextureNamedShowsCell(atlas: Atlas, names: seq<string>, columns: nat, side: nat, i: nat)
    requires columns > 0 && atlas.data == Frames(names, columns, side)
    requires i < |names| && forall j :: i < j < |names| ==> names[j] != names[i]
    ensures var t := TextureNamed(atlas, names[i]);
            t.Some?
            && t.value.frame.x == (i % columns) * side
            && t.value.frame.y == (i / columns) * side
            && t.value.width == side && t.value.height == side
  {
    assert names[i] in names;
  }

  /** A name the atlas was not built from yields nothing. */
  lemma TextureNamedUnknown(atlas: Atlas, names: seq<string>, columns: nat, side: nat, name: string)
    requires columns > 0 && atlas.data == Frames(names, columns, side)
    requires name !in names
    ensures TextureNamed(atlas, name).None?
  {
  }
}
