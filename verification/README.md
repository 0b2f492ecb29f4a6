# A Dafny model of the Metal game engine's layout and bookkeeping core

The engine is a small 2D game engine for Apple's Metal. Underneath its GPU and UI
code sit pieces of plain integer and list logic, and this project models those
pieces and proves properties about them:

- **Offline texture-atlas tools.** The Python script `AtlasGen.py` and its Swift
  twin `AtlasGen.swift`. They decide whether an asset catalog needs rebuilding,
  collect the 2x and 3x images of every image set, size the atlas grid and place
  the images on it, and rewrite the output bundle's `Contents.json`. The Swift
  tool also reads image sizes out of the PNG `IHDR` header.
- **In-engine atlas builders and lookups.** `TextureLoader.makeTextureAtlas` and
  its `factor` pick a near-square grid and lay equal square images out on it. The
  older `TextureAtlas.init(imageNames:...)` does the same. Three `texture(named:)`
  lookups hand out a texture showing one frame of the atlas; one of them reads its
  frames from a JSON data asset.
- **Rendering arithmetic.** `Quad.indices` builds the 16-bit index list that draws
  quads as two triangles each. `Buffer` keeps the triple-buffered vertex storage
  that `add`, `update` and `nextBuffer` address.
- **Scene-graph bookkeeping.**
  - the `Tree` walks `allParents` and `allNodes`;
  - `Node.add` and `Node.remove`;
  - the `find` and `remove` array helpers;
  - `GraphCache`, the per-kind render lists and the per-texture sprite groups
    with their indices;
  - `GraphCache`'s `remove(node:)` is modelled as written and as evidently
    intended (see Findings). `update`, which removes a whole subtree, takes the
    reading as a parameter.
- **Actions, in both generations.** The engine's `Action` and `ActionSequence`
  count the timer up, can repeat forever and fire completions. The first
  generation in `src/public` counts the timer down from the duration. Both have
  factories and node-side `update`, `run(action:)` and `stopAction`.
  The engine's `getNextAction` is modelled twice, as written and as evidently
  intended (see Findings). Running an action, `update` and the lemmas about them
  take the reading as a parameter, so each of them holds under both.

Files and time are inputs:

- A file system is a map from path to what reading and decoding that path gives:
  absent, malformed or a JSON value.
- A directory listing is a sequence of names.
- Durations and ticks are exact `real`s, not the source's rounded `Double`s.
- GPU textures are an identity and a size.
- A node is an id in a map recording its parent, children, scene, camera and kind.
- A `Buffer` is a sequence of bytes.
- `GraphCache` tracks which sprite's quad sits at which byte offset of its
  texture's buffer.

Every Swift trap and uncaught Python exception is an explicit error value.

The subscripts of the two `TextureAtlas` classes return `texture(named:)` and
`textureNamed` unchanged, so `TextureAtlas.TextureNamed` models both. Likewise,
`Tree`'s `+=` and `-=` are `SceneNode.Add` and `SceneNode.Remove`.

## Model

| member | source | states |
|---|---|---|
| AtlasGenPy.UpdateRequired | resources/AtlasGen.py:25-33 | Reading or decoding the root descriptor is not guarded: an absent or malformed file ends the run. A decoded one gives false exactly when `c['info']['customVersion']` can be looked up, whatever its value, and true on any failure of that lookup. |
| AtlasGenPy.UpdateRequiredIgnoresVersionValue | resources/AtlasGen.py:29-31 | Any two values stored under `customVersion`, `null` included, give the same answer: no update. |
| AtlasGenPy.UpdateRequiredWhenInfoIsList | resources/AtlasGen.py:29-33 | An `info` that is a list, even one holding the key's name, makes the lookup fail, so an update is needed. |
| AtlasGenPy.StripContentsPath | resources/AtlasGen.py:48-58 | Cutting `Contents.json` off a descriptor path built for a bundle gives back the bundle directory with its trailing slash. |
| AtlasGenPy.Handler | resources/AtlasGen.py:63-66 | The `except` branch contributes nothing. It ends the run when the entry has no `scale` or a scale that cannot be concatenated into the warning. |
| AtlasGenPy.ClassifyEntry | resources/AtlasGen.py:55-66 | An entry with a string filename goes to the 2x list when its scale is '2x'. Any other scale, '1x' included, sends it to the 3x list, at directory plus filename. An entry without a filename contributes nothing. A non-object entry ends the run. |
| AtlasGenPy.ImagesOf | resources/AtlasGen.py:52-55 | The loop runs over the `images` array. A descriptor without `images` ends the run. |
| AtlasGenPy.ScanEntriesPaths | resources/AtlasGen.py:55-62 | Every collected path starts with the bundle directory. Together the two lists hold at most one path per entry. |
| AtlasGenPy.ScanBundlesAppend | resources/AtlasGen.py:47-50 | Scanning two runs of bundles one after the other equals scanning them together, so output follows listing order. |
| AtlasGenPy.ScanOneBundle | resources/AtlasGen.py:47-62 | One bundle's result is its entries scanned under its directory, in entry order, whatever else its descriptor holds beside `images`. |
| AtlasGenPy.GetImageData | resources/AtlasGen.py:46-67 | Only listing entries ending in `imageset` are visited. Their paths are appended to the lists kept on the instance. A missing input directory ends the run. |
| AtlasGenPy.GetImageDataTwice | resources/AtlasGen.py:46-67 | A second call on the same disk appends the same paths again, duplicating every entry. |
| AtlasGenPy.UpdateContents | resources/AtlasGen.py:79-115 | With no readable descriptor the default three-slot descriptor is written. '2x' names slot 1 `<name>@2x.png`; any other scale names slot 2 `<name>@3x.png`. Nothing else changes. |
| AtlasGenPy.UpdateContentsIdempotent | resources/AtlasGen.py:84-90 | Writing the same scale twice leaves the descriptor as the first write left it. |
| AtlasGenPy.FreshBundleNamesBothScales | resources/AtlasGen.py:84-115 | A 2x write into a fresh bundle, followed by a 3x write, yields the default descriptor naming both files. |
| AtlasGenPy.GridSideFrom | resources/AtlasGen.py:134-136 | The doubling loop ends at a power of two `d = 2^rows` that is at least the count, with the previous power below it. |
| AtlasGenPy.GridSide | resources/AtlasGen.py:131-136 | `d` is the least power of two that is at least 2 and at least the count, and `rows` is its base-2 logarithm. |
| AtlasGenPy.GetDimensions | resources/AtlasGen.py:131-139 | The result is `(size*d, size*rows)`. It raises exactly when `size*d >= 4096`. |
| AtlasGenPy.ColumnInside | resources/AtlasGen.py:155-166 | Column `i < d` of side `s` lies within the `s*d` by `s*rows` canvas. |
| AtlasGenPy.MakeAtlas | resources/AtlasGen.py:141-167 | Each outcome has exactly its own cause. No images raise IndexError. An unreadable or non-square first image gives None. An atlas too large raises. The first unreadable image among the rest raises IOError naming it. Nothing else fails, so an atlas comes back exactly when every image opens. Its canvas is the `getDimensions` size, and image `i` is pasted at `(i*s, 0)`, inside the canvas, because the row wrap never fires. |
| AtlasGenSwift.JsonLoader | resources/AtlasGen.swift:40-50 | The loader yields a dictionary exactly when the descriptor reads and decodes to a JSON object. |
| AtlasGenSwift.UpdateRequired | resources/AtlasGen.swift:31-38 | The result is false when there is no readable dictionary, or when `info.customVersion` is an integer. It is true otherwise, including for a `customVersion` of another type. |
| AtlasGenSwift.UpdateRequiredDiffersFromScript | resources/AtlasGen.swift:33-37 | A string `customVersion` makes the Swift tool rebuild where the script does not. A missing descriptor makes the Swift tool skip the rebuild where the script crashes. |
| AtlasGenSwift.AsDictArray | resources/AtlasGen.swift:62 | The cast succeeds exactly on an array whose every element is an object, and keeps its length. |
| AtlasGenSwift.FirstSelected | resources/AtlasGen.swift:64-67 | The result is the first entry that has a `filename` and the requested scale, or none when there is no such entry. |
| AtlasGenSwift.Pick | resources/AtlasGen.swift:64-68 | There is a pick exactly when some entry has a filename and the scale. The pick is the first such entry with every key kept and `path` set to the bundle directory. |
| AtlasGenSwift.CollectEntries | resources/AtlasGen.swift:64-76 | Every collected entry has a filename and the right scale, and its `path` names one of the bundles. |
| AtlasGenSwift.CollectAppend | resources/AtlasGen.swift:57-76 | Collecting two runs of bundles one after the other equals collecting them together, so bundle order is kept in both lists. |
| AtlasGenSwift.ImageSetPaths | resources/AtlasGen.swift:56-58 | The result is the enumerated names ending in `imageset`, in order, each prefixed by the input directory. |
| AtlasGenSwift.GetImageData | resources/AtlasGen.swift:52-80 | The lists are empty when the catalog cannot be enumerated. Otherwise each holds at most one entry per image-set directory. |
| AtlasGenSwift.SkippedBundle | resources/AtlasGen.swift:61-62 | A bundle whose descriptor is unreadable, or whose `images` is not an array of objects, contributes nothing. |
| AtlasGenSwift.CollectOneBundle | resources/AtlasGen.swift:60-76 | A readable bundle whose entries are dictionaries contributes at most one 2x and one 3x entry, the picks for those scales, whatever else its descriptor holds beside `images`. |
| AtlasGenSwift.FirstEntryPerScale | resources/AtlasGen.swift:64-67 | A '1x' entry is never picked, an entry without a filename is passed over, and the first 2x entry with a filename wins. |
| AtlasGenSwift.CalculateSize | resources/AtlasGen.swift:142-148 | An unreadable file gives `(0, 0)`. Fewer than 24 bytes trap. Otherwise the result is the big-endian integers at bytes 16-19 and 20-23. |
| AtlasGenSwift.CalculateSizeReadsIhdr | resources/AtlasGen.swift:144-147 | On a PNG file the result is the width and height stored in its IHDR chunk. |
| PngHeader.ReadBigEndian32Inverse | resources/AtlasGen.swift:146-147 | Writing a 32-bit value as four big-endian bytes and reading them back gives the value. |
| PngHeader.BigEndian32Inverse | resources/AtlasGen.swift:146-147 | Reading four bytes and writing the value back gives the bytes. |
| Strings.WithSuffix | resources/AtlasGen.py:47 | The result holds exactly the names ending in the suffix, and no more entries than the listing. |
| Strings.WithSuffixAppend | resources/AtlasGen.py:47-50 | The suffix filter distributes over concatenation. |
| AtlasGrid.Divisors | GameEngine/Views/TextureLoader.swift:108-117 | The collected divisors are exactly the `d` with `2 <= d < floor(n/2)` that divide `n`, in increasing order. |
| AtlasGrid.Spreads | GameEngine/Views/TextureLoader.swift:120 | Each divisor's spread is `max - min` of the divisor and its partner. |
| AtlasGrid.LeastIndex | GameEngine/Views/TextureLoader.swift:121-122 | Sorting `(spread, position)` pairs and taking the first gives the earliest least spread. |
| AtlasGrid.DivisorsFindSplit | GameEngine/Views/TextureLoader.swift:112-126 | The loop finds a divisor exactly when the count has an acceptable split. |
| AtlasGrid.EvenCountsFactorable | GameEngine/Views/TextureLoader.swift:127 | Every even count from 6 on has the split at 2, so the rounding up of the count ends. |
| AtlasGrid.FactorCount | GameEngine/Views/TextureLoader.swift:119-127 | The count that is finally split is the first one at or after `n` that has a divisor. |
| AtlasGrid.LeastIndexIsBest | GameEngine/Views/TextureLoader.swift:119-123 | The chosen divisor is the best split: the least spread, ties going to the smaller first factor. |
| AtlasGrid.SplitColumns | GameEngine/Views/TextureLoader.swift:108-117 | The partner of a collected divisor is at least 3. |
| AtlasGrid.Split | GameEngine/Views/TextureLoader.swift:119-126 | Once divisors exist, the pair returned is the best split and its partner, with product `n`, rows at least 2 and columns at least 3. |
| AtlasGrid.BestIndex | GameEngine/Views/TextureLoader.swift:120-122 | The position picked holds the least spread, and every earlier position holds a greater one. |
| AtlasGrid.Factor | GameEngine/Views/TextureLoader.swift:107-128 | `factor(n)` is the best split of the first count at or after `n` that has one. Its product is that count, at least `n`, with rows at least 2. The older copy at Sources/public/TextureAtlas.swift:97-118 computes the same split: its closure `{ $0.0 < $0.1 }` binds `$0` to the pair of arguments and so compares `(spread, position)` tuples lexicographically, as `sorted(by: <)` does. |
| AtlasGrid.BestSplitUnique | GameEngine/Views/TextureLoader.swift:119-123 | At most one split of a count is best, so the contract of `Factor` determines its result. |
| AtlasGrid.FactorSmallCounts | GameEngine/Views/TextureLoader.swift:107-128 | Counts up to 6 are rounded up to 6 and get two rows of three. |
| AtlasGrid.FactorTwelve | GameEngine/Views/TextureLoader.swift:107-128 | Twelve images get three rows of four. |
| AtlasGrid.FactorIs | GameEngine/Views/TextureLoader.swift:119-126 | A count that is not rounded up is split at its best split. |
| AtlasGrid.ThreeBestForTwelve | GameEngine/Views/TextureLoader.swift:120-122 | For twelve, 3 and 4 are equally square and the tie goes to 3. |
| AtlasGrid.CursorStep | GameEngine/Views/TextureLoader.swift:93-97 | The step is `x += w`, wrapping to the next row at `columns*w`. It takes the cursor of image `i` to `((i+1) mod c * w, (i+1) div c * w)`. |
| AtlasGrid.Frames | GameEngine/Views/TextureLoader.swift:91 | The frame table has exactly the given names as keys. |
| AtlasGrid.Layout | GameEngine/Views/TextureLoader.swift:78-98 | The cursor loop records for each name the cell `((i mod c)*w, (i div c)*h, w, h)` of its last occurrence, so a later duplicate overwrites an earlier one. |
| AtlasGrid.CellInCanvas | GameEngine/Views/TextureLoader.swift:70-76 | With `rows*columns >= count`, every cell lies inside the `columns*w` by `rows*h` canvas. |
| AtlasGrid.CellsDisjoint | GameEngine/Views/TextureLoader.swift:81-97 | Distinct images get cells that do not overlap. |
| AtlasGrid.FramesInCanvas | GameEngine/Views/TextureLoader.swift:70-97 | Every recorded frame lies inside the canvas. |
| AtlasGrid.FramesDisjoint | GameEngine/Views/TextureLoader.swift:81-97 | The frames of different names never overlap. |
| TextureAtlas.Assemble | GameEngine/Views/TextureLoader.swift:72-102 | `tooLarge` is thrown exactly when `rows*side` or `columns*side` reaches 4096. Otherwise the atlas has the cursor layout on a `columns*side` by `rows*side` texture, the light map only when asked for, and the names unchanged; its frames lie in the canvas and do not overlap. |
| TextureAtlas.LoadAll | GameEngine/Views/TextureLoader.swift:62 | Loading never fails: a name that cannot be loaded gets the error texture. |
| TextureAtlas.MakeTextureAtlas | GameEngine/Views/TextureLoader.swift:61-103 | An empty list or a non-square first image throws `dimensions`. The grid is `factor(count)`, and a canvas side reaching 4096 throws `tooLarge`. Otherwise the atlas is the whole new `columns*side` by `rows*side` texture with the given uuid. It has the light map exactly when one is asked for, and the cursor layout, whose frames lie inside the canvas and do not overlap. |
| TextureAtlas.LoadNamed | Sources/public/TextureAtlas.swift:49 | `Texture(named:contentScale:)`, as defined at GameEngine/Nodes/Rendered/Texture.swift:107-122, never returns nil, so `flatMap` keeps every image. The first name without a PNG in the bundle stops the program, and the result fails exactly when some name has none. Otherwise there is one image per name: the PNG's size, or the error texture's when the loader fails. |
| TextureAtlas.InitAtlas | Sources/public/TextureAtlas.swift:43-95 | The checks run in order. Fewer than two names throw `oneImage`. A name without a PNG stops the program. `missingImage` is never thrown. A non-square first image throws `dimensions`. A canvas side reaching 4096 throws `tooLarge`. Otherwise the grid is `factor(count)` and the atlas is the whole new canvas texture with the given uuid. It has the light map exactly when `createLightMap` is set. Its frames are the cursor layout of that grid: they lie inside the canvas and do not overlap. |
| TextureAtlas.TextureNamed | GameEngine/Nodes/Rendered/TextureAtlas.swift:51-66 | An unknown name gives nil. A known one gives a texture on the atlas's GPU texture and light map, with its uuid, whose frame is the stored rect against the whole atlas size. |
| TextureAtlas.TextureNamedShowsCell | GameEngine/Views/TextureLoader.swift:81-97 | On a built atlas, the texture for a name last listed at position `i` shows cell `i` of the grid and is one image in size. |
| TextureAtlas.TextureNamedUnknown | GameEngine/Nodes/Rendered/TextureAtlas.swift:52-55 | A name the atlas was not built from yields nil. |
| JsonAtlas.TruncateToInt | src/public/TextureAtlas.swift:45 | `Int(x)` truncates toward zero. |
| JsonAtlas.AssetName | src/public/TextureAtlas.swift:45-46 | The asset name is the atlas name, then `@`, the integer scale, and `x`. |
| JsonAtlas.AssetNameScale | src/public/TextureAtlas.swift:45-46 | On a screen of scale 1 to 9 the asset name carries one digit, and the truncated scale can be read back from it. |
| Strings.ParseNatToString | src/public/TextureAtlas.swift:45 | The decimal rendering of a natural number parses back to it. |
| JsonAtlas.LoadJsonData | src/public/TextureAtlas.swift:54-65 | There is data exactly when the asset exists and decodes to a JSON object. |
| JsonAtlas.Init | src/public/TextureAtlas.swift:44-52 | `init?` fails exactly when the data asset cannot be loaded as an object. Otherwise it keeps that object and the atlas texture. |
| JsonAtlas.TextureNames | src/public/TextureAtlas.swift:29-31 | The names are exactly the top-level keys. |
| JsonAtlas.FrameOf | src/public/TextureAtlas.swift:80-87 | A rect comes back exactly when the entry is a dictionary whose `frame` dictionary gives integer `x`, `y`, `width` and `height`, other keys allowed. The rect is those four values. |
| JsonAtlas.DescribesUnique | src/public/TextureAtlas.swift:80-87 | An entry gives at most one rect. |
| JsonAtlas.TextureNamed | src/public/TextureAtlas.swift:74-93 | There is a texture exactly when the entry exists and its frame gives four integers. Its frame is those four values measured against the atlas size. It shares the atlas's GPU texture and uuid and has no light map. |
| JsonAtlas.TextureNamedReadsFrameEntry | src/public/TextureAtlas.swift:80-92 | An entry whose `frame` holds integer `x`, `y`, `width` and `height` is read back as exactly those values, whatever other keys it holds, such as `size`. |
| JsonAtlas.TextureNamedNeedsAllFour | src/public/TextureAtlas.swift:80-87 | A frame whose `x`, `y`, `width` or `height` is missing, or is not a number, yields nil. |
| JsonAtlas.TextureNamedNeedsFrame | src/public/TextureAtlas.swift:80-81 | An entry without a `frame` dictionary yields nil. |
| Quad.FlatVertex | GameEngine/Nodes/DataStructures/Quad.swift:18-22 | A vertex given only `x`, `y` and a colour has `z = 0`, `w = 1` and `s = t = 0`. |
| Quad.MakeQuad | GameEngine/Nodes/DataStructures/Quad.swift:37-42 | A quad's size is its vertex count times the 40-byte stride, and a four-vertex quad has the static `Quad.size`. |
| Quad.Rect | GameEngine/Nodes/DataStructures/Quad.swift:44-51 | The rectangle's vertices are ul, ll, lr, ur at `(0,h)`, `(0,0)`, `(w,0)`, `(w,h)`, all flat and of one colour. |
| Quad.RectOfSize | GameEngine/Nodes/DataStructures/Quad.swift:53-55 | `rect(size:color:)` is the same rectangle built from the size's width and height. |
| Quad.RectTriangles | GameEngine/Nodes/DataStructures/Quad.swift:84-87 | The two index triangles wind the same way on a rectangle quad, and each covers half of it. |
| Quad.QuadIndices | GameEngine/Nodes/DataStructures/Quad.swift:92-96 | The indices of quad `i` are `4i` plus the six-entry pattern. |
| Quad.IndexList | GameEngine/Nodes/DataStructures/Quad.swift:90-96 | `n` quads give `6n` indices, and entry `j` is `4*(j div 6) + pattern[j mod 6]`. |
| Quad.Indices | GameEngine/Nodes/DataStructures/Quad.swift:90-98 | A negative count traps, and so does `4(n-1)+3 > 65535`. Otherwise the result is the index list, every entry a `UInt16`, with a size of two bytes per entry. |
| Quad.IndexListBounds | GameEngine/Nodes/DataStructures/Quad.swift:94 | Every index of `n` quads is below `4n`, and the largest, `4(n-1)+3`, is reached. |
| Quad.IndicesSize | GameEngine/Nodes/DataStructures/Quad.swift:100 | One quad's indices take `6 * 2` bytes. |
| Quad.IndicesSizeScales | GameEngine/Nodes/DataStructures/Quad.swift:90-100 | The byte size of `n` quads' indices is `n` times `indicesSize`. |
| Quad.AppendedIndex | GameEngine/Nodes/DataStructures/Quad.swift:91-96 | Index `j` of `n + m` quads comes from the first `n` quads, or from the last `m` shifted by `4n`. |
| Quad.IndexListAppend | GameEngine/Nodes/DataStructures/Quad.swift:91-96 | The list for `n + m` quads is the list for `n`, followed by the list for `m` shifted by `4n`. |
| Buffer.NewBuffer | GameEngine/Views/Renderer/Buffer.swift:11-14 | The store holds `length * instances` bytes. There are 3 instances by default. |
| Buffer.Copy | GameEngine/Views/Renderer/Buffer.swift:18 | A `memcpy` succeeds exactly when both ranges are in bounds. It writes the range and nothing else. |
| Buffer.Add | GameEngine/Views/Renderer/Buffer.swift:16-22 | `add` writes the same bytes at `size*offset`, `length + size*offset` and `2*length + size*offset`, whatever `instances` is. It stays in bounds exactly when the third copy does. Nothing outside the three ranges changes. |
| Buffer.AddAt | GameEngine/Views/Renderer/Buffer.swift:17-21 | The three copies at byte `at` of each of the first three frames: the third range always holds the data, and the first two do when `size <= length`. |
| Buffer.ThreeCopies | GameEngine/Views/Renderer/Buffer.swift:17-21 | Three successive copies keep every byte outside their ranges and leave the data in each range that a later copy does not overwrite. |
| Buffer.Update | GameEngine/Views/Renderer/Buffer.swift:24-32 | `update` writes `size` bytes at `offset + bufferIndex*length` and leaves every other byte unchanged. |
| Buffer.NextBuffer | GameEngine/Views/Renderer/Buffer.swift:34-36 | `nextBuffer` hands back the buffer itself. Where its frame starts is stated by `NextBufferInside` and `FirstFrames`. |
| Buffer.NextBufferInside | GameEngine/Views/Renderer/Buffer.swift:34-36 | Each frame below `instances` lies inside the store, one after the other. |
| Buffer.AddFits | GameEngine/Views/Renderer/Buffer.swift:16-22 | On a buffer of at least three frames, an `add` whose range fits in one frame succeeds. |
| Buffer.AddNeedsThreeFrames | GameEngine/Views/Renderer/Buffer.swift:16-22 | On a buffer of fewer than three frames, every non-empty `add` overruns. |
| Buffer.UpdateStaysInFrame | GameEngine/Views/Renderer/Buffer.swift:24-32 | With `offset + size <= length` and `bufferIndex < instances`, `update` succeeds and changes only its own frame. |
| Buffer.SeenFromFrame | GameEngine/Views/Renderer/Buffer.swift:34-36 | Data that `add` placed in all three frames is seen at the same relative offset from each frame `nextBuffer` hands out. |
| Buffer.FirstFrames | GameEngine/Views/Renderer/Buffer.swift:17-21 | The three copies of `add` sit at the starts of frames 0, 1 and 2. |
| ArrayExt.Find | GameEngine/Extensions/ArrayExtension.swift:4-11 | `find` returns nil exactly when the element is absent. Otherwise it returns the least index holding it. |
| ArrayExt.FindLoop | GameEngine/Extensions/ArrayExtension.swift:5-10 | The enumerating loop computes the same result as `Find`. |
| ArrayExt.FindUnique | GameEngine/Extensions/ArrayExtension.swift:4-11 | An index holding the element with none before it is the one `find` reports. |
| ArrayExt.Remove | GameEngine/Extensions/ArrayExtension.swift:16-21 | An absent element gives nil and the array unchanged. Otherwise the first occurrence is cut out and returned. |
| ArrayExt.RemoveDropsOne | GameEngine/Extensions/ArrayExtension.swift:16-21 | Removal takes out exactly one copy: the multiset loses one of the element and the length drops by one. |
| ArrayExt.RemoveShifts | GameEngine/Extensions/ArrayExtension.swift:16-21 | Elements before the removed one keep their place, and those after it move down by one, so order is kept. |
| SceneTree.AllParents | GameEngine/Nodes/Protocols/Tree.swift:56-65 | The result is the parent chain, nearest first, ending at a root. It is empty exactly for a root, and depth strictly decreases along it. |
| SceneTree.ParentChainUnique | GameEngine/Nodes/Protocols/Tree.swift:56-65 | Any chain that follows parent links from the parent to a root is the one `allParents` returns. |
| SceneTree.AllParentsWitness | GameEngine/Nodes/Protocols/Tree.swift:56-65 | `allParents` does not depend on which rank map shows that the walk ends. |
| SceneTree.AllParentsSimple | GameEngine/Nodes/Protocols/Tree.swift:56-65 | A node is not its own ancestor, and no ancestor is listed twice. |
| SceneTree.Descendants | GameEngine/Nodes/Protocols/Tree.swift:75-78 | `allNodes` starts with the direct children, and everything in it lies below the node. |
| SceneTree.DescendantsOfLeaf | GameEngine/Nodes/Protocols/Tree.swift:75-78 | A leaf has no descendants. |
| SceneTree.FlattenMember | GameEngine/Nodes/Protocols/Tree.swift:76 | The `flatMap` holds exactly what some child's `allNodes` holds. |
| SceneTree.DescendantsTransitive | GameEngine/Nodes/Protocols/Tree.swift:75-78 | A descendant's descendants are descendants. |
| SceneTree.DescendantsAreBelow | GameEngine/Nodes/Protocols/Tree.swift:56-78 | On a consistent hierarchy, `x` is in `allNodes` of `id` exactly when `id` is in `allParents` of `x`. |
| SceneTree.DescendantsOnce | GameEngine/Nodes/Protocols/Tree.swift:75-78 | On a consistent hierarchy, `allNodes` lists every descendant exactly once and never the node itself. |
| SceneTree.FlattenOnce | GameEngine/Nodes/Protocols/Tree.swift:76-77 | The flattening of distinct siblings lists nothing twice. |
| SceneTree.SiblingsNotBothAncestors | GameEngine/Nodes/Protocols/Tree.swift:56-65 | Two different children of one parent never both lie on an ancestor chain. |
| SceneTree.BelowOneChildOnly | GameEngine/Nodes/Protocols/Tree.swift:75-78 | Nothing lies below two different children of one parent. |
| SceneNode.Spread | GameEngine/Nodes/Node.swift:133-140 | The nodes below take the new scene, and take the camera only where they have none. Other nodes are unchanged. |
| SceneNode.Attach | GameEngine/Nodes/Node.swift:130-146 | The child's parent becomes `self` and it is appended last to `self`'s children. The child and all below it take `self`'s scene and, where unset, its camera. Nothing else changes. |
| SceneNode.Add | GameEngine/Nodes/Node.swift:120-147 | A child that already has a parent or a scene is left alone. Otherwise it is attached with its whole subtree. |
| SceneNode.AttachKeepsConsistent | GameEngine/Nodes/Node.swift:130-146 | Attaching a parentless node keeps parent and child links in agreement and child lists free of repeats. |
| SceneNode.Remove | GameEngine/Nodes/Node.swift:149-158 | The result is nil for no node or one that is not a direct child. A child in a scene is handed to the scene's `remove`. Any other child loses its first entry in `nodes` and is returned, its parent link left as it was. |
| SceneNode.RemoveFromParent | GameEngine/Nodes/Protocols/Tree.swift:80-82 | `removeFromParent` does nothing for a root. Otherwise it is the parent's `remove`, which on a consistent tree leaves no copy of the node among the parent's children. |
| SceneNode.RemovedIsGone | GameEngine/Extensions/ArrayExtension.swift:16-21 | Removing a child that is listed once leaves no copy of it. |
| SceneNode.AttachThenRemove | GameEngine/Nodes/Node.swift:146-157 | Attaching and then removing, outside any scene, restores every child list, but the removed node keeps its parent link. |
| SceneNode.AddThenRemove | GameEngine/Nodes/Node.swift:121-157 | After such an add and remove the parent has its children back, yet every later `add` of the removed node is refused. |
| SceneNode.AddKeepsRanked | GameEngine/Nodes/Node.swift:120-147 | When the parent is neither the child nor below it, the hierarchy after `add` has no cycle: a height witness for it exists, so `allNodes` still ends and further adds can follow. |
| SceneNode.RaiseRanksLinks | GameEngine/Nodes/Protocols/Tree.swift:75-78 | Raising every node above the parent keeps each existing child below its parent. |
| SceneNode.AttachLinks | GameEngine/Nodes/Node.swift:130-146 | After attaching, the links are the old ones plus parent to child. |
| SceneNode.AddIntoOwnSubtree | GameEngine/Nodes/Node.swift:120-147 | As written, `add` accepts a child that is the parent itself, as in `n.add(node: n)`, or a parentless root with the parent below it. The result has a cycle, and no height witness exists for it. |
| SceneNode.AddChecked | GameEngine/Nodes/Node.swift:120-147 | The intended `add` also refuses a child that the parent is or lies below. Otherwise it is `add`. |
| SceneNode.AddCheckedKeepsRanked | GameEngine/Nodes/Node.swift:120-147 | The intended `add` never builds a cycle, whatever it is given. |
| Animation.Settle | GameEngine/Nodes/Animation/Action.swift:113-157 | After one run, `moveTo` has become `moveBy`, and `scaleTo` and `scaleBy` have become `scaleByXY`. Settled types stay. |
| Animation.ScaleStep | GameEngine/Nodes/Animation/Action.swift:140-148 | `max - min` negated when the current scale is above the target equals target minus current. |
| Animation.Stop | GameEngine/Nodes/Animation/Action.swift:77-80 | `stopAction` marks the action completed, calls its completion, and changes nothing else. |
| Animation.GetNextActionAsWritten | GameEngine/Nodes/Animation/Action.swift:15-37 | While the current action runs, it is returned. After it completes, a forever sequence moves to the next index, wrapping, and rewinds the old action; a one-shot sequence goes back to index 0. An empty sequence traps. Every member keeps its kind, and members other than the current one are unchanged. |
| Animation.AsWrittenStaysAtFirst | GameEngine/Nodes/Animation/Action.swift:17-22 | As written, any number of calls on a one-shot sequence leave it at its first member. |
| Animation.SecondMemberNeverReached | GameEngine/Nodes/Animation/Action.swift:17-22 | For a two-member one-shot sequence whose first member is done, the code as written stays at member 0, while the intended version moves to member 1. |
| Animation.GetNextAction | GameEngine/Nodes/Animation/Action.swift:15-37 | The intended version advances past a completed member. At the end, a forever sequence wraps to 0 with the old member rewound, and a one-shot sequence has nothing left. An empty sequence traps. The length, the forever flag and every member's kind are kept, and members other than the current one are unchanged. |
| Animation.OneShotMovesForward | GameEngine/Nodes/Animation/Action.swift:15-37 | A one-shot sequence only moves forward one member at a time, and only past a completed one. |
| Animation.Run | GameEngine/Nodes/Animation/Action.swift:82-111 | The timer grows by `delta`. A one-shot action completes and calls its completion once the timer reaches the duration. A forever action never completes and resets its timer at the duration. The kind keeps its shape, and the run traps only on an empty sequence inside. This holds under both readings of `getNextAction`. |
| Animation.RunSequence | GameEngine/Nodes/Animation/Action.swift:168-172 | A sequence runs at most one member, the one `getNextAction` picks under the chosen reading. Every member other than that one and the one it left stays as it was, and the length and forever flag are kept. |
| Animation.NextAction | GameEngine/Nodes/Animation/Action.swift:15-37 | Under either reading, the pick is at the new index, the length, forever flag and member kinds are kept, and only the current member can change. The as-written reading is the source's `getNextAction` and always reports a current member. |
| Animation.RunAll | GameEngine/Nodes/Animation/Action.swift:174-178 | A group runs every member once with the same tick. |
| Animation.ForeverSequenceKeepsRested | GameEngine/Nodes/Animation/Action.swift:24-27 | In a forever sequence, every member other than the running one stays ready to run again. |
| Animation.AsWrittenRecallsFirst | GameEngine/Nodes/Animation/Action.swift:15-37 | As written, a one-shot sequence stuck on its completed first member runs that member again on each run, calls its completion again, and stays stuck. |
| Animation.AsWrittenCallsEveryFrame | GameEngine/Nodes/Node.swift:107-116 | As written, a node running such a sequence calls that completion on every one of `n` frames while the sequence's own timer lasts. |
| Animation.ForeverTimerBounded | GameEngine/Nodes/Animation/Action.swift:108-110 | A forever action's timer, once within its duration, stays within it after a run with any non-negative tick, and its completed flag does not change. |
| Animation.Make | GameEngine/Nodes/Animation/Action.swift:194-289 | A fresh basic action is not completed, not forever, and has a zero timer. `moveBy` and `rotateBy` drop their completion. |
| Animation.MadeActionCompletes | GameEngine/Nodes/Animation/Action.swift:102-107 | A fresh action completes in its first run exactly when the tick covers its duration. It then calls its completion unless it is a `moveBy` or `rotateBy`, and a shorter tick calls nothing. |
| Animation.Longest | GameEngine/Nodes/Animation/Action.swift:313-315 | The longest duration is one of them and at least every other, or 0 for none. |
| Animation.MakeSequence | GameEngine/Nodes/Animation/Action.swift:299-302 | A sequence lasts the sum of its members' durations, starting at the first member. |
| Animation.MakeGroup | GameEngine/Nodes/Animation/Action.swift:312-317 | A group lasts as long as its longest member, or 0 when empty. |
| Animation.TotalAppend | GameEngine/Nodes/Animation/Action.swift:300 | Summing two lists one after the other equals summing them together. |
| Animation.NestedSequenceDuration | GameEngine/Nodes/Animation/Action.swift:299-302 | A sequence of two sequences lasts as long as one sequence of all their members. |
| Animation.NestedGroupDuration | GameEngine/Nodes/Animation/Action.swift:312-317 | A group of two non-empty groups lasts as long as one group of all their members. |
| Animation.RepeatForever | GameEngine/Nodes/Animation/Action.swift:326-335 | The result is a fresh forever action of the same type and duration with no completion. A sequence inside is marked forever. |
| Animation.Update | GameEngine/Nodes/Node.swift:107-116 | With no action nothing happens. A completed action is dropped. An action still going is run once, under either reading of `getNextAction`. |
| Animation.StopOnNode | GameEngine/Nodes/Node.swift:210-213 | `stopAction` on a node empties the slot and calls the action's completion, if any. |
| Animation.RunOnNode | GameEngine/Nodes/Node.swift:206-208 | `run(action:)` puts the new action in the slot, replacing what was there. |
| Animation.RunThenStop | GameEngine/Nodes/Node.swift:206-213 | Stopping after `run(action:)` calls only the new action's completion, whatever was replaced. |
| Animation.StopThenUpdate | GameEngine/Nodes/Node.swift:107-116 | A stopped action has called its completion once. The next update drops it without calling anything. |
| Animation.ForeverStays | GameEngine/Nodes/Node.swift:107-116 | A forever basic action stays on its node frame after frame and calls no completion. |
| Animation.BasicFiresOnce | GameEngine/Nodes/Node.swift:107-116 | A basic one-shot action calls its completion at most once over any number of frames. It has called it after `n` frames whose ticks cover its remaining duration. |
| Animation.AfterFinishQuiet | GameEngine/Nodes/Node.swift:113-115 | A completed action is gone after the next frame and calls nothing more. |
| Animation.NothingHappens | GameEngine/Nodes/Node.swift:108 | A node without an action stays without one. |
| LegacyAnimation.Settle | src/public/Action.swift:84-124 | After one run `moveTo` has become `moveBy` and `scaleTo` has become `scaleByXY`. Every other type stays. |
| LegacyAnimation.GetNextAction | src/public/Action.swift:23-29 | A running current action is kept. Otherwise the first remaining member is popped into place, or nothing when none remain. |
| LegacyAnimation.QueueKept | src/public/Action.swift:23-29 | Taking the next action never loses or reorders a member still to run. |
| LegacyAnimation.Run | src/public/Action.swift:57-82 | The timer goes down by `delta`, and the action is completed once it is at most 0. A basic type settles and a group keeps its size. |
| LegacyAnimation.RunSequence | src/public/Action.swift:126-130 | Only the member `getNextAction` yields runs, and the rest of the queue is left as it was. |
| LegacyAnimation.RunAll | src/public/Action.swift:132-136 | Every member of a group runs once with the same tick. |
| LegacyAnimation.CountsDown | src/public/Action.swift:77-81 | After non-negative ticks, a finite timer is its start minus their sum. The action is completed exactly when it was already, or that value is at most 0. |
| LegacyAnimation.ForeverNeverCompletes | src/public/Action.swift:180-182 | A repeat-forever action is never completed under finite ticks. |
| LegacyAnimation.Make | src/public/Action.swift:50-55 | A new action's timer starts at its duration. `moveBy` and `rotateBy` drop their completion. |
| LegacyAnimation.MadeActionCompletes | src/public/Action.swift:77-81 | A fresh action completes in one run exactly when the tick covers its duration. |
| LegacyAnimation.TotalInfinite | src/public/Action.swift:169 | A sum is infinite exactly when some member is. Otherwise it is the sum of the seconds. |
| LegacyAnimation.Longest | src/public/Action.swift:174-176 | The longest duration is one of them and at least every other, infinity above all, or 0 for none. |
| LegacyAnimation.MakeSequence | src/public/Action.swift:168-171 | A sequence lasts the sum of its members' durations and starts with no current member. |
| LegacyAnimation.MakeGroup | src/public/Action.swift:173-178 | A group lasts as long as its longest member, or 0 when empty. |
| LegacyAnimation.RepeatForever | src/public/Action.swift:180-182 | The result has the same type, an infinite duration and timer, and no completion. |
| GraphCache.AddOne | GameEngine/Views/GraphCache.swift:20-57 | A shape or text node joins its list, and a light takes the running light index, which then grows by one. A sprite joins its texture's group at the next index when the group, index and buffer exist. Otherwise it starts a new group at index 0. |
| GraphCache.AddEachFiles | GameEngine/Views/GraphCache.swift:20-58 | Filing a run of nodes appends exactly its shapes, texts and lights to their lists, in order. |
| GraphCache.FilesInOrder | GameEngine/Views/GraphCache.swift:20-58 | Filing the first node and then the rest equals filing them all. |
| GraphCache.LightIndexAssigned | GameEngine/Views/GraphCache.swift:52-55 | The `j`-th light of a run gets the starting light index plus `j`. |
| GraphCache.Add | GameEngine/Views/GraphCache.swift:15-59 | `add` appends `[node] + allNodes` to `allNodes`, in that order, and files each of them by kind. |
| GraphCache.AddKeepsInv | GameEngine/Views/GraphCache.swift:15-59 | On a consistent hierarchy, adding a subtree with no node already in a sprite group keeps every group dense: index `i` for the `i`-th sprite, with its quad in slot `i`. |
| GraphCache.RealignAsWritten | GameEngine/Views/GraphCache.swift:100-109 | As written, sprite `i` gets index `i`. Its quad goes to the offset of slot `i * quad.size`, and the counter becomes the group's size. |
| GraphCache.Realign | GameEngine/Views/GraphCache.swift:100-109 | As intended, sprite `i` gets index `i` with its quad in slot `i`, and the counter holds the last index. Nothing else changes. |
| GraphCache.RemoveAsWritten | GameEngine/Views/GraphCache.swift:61-88 | As written, an untracked node changes nothing. A tracked node's first entry leaves `allNodes`, and a shape or text leaves its list. A light stays among the lights, and the light counter keeps its value. |
| GraphCache.Remove | GameEngine/Views/GraphCache.swift:61-88 | As intended, an untracked node changes nothing. A tracked node's first entry leaves `allNodes`, and a shape, text or light leaves its list. A light also moves the light counter back by one. |
| GraphCache.RemoveKeepsInv | GameEngine/Views/GraphCache.swift:61-109 | The intended removal keeps every sprite group dense. |
| GraphCache.RemoveLight | GameEngine/Views/GraphCache.swift:81-83 | The intended removal takes a light out of the lights and moves the light counter back by one. |
| GraphCache.RemoveAsWrittenKeepsLight | GameEngine/Views/GraphCache.swift:63 | As written, a tracked light leaves `allNodes` but stays among the lights, and the light counter does not move back. |
| GraphCache.RemoveBy | GameEngine/Views/GraphCache.swift:61-88 | Under either reading of `remove(node:)`, an untracked node changes nothing, and a tracked one leaves `allNodes` and, for a shape or text, its list. The readings differ only on lights and sprites. |
| GraphCache.Update | GameEngine/Views/GraphCache.swift:90-98 | `update` does nothing for a node that `allNodes` does not hold. Otherwise every node below it is removed, then the node itself, each with `remove(node:)` as written or as intended. |
| GraphCache.UpdateKeepsInv | GameEngine/Views/GraphCache.swift:90-98 | With the intended removal, `update` keeps every sprite group dense. The source's does not (`UpdateAsWrittenBreaksInv`). |
| GraphCache.UpdateAsWrittenBreaksInv | GameEngine/Views/GraphCache.swift:90-108 | As written, `update` on the childless first sprite of a dense group of three or more leaves the group not dense. |
| GraphCache.UpdateLight | GameEngine/Views/GraphCache.swift:63-98 | As written, `update` on a childless tracked light keeps it among the lights with the counter unchanged. As intended, the light leaves the lights and the counter moves back by one. |
| GraphCache.UpdateRemovesSubtree | GameEngine/Views/GraphCache.swift:90-98 | Under either reading, `update` on a tracked node removes the run of its descendants followed by the node itself. |
| GraphCache.RemoveEachNodes | GameEngine/Views/GraphCache.swift:94-97 | Removing a run of nodes, as written or as intended, takes each one's first entry out of `allNodes`, in turn. |
| GraphCache.RemoveEachAppend | GameEngine/Views/GraphCache.swift:94-97 | Under either removal, removing two runs one after the other equals removing them together. |
| GraphCache.AddThenUpdate | GameEngine/Views/GraphCache.swift:15-98 | On a consistent hierarchy, an `update` right after an `add`, with nothing of the subtree tracked before, restores `allNodes`. This holds for the source's removal and the intended one alike. |
| GraphCache.RealignOffsetCounterexample | GameEngine/Views/GraphCache.swift:106 | As written, removing the first sprite of a dense group of three leaves slot 1 holding a sprite other than the new second one, so the group is no longer dense. |
| GraphCache.RealignCountCounterexample | GameEngine/Views/GraphCache.swift:108 | As written, the next sprite added after a removal gets an index one past its position in the group. |
| GraphCache.RemoveThenAddContinues | GameEngine/Views/GraphCache.swift:29-32 | As intended, the next sprite added after a removal gets its position in the group as its index. |
| GraphCache.RealignOffsetOverruns | GameEngine/Views/GraphCache.swift:45 | A group's buffer holds 500 quads per frame. As written, the fifth sprite's realigned quad already falls outside it. |
| GraphCache.SlotsFit | GameEngine/Views/GraphCache.swift:45 | Every intended slot of a group of at most 500 sprites fits in the buffer. |
| GraphCache.SlotFitsExactly | GameEngine/Views/GraphCache.swift:45 | A sprite quad fits in its group's buffer exactly when its index lies in `[0, 500)`. |
| GraphCache.FiveHundredFirstSpriteOverruns | GameEngine/Views/GraphCache.swift:27-35 | The 501st sprite of a group gets index 500, and `buffer.add` has no room for its quad. |

## Left out

- GPU, Metal and I/O: texture uploads, `MTLRegion` copies, light-map rendering, and `NSData`/`open` reads. File contents are inputs, and a GPU texture is an identity and a size.
- Floating-point geometry: vertex positions are exact reals. The node transforms and matrices, `Quad.spriteRect` and its half-texel offsets, the position, rotation and scale effects of actions, easing and `Action.time` are not modelled.
- Shared mutable objects: an `Action` or `ActionSequence` shared between several places is a value here. So `repeatForever` marking the original action's sequence as forever is not modelled. Only the new action's copy of it is.
- Completion closures are numbered ids. Calling one is recording its id; what the closure does is not modelled.
- LegacyAnimation.Run: the first generation keeps a completion but never calls it, so the model records no calls for it.
- `AtlasGen.swift`'s `makeAtlas`, `deleteOldData`, `copyContentInfo` and its `main` are not modelled. Neither are `AtlasGen.py`'s `deleteOldData`, image saving and argument handling. They copy files and draw images.
- `Scene.remove(node:)`, to which `Node.remove` hands nodes in a scene, is not part of this model. `SceneNode.Remove` reports the hand-off and stops there.
- `GraphCache.updateNode(quad:index:key:)` and the buffer manager's `makeBuffer` are not modelled. The buffer manager is only the set of keys that have a buffer.
- The older copies of `GraphCache`, `Buffer`, `Node`, `Tree`, `ArrayExtension`, `Quad` and the `GE*` classes under `src/` and `Sources/` repeat the logic modelled here and are not modelled again.
- AtlasGenPy.MakeAtlas: PIL's image contents are not modelled; an image is its name and size.
- AtlasGrid.Factor: the loop bound `Int(Float(i) / 2.0)` is taken as `i / 2`. A single-precision `Float` holds every count below 2^24 exactly, and halving is exact, so the two agree there. Larger counts are not modelled; a canvas under 4096 pixels a side holds far fewer images.
- AtlasGenSwift.CalculateSize: `CFSwapInt32` always swaps bytes. The model reads the `IHDR` integers as big-endian, which is what the swap gives on a little-endian host. On a big-endian host the source would return the sizes byte-swapped.
- GraphCache.AddOne: a sprite is filed at any index. A group's buffer has room for 500 quads a frame, and from the 501st sprite on the source's `buffer.add` copies past it (`SlotFitsExactly`, `FiveHundredFirstSpriteOverruns`). The cache records slots, not bytes, so `AddOne` does not fail there.
- TextureAtlas.LoadNamed: the older builder calls `Texture(named:contentScale:)`, which its own tree does not define: Sources/public/Texture.swift has only `init(named:)`, which never stops the program. The model follows the engine's initialiser at GameEngine/Nodes/Rendered/Texture.swift:107-122. That initialiser stops with `fatalError` on a name the bundle lacks and gives the error texture when loading fails.
- TextureAtlas.InitAtlas: the `missingImage` guard has no branch in the model. Every image comes back from loading, so the guard never fires; the contract states that `missingImage` is never thrown.
- Animation.TotalAppend: durations are exact reals, so the sum of a concatenation is the sum of the sums. The source adds `Double`s with `reduce(0, +)`, which rounds at each step and is not associative: `(0.1 + 0.2) + 0.3` is `0.6000000000000001` while `0.1 + (0.2 + 0.3)` is `0.6`.
- Animation.NestedSequenceDuration: the equality of a nested sequence's duration with the flat one's holds for exact sums only. With the source's `Double` additions the two can differ in the last bit, as for members lasting 0.1, 0.2 and 0.3.
- Animation.BasicFiresOnce: the clause "`timer + n * delta` reaches the duration" is about exact reals. The source adds `delta` to a `Double` timer once per frame, so ten ticks of 0.1 leave it at `0.9999999999999999`, and a 1.0 s action has not yet completed.
- LegacyAnimation.CountsDown: the timer after a run of ticks is the start minus the exact sum of the ticks. The source subtracts each tick from a `Double`, rounding every time, so the timer can end a last bit away from that value, and the action can complete one frame later or earlier.
- JsonAtlas.TextureNames: Swift's dictionary key order is unspecified, so only the set of names is stated.
- Json: numbers are integers, because the descriptors and frame maps carry only integral numbers.

## Findings

| source | as written | input that shows it | evidently intended | confidence | as-written member | corrected member |
|---|---|---|---|---|---|---|
| GameEngine/Views/GraphCache.swift:106 | `realignData` passes `offset: i * node.quad.size`, and `Buffer.add` multiplies the offset by the size again, so sprite `i`'s quad goes to byte `160 * 160 * i` | a group of three sprites whose first is removed: slot 1 still holds the old second sprite, and the fifth sprite's realigned quad is past the 500-quad buffer | `offset: i`, as `add(node:)` passes an element index | not executed | GraphCache.RealignOffsetCounterexample | GraphCache.Realign |
| GameEngine/Views/GraphCache.swift:108 | after realigning, `spriteIndex[key] = nodes.count`, while `add` gives the next sprite `spriteIndex + 1` | removing one sprite of a dense group of three, then adding one: the newcomer is third in the group but gets index 3 | `spriteIndex[key] = nodes.count - 1`, the last index in use | not executed | GraphCache.RealignCountCounterexample | GraphCache.RemoveThenAddContinues |
| GameEngine/Views/GraphCache.swift:63 | the `as? Renderable` guard returns before the `LightNode` case, because a light node is not `Renderable` | removing a tracked light: it stays in `lightNodes` and `lightNodeIndex` is not decremented | the light case at lines 81-83 takes effect | not executed | GraphCache.RemoveAsWrittenKeepsLight | GraphCache.RemoveLight |
| GameEngine/Nodes/Animation/Action.swift:17-22 | when the current member of a one-shot sequence completes, `index` is reset to 0 and `sequence[0]` becomes current again | a one-shot sequence of two members whose first has completed: the next call returns member 0 again, and member 1 never runs; a node running it calls member 0's completion on every frame (`Animation.AsWrittenCallsEveryFrame`) | move on to `index + 1` while members remain, and stop at the end | not executed | Animation.AsWrittenStaysAtFirst | Animation.OneShotMovesForward |
| GameEngine/Nodes/Node.swift:120-147 | `add` refuses a child only when it has a parent or a scene | `n.add(node: n)` on a parentless node, or adding a parentless root to a node below it: `allNodes` then never ends | refuse a child that the parent is or lies below | not executed | SceneNode.AddIntoOwnSubtree | SceneNode.AddCheckedKeepsRanked |
