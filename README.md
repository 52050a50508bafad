# burrowbun core, modelled in Dafny

burrowbun is a 2D sandbox game written in C++ (SDL), built by a small
Python script, `pymake.py`. This project models the parts of both that are
sequential, integer-based logic, and proves properties of them:

- **pymake**: parsing g++ `.d` dependency manifests, the mtime-based test of
  whether an object file is stale, recursive directory creation, the
  mirroring of source paths onto object and manifest paths, and the
  compile-everything-then-link driver. The filesystem is a map from path to
  a directory or a file with a modification time; the compiler, the linker
  and the directory listing are parameters.
- **The tile map** (`src/world/Map.hh`, `src/world/Map.cc`): a grid of
  cells with a foreground and a background layer that wraps around
  horizontally, a coarser biome grid, the run-length save format, the list
  of damaged tiles that heal over time, the set of places to update, and
  the rules for placing, damaging, moving and swapping tiles, and one tick
  of `Map::update`, which runs every tile of the update set in the set's
  order. `Map` is a class over an `array` of cells, as in the source.
- **World generation** (`src/world/Mapgen.cc`): water filling and
  removal, the ocean fill, the falling-column search, fast tile moves, the
  percentile table and the biome lookup.
- **Tiles that update themselves**: animated tiles (`src/world/Tile.cc`)
  and boulders (`src/world/Boulder.cc`).
- **Small codecs and orders**: the one-byte spritesheet position, the order
  on `Location` that keys the map's sets, the item/tile numbering, and
  `Light` arithmetic.
- **Game state**: clamped stats (`Stat`), the inventory grid, the hotbar,
  clickable mouse boxes, items and their use rules (blocks, pickaxes,
  potions), the player's reach and cooldown, the integer part of movement,
  wrap-aware rectangle intersection, the dropped-item cap of the world, the
  reference-counting texture cache, the camera arithmetic of the window,
  and the keyboard and mouse input state machine.
- **Root-level prototypes**: the world generator helpers and save of
  `World.cc`, and the fall damage and stat bars of `Entity.cc`.

Randomness (`rand()`), tile attributes that the game reads from JSON, SDL
state (keyboard, mouse, windows, textures), the clock and all file contents
are parameters of the model. C's truncating `/` and `%`, and stores into
`uint8_t` and `unsigned int`, are written out in `c_ints.dfy`.

Where the source and its documentation disagree, the model follows the
source. The disagreements:

- `parse_dependencies` raises on a non-empty line without a `:` (it indexes
  field 1 of the split), rather than treating the manifest as unusable.
- `build` ignores the link's exit status and always searches `'src'`,
  whatever `src_dir` is.
- `ItemMaker::makeItem` names `DANDELION`, which is not in the `ActionType`
  enumeration of `src/action/Action.hh`; the model leaves it out.
- `Tile::getTier` is declared `bool`, so the pickaxe compares its tier
  against 0 or 1 rather than against the tile's tier.
- `WindowHandler::findCamera` shrinks the camera's width by the tile height
  and its height by the tile width.

## Model

| member | source | states |
|---|---|---|
| Lights.Equal | src/Light.hh:35-37 | `operator==`: all four channels agree; `EqualIsIdentity` proves it is value equality |
| Lights.NotEqual | src/Light.hh:39-41 | `operator!=`: the negation of `==`; `EqualIsIdentity` proves it is value inequality |
| Lights.EqualIsIdentity | src/Light.hh:35-41 | `==` holds exactly when the two lights are the same value, and `!=` exactly when they differ |
| Lights.Max | src/Light.hh:44-52 | each channel of the result is the larger of the two inputs' channels |
| Lights.MaxCommutative | src/Light.hh:44-52 | `max` does not depend on the order of its operands |
| Lights.MaxIdempotent | src/Light.hh:44-52 | the maximum of a light with itself is that light |
| Lights.MaxAssociative | src/Light.hh:44-52 | maxima of three lights group either way |
| Lights.Smaller | src/Light.hh:59-62 | `smaller(l)`: some channel is strictly below `l`'s; `SmallerIffMaxChanges` proves this is exactly when `max` with `l` changes the light |
| Lights.SmallerIffMaxChanges | src/Light.hh:44-62 | `smaller(l)` holds exactly when taking the maximum with `l` changes the light, and the maximum is smaller than neither input |
| Lights.SetMax | src/Light.hh:55-57 | after `setmax(l)` the light is smaller than neither its old value nor `l`, and it is unchanged exactly when it was not smaller than `l` |
| Lights.SetMaxIdempotent | src/Light.hh:55-57 | a second `setmax` with the same light changes nothing |
| Lights.Scale | src/Light.hh:85-87 | scaling a channel by an intensity never raises it, leaves it at full intensity 255 and zeroes it at 0 |
| Lights.ScaleBound | src/Light.hh:85-87 | `c * i / 255` stays within `[0, c]`, so it fits the byte it is stored in |
| Lights.SetIntensity | src/Light.hh:82-89 | the intensity becomes `i`, no colour channel grows, each channel is scaled by `i`, and full intensity keeps the colour |
| Lights.UseSky | src/Light.hh:75-77 | the lit value keeps its intensity, is smaller than the light in no channel, and no channel exceeds the larger of the light's and the sky's |
| Lights.UseWhiteSky | src/Light.hh:75-77 | under a white sky each colour channel rises to the light's own intensity |
| Tiles.NumSprites | src/world/Tile.hh:163-165 | a background-capable tile gives each layer half of its columns (rounded down); any other tile uses all of them |
| Tiles.GetTier | src/world/Tile.hh:150-152 | the tier is reported as a `bool`: 0 for tier 0 and 1 for every other tier |
| MapHelpers.LayerIndexInjective | src/world/MapHelpers.hh:8-13 | distinct layers have distinct enumeration values |
| MapHelpers.Equals | MapHelpers.cc:4-8 | `Location::operator==`: x, y and layer agree; `EqualsIsIdentity` proves it is value equality |
| MapHelpers.NotEquals | MapHelpers.cc:10-12 | `Location::operator!=`: the negation of `==`; `EqualsIsIdentity` proves it is value inequality |
| MapHelpers.EqualsIsIdentity | MapHelpers.cc:4-12 | `==` holds exactly when x, y and layer all agree, and `!=` is its negation |
| MapHelpers.Less | MapHelpers.cc:16-29 | `Location::operator<`; `LessIsLexicographic`, `LessIrreflexive`, `LessTransitive` and `LessTrichotomous` prove it a strict total order, as a `std::set` key needs |
| MapHelpers.LessIsLexicographic | MapHelpers.cc:16-29 | `<` orders by larger y first, then smaller x, then smaller layer value |
| MapHelpers.LessIrreflexive | MapHelpers.cc:16-29 | no location is less than itself |
| MapHelpers.LessTransitive | MapHelpers.cc:16-29 | `<` is transitive |
| MapHelpers.LessTrichotomous | MapHelpers.cc:16-29 | of `a < b`, `b < a` and `a == b` exactly one holds, as a `std::set` key requires |
| MapHelpers.NewSpaceInfo | src/MapHelpers.hh:118-126 | a new cell has both layers EMPTY, every light flag false, both sprites 0 and no light |
| MapHelpers.ToSpritePlace | src/MapHelpers.hh:137-139 | an in-range column and row are stored as `16 * x + y`, and any other pair as that value modulo 256 |
| MapHelpers.ToSpritePlaceAt | src/MapHelpers.hh:133-135 | the `Location` overload encodes the location's column and row the same way |
| MapHelpers.GetX | src/MapHelpers.hh:141-143 | the stored column is in `[0, 16)` |
| MapHelpers.GetY | src/MapHelpers.hh:145-147 | the stored row is in `[0, 16)` |
| MapHelpers.FromSpritePlace | src/MapHelpers.hh:128-131 | decoding keeps the layer and yields the column and row in `[0, 16)` that encode to the byte |
| MapHelpers.GetXYAgree | src/MapHelpers.hh:128-147 | `getX` and `getY` give the column and row that `fromSpritePlace` gives |
| MapHelpers.SpritePlaceRoundTrip | src/MapHelpers.hh:128-139 | decoding an encoded in-range column and row gives them back |
| MapHelpers.ByteRoundTrip | src/MapHelpers.hh:128-147 | encoding a decoded byte gives the byte back, for all 256 bytes |
| MapHelpers.SpritePlaceColumnWraps | src/MapHelpers.hh:137-139 | columns 16 apart share a byte, so the column is kept only modulo 16 |
| Rects.NormalX | src/Rect.hh:25-26 | the edge brought onto the world by C's `(x + worldWidth) % worldWidth`; `NormalXShift` proves it ignores whole world widths |
| Rects.IntersectsXDefined | src/Rect.hh:27-34 | the asserts `intersectsX` checks before computing; `IntersectsX` requires them, and `BasicCaseIntersecting` shows the tests meet them |
| Rects.OverlapAssert | src/Rect.hh:38-39 | the sanity assertion of `intersectsX` as C++ parses it; `OverlapAssertHoldsForPositiveWidths` and `OverlapAssertFailsForZeroWidth` say when it holds |
| Rects.IntersectsX | src/Rect.hh:23-52 | overlap in x holds exactly when the normalised spans overlap, or when exactly one of them crosses the world's edge and they overlap once it is moved by the world width |
| Rects.OverlapAssertHoldsForPositiveWidths | src/Rect.hh:38-39 | the assertion inside `intersectsX` holds for positive widths |
| Rects.OverlapAssertFailsForZeroWidth | src/Rect.hh:38-39 | an empty rectangle whose left edge lies inside the other breaks that assertion, although the asserts before it allow a width of 0 |
| Rects.IntersectsY | src/Rect.hh:56-63 | overlap in y holds exactly when each rectangle starts above the other's bottom |
| Rects.Intersects | src/Rect.hh:68-70 | rectangles intersect exactly when they overlap in both x and y |
| Rects.IntersectsSymmetric | src/collider_tests.cc:50 | for rectangles inside the world with positive widths, intersection is symmetric |
| Rects.NormalXShift | src/Rect.hh:25-26 | moving an edge by whole world widths does not change its normalised position |
| Rects.IntersectsWrapInvariant | src/collider_tests.cc:53-63 | moving a rectangle by one world width either way does not change whether it intersects |
| Rects.BasicCaseIntersecting | src/collider_tests.cc:14-27 | the basic overlapping case of the tests intersects, both ways round |
| Rects.BasicCaseApart | src/collider_tests.cc:29-34 | the basic case moved down to y 32 does not intersect, both ways round |
| Rects.CollideEdge | src/Rect.hh:74-81 | only y changes: the rectangle is pulled down below the top of the world, and it is set to 0 exactly when it reaches the bottom, which the result reports |
| Rects.CollideEdgeKeepsInside | src/Rect.hh:74-81 | afterwards the rectangle is at the bottom or its lower edge is inside the world |
| ItemMaker.ItemToTile | src/action/ItemMaker.cc:15-34 | a block item maps into the itemed tile range, onto the tile of the same name |
| ItemMaker.TileToItem | src/action/ItemMaker.cc:37-56 | an itemed tile maps into the block item range, onto the item of the same name |
| ItemMaker.ItemTileInverse | src/action/ItemMaker.cc:15-56 | the two conversions are inverse bijections between the block items and the itemed tiles |
| ItemMaker.IsIn | src/action/ItemMaker.cc:59-67 | the scan finds the type exactly when it is in the list |
| ItemMaker.MakeItemKind | src/action/ItemMaker.cc:70-93 | potions become potions, the block range becomes blocks, the pickaxe a pickaxe, and only the remaining type a plain item |
| PyMake.RemoveContinuations | pymake.py:46 | deleting backslash-newline pairs never lengthens the text |
| PyMake.SplitOn | pymake.py:47-51 | `str.split(c)` gives at least one piece, none holding `c`, each made of characters of the input |
| PyMake.SplitJoin | pymake.py:47-51 | joining the pieces with `c` gives the text back |
| PyMake.SplitHasTwoFields | pymake.py:50-51 | the split has a second field exactly when the separator occurs |
| PyMake.JoinSplit | pymake.py:47-51 | splitting pieces joined by a separator none of them holds gives the pieces back |
| PyMake.NonEmpty | pymake.py:47-52 | `filter(None, ...)` keeps exactly the non-empty strings |
| PyMake.NonEmptyKeepsAll | pymake.py:47-52 | a list with no empty string passes the filter unchanged |
| PyMake.LineTokens | pymake.py:50-52 | one rule line raises IndexError exactly when it has no `:`, and otherwise gives non-empty tokens with no space and no `:` |
| PyMake.ParseLines | pymake.py:48-53 | the loop raises IndexError exactly when some line lacks a `:`, and its tokens are non-empty with no space and no `:` |
| PyMake.ParseDependencies | pymake.py:42-53 | the parse raises exactly when some non-empty line of the manifest without continuations lacks a `:`, and no token holds a space, a colon or a newline |
| PyMake.NoBackslashKept | pymake.py:46 | text without a backslash is untouched by the continuation removal |
| PyMake.ContinuationRemoved | pymake.py:46 | a backslash-newline pair is deleted and the text before it kept |
| PyMake.SplitAtFirst | pymake.py:50 | the first field ends at the first separator |
| PyMake.RuleLineTokens | pymake.py:50-52 | a rule line `target: d1 d2 ...` gives exactly its dependencies, in order |
| PyMake.ContinuedRule | pymake.py:45-53 | a rule continued over two lines with a backslash gives the dependencies of both lines in order, as if on one line |
| PyMake.SecondColonIgnored | pymake.py:50-51 | only the field between the first and the second `:` contributes tokens |
| PyMake.MissingColonRaises | pymake.py:50-51 | a one-line manifest whose rule has no `:` (such as `a.o a.cc`) raises IndexError instead of asking for a rebuild |
| PyMake.AnyNewer | pymake.py:77-80 | the dependency loop answers true at the first dependency no older than the object, raises at the first missing one, and answers false exactly when every dependency exists and is older |
| PyMake.NeedsBuild | pymake.py:55-80 | a missing manifest, a missing object, a source no older than its manifest, or a dependency no older than the object means stale (equal times count as stale); it is up to date exactly when none of these holds |
| PyMake.LastIndexOf | pymake.py:95 | `rfind` gives the last position of the character, or -1 when it is absent |
| PyMake.StripTrailingSlashes | pymake.py:86 | the trailing slashes of the path are removed and nothing else |
| PyMake.DirName | pymake.py:86-101 | `os.path.dirname` is shorter than any path that is not all slashes, and empty for a bare name |
| PyMake.PathJoin | pymake.py:96-98 | `os.path.join` keeps an absolute second part, skips an empty first part, and otherwise puts one `/` between them |
| PyMake.PathJoinInjective | pymake.py:96-98 | joining one directory with two relative names gives the same path exactly when the names are the same |
| PyMake.BaseName | pymake.py:95 | the base is the filename up to its last `.`; without a `.` the slice drops the last character |
| PyMake.OutputNamesMirrorSource | pymake.py:94-97 | manifests (and objects) of two sources collide exactly when their bases are the same, a manifest is never an object, and both are the base under their directory with `.d` or `.o` |
| PyMake.LastIndexAfter | pymake.py:95 | `rfind` finds a character that does not occur after it |
| PyMake.BaseNameOfExtension | pymake.py:95 | the base of `stem.ext` is `stem` when the extension has no `.` |
| PyMake.DirNameOfChild | pymake.py:86 | the directory of `dir/name` is `dir` |
| PyMake.DropSrcPrefix | pymake.py:123 | a path under `src/` loses exactly that prefix |
| PyMake.IsCpp | pymake.py:116-118 | `is_cpp`: the name ends in `.cc`, `.cpp` or `.c`; `CppSources` proves the filter keeps exactly those files |
| PyMake.CppSources | pymake.py:116-119 | the listing is filtered to exactly its `.cc`, `.cpp` and `.c` files |
| PyMake.Missing | pymake.py:82-88 | the directories `create_directory` will make: none for `""` or an existing directory, otherwise ending with the path itself |
| PyMake.MissingAreMissing | pymake.py:82-88 | every directory on that list is a non-empty path that is not yet a directory |
| PyMake.MissingParentsFirst | pymake.py:85-88 | each directory on the list is the parent of the next, so parents are created first |
| PyMake.MissingStartsAtExisting | pymake.py:83-86 | the first directory made has an existing directory (or nothing) as its parent |
| PyMake.FirstClash | pymake.py:88 | the first directory on the list that is already taken by a file, which is where `os.mkdir` raises |
| PyMake.CreatedEvents | pymake.py:87 | one log line per directory created, in order |
| PyMake.CreateIdempotent | pymake.py:82-88 | after a successful `create_directory` the path exists, and a second call changes nothing and logs nothing |
| PyMake.CreateKeepsExisting | pymake.py:82-88 | directory creation keeps every existing entry, adds only directories, and leaves the path a directory when it succeeds |
| PyMake.CreateError | pymake.py:88 | the call fails exactly when a directory to be made is already a file, and the error names that path |
| PyMake.NothingToCreate | pymake.py:83-85 | `""` and an existing directory need no work and log nothing |
| PyMake.CreateParentFails | pymake.py:86 | a failure while making the parent is the failure of the whole call |
| PyMake.CreateOverFile | pymake.py:88 | a path held by a file raises FileExistsError after the parents are made, and its "Creating directory" line is still logged, since it is printed before `os.mkdir` |
| PyMake.CreateLast | pymake.py:86-88 | otherwise the parents are made, then the path is made and logged last |
| PyMake.CreateRun | pymake.py:82-88 | the log of a directory creation holds only creation lines; on a clash the clashing path's line is logged before the error |
| PyMake.AfterCreate | pymake.py:82-88 | the files after `create_directory(p)`: the missing chain up to the first clash made; `CreateKeepsExisting` and `CreateIdempotent` state its properties |
| PyMake.Announced | pymake.py:82-88 | the directories announced: the chain up to and including the clash, since the line is printed before `os.mkdir`; `CreateOverFile` states the clash case |
| PyMake.CreateLog | pymake.py:82-88 | the log of `create_directory(p)`: one "Creating directory" line per announced directory; `CreateRunFollowsChain` proves the recursion logs exactly it |
| PyMake.CreateRunFollowsChain | pymake.py:82-88 | the recursion of `create_directory` makes exactly the missing directories, parents first, with one log line each, and on a clash logs the clashing path too before raising |
| PyMake.CreateRunProperties | pymake.py:82-88 | the recursive creation keeps every existing entry, adds only directories, and a second call changes nothing |
| PyMake.OutputNames | pymake.py:94-98 | the manifest, object and source paths of one source |
| PyMake.SourceNames | pymake.py:119-123 | the names handed to `build_object`: each C/C++ source of the listing without its `src/` prefix |
| PyMake.ObjectRun | pymake.py:90-112 | `build_object` on its three paths: both directories, then the compiler if stale; `ObjectRunEvents`, `ObjectRunCompilesOnlyWhenNeeded` and `ObjectRunMakesDirectories` state what it does |
| PyMake.CompileIfNeeded | pymake.py:103-112 | the end of `build_object`: the compiler runs only when `needs_build` says so; `CompileIfNeededEvents` and `CompileIfNeededResult` state what it does |
| PyMake.ObjectRunEvents | pymake.py:100-112 | `build_object` logs its directory creations, then at most one compiler run, for its own three paths |
| PyMake.CompileIfNeededEvents | pymake.py:103-112 | the compiler runs at most once and only on the object's own paths |
| PyMake.ObjectRunCompilesOnlyWhenNeeded | pymake.py:100-112 | the compiler runs exactly when `build_object` returns an exit code, which happens exactly when the object is stale on the files the directory creation left; `None` means it was up to date |
| PyMake.CreatedOnlyIsNotCompiled | pymake.py:100-101 | directory creation alone runs no compiler |
| PyMake.CompileIfNeededResult | pymake.py:103-112 | the staleness test changes no file; the exit code returned is the compiler's, and `None` means up to date |
| PyMake.ObjectRunMakesDirectories | pymake.py:100-101 | when `build_object` returns, the manifest's and the object's directories exist, and no entry was lost |
| PyMake.EventsAppend | pymake.py:121-124 | the build loop's log properties hold for a concatenation exactly when they hold for both parts |
| PyMake.ObjectRunSummary | pymake.py:103-112 | one `build_object` call logs only creations and one compiler run on its paths, and it succeeds exactly when that run exited with 0 |
| PyMake.OneObjectSummary | pymake.py:103-112 | the same summary, from the event shape of one call |
| PyMake.CompiledFromOne | pymake.py:122-123 | a compiler run on one source's paths is a run for one of the listed names |
| PyMake.Succeeded | pymake.py:124 | `not ret`: `None` and 0 are success; `ObjectsRunSummary` proves `success` means every compiler run exited with 0 |
| PyMake.ObjectsRun | pymake.py:121-124 | the loop of `build` over the names, each `build_object` seeing the files the earlier ones left; `ObjectsRunSummary`, `ObjectsRunStep` and `RaisedPersists` state its properties |
| PyMake.ObjectsRunSummary | pymake.py:121-124 | the build loop logs only creations and compiler runs, each for one of the names, and `success` holds exactly when every compiler run exited with 0 |
| PyMake.LoopStepSummary | pymake.py:122-124 | one more `build_object` call keeps that summary, with `success and not ret` |
| PyMake.CompiledFromMore | pymake.py:122-123 | runs for some of the names are runs for every larger list of names |
| PyMake.BuildRun | pymake.py:114-134 | `build` as a value: list `src`, build every C/C++ source, link only on success; `BuildLinksOnlyOnSuccess` states its properties |
| PyMake.BuildLinksOnlyOnSuccess | pymake.py:114-134 | `build` links exactly when every object built, with the link last in the log; a failure ends the log with the failure message and no link; every compiler run is for a C/C++ file listed under `src`; without a `src` directory the listing raises and nothing happens |
| PyMake.LinkTail | pymake.py:125-134 | what `build` does after the loop: the failure message, or the listing, the binary's directory and the link; `LinkSummary` states its cases |
| PyMake.LinkIfBuilt | pymake.py:125-134 | the loop's run followed by `LinkTail`; `LinkIfBuiltSummary` and `LinkSummary` prove the link comes only after a successful loop, last in the log |
| PyMake.LinkIfBuiltSummary | pymake.py:125-134 | the link step links only after a successful loop and reports the failure otherwise |
| PyMake.LinkSummary | pymake.py:128-134 | after a successful loop the link is the last event, whatever its exit status; a missing object directory makes the listing raise before anything is created or linked |
| PyMake.RaisedPersists | pymake.py:122-123 | an exception in one `build_object` call ends the loop: later sources are not built |
| PyMake.ObjectsRunStep | pymake.py:122-124 | the loop over one more source runs `build_object` on the files the earlier calls left |
| PyMake.FileSystem.constructor | pymake.py:114 | a filesystem with the given entries, an empty log and the given clock |
| PyMake.FileSystem.CreateDirectory | pymake.py:82-88 | the recursive method returns the error, and leaves the files and the log, that the creation model says, the clashing path's line included |
| PyMake.FileSystem.BuildPaths | pymake.py:100-112 | the body of `build_object` on known paths: the result, the files and the appended log are `ObjectRun`'s |
| PyMake.FileSystem.BuildObject | pymake.py:90-112 | the method returns the exit code (or `None`) and leaves the files and the log that the `build_object` model gives on its three paths |
| PyMake.FileSystem.CompileIfStale | pymake.py:103-112 | the compiler is invoked, and its exit code returned, only when the object is stale |
| PyMake.ListFiles | pymake.py:29-40 | `list_files_recursive` succeeds exactly on a directory, and raises FileNotFoundError for a missing path and NotADirectoryError for a file |
| PyMake.FileSystem.BuildObjects | pymake.py:121-124 | the `for` loop of `build`: its result, the files and the appended log are `ObjectsRun`'s, stopping at the first exception |
| PyMake.FileSystem.LinkObjects | pymake.py:125-134 | the end of `build`: its result, the files and the appended log are `LinkTail`'s |
| PyMake.FileSystem.Build | pymake.py:114-134 | the method returns the outcome, and leaves the files and the log, of the `build` model, listing failures included; its loop keeps `success` equal to the model's |
| RunLength.Repeat | src/world/Map.cc:450-470 | a run of `n` copies of a value |
| RunLength.Total | src/world/Map.cc:358-392 | the cells a list of runs covers, never negative for non-negative counts |
| RunLength.Expand | src/world/Map.cc:450-470 | decoding runs gives exactly as many cells as the counts add up to |
| RunLength.Compress | src/world/Map.cc:358-392 | the encoder makes no more runs than cells, none for no cells, and its last run holds the last cell |
| RunLength.TotalAppend | src/world/Map.cc:358-392 | one more run adds its count to the total |
| RunLength.ExpandAppend | src/world/Map.cc:450-470 | one more run appends its copies to the decoding |
| RunLength.CompressRoundTrip | src/world/Map.cc:358-392 | the encoder's runs are canonical (positive counts, neighbours with different values), they cover the cells, and decoding them gives the cells back |
| RunLength.LengthenLast | src/world/Map.cc:384-387 | a cell equal to the last run's value lengthens that run and keeps the runs canonical |
| RunLength.StartNew | src/world/Map.cc:379-383 | a cell different from the last run's value starts a run of 1 and keeps the runs canonical |
| RunLength.ExpandPrefix | src/world/Map.cc:450-470 | the first `k` runs decode to a prefix of the whole decoding |
| RunLength.TotalMonotone | src/world/Map.cc:450-470 | more runs never cover fewer cells |
| RunLength.ExpandStep | src/world/Map.cc:450-470 | decoding one more run appends its copies |
| RunLength.CompressStep | src/world/Map.cc:364-388 | one more cell lengthens the last run if it has that value and starts a new run otherwise, as the save loop does |
| RunLength.ExpandRun | src/world/Map.cc:450-470 | every cell covered by run `k` holds run `k`'s value |
| RunLength.CompressExtend | src/world/Map.cc:364-388 | the same step, stated for a loop that keeps the last run in separate variables |
| Stats.Clamp | src/Stat.hh:35-36 | a value is clamped into `[0, maxStat]` and left alone inside it |
| Stats.FullAfterSet | src/Stat.hh:33-42 | `setFull` stores the clamped value, but never more than the cap `part` |
| Stats.PartAfterSet | src/Stat.hh:46-49 | `setPart` stores the clamped value |
| Stats.RegenTotal | src/Stat.cc:5-12 | before the wait is over only the linear regeneration applies; after it the percentage and quadratic terms grow with the ticks waited |
| Stats.FullAfterSetMeaning | src/Stat.hh:33-42 | with a cap inside the maximum, the amount lands in `[0, part]`, exactly the value when it fits |
| Stats.FillReachesMax | src/Stat.hh:74-77 | `fill` makes both the cap and the amount the maximum |
| Stats.Stat.constructor | src/Stat.cc:17-27 | everything starts at 0, except `baseRegenTicks` at 1, and the invariant `0 <= full <= part <= maxStat` holds |
| Stats.Stat.FromJson | src/Stat.cc:29-39 | every field read from the description is stored, and `ticksUntilRegen` starts at 0 |
| Stats.Stat.SetFull | src/Stat.hh:33-42 | the amount becomes the clamped value under the cap, nothing else changes, and the invariant holds after it |
| Stats.Stat.SetPart | src/Stat.hh:46-53 | the cap becomes the clamped value, the amount is lowered to the cap if above it, and the invariant holds after it |
| Stats.Stat.ResetRegen | src/Stat.hh:80-82 | only the wait is reset, to `baseRegenTicks` |
| Stats.Stat.AddFull | src/Stat.hh:56-62 | the amount grows by `amount` within its bounds, a loss resets the wait, and the invariant is kept |
| Stats.Stat.AddPart | src/Stat.hh:65-71 | the cap grows by `amount` within its bounds, the amount follows it down, a loss resets the wait, and the invariant is kept |
| Stats.Stat.Fill | src/Stat.hh:74-77 | the cap and the amount become the largest they can be, the maximum when it is non-negative |
| Stats.Stat.Regenerate | src/Stat.cc:5-14 | the amount grows by the regeneration total through `addFull`, and the invariant is kept |
| Stats.Stat.Update | src/Stat.hh:85-88 | regeneration, then one tick less to wait; the invariant is kept |
| MapCells.WithLayerTypeReads | src/world/Map.hh:367-375 | writing one layer's type of a cell changes that layer only, and no sprite |
| MapCells.WithLayerSpriteReads | src/world/Map.hh:308-321 | writing one layer's sprite of a cell changes that sprite only, and no type |
| MapCells.LayerOf | src/world/Map.cc:370-378 | one layer of the whole map, cell by cell in storage order |
| MapCells.Wrap | src/world/Map.hh:420-430 | for a positive width, `wrapX` lands in `[0, width)`, differs from `x` by a multiple of the width, and leaves an in-range column alone |
| MapCells.WrapShift | src/world/Map.hh:420-430 | moving a column by whole widths does not change where it wraps to |
| MapCells.WrapCongruent | src/world/Map.hh:420-430 | two columns wrap to the same one exactly when they differ by a multiple of the width |
| MapCells.CellInGrid | src/world/Map.hh:64-69 | cell `y * width + x` exists for in-range coordinates |
| MapCells.CellIndex | src/world/Map.hh:64-69 | `findPointer` addresses a cell of the grid whose remainder by the width is the wrapped column and whose quotient is the row |
| MapCells.CellIndexInjective | src/world/Map.hh:64-69 | two coordinates share a cell exactly when they have the same row and wrap to the same column |
| MapCells.BiomeCount | src/world/Map.hh:118-125 | `size / 32 + 1` biome squares always cover the size, with at most one square to spare |
| MapCells.BiomeSquare | src/world/Map.hh:142-149 | `setBiome`'s index lies in the biome vector under its asserts |
| MapCells.BiomeIndex | src/world/Map.hh:128-135 | `getBiome`'s index `biomesWide * (y / 32) + x / 32`; `BiomeIndexInRange` proves it inside the biome vector under the asserts |
| MapCells.BiomeOf | src/world/Map.hh:128-135 | the biome `getBiome` points at; `GetBiomeReadsSetBiome` and `SetBiomeThenGet` prove it reads what `setBiome` wrote |
| TileMap.Map.GetBiome | src/world/Map.hh:128-135 | `getBiome` on the map's vector, which is `BiomeOf`; `TileMap.Map.SetBiome` states what it reads after a write |
| MapCells.BiomeIndexInRange | src/world/Map.hh:128-135 | `getBiome`'s index lies in the biome vector under its asserts |
| MapCells.GetBiomeReadsSetBiome | src/world/Map.hh:128-149 | a tile reads the biome square `setBiome` wrote exactly when it lies in that 32 by 32 square |
| MapCells.SetBiomeThenGet | src/world/Map.hh:128-149 | after `setBiome`, the tiles of that square read the new biome and every other tile reads what it read before |
| MapCells.AsInt | src/world/Map.cc:788 | the `unsigned int` tick stored into the `int` field `lastUpdated` is the same 32-bit value read as signed |
| MapCells.Healed | src/world/Map.cc:757-769 | the healing loop never lengthens the damaged list |
| MapCells.Expired | src/world/Map.cc:763 | an entry has expired when the unsigned difference of the tick and its stamp exceeds `HEAL_TIME` |
| MapCells.HealedKeepsFresh | src/world/Map.cc:757-769 | healing keeps exactly the entries not yet expired, in order; with nothing expired it changes nothing, so a second heal at the same tick changes nothing |
| MapCells.HealedStep | src/world/Map.cc:761-769 | one more entry of the loop is erased when expired and kept otherwise |
| MapCells.HitAll | src/world/Map.cc:785-791 | the damage loop keeps the list's length and every entry's place |
| MapCells.LastEntry | src/world/Map.cc:783-791 | the index the loop remembers is the last entry for the place, or -1 when there is none |
| MapCells.RemoveAt | src/world/Map.cc:805 | erasing one entry shortens the list by one |
| MapCells.DamagedList | src/world/Map.cc:783-806 | the entry `damage` works on and the list it leaves; what they are is `DamagedEntry` and `DamagedListKeepsOthers` |
| MapCells.DamagedEntry | src/world/Map.cc:783-800 | the entry `damage` works on is for the place and stamped with the tick; an existing entry loses `amount`, and a new one starts at `maxHealth - amount` |
| MapCells.DamagedListKeepsOthers | src/world/Map.cc:783-806 | after `damage` there is still at most one entry per place, the place's entry stays exactly when it has health left, and the entries of other places are kept as they were |
| MapCells.HitAllKeeps | src/world/Map.cc:785-791 | the loop changes only the place's own entries |
| MapCells.RemoveAtKeepsUnique | src/world/Map.cc:805 | erasing an entry removes that place and keeps one entry per place |
| MapCells.OnMap | src/world/Map.hh:207-209 | `isOnMap`: both coordinates inside the map, with no wrapping; `OnMapCells` proves the places on the map match the cells one to one |
| MapCells.OnMapCells | src/world/Map.hh:207-209 | the places on the map and the cells correspond one to one |
| MapCells.Index | src/world/Map.hh:64-69 | the cell of a row on the map is inside the grid, and for an in-range column it is `y * width + x` |
| TileMap.Map.GetTileType | src/world/Map.cc:665-676 | `getTileType` on the map's array, which is `TypeAt` on its grid: EMPTY off the map, the layer's stored type on it |
| MapCells.TypeAt | src/world/Map.cc:665-676 | `getTileType` is EMPTY off the map and the stored type of the layer on it |
| MapCells.TileAt | src/world/Map.hh:341-347 | `getTile(x, y, layer)` wraps the column first, so only rows outside the map read as EMPTY |
| MapCells.SetType | src/world/Map.hh:367-375 | setting a type keeps the grid's shape |
| MapCells.SetTypeOnlyChanges | src/world/Map.hh:367-375 | setting a type changes exactly that layer of that place (its column taken modulo the width), and no sprite |
| MapCells.SetSpriteByte | src/world/Map.hh:308-321 | setting a sprite keeps the grid's shape |
| TileMap.Map.GetSprite | src/world/Map.hh:288-305 | `getSprite` on the map's array, which is `SpriteAt` on its grid: a column and a row in `[0, 16)`; `SetSpriteThenGet` reads back what `setSprite` stored |
| MapCells.SpriteAt | src/world/Map.hh:288-305 | `getSprite` decodes a column and a row in `[0, 16)` |
| MapCells.OffsetType | src/world/Map.hh:379-382 | `getTileType(place, dx, dy)` reads the wrapped column `place.x + dx` at row `place.y + dy` |
| MapCells.SetSpriteThenGet | src/world/Map.hh:288-321 | `setSprite` then `getSprite` at the same place and layer gives back a sprite place that fits the byte, and every other place and layer keeps its sprite |
| MapCells.FourBits | src/world/Map.cc:336-355 | the four bits of the bordering code can be read back one by one |
| MapCells.BorderCode | src/world/Map.cc:323-356 | the bordering code is in `0..15` |
| MapCells.BorderCodeBits | src/world/Map.cc:323-356 | a liquid tile gives 0; otherwise bit 1 is set exactly when there is a row above with a different edge, bit 2 when the right neighbour's edge differs, bit 4 when there is a row below with a different edge, and bit 8 when the left neighbour's edge differs (a torch counting as solid) |
| MapCells.Bordering | src/world/Map.cc:323-356 | `bordering` at a place on the map is in `0..15` |
| MapCells.PlacedTileIsThere | src/world/Map.cc:729 | a placed tile is what the place then holds |
| MapCells.KillDrops | src/world/Map.cc:811-823 | `kill` drops at most one item: the block item of the tile, and nothing for an empty place |
| MapCells.MovedGrid | src/world/Map.cc:853-873 | `moveTile` keeps the grid's shape |
| MapCells.MovedOnMap | src/world/Map.cc:867-872 | a move onto the map keeps the grid's shape |
| MapCells.CopiedGrid | src/world/Map.cc:868-872 | the copy step keeps the grid's shape |
| MapCells.MoveDrops | src/world/Map.cc:862-867 | a move drops at most one item |
| MapCells.MovedGridMeaning | src/world/Map.cc:853-873 | with the destination on the map and another cell, the tile and its sprite end up there and the place is EMPTY; off the map only the place is emptied; nothing else changes |
| MapCells.DisplacedGrid | src/world/Map.cc:875-889 | `displaceTile` keeps the grid's shape |
| MapCells.SwappedGrid | src/world/Map.cc:883-888 | the swap keeps the grid's shape |
| MapCells.DisplacedGridSwaps | src/world/Map.cc:875-889 | `displaceTile` swaps the layer's type and sprite of the two places and changes nothing else; off the map it changes nothing |
| MapCells.MapCoords | src/world/Map.cc:825-851 | `getMapCoords` gives a column on the map, the given layer, and the row `y / tileHeight` rounded toward zero |
| MapCells.MapCoordsOfPixel | src/world/Map.cc:825-851 | a pixel on the map gives the tile it lies in; another x gives the wrapped column of its tile; a y less than one tile below 0 still gives row 0 |
| MapCells.ShiftedColumn | src/world/Map.cc:830-838 | adding the world width in pixels adds exactly `width` columns |
| MapCells.SpritesOf | src/world/Map.cc:441-444 | `save` writes one foreground and one background sprite number per cell, in order |
| MapCells.LoadedCells | src/world/Map.cc:512-570 | the loading constructor builds one cell per tile of the map |
| MapCells.SaveLoadRoundTrip | src/world/Map.cc:394-570 | saving a map and loading the file gives back its size, spawn point, seed, both layers, every cell's sprites and its biomes; the coded layers are canonical and cover the map exactly |
| MapCells.LoadedCellsOf | src/world/Map.cc:512-570 | a file whose layers decode to some cells' types, with their sprites, loads as those cells |
| TileMap.Map.GridOf | src/world/Map.hh:64-69 | a map whose array has `width * height` cells is a well-formed grid |
| TileMap.Map.Blank | src/world/Map.hh:233-240 | the private constructor makes an empty map with one-pixel tiles: no cells, no biomes, nothing to update or heal, tick 0 |
| TileMap.Map.WrapX | src/world/Map.hh:420-430 | the method's `%=` and loop of additions compute `Wrap`: the column in `[0, width)` congruent to `x` |
| TileMap.Map.FindPointer | src/world/Map.hh:64-69 | the cell addressed is `CellIndex`, inside the array |
| TileMap.Map.SetWidth | src/world/Map.hh:122-125 | the width is stored and `biomesWide` becomes `width / 32 + 1` |
| TileMap.Map.SetHeight | src/world/Map.hh:118-121 | the height is stored and `biomesHigh` becomes `height / 32 + 1` |
| TileMap.Map.SetBiome | src/world/Map.hh:142-149 | only the biome square's entry changes; every tile of that square then reads the new biome and every other tile what it read before |
| TileMap.Map.SetTileType | src/world/Map.hh:367-375 | the array becomes the grid with that layer of that cell set, and nothing else |
| TileMap.Map.SetSprite | src/world/Map.hh:308-321 | the array becomes the grid with that layer's sprite of that cell set to the encoded place |
| TileMap.Map.SetVariant | src/world/Boulder.cc:130-133 | the array becomes the grid with that layer's sprite byte set to the variant |
| TileMap.Map.GetTileTypeNear | src/world/Map.hh:379-382 | the offset lookup gives the type at the wrapped column and the offset row |
| TileMap.Map.AddToUpdate | src/world/Map.hh:154-171 | a place is inserted only when its tile can update; afterwards the set contains it exactly when it can update or was already there |
| TileMap.Map.RemoveFromUpdate | src/world/Map.hh:173-183 | the place is erased from the set and nothing else |
| TileMap.Map.UpdateContains | src/world/Map.hh:185-187 | membership in the set of places to update |
| TileMap.Map.Kill | src/world/Map.cc:811-823 | the tile's item is dropped (nothing for an empty place) and the place is set to EMPTY |
| TileMap.Map.Destroy | src/world/Map.hh:403-410 | the tile is killed exactly when its health is at most 0, and the result is that same condition; otherwise nothing changes and nothing drops |
| TileMap.Map.IsBesideTile | src/world/Map.cc:67-89 | the double loop computes `Beside`: the place or one of its four orthogonal on-map neighbours holds a tile other than EMPTY and WATER |
| TileMap.Map.NeighbourHasTile | src/world/Map.cc:79-81 | one step of the loop counts an on-map, non-diagonal, non-centre neighbour holding a tile |
| MapCells.CanPlace | src/world/Map.cc:708-734 | the three tests of `placeTile` (free place, a tile beside it, a layer that takes the tile); `TileMap.Map.PlaceTile` places exactly when they pass |
| TileMap.Map.PlaceTile | src/world/Map.cc:708-734 | the tile is placed exactly when the place is free, a layer has a tile beside it and the layer accepts the tile; the place then holds it with its new sprites, and otherwise nothing changes |
| TileMap.Map.ChooseSprite | src/world/Map.cc:53-65 | both sprites of the cell are set to the places chosen for them |
| TileMap.Map.Damage | src/world/Map.cc:775-809 | no tile (EMPTY or WATER) means false and no change; otherwise the damaged list becomes the one `DamagedList` gives at this tick, and the tile is killed exactly when its entry has no health left |
| MapUpdate.Update | src/world/Map.cc:736-773 | one tick of the map: the update set keeps exactly the places whose tiles could update on the cells as they were, the cells and the dropped items are those of `Stepped` over that pruned set in ascending order at the current tick, the damaged list is healed at that tick, and the tick grows by one (wrapping in 32 bits) |
| MapUpdate.CanUpdateAt | src/world/Map.cc:740 | `getTile(place)->canUpdate`: a boulder type asks the boulder, any other type whether it is animated |
| MapUpdate.PruneAndUpdateTiles | src/world/Map.cc:737-755 | the set keeps exactly the places whose tiles could update on the cells as they were, and then the cells and drops are `Stepped`'s over the pruned set in ascending order |
| MapUpdate.UpdateTiles | src/world/Map.cc:747-755 | the loop over the copy of the update set: the cells end as `Stepped` leaves them over the set's places in ascending order, and the drops are that pass's drops |
| MapUpdate.UpdatePlace | src/world/Map.cc:751-753 | the tile at the place is looked up and updated: a boulder type runs the boulder's update, any other type the plain tile's animation; cells and drops are `TileStep`'s |
| MapUpdate.IsBoulderType | src/world/Map.cc:19-41 | `newTile`'s test: the types from `FIRST_BOULDER` to `LAST_BOULDER` are boulders; `PlainPassKeepsTypes` proves a pass over other types changes no type |
| MapUpdate.TileStep | src/world/Map.cc:19-41 | the per-place step dispatches on the type, as `newTile` does, and keeps the map's width, height and well-formedness |
| MapUpdate.Stepped | src/world/Map.cc:747-755 | the places are updated one after another, each seeing the cells the earlier ones left, and the map keeps its shape |
| MapUpdate.SteppedNext | src/world/Map.cc:749-754 | one more turn of the loop: the pass over one more place is the pass so far followed by that place's step, with the drops appended |
| MapUpdate.Ascending | src/world/Map.cc:747-750 | the order a `std::set<Location>` is walked in holds every place of the set exactly once: as many places as the set, and the same ones |
| MapUpdate.AscendingIncreases | MapHelpers.cc:16-29 | in that order each place comes before every greater one under `Location::operator<` |
| MapUpdate.AscendingNext | src/world/Map.cc:749-754 | the iterator's next place is the least one left, and the places after it are the order of the rest |
| MapUpdate.LeastExists | MapHelpers.cc:16-29 | a non-empty set of places has a least one, because the order is strict and total |
| MapUpdate.LeastUnique | MapHelpers.cc:16-29 | the least place of a set is unique |
| MapUpdate.BoulderStepShape | src/world/Boulder.cc:139-156 | a boulder's update keeps the map's width, height and well-formedness |
| MapUpdate.MoveStepShape | src/world/Boulder.cc:150-154 | a boulder's sideways move, slide included, keeps the map's shape |
| MapUpdate.PlainPassKeepsTypes | src/world/Tile.cc:76-87 | a pass over places none of which holds a boulder drops nothing and changes no tile type anywhere on the map |
| MapUpdate.AnimationKeepsType | src/world/Tile.cc:76-87 | an animation step writes only a sprite, so every tile type on the map stays |
| TileMap.Map.PruneUpdates | src/world/Map.cc:738-746 | the set keeps exactly the places whose tiles can update |
| TileMap.Map.Heal | src/world/Map.cc:757-769 | the erase loop leaves exactly the entries that have not expired, in order |
| TileMap.Map.GetMapCoords | src/world/Map.cc:825-851 | the place of a pixel is `MapCoords`, and it lies on the map |
| TileMap.Map.MoveTile | src/world/Map.cc:853-873 | the array becomes `MovedGrid` and the drops are what killing the destination drops |
| TileMap.Map.CopyTile | src/world/Map.cc:867-872 | the destination is given the tile's sprite and type and the place is emptied |
| TileMap.Map.DisplaceTile | src/world/Map.cc:875-889 | the array becomes `DisplacedGrid`: the two places swapped, or nothing changed off the map |
| TileMap.Map.SwapTiles | src/world/Map.cc:883-888 | the two places exchange their types and sprites |
| TileMap.Map.SaveLayer | src/world/Map.cc:358-392 | the loop writes the run-length code `Compress` of the layer |
| TileMap.Map.SaveBiomes | src/world/Map.cc:418-438 | the loop writes the run-length code of the biome vector |
| MapCells.SaveOf | src/world/Map.cc:394-448 | what `save` writes: size, spawn, seed, both layers run-length coded, the sprites and the biomes; `SaveLoadRoundTrip` loads it back |
| TileMap.Map.Save | src/world/Map.cc:394-448 | the file written is `SaveOf` the map, which `SaveLoadRoundTrip` loads back |
| TileMap.Map.LoadLayer | src/world/Map.cc:450-470 | each cell's type in that layer becomes the decoded value and nothing else in the cell changes |
| TileMap.Map.LoadBiomes | src/world/Map.cc:545-555 | the biome vector becomes the decoding of its runs |
| TileMap.Map.Load | src/world/Map.cc:473-588 | the loading constructor gives the file's size, spawn, seed, cells and biomes, tick 0, no damage, and exactly the on-map places of both layers whose tiles can update |
| TileMap.Map.LoadCells | src/world/Map.cc:512-570 | the fresh cells receive the decoded layers and sprites |
| TileMap.Map.LoadSprites | src/world/Map.cc:564-570 | each cell's sprites become the stored numbers cut to `uint8_t` |
| TileMap.Map.LoadUpdates | src/world/Map.cc:572-587 | the set holds exactly the on-map places of both layers whose tiles can update |
| MapCells.Beside | src/world/Map.cc:67-89 | the place itself or one of its four orthogonal neighbours holds a tile other than EMPTY and WATER; `BesideByNeighbours` ties it to the loop |
| MapCells.HasTile | src/world/Map.cc:67-89 | a neighbour `isBesideTile` counts: on the map and holding a tile other than EMPTY and WATER; `BesideByNeighbours` ties it to the loop |
| TileMap.BesideByNeighbours | src/world/Map.cc:67-89 | `Beside` is the place itself or one of the loop's counted neighbours |
| TileMap.HitEntries | src/world/Map.cc:783-791 | the loop hits every entry for the place and remembers the last one's index |
| Mapgen.Resized | src/world/Mapgen.cc:20-25 | `std::vector::resize` keeps the first entries and pads with the given value |
| Mapgen.Generator.constructor | src/world/Mapgen.cc:680 | the generator starts over the given map, with no surface heights |
| Mapgen.Generator.SetSize | src/world/Mapgen.cc:17-26 | the map gets the size, `width * height` fresh cells, `biomesWide * biomesHigh` biomes and `x` zeroed surface heights |
| Mapgen.Generator.GetBaseBiome | src/world/Mapgen.cc:305-324 | the biome is `biomeData[t][h]`, where `t` and `h` count the leading percentiles strictly below the temperature and the humidity |
| Mapgen.Generator.MoveTileFast | src/world/Mapgen.cc:559-564 | the array becomes `FastMoved`: the destination gets the source's type and the source becomes EMPTY, both columns wrapped |
| Mapgen.Generator.FindFall | src/world/Mapgen.cc:566-587 | the loop returns `FallFrom`'s column: the stop column `wrapX(x - direction)` or a column whose cell below is EMPTY |
| Mapgen.Generator.ScanColumn | src/world/Mapgen.cc:571-585 | one pass of the loop keeps the pending answer and shrinks the distance to the stop column |
| Mapgen.Generator.StepColumn | src/world/Mapgen.cc:583-584 | the next column in the direction, wrapped |
| Mapgen.Generator.FillWater | src/world/Mapgen.cc:636-643 | the array becomes `Filled`: the top `fillDepth` rows of the foreground are WATER |
| Mapgen.Generator.RemoveWater | src/world/Mapgen.cc:659-678 | the array becomes `Removed`, column by column |
| Mapgen.Generator.RemoveFromColumn | src/world/Mapgen.cc:662-676 | one column's scan from the top removes the water `RemoveColumn` says |
| Mapgen.Generator.FillOcean | src/world/Mapgen.cc:242-253 | the array becomes `Ocean`, column by column from `baseHeight + 30` down |
| Mapgen.Generator.FillOceanColumn | src/world/Mapgen.cc:245-252 | one column's scan fills the EMPTY cells below the sea level until the first tile |
| Mapgen.InsertSample | src/world/Mapgen.cc:284-295 | one sample is inserted before the first entry it does not exceed, or at the end |
| Mapgen.GetPercentile | src/world/Mapgen.cc:276-303 | with the index inside the table, the answer is the entry at `(int)(percentile * samples)` of the sorted samples |
| Mapgen.LeadingBelowUnique | src/world/Mapgen.cc:314-321 | the count of leading entries below a value is the only index with those entries below and the next one not |
| GenPasses.SetTypeCell | src/world/Map.hh:367-375 | setting a type changes one cell's layer and no other cell |
| GenPasses.SetTypeOtherRow | src/world/Map.hh:367-375 | setting a type leaves other rows' foregrounds alone |
| GenPasses.FilledColumn | src/world/Mapgen.cc:639-641 | filling a column keeps the grid's shape |
| GenPasses.Filled | src/world/Mapgen.cc:636-643 | filling keeps the grid's shape |
| GenPasses.FilledColumnCell | src/world/Mapgen.cc:639-641 | one column's fill makes its rows from `start` up WATER in the foreground and changes nothing else |
| GenPasses.FilledCell | src/world/Mapgen.cc:636-643 | after `fillWater(d)` a cell is WATER in the foreground exactly when it lies in the top `d` rows, and nothing else changes |
| GenPasses.OceanColumn | src/world/Mapgen.cc:245-252 | one column's ocean fill keeps the grid's shape |
| GenPasses.Ocean | src/world/Mapgen.cc:242-253 | the ocean fill keeps the grid's shape |
| GenPasses.OceanColumnCell | src/world/Mapgen.cc:245-252 | a cell of the column becomes WATER exactly when it is below the sea level and the scan's start, with only EMPTY cells from the start down to it |
| GenPasses.OceanCell | src/world/Mapgen.cc:242-253 | after the ocean fill a cell is WATER exactly when it is below the sea level and no tile lies between it and `baseHeight + 30`; nothing else changes |
| GenPasses.ColumnUntouched | src/world/Mapgen.cc:242-253 | columns the loop has not reached are untouched |
| GenPasses.WaterCount | src/world/Mapgen.cc:664-670 | the water tiles of a column range, no more than the range holds |
| GenPasses.WaterCountFrame | src/world/Mapgen.cc:664-670 | the count depends only on the column's foreground in the range |
| GenPasses.RemoveColumn | src/world/Mapgen.cc:662-676 | one column's removal keeps the grid's shape |
| GenPasses.Removed | src/world/Mapgen.cc:659-678 | water removal keeps the grid's shape |
| GenPasses.RemoveColumnCell | src/world/Mapgen.cc:662-676 | a cell of the column becomes EMPTY exactly when the top-down scan reaches it with water still to remove, and it holds WATER |
| GenPasses.RemovedHereAfterWater | src/world/Mapgen.cc:667-670 | removing one water tile moves the scan on with one less to remove |
| GenPasses.RemovedHereFrame | src/world/Mapgen.cc:664-676 | the scan's decisions depend only on the column's foreground |
| GenPasses.RemovedCell | src/world/Mapgen.cc:659-678 | after `removeWater(d)` a cell is emptied exactly when its column's scan from the top, skipping EMPTY cells and stopping at the first other tile, reaches it among the first `d` water tiles; nothing else changes |
| GenPasses.RemovedUntouched | src/world/Mapgen.cc:659-678 | columns the loop has not reached are untouched |
| GenPasses.WaterCountRemoveOne | src/world/Mapgen.cc:667-670 | emptying one water tile lowers the column's water count by one |
| GenPasses.RemoveColumnCount | src/world/Mapgen.cc:662-676 | one column loses at most `d` water tiles, and never gains any |
| GenPasses.WaterCountTop | src/world/Mapgen.cc:664-670 | an unchanged top cell contributes the same to both counts |
| GenPasses.FastMoved | src/world/Mapgen.cc:559-564 | a fast move keeps the grid's shape |
| GenPasses.FastMovedMeaning | src/world/Mapgen.cc:559-564 | after `moveTileFast` the source reads EMPTY, the destination reads the source's old type, and every other place and layer reads as before, with no sprite changed |
| GenPasses.StepsTo | src/world/Mapgen.cc:571 | the steps left to the stop column, 0 exactly at it |
| GenPasses.NextColumn | src/world/Mapgen.cc:583-584 | the next column is on the map and is `wrapX(current + direction)` |
| GenPasses.StepsToNext | src/world/Mapgen.cc:583-584 | each step brings the scan one column nearer the stop column |
| GenPasses.FallMeasure | src/world/Mapgen.cc:571-585 | the loop's measure is bounded by the width |
| GenPasses.FallFromStep | src/world/Mapgen.cc:571-585 | a pass that neither finds a fall nor gives up moves one column on and lowers the measure |
| GenPasses.FallFrom | src/world/Mapgen.cc:566-587 | what `findFall` answers from a column on; `FallFromMeaning` proves it the stop column or a column whose cell below is EMPTY |
| GenPasses.FallFromMeaning | src/world/Mapgen.cc:566-587 | `findFall` returns the stop column (no fall) or a column whose cell below is EMPTY |
| GenPasses.Insert | src/world/Mapgen.cc:284-295 | one insertion grows the table by exactly one, as the source asserts |
| GenPasses.InsertAll | src/world/Mapgen.cc:280-297 | the table has one entry per sample |
| GenPasses.InsertSortedPermutes | src/world/Mapgen.cc:284-295 | inserting into a sorted table keeps it sorted and adds exactly the new value |
| GenPasses.InsertedFrom | src/world/Mapgen.cc:284-295 | every entry after an insertion is the new value or an old entry |
| GenPasses.InsertAllSorts | src/world/Mapgen.cc:280-297 | the table is sorted ascending and is a permutation of the samples |
| GenPasses.InsertSkips | src/world/Mapgen.cc:285-290 | the insertion passes over the leading entries smaller than the value |
| GenPasses.Trunc | src/world/Mapgen.cc:299 | the `(int)` cast of a `double` truncates toward zero |
| GenPasses.PercentileIndex | src/world/Mapgen.cc:299 | the index `(int)(percentile * samples)`, truncated toward zero; its range is `PercentileIndexInRange` and `PercentileAssertsAdmitEnd` |
| GenPasses.PercentileAssertsAdmitEnd | src/world/Mapgen.cc:299-302 | percentile 1.0 passes both asserts with index `samples`, one past the table's last entry |
| GenPasses.PercentileIndexInRange | src/world/Mapgen.cc:299-302 | a percentile in `[0, 1)` gives an index inside the table |
| GenPasses.LeadingBelow | src/world/Mapgen.cc:314-321 | the count `t` is at most the table size, every entry before `t` is below the value, and the entry at `t` (if any) is not |
| GenPasses.LeadingBelowSorted | src/world/Mapgen.cc:314-321 | on a sorted table an entry is below the value exactly when its index is below the count |
| Boulders.VectorConvert | src/world/Boulder.cc:20-26 | the set holds exactly the listed tile types |
| Boulders.SlideDirection | src/world/Boulder.cc:55-56 | the random slide direction is -1 or 1 |
| TileMap.Map.GetVariant | src/world/Boulder.cc:130 | `getVariant` as the boulder calls it (no map header declares it): the layer's stored sprite byte; `Boulders.SetDirectionThenGet` reads back what `setDirection` stored |
| Boulders.GetDirection | src/world/Boulder.cc:163-169 | a boulder that does not move has direction 0; one that moves faces -1 or 1, as its sprite variant says |
| MapCells.VariantAt | src/world/Boulder.cc:167 | the variant a boulder reads: the stored sprite byte of its layer; `Boulders.SetDirectionThenGet` reads back what `setDirection` stored |
| Boulders.DirectedVariant | src/world/Boulder.cc:124-134 | the byte `setDirection` stores: the variant reduced into the first half, moved to the second half for direction 1; `SetDirectionThenGet` proves `getDirection` then reads the direction |
| Boulders.SetDirectionGrid | src/world/Boulder.cc:124-134 | turning a boulder keeps the grid's shape |
| Boulders.FallStep | src/world/Boulder.cc:29-43 | the result, cells and drops of `fall`; what they are is `FallStepMeaning` |
| Boulders.FallStepMeaning | src/world/Boulder.cc:29-43 | `fall` succeeds exactly when the tile below is one it crushes or sinks into; a crush moves the boulder down a row and leaves EMPTY behind, a sink swaps the two tiles; a failed fall changes nothing |
| Boulders.MoveStep | src/world/Boulder.cc:46-74 | the result, cells and drops of `move`, sliding a random way when it has no direction; what they are is `MoveStepMeaning` |
| Boulders.MoveStepMeaning | src/world/Boulder.cc:46-74 | with a direction, `move` succeeds exactly when the tile ahead is one it destroys or displaces; with none, it succeeds exactly when the boulder slides; a failed move changes nothing |
| Boulders.CanUpdate | src/world/Boulder.cc:158-161 | `canUpdate(place)` is `canUpdate(place, direction)` at the boulder's own direction; its meaning is `CanUpdateDirMeaning` |
| Boulders.CanUpdateDir | src/world/Boulder.cc:76-96 | `canUpdate(place, direction)`, sliding both ways when there is no direction; `CanUpdateDirMeaning` proves it holds exactly when a fall or that move would succeed |
| Boulders.CanUpdateDirMeaning | src/world/Boulder.cc:76-96 | `canUpdate(place, direction)` holds exactly when the boulder can fall, or the move in that direction (either direction, when it has none and slides) would succeed |
| Boulders.UpdateStep | src/world/Boulder.cc:139-156 | `update(tick)` as a value: a fall on a fall tick, else a move on a move tick, else true; `UpdateFallsFirst`, `UpdateFalseMeansStuck` and `CannotUpdateKeepsMap` state what it does |
| Boulders.CannotUpdateKeepsMap | src/world/Boulder.cc:139-161 | a boulder that cannot update leaves the map as it is |
| Boulders.UpdateFalseMeansStuck | src/world/Boulder.cc:139-156 | when `update` returns false, it is a move tick, the move in the boulder's direction failed, and the map is unchanged |
| Boulders.UpdateFallsFirst | src/world/Boulder.cc:141-147 | on a fall tick a non-floating boulder over a tile it crushes or sinks into falls, and that is the whole update |
| Boulders.SetDirectionThenGet | src/world/Boulder.cc:124-169 | after `setDirection(d)` the boulder reads direction `d`, and no tile type changes |
| Boulders.Fall | src/world/Boulder.cc:29-43 | the map's cells become the fall step's, and the result and the dropped items are the step's |
| Boulders.Move | src/world/Boulder.cc:46-74 | the map's cells become the move step's, and the result and the dropped items are the step's |
| Boulders.SetDirection | src/world/Boulder.cc:124-134 | the map's cells become those of the turned boulder |
| Boulders.Update | src/world/Boulder.cc:139-156 | the map's cells become the update step's, and the result and the dropped items are the step's |
| TileKind.GetFilename | src/world/Tile.cc:23-27 | `getFilename`: the path, then `tiles/`, the tile's name and `.json`; `FilenameHoldsName` proves the name can be read back |
| TileKind.FilenameHoldsName | src/world/Tile.cc:23-27 | the JSON file name holds the tile's name between `tiles/` and `.json`, so two kinds with one file name have one name |
| TileKind.UpdateSprite | src/world/Tile.cc:68-73 | `updateSprite`: the sprite place whose column is the stored one and whose row is `bordering`; its effect once stored is `UpdateSpriteKeepsColumn` |
| TileKind.UpdateSpriteKeepsColumn | src/world/Tile.cc:68-73 | `updateSprite` keeps the sprite column, sets the row to the bordering pattern, and changes no other cell |
| TileKind.GetSpritePlace | src/world/Tile.cc:48-66 | `getSpritePlace` with `rand()` as a parameter; `SpritePlaceOnSheet` proves the place is on the sheet in the layer's half with the bordering row |
| TileKind.SpritePlaceOnSheet | src/world/Tile.cc:48-66 | a tile without a texture is at (0, 0); otherwise the column is on the sheet (a background one past the foreground sprites) and the row is the bordering pattern |
| TileKind.TileUpdateGrid | src/world/Tile.cc:76-87 | an update keeps the grid's shape |
| TileKind.TileCanUpdate | src/world/Tile.cc:131-133 | `Tile::canUpdate`: a plain tile needs updates exactly when it is animated; `AnimationCycles` shows a tile that cannot update is left alone |
| TileKind.AnimationCycles | src/world/Tile.cc:76-87 | every fourth tick an animated tile steps to the next of its sprites, wrapping to the first; otherwise, or for a tile that does not update, nothing changes |
| TileKind.Update | src/world/Tile.cc:76-133 | the result says whether the tile kind updates, and the map's cells become the update's |
| MouseBoxes.Contains | src/Button.hh:33-38 | the answer holds exactly when the point is inside the half-open rectangle, and the box's `containsMouse` is set to it, nothing else changing |
| MouseBoxes.Move | src/Button.hh:75-80 | the box takes the new position and size and keeps its mouse state |
| MouseBoxes.MoveToRect | src/Button.hh:68-73 | moving to a `Rect` is moving to its position and size |
| MouseBoxes.Reset | src/Button.hh:83-86 | the click and the mouse-over are cleared, the rest is kept |
| MouseBoxes.Clicked | src/Button.hh:46-48 | `clicked`: a button-down the box recorded that was not held over from the last frame; its properties are `ClickKinds` |
| MouseBoxes.LeftClicked | src/Button.hh:50-52 | `leftClicked`: a click of the left button; `ClickKinds` proves it a click that is never also a right click |
| MouseBoxes.RightClicked | src/Button.hh:54-56 | `rightClicked`: a click of the right button; `ClickKinds` proves it a click that is never also a left click |
| MouseBoxes.ClickKinds | src/Button.hh:46-56 | a click is a fresh button-down; left and right clicks are clicks and never both; a reset box is not clicked |
| MouseBoxes.MoveThenContains | src/Button.hh:33-80 | after a move, `contains` answers for the new rectangle, and an empty rectangle contains no point |
| Inventories.SetSlot | src/Inventory.cc:165-170 | setting a slot keeps the grid's shape |
| Inventories.AddResult | src/Inventory.cc:174-195 | `add` answers NULL or the offered item, and when it answers an item the grid is left as it was |
| Inventories.PickupFrom | src/Inventory.cc:199-215 | the scan answers NULL or the offered item; an answered item means no slot changed; the grid keeps its shape |
| Inventories.PickupFromMeaning | src/Inventory.cc:199-215 | a non-null item lands in the first empty slot in row-major order and NULL comes back; with no empty slot the item comes back and the grid is untouched |
| Inventories.PickupNullFrom | src/Inventory.cc:174-215 | picking up NULL answers NULL and leaves every slot as it was |
| Inventories.SetSlotSwaps | src/Inventory.cc:165-170 | setting a slot trades its old content for the new one in the grid's multiset |
| Inventories.AddKeepsItems | src/Inventory.cc:174-195 | `add` keeps the multiset of the grid plus the answer equal to the grid plus the offered item |
| Inventories.PickupKeepsItems | src/Inventory.cc:199-215 | `pickup` keeps the multiset of the grid plus the answer equal to the grid plus the offered item |
| Inventories.UseBox | src/Inventory.cc:243-267 | one slot's handling keeps the grid's and the boxes' shapes |
| Inventories.RowFrom | src/Inventory.cc:242-268 | one row's scan keeps the shapes |
| Inventories.RowsUpTo | src/Inventory.cc:240-271 | `update`'s scan keeps the shapes |
| Inventories.UseBoxKeepsItems | src/Inventory.cc:243-267 | handling one press keeps the multiset of the grid plus the mouse's item |
| Inventories.RowFromKeepsItems | src/Inventory.cc:242-268 | one row's scan keeps the multiset of the grid plus the mouse's item |
| Inventories.UpdateKeepsItems | src/Inventory.cc:258-267 | `update(mouse)` keeps the multiset of the grid plus the mouse's item |
| Inventories.BreakSkipsRestOfRow | src/Inventory.cc:248-253 | with a non-item action on the mouse, a press consumes its own click and the rest of the row is skipped, the slots untouched |
| Inventories.PlacedBox | src/Inventory.cc:219-237 | the box `updateClickBoxes` places at (row, col); `PlacedBoxesTile` proves the boxes tile the plane from the corner |
| Inventories.PlacedBoxesTile | src/Inventory.cc:219-237 | the placed boxes tile the plane from the inventory's corner: a point is in the box of exactly one (row, col), the one its offset divided by the square size names |
| Inventories.Inventory.GetWidth | src/Inventory.cc:147-150 | `getWidth`: the first row's length; the constructor ensures it is the number of columns asked for |
| Inventories.Inventory.GetHeight | src/Inventory.cc:153-155 | `getHeight`: the number of rows; the constructor ensures it is the number of rows asked for |
| Inventories.Inventory.GetItem | src/Inventory.cc:158-162 | `getItem`: the slot's pointer, under its asserts; `Inventories.Inventory.SetItem` ensures it answers the item just set |
| Inventories.Inventory.constructor | src/Inventory.cc:65-155 | a `rows` × `cols` grid of NULL slots, height `rows` and width `cols`, at (0, 0), with the boxes placed |
| Inventories.Inventory.Touch | src/Inventory.hh:101-103 | the sprite is marked stale |
| Inventories.Inventory.SetItem | src/Inventory.cc:165-170 | the slot takes the item, `getItem` there answers it, and nothing else but the sprite flag changes |
| Inventories.Inventory.Add | src/Inventory.cc:174-195 | the grid and the answer are those of `add` on the old grid |
| Inventories.Inventory.Pickup | src/Inventory.cc:199-215 | the nested loops end in the state and answer of the row-major scan |
| Inventories.Inventory.UseBoxAt | src/Inventory.cc:243-267 | one slot's handling of a press, as the specification function says |
| Inventories.Inventory.Update | src/Inventory.cc:240-271 | the nested loops with their `break` end in the state of the row-by-row scan |
| Inventories.Inventory.PlaceRow | src/Inventory.cc:221-234 | one row's boxes are placed and no other row changes |
| Inventories.Inventory.UpdateClickBoxes | src/Inventory.cc:219-237 | every box is placed at its square, with the click state cleared, and the slots are untouched |
| Hotbars.Hotbar.Layout | src/Hotbar.cc:181-211 | the constructor's loop over three groups of four slots gives 24 boxes, box `i` at `SlotBox(i)` |
| Hotbars.FrontX | src/Hotbar.cc:185-205 | the left edge of front box `i`; `FrontXIncreases` proves a row's boxes go left to right with at least the small gap |
| Hotbars.SlotBox | src/Hotbar.cc:185-205 | box `i` as the constructor lays it out, front row then the row behind; `SlotBoxesDisjoint` proves no point is in two boxes |
| Hotbars.FrontXIncreases | src/Hotbar.cc:185-205 | the boxes of one row are laid out left to right with at least the small gap between them |
| Hotbars.SlotBoxesDisjoint | src/Hotbar.cc:185-205 | no point lies in two slots' boxes |
| Hotbars.SelectIn | src/Hotbar.cc:218-223 | `select(s)` sets the selection and marks the sprite stale exactly when `s` differs from the old selection |
| Hotbars.UseSlot | src/Hotbar.cc:230-255 | one slot's handling keeps the sizes |
| Hotbars.UpdateUpTo | src/Hotbar.cc:227-258 | the scan keeps the sizes |
| Hotbars.SlotAfter | src/Hotbar.cc:230-255 | what slot `i` holds after its box was handled; `UseSlotEffect` and `UpdateSlots` say what each click makes of it |
| Hotbars.UseSlotEffect | src/Hotbar.cc:230-255 | a fresh press selects the slot, a left click with a mouse action stores it there, a right click empties the slot, and the press is consumed; a box without a press changes nothing |
| Hotbars.UpdateSlots | src/Hotbar.cc:227-258 | after the scan every press is consumed and every slot holds what its click made of it |
| Hotbars.UpdateAnswer | src/Hotbar.cc:236-242 | `update` answers true exactly when some left click stored a mouse action that is an item |
| Hotbars.UpdateSelection | src/Hotbar.cc:227-258 | with no press the selection stays; otherwise the last pressed slot is selected |
| Hotbars.Hotbar.GetSelected | src/Hotbar.cc:261-263 | `getSelected`: the action of the selected slot; `Players.Player.UseAction` uses it as the hotbar's target |
| Hotbars.Hotbar.constructor | src/Hotbar.cc:181-211 | 24 empty slots, slot 0 selected, and every box where the layout puts it |
| Hotbars.Hotbar.Select | src/Hotbar.cc:218-223 | the hotbar's state becomes `SelectIn`'s |
| Hotbars.Hotbar.UseSlotAt | src/Hotbar.cc:230-255 | one pass of the loop, as `UseSlot` says |
| Hotbars.Hotbar.Update | src/Hotbar.cc:227-258 | the loop ends in the state and answer of the scan over all 24 slots |
| Hotbars.Hotbar.Touch | src/Hotbar.hh:104-106 | the sprite is marked stale |
| Players.CanReach | src/Player.cc:120-139 | a place is out of reach exactly when it is too far sideways, too high or too low for the reach plus the bonus |
| Players.ReachGrowsWithBonus | src/Player.cc:120-139 | a bigger bonus never takes a place out of reach, and with reaches that are not negative the player's own tile is in reach |
| Players.UseTarget | src/Player.cc:147-165 | what `useAction(type)` uses; `UseTargetMeaning` proves nothing is used during the cooldown or without input, and the mouse wins over the hotbar |
| Players.UseTargetMeaning | src/Player.cc:147-165 | nothing is used during the cooldown or without input; otherwise the mouse's action is used if there is one, else the hotbar's selection, and nothing only when both are empty |
| Players.Countdown | src/Player.cc:170-173 | `update`'s count-down of the cooldown; `CountdownReachesZero` proves `k` updates leave `max(t - k, 0)` |
| Players.CountdownReachesZero | src/Player.cc:170-173 | after `k` updates the cooldown is `max(t - k, 0)` |
| Players.Player.Reaches | src/Player.cc:120-139 | `canReach` on this player's reaches, which is `CanReach`; `ReachGrowsWithBonus` states its properties |
| Players.Player.CanUse | src/Player.cc:142-144 | `canUse`: no cooldown left; `Players.Player.UseAction` uses nothing while it is false |
| Players.Player.constructor | src/Player.cc:18-107 | the given rectangle, reaches, stats, inventory and hotbar, no cooldown, an empty mouse and a closed inventory |
| Players.Player.ToggleInventory | src/Player.cc:110-112 | the inventory's open flag flips |
| Players.Player.UseAction | src/Player.cc:147-165 | the target is `UseTarget`'s; the hotbar's sprite goes stale on every use, the inventory's only on a use of the hotbar's selection |
| Players.Player.Update | src/Player.cc:170-173 | the cooldown ticks down by one until it is 0 |
| Players.Player.Drop | src/Player.cc:232-241 | an item on the mouse is dropped at the given centre and the mouse empties; anything else stays on the mouse and nothing drops |
| Items.Lower | src/Item.cc:48-142 | lower-casing keeps the length |
| Items.GetJsonFilename | src/Item.cc:48-142 | the corrected file name is `items/`, the type's name in lower case, and `.json` |
| Items.GetJsonFilenameAsWritten | src/Item.cc:48-142 | `getJsonFilename` as written, with no file name where the switch reaches `assert(false)`; `JsonFilenameAgrees` and `StartingItemsMissFiles` state what it lacks |
| Items.JsonFilenameAgrees | src/Item.cc:48-142 | the switch as written has a case for every type but GLASS, GLOWSTONE and TORCH, and each case agrees with the corrected name |
| Items.StartingItems | src/Player.cc:80-104 | the player's constructor makes 80 items |
| Items.StartingItemsMissFiles | src/Player.cc:80-104 | the third starting item is GLOWSTONE, which reaches the switch's `assert(false)`, as do the GLASS after it and the last TORCH; each has a corrected file name |
| Items.BlockTileType | src/action/Block.cc:25-31 | the tile a block places: its own tile for a pure block, EMPTY for the pickaxe; what that means is `BlockTileTypeMeaning` |
| Items.BlockTileTypeMeaning | src/action/Block.cc:25-31 | a pure block places the tile of its own name, which turns back into it; a pickaxe places nothing |
| Items.GetLayer | src/action/Block.cc:56-71 | left-button input names the foreground, right-button input the background, and no input no layer |
| Items.InReach | src/action/Block.cc:38-54 | whether the pixel's tile lies within the player's reach of the tile under its top middle, by truncating division; its properties are `InReachMeaning` |
| Items.InReachMeaning | src/action/Block.cc:38-54 | the player can place at the pixel of its own top middle, and a bigger bonus never takes a pixel out of reach |
| Items.PlaceOf | src/world/Map.cc:825-851 | the place under a pixel on the map is on the map, in the asked-for layer |
| Items.PlacedGrid | src/world/Map.cc:708-734 | placing keeps the grid's shape |
| Items.BlockUse | src/action/Block.cc:74-93 | the use succeeds exactly when the pixel is in reach, the input names a layer and `placeTile` lets the tile in; a failure changes nothing, a success places the tile |
| Items.PickaxeUse | src/action/Pickaxe.cc:23-39 | the use succeeds exactly when the pixel is in reach and the tile there is present and of a tier the pickaxe mines; a failure changes nothing, a success damages the tile and kills it once its health is gone |
| Items.Quaffed | src/action/Potion.cc:33-40 | a stat after a potion: the cap raised by the cure, the amount lowered to the new cap, then raised by the gain and clamped; its properties are `QuaffedMeaning` |
| Items.QuaffedMeaning | src/action/Potion.cc:33-40 | a potion keeps a stat consistent; amounts that are not negative lower neither its amount nor its cap, and a big enough cure restores the full cap |
| Items.CureAll | src/action/Potion.cc:34-36 | each of the three stats is cured by its amount |
| Items.FillAll | src/action/Potion.cc:37-39 | each of the three stats is filled by its amount |
| Items.PotionUse | src/action/Potion.cc:30-43 | the use succeeds exactly on a left-button press, which cures and then fills all three stats; otherwise nothing changes |
| Items.Successes | src/Item.cc:40-43 | the count of successes is at most the number of uses |
| Items.StackAfter | src/Item.cc:40-43 | the stack after a run of `use` calls with the given `use_internal` answers; `StackAfterCounts` proves it loses one per success of a consumable |
| Items.StackAfterCounts | src/Item.cc:40-43 | a consumable stack loses one item per successful use, and any other stack never changes |
| Items.Item.constructor | src/Item.cc:17-38 | the JSON fields as given and a stack of 957 |
| Items.Item.UseInternal | src/Item.cc:12-14 | each kind of item uses as its `use_internal` says: a plain item never, a block, a pickaxe and a potion as their own uses |
| Items.Item.Use | src/Item.cc:40-43 | the stack loses one exactly when the item is consumable and the use succeeded |
| Movables.ConvertRect | src/Movable.cc:187-190 | the screen rectangle keeps its size |
| Movables.ConvertRectMeaning | src/Movable.cc:187-190 | the screen x is on the world's width and the same place around it, a rectangle already east of the camera keeps its offset, and flipping y twice gives it back |
| Movables.Advance | src/Movable.cc:210-218 | `advanceRect` as a value: the rectangle moved by the step and given its size, and the step cleared; its properties are `AdvanceIdempotent` |
| Movables.AdvanceIdempotent | src/Movable.cc:210-218 | a second `advanceRect` changes nothing, since the step is cleared |
| Movables.Ceil | src/Movable.cc:162-171 | `ceil` on the real velocity; `RoundAwayMeaning` relies on it to round within one pixel |
| Movables.RoundAway | src/Movable.cc:162-171 | the rounding away from zero of `updateMotion`; `RoundAwayMeaning` proves it goes less than one pixel away from zero and keeps whole numbers |
| Movables.RoundAwayMeaning | src/Movable.cc:162-171 | the velocity is rounded away from zero to the nearest whole number, and a whole number stays |
| Movables.CountStep | src/Movable.cc:122-136 | on the ground the ground counter grows and the air time is 0; in the air the ground counter is 0 and the air time grows; the pixels fallen are the drop from the top height on landing and 0 otherwise |
| Movables.CountStepHeight | src/Movable.cc:122-160 | while slow the top height is pulled down to the current height; in the air it never drops below it; on landing it becomes it |
| Movables.CountSteps | src/Movable.cc:122-136 | the fall counters after a run of `updateMotion` calls; `CountStepsStreaks` proves the counters measure the current streaks |
| Movables.CountStepsStreaks | src/Movable.cc:122-136 | after a run of updates the ground and air counters are the length of the current streak, plus their old values when the run never broke it |
| Movables.Movable.constructor | src/Movable.cc:22-51 | every field at its default |
| Movables.Movable.CopyAll | src/Movable.cc:72-91 | the copying of `operator=`: every field takes the given value |
| Movables.Movable.CopyMotion | src/Movable.cc:72-82 | the first half of `operator=`: the kinematics and collision fields take the given values |
| Movables.Movable.CopyState | src/Movable.cc:83-91 | the second half of `operator=`: the ground and fall fields take the given values |
| Movables.Movable.Assign | src/Movable.cc:67-93 | every field takes the other's value |
| Movables.Movable.AdvanceRect | src/Movable.cc:210-218 | the rectangle moves by the step and takes its size, and the step is cleared |
| Movables.Movable.ResetRect | src/Movable.cc:220-222 | the step is the rectangle |
| Movables.Movable.UpdateMotion | src/Movable.cc:118-178 | the counters step as `CountStep` says, the velocity is the damped and rounded one, and the collision flags are reset |
| Movables.Movable.ResetCollision | src/Movable.cc:173-177 | the player drops through platforms exactly when it stood on something it does not collide with as a platform; the other flags are cleared |
| Movables.Movable.LandOrFly | src/Movable.cc:122-136 | the counters step as `CountStep` says |
| Movables.Damp | src/Movable.cc:150-155 | the dead zone: a velocity strictly between -1 and 1 becomes 0, any other is kept |
| Movables.Damped | src/Movable.cc:138-155 | one velocity component after acceleration, gravity, drag and the dead zone; `Movables.Movable.Accelerated` states the velocities it gives |
| Movables.Movable.Accelerated | src/Movable.cc:138-155 | the velocities after acceleration, gravity (unless stepping up), drag and the dead zone |
| Movables.Round | src/Movable.cc:162-171 | the rounding is `RoundAway`'s |
| Worlds.Live | src/World.cc:34-43 | despawning never lengthens the list |
| Worlds.LiveMeaning | src/World.cc:34-43 | after despawning every entry holds an item, the entries kept are exactly the live ones, and a list of live entries is kept whole |
| Worlds.LiveSplits | src/World.cc:34-43 | despawning a list is despawning its two halves |
| Worlds.LiveStep | src/World.cc:36-42 | one pass of the loop keeps a live entry and drops a dead one |
| Worlds.Capped | src/World.cc:50-53 | the cap on dropped items; `CappedMeaning` proves it keeps the newest 400 entries, or all when there are fewer |
| Worlds.CappedMeaning | src/World.cc:50-53 | the cap keeps the last 400 entries, the newest, or all of them when there are no more |
| Worlds.UpdateBounds | src/World.cc:34-53 | after the update at most 400 entries remain, all live, the newest of the live ones |
| Worlds.World.constructor | src/World.cc:7-15 | the world holds the map and the player, the player alone among the entities, no dropped items, and the player at the map's spawn in pixels |
| Worlds.World.Despawn | src/World.cc:34-43 | the list becomes its live entries, in order |
| Worlds.World.Cap | src/World.cc:50-53 | the list becomes its newest 400 entries |
| Worlds.World.UpdateItems | src/World.cc:34-53 | the list becomes the capped live entries: at most 400, all live |
| Textures.FindTexture | src/Texture.cc:85-226 | the index of the first entry with the handle, or the list's length when none has it |
| Textures.FindName | src/Texture.cc:109-119 | the index of the first entry loaded from the file, or the list's length when none was |
| Textures.FindFont | src/Texture.cc:60-65 | the index of the first font with the name, size and outline, or the list's length when none has them |
| Textures.AddedTo | src/Texture.cc:83-98 | `addToLoaded`; `AddedToValid` proves the list stays consistent with the handle counted once more |
| Textures.AddedToValid | src/Texture.cc:83-98 | `addToLoaded` keeps the list consistent and leaves the handle counted once more than before (once, if it was not listed) |
| Textures.Released | src/Texture.cc:213-233 | the destructor's list and destroy flag; `ReleasedValid` and `ReleaseUndoesAdd` state what it does |
| Textures.ReleasedValid | src/Texture.cc:213-233 | `~Texture` keeps the list consistent; it destroys the handle exactly when it was unlisted or its last user, and then the handle is no longer listed |
| Textures.ReleaseUndoesBump | src/Texture.cc:83-229 | a release right after a count bump gives back the list, without destroying |
| Textures.ReleaseUndoesAppend | src/Texture.cc:92-229 | a release right after listing a new handle gives back the list and destroys the handle |
| Textures.ReleaseUndoesAdd | src/Texture.cc:83-233 | a release undoes an `addToLoaded`, and destroys exactly when the handle was new |
| Textures.Opened | src/Texture.cc:100-157 | `Texture(name)`: share a listed file or list SDL's new image; `OpenedValid` and `OpenedAgain` state its properties |
| Textures.OpenedValid | src/Texture.cc:100-157 | loading by name keeps the list consistent |
| Textures.OpenedAgain | src/Texture.cc:100-157 | once a file is loaded, loading it again shares the same handle whatever SDL would answer; loading fails only for a new file SDL cannot load |
| Textures.FontFor | src/Texture.cc:59-81 | `getFont`: a cached font, or SDL_ttf's new one cached; `FontCached` states its properties |
| Textures.FontCached | src/Texture.cc:59-81 | once a font is loaded, asking again answers it from the cache; it fails only for a new font SDL cannot open |
| Textures.TextureCache.constructor | src/Texture.cc:83-98 | both lists start empty |
| Textures.TextureCache.AddToLoaded | src/Texture.cc:83-98 | the loop ends in the list `AddedTo` says |
| Textures.TextureCache.Open | src/Texture.cc:100-157 | the loop ends in the list and handle `Opened` says |
| Textures.TextureCache.Release | src/Texture.cc:213-233 | the loop ends in the list and answer `Released` says |
| Textures.TextureCache.GetFont | src/Texture.cc:59-81 | the loop ends in the list and font `FontFor` says |
| Textures.Texture.Made | src/Texture.cc:159-194 | a texture with a handle SDL made, entered with `addToLoaded` |
| Textures.Texture.Shared | src/Texture.cc:100-157 | the texture holds the handle the list already counts |
| Textures.Texture.Copy | src/Texture.cc:196-198 | the copy shares the other's handle, counted once more |
| Textures.Texture.Assign | src/Texture.cc:200-211 | self-assignment changes nothing; otherwise the handle is the other's, counted once more |
| Textures.Texture.Destroy | src/Texture.cc:213-233 | the list and the answer are `Released`'s, and the list stays consistent |
| Textures.OpenTexture | src/Texture.cc:100-157 | the list and the handle are `Opened`'s, a new texture on success, and the list stays consistent |
| Windows.CeilDiv | src/render/WindowHandler.cc:114-116 | the fewest steps of the divisor that cover the number |
| Windows.KeptBox | src/render/WindowHandler.cc:107-123 | what `std::vector::resize` leaves at a place: the old rectangle, or a zeroed one; `ResizedGridMeaning` proves old positions kept |
| Windows.ResizedColumn | src/render/WindowHandler.cc:116-121 | one resized column of tile-sized rectangles; `ResizedGridMeaning` states its shape |
| Windows.ResizedGrid | src/render/WindowHandler.cc:107-123 | `resize`'s grid; `ResizedGridMeaning` proves its shape, tile size and kept positions, and `GridCoversScreen` that it covers the screen |
| Windows.ResizedGridMeaning | src/render/WindowHandler.cc:107-123 | the resized grid has the asked-for shape, every rectangle is one tile big, and every rectangle that was there keeps its position |
| Windows.GridCoversScreen | src/render/WindowHandler.cc:107-123 | the resized grid has at least one rectangle, and its columns and rows of tile-sized rectangles, started at any part-tile offset, reach the right and bottom edges of the screen |
| Windows.WindowHandler.constructor | src/render/WindowHandler.cc:90-101 | the screen and tile sizes, and the tile grid for the screen |
| Windows.WindowHandler.FindCamera | src/render/WindowHandler.cc:22-46 | the view is centred on the sprite, wrapped around the world's width, kept inside the world's height, and as big as the screen unless the world is smaller |
| Windows.WindowHandler.Resize | src/render/WindowHandler.cc:107-123 | the new screen size and the resized tile grid |
| Windows.WindowHandler.ResizeColumn | src/render/WindowHandler.cc:116-121 | one column of the grid resized, each rectangle given the tile size |
| Windows.WindowHandler.SetMapSize | src/render/WindowHandler.cc:125-128 | the world's size in pixels |
| Windows.CameraWraps | src/render/WindowHandler.cc:36-37 | C's `%` after adding the world width lands on the world for a centre no further than one width to the west, is the same place around the world, and leaves a centre already on the world alone |
| EventHandlers.HotbarKeys | EventHandler.cc:133-157 | the constructor binds 24 hotbar keys |
| EventHandlers.DefaultHotbarKeysDistinct | EventHandler.cc:133-157 | the default hotbar keys are distinct and none of them opens the inventory or toggles the hotbar |
| EventHandlers.SelectMatches | EventHandler.cc:283-289 | selecting by key leaves the slots, the boxes and the answer alone |
| EventHandlers.SelectMatchesMeaning | EventHandler.cc:283-289 | the selection ends at the last index holding the key, or stays when none does, and the sprite stays fresh only when every such index was already selected |
| EventHandlers.SelectUniqueMatch | EventHandler.cc:280-289 | a key bound to exactly one slot selects that slot |
| EventHandlers.SelectNoMatch | EventHandler.cc:283-289 | a key bound to no slot changes nothing |
| EventHandlers.DefaultHotbarKeySelects | EventHandler.cc:133-289 | with the default settings hotbar key `i` selects slot `i` |
| EventHandlers.Tapped | EventHandler.cc:51-71 | a box learns whether it holds the mouse; holding it during a click, it records a button-down of the left button when that counts (else the right) and whether that button was already down |
| EventHandlers.TappedClicks | EventHandler.cc:51-71 | a box under a click then reads clicked exactly for a new press, left-clicked for a new left press, right-clicked for a new right press without a left one; otherwise its click state is untouched |
| EventHandlers.TapAll | EventHandler.cc:48-75 | every box is told, and the list keeps its length |
| EventHandlers.TapRows | EventHandler.cc:82-90 | the rows keep their shapes, and rows the scan has not reached are untouched |
| EventHandlers.TapRowsMeaning | EventHandler.cc:82-90 | the rows' answer is whether some row holds the mouse, and the short-circuit `or` leaves every row after the first such row untouched |
| EventHandlers.Classify | EventHandler.cc:238-253 | the mouse input of a frame from the buttons now, the buttons last frame and the click counts; its properties are `ClassifyMeaning` |
| EventHandlers.ClassifyMeaning | EventHandler.cc:238-253 | a press beats holding, the left button beats the right, and there is no input only when no button is down or clicked |
| EventHandlers.Jumps | EventHandler.cc:357-359 | `updatePlayer`'s jump rule; `OneJumpPerPress` proves a held key jumps only once per press |
| EventHandlers.JumpFrame | EventHandler.cc:317-372 | one frame of the jump flags: a released key clears them, then a jump sets both and otherwise `isJumping` clears; its property is `OneJumpPerPress` |
| EventHandlers.OneJumpPerPress | EventHandler.cc:317-372 | once a jump has stopped while the key stays held no frame jumps again; a release clears the flags, and the next press may jump |
| EventHandlers.EventHandler.constructor | EventHandler.cc:96-158 | nothing held, no button down, no clicks, and the default key settings |
| EventHandlers.EventHandler.MouseEventAt | EventHandler.cc:199-218 | a button event sets that button's state and counts a click when a press and a release fall in one frame; other events change nothing |
| EventHandlers.HeldKeys | EventHandler.cc:303-321 | which of left, right, up, down and jump `isHeld` finds down; `EventHandlers.EventHandler.UpdateKeys` stores them |
| EventHandlers.EventHandler.UpdateKeys | EventHandler.cc:294-322 | each direction is held exactly when one of its keys is, and a released jump key clears both jump flags |
| EventHandlers.EventHandler.KeyEvent | EventHandler.cc:268-291 | on a press an inventory key toggles the inventory, else a toggle key toggles the hotbar, else the hotbar keys select; releases do nothing |
| EventHandlers.EventHandler.SelectKey | EventHandler.cc:283-289 | the loop ends in the selection `SelectMatches` says |
| EventHandlers.EventHandler.ClassifyMouse | EventHandler.cc:221-265 | the input is `Classify`'s when no box took the mouse and none otherwise, and the click counts are reset |
| EventHandlers.EventHandler.Steer | EventHandler.cc:346-378 | the acceleration is right minus left, plus an upward push for a jump (by the jump rule) or up; platforms are fallen through exactly while down is held |
| EventHandlers.EventHandler.UpdatePlayer | EventHandler.cc:325-381 | the use cooldown ticks down; the jump flags follow the jump rule; the acceleration is right minus left sideways and, upwards, one step for a jump this frame plus one for up; down turns platform collision off |
| EventHandlers.EventHandler.ReadInput | EventHandler.cc:384-394 | the held keys, the mouse input, the click counts reset and this frame's buttons remembered |
| EventHandlers.EventHandler.Update | EventHandler.cc:384-398 | the held keys, the mouse input, the buttons remembered, the cooldown ticked, the jump flags as `JumpFrame` says, the acceleration from the new keys and the frame's jump, and platforms as down says |
| EventHandlers.IsIn | EventHandler.cc:14-23 | the answer is whether the key is in the list |
| EventHandlers.IsHeld | EventHandler.cc:26-34 | the answer is whether one of the keys is down in the keyboard state |
| EventHandlers.UpdateMouseBoxes | EventHandler.cc:38-79 | the answer is whether some box holds the mouse, and every box is told |
| EventHandlers.UpdateInventoryClickBoxes | EventHandler.cc:82-90 | the loop with its short cut ends in `TapRows`'s answer and rows |
| Entities.Truncate | UIHelpers.hh:68 | the C cast truncates toward zero |
| Entities.Convert | UIHelpers.hh:65-74 | an empty stat or a bar with maximum 0 draws nothing, a full stat draws the whole width, and a stat within its bounds draws within the width |
| Entities.FractionBounds | UIHelpers.hh:67-68 | a fraction between 0 and 1 of a width lies between 0 and that width |
| Entities.Damaged | Entity.cc:37-42 | the full stat drops by the normal damage, the regenerable stat by the wounds, neither clamped, and both widths are redrawn |
| Entities.DamageAdds | Entity.cc:37-42 | two hits do what one hit of their sum does |
| Entities.DamageUndone | Entity.cc:37-42 | healing a hit by the same amounts gives back the bar |
| Entities.FallDamage | Entity.cc:45-53 | fall damage is never negative, and it is nothing exactly when the fall does not hurt or ends within 8 pixels of the limit |
| Entities.MulMonotone | Entity.cc:48-49 | a square below the limit's square |
| Entities.FallDamageMonotone | Entity.cc:45-53 | a longer fall, with the same limit, never hurts less |
| Entities.Entity.constructor | Entity.cc:4-33 | no fall is safe, and the bars get their colours |
| Entities.Entity.TakeDamage | Entity.cc:37-42 | only the health bar changes, as `Damaged` says |
| Entities.Entity.TakeFallDamage | Entity.cc:45-53 | after a fall that hurts the full health drops by `FallDamage` and nothing else changes; otherwise nothing changes |
| WorldGen.AddressFits | World.cc:16-22 | row-by-row addressing lands in the array and `%` and `/` give the place back |
| WorldGen.AddressOnto | World.cc:16-22 | every index of the array is some place's address |
| WorldGen.Merged | World.cc:160-180 | `merge`'s profile; `MergedMeaning` proves it spans both ranges and holds the sum of the covering profiles, and `MergeCommutes` that it is symmetric |
| WorldGen.MergedMeaning | World.cc:160-180 | the merge spans both ranges and holds, at each place, the sum of the profiles that cover it, 0 where neither does |
| WorldGen.MergeCommutes | World.cc:160-180 | merging is symmetric in its two profiles |
| WorldGen.World.FindPointer | World.cc:16-22 | the address of a place is in the array and `%` and `/` give the place back |
| WorldGen.World.SetTile | World.cc:585-587 | the array changes at the place's address only |
| WorldGen.World.SetAll | World.cc:129-135 | every cell holds the value |
| WorldGen.World.SetColumn | World.cc:130-134 | the column holds the value and the other columns are as they were |
| WorldGen.World.SetTo | World.cc:190-206 | each row of the range gets the tile of `fill` that its `rand()` picks, and nothing else changes |
| WorldGen.World.SetToTile | World.cc:183-187 | each row of the range gets the tile, and nothing else changes |
| WorldGen.World.GetTile | World.cc:580-582 | `getTile(x, y, array)`: the cell at `findPointer`, which `WorldGen.World.FindPointer` proves in the array |
| WorldGen.World.ChangeAt | World.cc:141-157 | the answer `findChange` must give; `ChangeAtUnique` proves it unique and `FindChange` returns it |
| WorldGen.World.ChangeAtUnique | World.cc:141-157 | the answer `findChange` must give is unique |
| WorldGen.World.FindChange | World.cc:141-157 | the answer is the first row down from `top - 1` whose tile differs from the top tile, or -1 when every row down to row 1 matches it |
| WorldGen.World.PlaceSpawn | World.cc:550-554 | the spawn is in the middle column, 4 rows above the change `findChange` finds (row 0 if there is none) |
| WorldGen.World.Merge | World.cc:160-180 | the loops end in `Merged`'s profile |
| WorldGen.World.Save | World.cc:590-622 | the file holds the size, the spawn and the run-length encoding of the foreground |
| CInts.CDiv | src/action/Block.cc:40-41 | C's `/` truncates toward zero, and agrees with Euclidean division on a non-negative dividend and positive divisor |
| CInts.CRem | src/render/WindowHandler.cc:36-37 | C's `%` completes the truncating division and takes the sign of the dividend |

## Left out

- SDL, SDL_image and SDL_ttf calls are foreign library code. This covers window set-up, rendering and presenting, `init`, `close`, `update`, `renderUI` and `renderMap` of `WindowHandler`, texture loading and drawing, sprites and `renderGrid`, `updateSprite` and `render` of `Inventory` and `Hotbar`, the drawing and placing of stat bars, the menu and `main`.
- Textures: SDL handles are opaque numbers. `OpenTexture` asks for a handle no cache entry holds, as a fresh one would be. `getText` renders text and is left out.
- JSON loading (`from_json` of tiles, boulders, items, potions, blocks, pickaxes, the player, movables, stats and stat bars) reads files. The loaded values are parameters; `Stats.Stat.FromJson` keeps only the field assignments.
- Stream I/O in `Map::save`, the `Map` constructor, `savePPM` and `saveBiomePPM`, and the file of root `World::save`. A save file is the sequence of numbers it holds; headers and version warnings are not modelled.
- Lighting (`effectLight`, `addLight`, `setLight`, `getExpLight`, `skyDistance`), `Light::times` and `DLight` are floating-point numerics; so is `Damage::getBaseDamage`.
- Noise-driven terrain generation depends on libnoise, random distributions and floating point. This covers `generateEarth` apart from the ocean loop, `getCylinderValue`, `ocean`, `setFelsic` and `putDirt`. It also covers `generateTest`, `SmolTest`, `Earth`, `addHeights`, `setHeights`, `setCircle`, `noise`, `midpointDisplacement`, `makeTriangle`, `canyon`, `makeHills` and `setHills` of root `World.cc`.
- `moveWater` and `settleWater` (src/world/Mapgen.cc:589-657) are deterministic integer passes, but the recursive water settling is outside the modelled core. `moveWater` recurses on the water it moved and again on its left neighbour, and the source gives no bound on that recursion. The helpers they call, `findFall` and `moveTileFast`, are modelled as `Mapgen.Generator.FindFall` and `Mapgen.Generator.MoveTileFast`.
- `rand()` is a parameter wherever it picks something: the fill tile of `setTo` (the `rolls` of `WorldGen.World.SetTo`), the slide direction of a boulder and the sprite column of `Tile::getSpritePlace`.
- Mutexes and threads (renderer locking, the progress state of map generation, the menu's world-creation thread) are concurrency; the sequential logic beneath them is modelled.
- The root-level and intermediate copies of `Map`, `Boulder`, `Stat`, `Inventory`, `Hotbar`, `Collider`, `Movable`, `Tile`, `Item`, `Texture`, `Sprite`, `Animation`, `Action`, `Damage` and the item lists are superseded by the `src/` versions modelled here, and the build compiles only `src/`. The exceptions are root `World.cc`, `Entity.cc` with its `StatBar`, and `EventHandler.cc`, which are modelled.
- `src/util/PathToExecutable.hh` reads `/proc` with `readlink`, and `src/filepaths.hh` holds only constants.
- pymake: running g++, `os.listdir` and `os.path.getmtime` are outside the model. The compiler and the linker are exit-code parameters, and the filesystem is a snapshot. The files a recursive listing finds, and their order, are a parameter; only whether the listed directory exists decides if the listing raises. What `print` writes is modelled as the log of events (directory creations, compiler runs, the failure message and the link); the text of the command lines is not.
- `ItemMaker::makeItem`'s `DANDELION` is not an `ActionType` in `src/action/Action.hh`, so that case cannot be expressed.
- `Map::setTile` also sets light flags and calls `updateNear`. Only its tile-type part (`setTileType`) is modelled. Dropping `updateNear` also drops the refresh of the sprites of the place itself and its eight neighbours, in both layers, and their insertion into the update set. So after a boulder moves, `MapUpdate.Update` leaves the update set as pruned, without the places `updateNear` would add.
- MapCells.MovedGridMeaning, MapCells.DisplacedGridSwaps, TileMap.Map.MoveTile and TileMap.Map.DisplaceTile carry the whole sprite byte to the new place. In the program only the moved sprite's column survives: `setTile` ends in `updateNear`, whose `updateSprite` (src/world/Tile.cc:68-73) recomputes the row from `bordering`. That recomputation is part of the left-out `updateNear`.
- Players.Player.Drop: the call `dropped->toss(isFacingRight, PLAYER_PICKUP_DISTANCE)` at src/Player.cc:236 is not modelled. No file of the program defines `DroppedItem::toss`, so the velocity and facing it gives the dropped item are outside the model.
- `Map`'s `randomizeSprites` and `chooseSprite` take the chosen sprites as parameters. `getVariant` and `setVariant` are used by boulders but not declared in `Map.hh`; they are modelled on the cell's sprite.
- Movables.Movable.UpdateMotion: the velocity and drag arithmetic is on exact reals, so float rounding is not modelled; the counters and flags are exact. `attractOther` (floating-point attraction towards another movable) and the `takeDamage` stub are left out.
- Entities.Convert: computed on exact reals, not `float`, so the truncated width can differ from the program's by one where the float quotient rounds across an integer. It is modelled because `takeDamage` redraws the bars with it.
- Entities.FallDamage: on unbounded integers. The program's `int` product `d * d` overflows once `d >= 46341`.
- Stats.Stat.Regenerate: the `double` amounts are exact reals, so float rounding is not modelled.
- Windows.CeilDiv: `ceil` of a float quotient is computed exactly, and screen sizes are taken as non-negative. `worldWidth` has no value until `setMapSize`, so `FindCamera` asks for a nonzero width.
- EventHandlers.EventHandler.UpdatePlayer: the calls to `inventory.update`, `trash.update`, `hotbar.update` and the resulting `pickup` are not composed here. Each is modelled on its own (`Inventories.Inventory.Update`, `Hotbars.Hotbar.Update`, `Inventories.Inventory.Pickup`). The player's body is passed as a separate `Movable`.
- EventHandlers.EventHandler.MouseEventAt: the mouse box's `event.x` and `event.y`, written at EventHandler.cc:53-54 and never read by the modelled code, are not part of the model.
- EventHandlers: the keyboard state array, the mouse position, and the interface's answer whether the mouse was used are parameters. `useMouse`'s hand-off to the trash inventory, the world coordinates and `player.useAction` is not composed; the input classification is modelled. `move`, `getKeySettings`, `setKeySettings` and `windowEvent` only forward to other objects and are left out. `toggledHotbar` answers the toggle, because `toggle` exists only in the root `Hotbar`.
- Players.Player: `pickup`, `toss` and the stack-clearing part of `update` call `Inventory::stack`, `Inventory::update()` and `Player::toss`, which no `src/` file defines, so they are left out (root `Inventory.cc:81` defines an `Inventory::update()` of the superseded root copy). `Players.Player` holds the `src/Hotbar.cc` hotbar modelled as `Hotbars.Hotbar`, whereas src/Player.cc:181 and src/Player.cc:200 call `hotbar.Inventory::update()`, which only fits the `Inventory`-derived `Hotbar` of `src/ui/Hotbar.hh`; no `.cc` file for that one is part of this model. `attractOther` is floating-point attraction, and `Entity::update` is physics. Of `player.update`, only the cooldown is modelled.
- Worlds.World: the collider and the entities' fall damage in `update` are physics; only the dropped-item part and the constructor are modelled.
- Inventories.Inventory: the copy constructor and destructor only manage sprite memory.
- WorldGen.World.Save: asks for a non-empty foreground, because the program reads `foreground[0]` before its loop.
- WorldGen.World.FindChange: answers -1 whenever the scan reaches row 0, even when row 0 differs from the tiles above it, as written (its own comment calls -1 "no change"). The model keeps that behaviour. The caller `addHeights`, which adds 1 to the answer, is left out with the noise-driven generation.

## Findings

| source | as written | input that shows it | evidently intended | confidence | as-written member | corrected member |
|---|---|---|---|---|---|---|
| src/world/Mapgen.cc:299-302 | `getPercentile` asserts `index <= samples` and then reads `results[index]` | percentile 1.0 gives `index == samples`; the assert lets it through and the read is one past the end of the table | the index lies inside the table, `index < samples`, i.e. a percentile in [0, 1) with at least one sample | not executed | GenPasses.PercentileAssertsAdmitEnd | GenPasses.PercentileIndexInRange |
| src/Item.cc:48-142 | `getJsonFilename`'s switch has no case for `GLASS`, `GLOWSTONE` or `TORCH` and ends in `assert(false)` | `GLOWSTONE`, the third item the player's constructor makes at src/Player.cc:80-104 | every item type has a JSON file name `items/<name>.json` | not executed | Items.GetJsonFilenameAsWritten | Items.GetJsonFilename |
