# vds-gen index arithmetic, in Dafny

This project models the two pieces of integer arithmetic inside vds-gen, a
tool that builds HDF5 virtual datasets (VDS) from raw frame files:

- **Slicing and mapping geometry** (`vdsgen/group.py`). A dataset container
  describes an array by shape, maximum shape and one resolved slice per axis.
  Indexing it with a key of integers, slices and at most one ellipsis gives
  new resolved slices and a new shape. A virtual map derives the block shape
  and the hyperslab start/stride/count from the slices of a source and a
  target. Creating the virtual dataset selects one target hyperslab per map.
- **Reshaping a frame stack** (`vdsgen/reshapevdsgenerator.py`). Frame
  metadata is checked across files. The first file's frame count must equal
  the product of the requested dimensions. When axes alternate, each frame
  index is decoded by repeated subtraction in a mixed-radix system.
  Alternating axes whose parent coordinate is odd are then mirrored ("snake" scan). The
  result is one mapping per frame.

Modules: `Common` (results, errors, HDF5's UNLIMITED), `Slicing`, `Mapping`,
`MixedRadix` and `Reshape`. Every operation is a pure function on immutable
values, except two loops of `reshapevdsgenerator.py`: the product
accumulator (`MixedRadix.ProductOf`) and the frame-index decode with its
inversion pass (`MixedRadix.CalculateAxisIndices`). These are written, as in
vds-gen, as loops in methods whose loop invariants tie them to the
functional definitions.

Behaviour of the code that the model keeps as written:

- Python 2 integer `/` floors. Both operands of the length formulas are
  positive, so Dafny's `/` agrees, and lengths are ceilings.
- An integer key `i` becomes the slice `i:i+1:1`. It keeps its axis, and
  `-1` selects the empty slice `n-1:0:1`.
- A stop past the end of an axis is not clamped.
- With an ellipsis, the entries after it are copied only when there are at
  least as many of them as entries before it. They are copied after the
  leading entries, so where the two runs overlap the trailing entry wins.
- The rank check measures the one-element argument tuple, so it fires only
  for a rank-0 array.
- `ValueError`, `IndexError` and, for a missing block shape, `TypeError` are
  the errors raised; each constructor of `Common.Error` notes its Python
  class.
- When the source rank is larger, the block shape is the target shape,
  unpadded.
- Only the first UNLIMITED axis of a maximum shape is recognised.
- The parity test for mirroring an axis reads the parent coordinate after
  the parent itself has been mirrored.
- The frame-count check compares the first file's frame count, not the
  total over all files, with the product of the dimensions.

## Model

| member | source | states |
|---|---|---|
| Slicing.NewContainer | vdsgen/group.py:76-85 | a fresh container has one `0:n:1` slice per axis; the maximum shape defaults to the shape, and a `None` entry of a given maximum shape becomes UNLIMITED |
| Slicing.AxisLength | vdsgen/group.py:123-138 | the length of a resolved slice is zero exactly when the range is empty in the direction of the step |
| Slicing.AxisLengthIsCeiling | vdsgen/group.py:124-136 | a non-empty length is the ceiling of the distance over the step: one step fewer falls short, this many reach the stop |
| Slicing.AxisLengthCountsIndices | vdsgen/group.py:116-138 | the computed length equals the number of indices the slice visits, counted one by one |
| Slicing.ResolveAxis | vdsgen/group.py:117-141 | a zero step is an error and nothing else is; the step defaults to 1; a given bound is shifted by the axis length exactly when negative; an omitted start is 0 forwards and n backwards, an omitted stop n forwards and 0 backwards |
| Slicing.OmittedBoundsSelectWholeAxis | vdsgen/group.py:117-130 | omitted bounds select `0:n` forwards and `n:0` backwards; with step ±1 that is n elements |
| Slicing.StopIsNotClamped | vdsgen/group.py:120-124 | a stop beyond the axis stays as given and the length runs past the axis |
| Slicing.ResolveAll | vdsgen/group.py:116-141 | every axis resolves to its own slice, and the whole fails exactly when some axis has a zero step |
| Slicing.Normalize | vdsgen/group.py:97-98 | each integer entry becomes a one-element slice, other entries are unchanged, and the number and position of ellipses are kept |
| Slicing.PlaceKey | vdsgen/group.py:102-113 | without an ellipsis the key overwrites the leading axes; `[...]` alone changes nothing; otherwise leading entries overwrite leading axes, then trailing entries overwrite the trailing axes only when at least as many follow as precede, winning where the two overlap; everything else keeps its prior slice |
| Slicing.ParseSlicing | vdsgen/group.py:87-143 | rank 0 raises, two ellipses raise, and a zero step on any placed axis raises; otherwise only the slices and the shape change, each axis is the resolution of the placed entry, and each length is that slice's length |
| Slicing.GetItem | vdsgen/group.py:151-164 | source and target get the same slices and errors; a source takes the sliced shape, a target keeps its own |
| Slicing.FreshEllipsisIsIdentity | vdsgen/group.py:105-107 | indexing a fresh container with `[...]` returns it unchanged |
| Slicing.EllipsisAccepted | vdsgen/group.py:105-141 | every valid descriptor of non-zero rank accepts `[...]`, keeping its rank and maximum shape |
| Slicing.EllipsisKeepsResolvedSlices | vdsgen/group.py:105-141 | re-slicing with `[...]` keeps slices whose bounds are non-negative; a source then takes their lengths as its shape |
| Slicing.IntegerKeyAccepted | vdsgen/group.py:98-106 | a key of integers never fails and keeps every axis |
| Slicing.IndexKeyPlaced | vdsgen/group.py:98-106 | a key of integers places `i:i+1:1` on each leading axis, and every axis past the key keeps its prior slice, which has a non-zero step |
| Slicing.IntegerIndexKeepsAxis | vdsgen/group.py:98-124 | an in-range integer `i` selects `i:i+1:1` and gives a source length 1 on that axis |
| Slicing.MinusOneIndexIsEmpty | vdsgen/group.py:98-126 | the integer `-1` selects `n-1:0:1`, an empty axis, instead of the last element |
| Slicing.TrailingEntryDropped | vdsgen/group.py:107-113 | with two entries before the ellipsis and one after, the trailing entry is ignored and the last axis keeps its slice |
| Slicing.EllipsisBetweenIndicesPlaced | vdsgen/group.py:105-113 | on a rank-2 descriptor the three-entry key `[i, ..., k]` is accepted and places `i` on the first axis and `k` on the second |
| Slicing.OverlapTrailingEntryWins | vdsgen/group.py:107-113 | on a rank-1 descriptor `[i, ..., k]` is accepted and the trailing `k` overwrites the leading `i` |
| Mapping.BlockShape | vdsgen/group.py:184-199 | the block is unset exactly when the ranks differ and the smaller is 1; otherwise it is the source shape left-padded with ones to the target rank, or the target shape when the source rank is larger |
| Mapping.HyperslabCount | vdsgen/group.py:206-215 | the count is 1 on every axis except the first UNLIMITED axis, which gets UNLIMITED; it fails exactly when that axis lies past the rank |
| Mapping.MakeVirtualMap | vdsgen/group.py:181-216 | both sides are re-sliced with `[...]`; start and stride are the source slices' starts and steps; without UNLIMITED the count is all ones and the block is the block shape; with it the first UNLIMITED axis gets count UNLIMITED and block 1; the map fails exactly when that axis is past the source rank (IndexError, line 209), the block is unset (TypeError, line 211) or the axis is past the block (IndexError, line 212), and each case raises its own error |
| Mapping.MapResliced | vdsgen/group.py:184-216 | on re-sliced descriptors: start and stride are the slices' starts and steps, the count is 1 except UNLIMITED on the first UNLIMITED axis, the block is the block shape or its collapse on that axis, and a failure is exactly an UNLIMITED axis past the rank (line 209), a missing block (line 211) or an axis past the block (line 212), in that order |
| Mapping.CollapseBlockAxis | vdsgen/group.py:211-213 | the block is copied with 1 on the UNLIMITED axis and every other entry kept; no block raises the TypeError, an axis past the block the IndexError |
| Mapping.TargetEntry | vdsgen/group.py:35-49 | the target hyperslab follows the same start/stride/count rule, without forcing the block, and carries the map's source path, key and hyperslab |
| Mapping.Entries | vdsgen/group.py:34-49 | one entry per map, in order; a failing entry raises the IndexError of an UNLIMITED axis past the target rank (line 40) |
| Mapping.CreateVirtualDataset | vdsgen/group.py:22-52 | an empty map list raises the ValueError first; otherwise a failure is the IndexError of line 40; on success shape and maximum shape come from the first map, name and element type from the last, with one entry per map |
| Mapping.RankPaddingExample | vdsgen/group.py:186-191 | a (10, 10) source into a rank-3 target gets the block (1, 10, 10) |
| Mapping.FreshMapSelectsWholeSource | vdsgen/group.py:203-215 | between fresh containers without UNLIMITED, a map succeeds with start 0, stride 1 and count 1 on every source axis |
| MixedRadix.ProductOf | vdsgen/reshapevdsgenerator.py:134-149 | the accumulating loop returns the product of the elements, 1 for none |
| MixedRadix.ProductAppend | vdsgen/reshapevdsgenerator.py:146-149 | the product of a concatenation is the product of the products |
| MixedRadix.ProductPositive | vdsgen/reshapevdsgenerator.py:146-149 | positive elements have a positive product |
| MixedRadix.CreateMixedRadixSet | vdsgen/reshapevdsgenerator.py:123-132 | one radix per axis (one for no axes), the last radix is 1, radix i is the product of the axes after i, and positive inner axes give positive radices |
| MixedRadix.SubtractionSplit | vdsgen/reshapevdsgenerator.py:165-167 | the subtractions times the radix plus what is left is the start value, and what is left is below the radix |
| MixedRadix.SubtractionIsDivision | vdsgen/reshapevdsgenerator.py:165-167 | repeated subtraction computes floor division and remainder |
| MixedRadix.EncodeDigits | vdsgen/reshapevdsgenerator.py:163-167 | re-encoding the digits plus the final remainder gives back the index |
| MixedRadix.FrameIndexRoundTrip | vdsgen/reshapevdsgenerator.py:126-128 | with the radices of a dimension tuple, the weighted sum of the decoded coordinates is the frame index |
| MixedRadix.DigitsInBox | vdsgen/reshapevdsgenerator.py:163-167 | an index below the product of the dimensions decodes to coordinates within them |
| MixedRadix.EncodeInRange | vdsgen/reshapevdsgenerator.py:126-128 | coordinates within the dimensions encode to an index below their product |
| MixedRadix.DigitsOfEncode | vdsgen/reshapevdsgenerator.py:163-167 | decoding the encoding of coordinates within the dimensions gives them back |
| MixedRadix.Snake | vdsgen/reshapevdsgenerator.py:169-174 | axis 0 is kept; axis k is mirrored exactly when it alternates and the already-processed coordinate of axis k-1 is odd |
| MixedRadix.UnsnakeSnake | vdsgen/reshapevdsgenerator.py:169-174 | the inversion pass is undone by mirroring under the final parent parity |
| MixedRadix.SnakeUnsnake | vdsgen/reshapevdsgenerator.py:169-174 | every coordinate tuple is the result of the inversion pass on some raw tuple |
| MixedRadix.SnakeKeepsBox | vdsgen/reshapevdsgenerator.py:174 | mirroring keeps coordinates within the dimensions, in both directions |
| MixedRadix.SubtractRepeatedly | vdsgen/reshapevdsgenerator.py:165-167 | the inner loop counts the subtractions and leaves the remainder |
| MixedRadix.DecodeBySubtraction | vdsgen/reshapevdsgenerator.py:163-167 | the decoding loops produce the mixed-radix digits of the index |
| MixedRadix.InvertAxes | vdsgen/reshapevdsgenerator.py:169-174 | the in-place inversion loop computes the inversion pass |
| MixedRadix.CalculateAxisIndices | vdsgen/reshapevdsgenerator.py:151-176 | the returned indices are the inverted mixed-radix digits of the frame index |
| MixedRadix.RadixExample | vdsgen/reshapevdsgenerator.py:127-128 | shape (5, 3, 10) has radices (30, 10, 1) and index 132 decodes to [4, 1, 2] |
| Reshape.Accumulate | vdsgen/reshapevdsgenerator.py:46-52 | the remaining files are accepted exactly when each has a frame count and agrees with the first on every other attribute; the total grows by their frame counts; the first failing file decides the error, a missing frame count (line 48) before a mismatched attribute (the ValueError of lines 50-52) |
| Reshape.ProcessSourceDatasets | vdsgen/reshapevdsgenerator.py:44-56 | no files is an error; success exactly when every file has a frame count and matches the first file's other attributes; the first failing file decides the error, a missing frame count before a mismatch, and with all frame counts present the error is the mismatch ValueError; the result is the first file's metadata and the total frame count |
| Reshape.Tile | vdsgen/reshapevdsgenerator.py:112-113 | a tile is the coordinates followed by two full slices |
| Reshape.TileInjective | vdsgen/reshapevdsgenerator.py:112-113 | distinct coordinates give distinct tiles |
| Reshape.FrameCoordinates | vdsgen/reshapevdsgenerator.py:104-108 | the coordinates of a frame, one per axis, are its mixed-radix digits after the inversion pass, which is what `calculate_axis_indices` returns for the radices of the dimensions |
| Reshape.AlternatingMappings | vdsgen/reshapevdsgenerator.py:103-121 | one mapping per frame in frame order, each frame to the tile of its coordinates; an `alternate` shorter than the axes raises once a frame is processed |
| Reshape.CreateVirtualLayout | vdsgen/reshapevdsgenerator.py:65-101 | no frame count or a first-file frame count other than the product of the dimensions raises; a matching count without `alternate` succeeds with one whole-source mapping; with `alternate` it is the alternating mappings; the target shape is the dimensions plus height and width, the source shape the frames plus height and width |
| Reshape.InversionInBox | vdsgen/reshapevdsgenerator.py:169-174 | inverting or un-inverting coordinates within the dimensions keeps them within |
| Reshape.FrameCoordinatesInBox | vdsgen/reshapevdsgenerator.py:107-108 | every frame below the product lands within the dimensions |
| Reshape.FrameCoordinatesInjective | vdsgen/reshapevdsgenerator.py:107-108 | distinct frames land on distinct coordinates |
| Reshape.FrameCoordinatesCover | vdsgen/reshapevdsgenerator.py:107-108 | every coordinate within the dimensions is the landing place of some frame below the product |
| Reshape.MappingsInBox | vdsgen/reshapevdsgenerator.py:107-114 | with positive dimensions there are exactly product-many mappings, each tile within the dimensions |
| Reshape.MappingsDistinct | vdsgen/reshapevdsgenerator.py:107-114 | no two mappings share a tile |
| Reshape.MappingsCover | vdsgen/reshapevdsgenerator.py:107-114 | every tile within the dimensions is taken by some mapping |
| Reshape.AlternatingLayoutTilesTarget | vdsgen/reshapevdsgenerator.py:95-114 | an alternating layout maps the frames one to one onto the tiles of the target |
| Reshape.GridCoordinates | vdsgen/reshapevdsgenerator.py:163-174 | on a (3, 4) grid with an alternating inner axis, frame i sits in row i/4 and odd rows run backwards |
| Reshape.SnakeScanExample | vdsgen/reshapevdsgenerator.py:169-174 | the twelve frames of that grid are visited as (0,0)…(0,3), (1,3)…(1,0), (2,0)…(2,3) |
| Reshape.FirstFileFrameCheckExample | vdsgen/reshapevdsgenerator.py:44-82 | files of 2, 3 and 5 frames total 10, yet a 10-frame layout is refused because the first file has 2 |

## Left out

- HDF5 native calls (`h5p.create`, `set_fill_value`, `h5s.create_simple`, `select_hyperslab`, `set_virtual`, `h5d.create`, `h5t.py_create`): foreign library effects. Only the parameter values handed to them are modelled.
- Lines 48 and 50 of `vdsgen/group.py` have unbalanced parentheses and would not parse. The model takes the evident intent: the source path, the source key and the target key as the dataset name.
- h5py's own `VirtualLayout` and `VirtualSource` objects in the reshape generator: library objects. The layout is an abstract list of mapping records.
- The `VDSGenerator` base class, `grab_metadata`, `SourceMeta`, `FULL_SLICE` and the constructor's file handling: not part of this model. Per-file metadata is taken as input, and `FULL_SLICE` is the `Full` tile index.
- Logging: no behaviour.
- Float keys and float shapes: the model uses integers only. Element types are names compared for equality, and the fill value is an optional integer.
- A single `VirtualMap` passed to `create_virtual_dataset` instead of a list is wrapped by vds-gen; the model takes a list.
- Slicing.ParseSlicing: keys that would grow the slice list past a non-zero rank are excluded by a precondition (`KeyFits`). These are a key without an ellipsis longer than the rank, or a key whose entries before or after its ellipsis outnumber the axes. The code lets such a key past the ineffective rank check and then lengthens the slice list. Every other key is modelled, including an ellipsis key one entry longer than the rank.
- MixedRadix.CalculateAxisIndices: requires one radix per axis. For an empty dimension tuple the unit radix has no axis; that case is covered by `Reshape.FrameCoordinates`, where only frame 0 is ever decoded.
- Reshape.CreateVirtualLayout: when frames are walked, it requires positive axis lengths after the first. Otherwise the repeated subtraction of a non-positive radix never ends.
- Reshape.ProcessSourceDatasets: the error does not name the mismatched attribute. vds-gen names the first one in Python 2 dictionary order.
- Reshape.AlternatingLayoutTilesTarget: stated for at least one axis with positive lengths. With no axes there is a single frame and no coordinate.
- `setup.py`: packaging metadata only.
