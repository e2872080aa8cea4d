/** Reshaping a stack of frames into an N-dimensional virtual dataset
    (vdsgen/reshapevdsgenerator.py, `process_source_datasets`,
    `create_virtual_layout` and `create_alternating_virtual_layout`).

    Per-file metadata is taken as input; the layout is an abstract list of
    mappings from source frames to target tiles. */
module Reshape {
  import opened Common
  import opened MixedRadix

  /** The metadata of one raw file. `frames` is a tuple whose first entry is
      the file's frame count. */
  datatype Metadata = Metadata(frames: seq<int>, height: int, width: int, dtype: DType)

  /** The source metadata kept for the layout (the first file's) and the
      frame total accumulated over all files. */
  datatype Processed = Processed(source: Metadata, totalFrames: int)

  /** Every attribute other than `frames` is equal. */
  predicate SameAttributes(first: Metadata, other: Metadata) {
    other.height == first.height && other.width == first.width && other.dtype == first.dtype
  }

  predicate HasFrameCounts(files: seq<Metadata>) {
    forall i :: 0 <= i < |files| ==> |files[i].frames| > 0
  }

  /** Every file has a frame count and agrees with `first` on every other
      attribute: the files the loop accepts. */
  predicate Consistent(first: Metadata, files: seq<Metadata>) {
    HasFrameCounts(files) && forall i :: 0 <= i < |files| ==> SameAttributes(first, files[i])
  }

  /** Reference: the sum of the files' frame counts. */
  function FrameCountSum(files: seq<Metadata>): int
    requires HasFrameCounts(files)
  {
    if files == [] then 0 else files[0].frames[0] + FrameCountSum(files[1..])
  }

  /** The loop over the remaining files: adds each frame count to the running
      total, then compares every other attribute with the first file's. */
  function Accumulate(first: Metadata, rest: seq<Metadata>, total: int): (r: Result<int>)
    ensures r.Ok? <==> HasFrameCounts(rest) && forall i :: 0 <= i < |rest| ==> SameAttributes(first, rest[i])
    ensures r.Ok? ==> r.value == total + FrameCountSum(rest)
    ensures forall i :: 0 <= i < |rest| && Consistent(first, rest[..i]) ==>
      && (|rest[i].frames| == 0 ==> r == Err(NoFrameCount))
      && (|rest[i].frames| > 0 && !SameAttributes(first, rest[i]) ==> r == Err(MismatchedAttribute))
    ensures HasFrameCounts(rest) && r.Err? ==> r.error == MismatchedAttribute
    ensures (forall i :: 0 <= i < |rest| ==> SameAttributes(first, rest[i])) && r.Err? ==> r.error == NoFrameCount
    decreases |rest|
  {
    if rest == [] then Ok(total)
    else if |rest[0].frames| == 0 then Err(NoFrameCount)
    else if !SameAttributes(first, rest[0]) then Err(MismatchedAttribute)
    else
      ConsistentTail(first, rest);
      Accumulate(first, rest[1..], total + rest[0].frames[0])
  }

  /** A consistent prefix that goes past the head is the head followed by a
      consistent prefix of the tail. */
  lemma ConsistentTail(first: Metadata, files: seq<Metadata>)
    requires files != []
    ensures forall i :: 1 <= i <= |files| ==>
      (Consistent(first, files[..i]) <==> Consistent(first, files[..1]) && Consistent(first, files[1..][..i - 1]))
  {
    forall i | 1 <= i <= |files|
      ensures Consistent(first, files[..i]) <==> Consistent(first, files[..1]) && Consistent(first, files[1..][..i - 1])
    {
      assert files[..i] == files[..1] + files[1..][..i - 1];
    }
  }

  /** `process_source_datasets`: the total frame count over all files, with a
      consistency check of the other attributes against the first file. The
      metadata returned is the first file's, frames included. */
  function ProcessSourceDatasets(files: seq<Metadata>): (r: Result<Processed>)
    ensures files == [] ==> r == Err(NoSourceFiles)
    ensures r.Ok? <==>
      && files != []
      && HasFrameCounts(files)
      && forall i :: 0 <= i < |files| ==> SameAttributes(files[0], files[i])
    ensures r.Ok? ==> r.value.source == files[0] && r.value.totalFrames == FrameCountSum(files)
    ensures files != [] && |files[0].frames| == 0 ==> r == Err(NoFrameCount)
    ensures forall i :: 0 <= i < |files| && Consistent(files[0], files[..i]) ==>
      && (|files[i].frames| == 0 ==> r == Err(NoFrameCount))
      && (|files[i].frames| > 0 && !SameAttributes(files[0], files[i]) ==> r == Err(MismatchedAttribute))
    ensures files != [] && HasFrameCounts(files) && r.Err? ==> r.error == MismatchedAttribute
  {
    if files == [] then Err(NoSourceFiles)
    else if |files[0].frames| == 0 then Err(NoFrameCount)
    else
      ConsistentTail(files[0], files);
      assert Consistent(files[0], files[..1]) by { assert files[..1] == [files[0]]; }
      assert HasFrameCounts(files) ==> HasFrameCounts(files[1..]) by {
        if HasFrameCounts(files) {
          forall i | 0 <= i < |files[1..]| ensures |files[1..][i].frames| > 0 { assert files[1..][i] == files[i + 1]; }
        }
      }
      var total :- Accumulate(files[0], files[1..], files[0].frames[0]);
      Ok(Processed(files[0], total))
  }

  /** One index of a target tile: a fixed coordinate or the full axis. */
  datatype TileIndex = At(i: int) | Full

  /** A link in the layout: the whole source onto the whole target, or one
      source frame onto one target tile. */
  datatype LayoutMapping = WholeSource | FrameToTile(frame: nat, tile: seq<TileIndex>)

  /** The virtual layout: target shape and element type, source shape, and the
      mappings in the order they are made. */
  datatype Layout = Layout(shape: seq<int>, dtype: DType, sourceShape: seq<int>, mappings: seq<LayoutMapping>)

  /** The tile of a frame: one coordinate per reshaped axis, then the full
      height and width. */
  function Tile(coords: seq<int>): (t: seq<TileIndex>)
    ensures |t| == |coords| + 2
    ensures forall k :: 0 <= k < |coords| ==> t[k] == At(coords[k])
    ensures t[|coords|] == Full && t[|coords| + 1] == Full
  {
    seq(|coords|, k requires 0 <= k < |coords| => At(coords[k])) + [Full, Full]
  }

  lemma {:induction false} TileInjective(a: seq<int>, b: seq<int>)
    ensures Tile(a) == Tile(b) ==> a == b
  {
    if Tile(a) == Tile(b) {
      assert |a| == |b|;
      forall k | 0 <= k < |a|
        ensures a[k] == b[k]
      {
        assert Tile(a)[k] == Tile(b)[k];
      }
    }
  }

  /** The target coordinates of a frame: its mixed-radix digits against the
      radices of the dimensions, after the inversion pass. For an empty
      dimension tuple the unit radix yields one digit, which has no axis. */
  function FrameCoordinates(frame: nat, dims: seq<int>, alternate: seq<bool>, shape: seq<int>): (c: seq<int>)
    requires InnerPositive(dims)
    requires |dims| <= 1 || (|dims| <= |alternate| && |dims| <= |shape|)
    ensures |c| == |dims|
    ensures |dims| > 0 ==> c == Snake(Digits(frame, CreateMixedRadixSet(dims)), alternate, shape)
  {
    var radices := CreateMixedRadixSet(dims);
    Snake(Digits(frame, radices), alternate, shape)[..|dims|]
  }

  /** `create_alternating_virtual_layout`: one mapping per frame, in frame
      order. Reading `alternate` past its end raises as soon as one frame is
      processed and there are at least two axes. */
  function AlternatingMappings(dims: seq<int>, alternate: seq<bool>, shape: seq<int>): (r: Result<seq<LayoutMapping>>)
    requires Product(dims) > 0 ==> InnerPositive(dims)
    requires |dims| <= |shape|
    ensures r.Err? <==> Product(dims) > 0 && |dims| >= 2 && |alternate| < |dims|
    ensures r.Err? ==> r.error == AlternateTooShort
    ensures r.Ok? ==>
      && |r.value| == (if Product(dims) > 0 then Product(dims) else 0)
      && forall i :: 0 <= i < |r.value| ==>
           r.value[i] == FrameToTile(i, Tile(FrameCoordinates(i, dims, alternate, shape)))
  {
    var frames := Product(dims);
    if frames <= 0 then Ok([])
    else if |dims| >= 2 && |alternate| < |dims| then Err(AlternateTooShort)
    else Ok(seq(frames, i requires 0 <= i < frames => FrameToTile(i, Tile(FrameCoordinates(i, dims, alternate, shape)))))
  }

  /** `create_virtual_layout`: checks the first file's frame count against
      the product of the dimensions, then maps the whole source at once, or
      frame by frame when `alternate` is given. The repeated subtraction only
      terminates with positive radices, which the caller must ensure when
      there are frames to walk. */
  function CreateVirtualLayout(meta: Metadata, dims: seq<int>, alternate: Option<seq<bool>>): (r: Result<Layout>)
    requires alternate.Some? && |meta.frames| > 0 && meta.frames[0] == Product(dims) && Product(dims) > 0
             ==> InnerPositive(dims)
    ensures |meta.frames| == 0 ==> r == Err(NoFrameCount)
    ensures |meta.frames| > 0 && meta.frames[0] != Product(dims) ==>
      r == Err(FrameCountMismatch(meta.frames[0], Product(dims)))
    ensures r.Ok? ==>
      && meta.frames[0] == Product(dims)
      && r.value.shape == dims + [meta.height, meta.width]
      && r.value.sourceShape == meta.frames + [meta.height, meta.width]
      && r.value.dtype == meta.dtype
    ensures r.Ok? && alternate.None? ==> r.value.mappings == [WholeSource]
    ensures |meta.frames| > 0 && meta.frames[0] == Product(dims) && alternate.None? ==>
      r == Ok(Layout(dims + [meta.height, meta.width], meta.dtype, meta.frames + [meta.height, meta.width], [WholeSource]))
    ensures |meta.frames| > 0 && meta.frames[0] == Product(dims) && alternate.Some? ==>
      r == (var m :- AlternatingMappings(dims, alternate.value, dims + [meta.height, meta.width]);
            Ok(Layout(dims + [meta.height, meta.width], meta.dtype, meta.frames + [meta.height, meta.width], m)))
  {
    if |meta.frames| == 0 then Err(NoFrameCount)
    else if meta.frames[0] != Product(dims) then Err(FrameCountMismatch(meta.frames[0], Product(dims)))
    else
      var shape := dims + [meta.height, meta.width];
      var sourceShape := meta.frames + [meta.height, meta.width];
      match alternate
      case None => Ok(Layout(shape, meta.dtype, sourceShape, [WholeSource]))
      case Some(alt) =>
        var mappings :- AlternatingMappings(dims, alt, shape);
        Ok(Layout(shape, meta.dtype, sourceShape, mappings))
  }

  // ---------------------------------------------------------------------------
  // Properties of the alternating layout

  /** The target shape starts with the dimensions. */
  lemma ShapeStartsWithDims(dims: seq<int>, shape: seq<int>)
    requires |dims| <= |shape| && shape[..|dims|] == dims
    ensures forall k :: 0 <= k < |dims| ==> shape[k] == dims[k]
  {
    forall k | 0 <= k < |dims|
      ensures shape[k] == dims[k]
    {
      assert shape[..|dims|][k] == shape[k];
    }
  }

  /** Every frame below the product of the dimensions lands inside them. */
  lemma {:induction false} FrameCoordinatesInBox(frame: nat, dims: seq<int>, alternate: seq<bool>, shape: seq<int>)
    requires AllPositive(dims) && frame < Product(dims)
    requires |dims| <= 1 || |dims| <= |alternate|
    requires |dims| <= |shape| && shape[..|dims|] == dims
    ensures InBox(FrameCoordinates(frame, dims, alternate, shape), dims)
  {
    if |dims| > 0 {
      var raw := Digits(frame, CreateMixedRadixSet(dims));
      DigitsInBox(frame, dims);
      InversionInBox(raw, dims, alternate, shape);
      CoordinatesOfDigits(frame, dims, alternate, shape, raw);
    }
  }

  /** Distinct frames land on distinct coordinates. */
  lemma {:induction false} FrameCoordinatesInjective(i: nat, j: nat, dims: seq<int>, alternate: seq<bool>, shape: seq<int>)
    requires AllPositive(dims) && |dims| > 0
    requires |dims| <= 1 || |dims| <= |alternate|
    requires |dims| <= |shape|
    ensures FrameCoordinates(i, dims, alternate, shape) == FrameCoordinates(j, dims, alternate, shape) ==> i == j
  {
    var radices := CreateMixedRadixSet(dims);
    var ri := Digits(i, radices);
    var rj := Digits(j, radices);
    assert FrameCoordinates(i, dims, alternate, shape) == Snake(ri, alternate, shape);
    assert FrameCoordinates(j, dims, alternate, shape) == Snake(rj, alternate, shape);
    UnsnakeSnake(ri, alternate, shape);
    UnsnakeSnake(rj, alternate, shape);
    FrameIndexRoundTrip(i, dims);
    FrameIndexRoundTrip(j, dims);
  }

  /** Inverting or un-inverting coordinates inside the dimensions keeps
      them inside. */
  lemma {:induction false} InversionInBox(coords: seq<int>, dims: seq<int>, alternate: seq<bool>, shape: seq<int>)
    requires InBox(coords, dims)
    requires |dims| <= 1 || |dims| <= |alternate|
    requires |dims| <= |shape| && shape[..|dims|] == dims
    ensures InBox(Snake(coords, alternate, shape), dims)
    ensures InBox(Unsnake(coords, alternate, shape), dims)
  {
    ShapeStartsWithDims(dims, shape);
    SnakeKeepsBox(coords, alternate, shape, dims);
  }

  /** The coordinates of a frame whose digits are known. */
  lemma CoordinatesOfDigits(frame: nat, dims: seq<int>, alternate: seq<bool>, shape: seq<int>, raw: seq<int>)
    requires AllPositive(dims) && |dims| > 0
    requires |dims| <= 1 || |dims| <= |alternate|
    requires |dims| <= |shape|
    requires Digits(frame, CreateMixedRadixSet(dims)) == raw
    ensures FrameCoordinates(frame, dims, alternate, shape) == Snake(raw, alternate, shape)
  {
    assert Snake(raw, alternate, shape)[..|dims|] == Snake(raw, alternate, shape);
  }

  /** Every coordinate inside the dimensions is the landing place of some
      frame below their product: the one that encodes its un-inverted
      digits. */
  lemma {:induction false} FrameCoordinatesCover(coords: seq<int>, dims: seq<int>, alternate: seq<bool>, shape: seq<int>)
    requires AllPositive(dims) && |dims| > 0 && InBox(coords, dims)
    requires |dims| <= 1 || |dims| <= |alternate|
    requires |dims| <= |shape| && shape[..|dims|] == dims
    ensures var frame := Encode(Unsnake(coords, alternate, shape), CreateMixedRadixSet(dims));
      && 0 <= frame < Product(dims)
      && FrameCoordinates(frame, dims, alternate, shape) == coords
  {
    var raw := Unsnake(coords, alternate, shape);
    InversionInBox(coords, dims, alternate, shape);
    EncodeInRange(raw, dims);
    DigitsOfEncode(raw, dims);
    var frame := Encode(raw, CreateMixedRadixSet(dims));
    CoordinatesOfDigits(frame, dims, alternate, shape, raw);
    SnakeUnsnake(coords, alternate, shape);
  }

  /** Every tile of an alternating mapping list is inside the dimensions,
      and is the tile of the frame it comes from. */
  lemma {:induction false} MappingsInBox(dims: seq<int>, alternate: seq<bool>, shape: seq<int>)
    requires AllPositive(dims) && |dims| > 0
    requires |dims| <= 1 || |dims| <= |alternate|
    requires |dims| <= |shape| && shape[..|dims|] == dims
    ensures AlternatingMappings(dims, alternate, shape).Ok?
    ensures var m := AlternatingMappings(dims, alternate, shape).value;
      && |m| == Product(dims)
      && forall i :: 0 <= i < |m| ==>
           && m[i] == FrameToTile(i, Tile(FrameCoordinates(i, dims, alternate, shape)))
           && InBox(FrameCoordinates(i, dims, alternate, shape), dims)
  {
    ProductPositive(dims);
    forall i: nat | i < Product(dims)
      ensures InBox(FrameCoordinates(i, dims, alternate, shape), dims)
    {
      FrameCoordinatesInBox(i, dims, alternate, shape);
    }
  }

  /** No two mappings of an alternating list share a tile. */
  lemma {:induction false} MappingsDistinct(dims: seq<int>, alternate: seq<bool>, shape: seq<int>)
    requires AllPositive(dims) && |dims| > 0
    requires |dims| <= 1 || |dims| <= |alternate|
    requires |dims| <= |shape|
    requires AlternatingMappings(dims, alternate, shape).Ok?
    ensures var m := AlternatingMappings(dims, alternate, shape).value;
      forall i, j :: 0 <= i < j < |m| ==> m[i].tile != m[j].tile
  {
    var m := AlternatingMappings(dims, alternate, shape).value;
    forall i, j | 0 <= i < j < |m|
      ensures m[i].tile != m[j].tile
    {
      TileInjective(FrameCoordinates(i, dims, alternate, shape), FrameCoordinates(j, dims, alternate, shape));
      FrameCoordinatesInjective(i, j, dims, alternate, shape);
    }
  }

  /** Every tile inside the dimensions is taken by some mapping. */
  lemma {:induction false} MappingsCover(dims: seq<int>, alternate: seq<bool>, shape: seq<int>)
    requires AllPositive(dims) && |dims| > 0
    requires |dims| <= 1 || |dims| <= |alternate|
    requires |dims| <= |shape| && shape[..|dims|] == dims
    requires AlternatingMappings(dims, alternate, shape).Ok?
    ensures var m := AlternatingMappings(dims, alternate, shape).value;
      forall c :: InBox(c, dims) ==> exists i :: 0 <= i < |m| && m[i].tile == Tile(c)
  {
    var m := AlternatingMappings(dims, alternate, shape).value;
    forall c | InBox(c, dims)
      ensures exists i :: 0 <= i < |m| && m[i].tile == Tile(c)
    {
      FrameCoordinatesCover(c, dims, alternate, shape);
      var frame := Encode(Unsnake(c, alternate, shape), CreateMixedRadixSet(dims));
      assert m[frame].tile == Tile(c);
    }
  }

  /** With positive dimensions, the alternating layout maps the frames one to
      one onto the tiles of the target: each tile lies inside the dimensions,
      no two mappings share a tile, and every tile is mapped. */
  lemma {:induction false} AlternatingLayoutTilesTarget(meta: Metadata, dims: seq<int>, alternate: seq<bool>)
    requires AllPositive(dims) && |dims| > 0
    requires CreateVirtualLayout(meta, dims, Some(alternate)).Ok?
    ensures var m := CreateVirtualLayout(meta, dims, Some(alternate)).value.mappings;
      var shape := dims + [meta.height, meta.width];
      && |m| == Product(dims)
      && (forall i :: 0 <= i < |m| ==>
            && m[i] == FrameToTile(i, Tile(FrameCoordinates(i, dims, alternate, shape)))
            && InBox(FrameCoordinates(i, dims, alternate, shape), dims))
      && (forall i, j :: 0 <= i < j < |m| ==> m[i].tile != m[j].tile)
      && (forall c :: InBox(c, dims) ==> exists i :: 0 <= i < |m| && m[i].tile == Tile(c))
  {
    var shape := dims + [meta.height, meta.width];
    assert shape[..|dims|] == dims;
    ProductPositive(dims);
    assert AlternatingMappings(dims, alternate, shape).Ok?;
    MappingsInBox(dims, alternate, shape);
    MappingsDistinct(dims, alternate, shape);
    MappingsCover(dims, alternate, shape);
  }

  // ---------------------------------------------------------------------------
  // Examples

  /** On a (3, 4) grid whose inner axis alternates, frame `i` sits in row
      `i / 4`, and odd rows run backwards. */
  lemma GridCoordinates(i: nat, shape: seq<int>)
    requires |shape| >= 2 && shape[1] == 4
    ensures FrameCoordinates(i, [3, 4], [false, true], shape) == [i / 4, if (i / 4) % 2 != 0 then 3 - i % 4 else i % 4]
  {
    assert [3, 4][1..] == [4];
    assert CreateMixedRadixSet([3, 4]) == [4, 1];
    SubtractionIsDivision(i, 4);
    SubtractionIsDivision(i % 4, 1);
    assert [4, 1][1..] == [1];
    var raw := Digits(i, [4, 1]);
    assert raw == [i / 4, i % 4];
    var r := Snake(raw, [false, true], shape);
    assert r[1] == (if (i / 4) % 2 != 0 then Mirror(4, i % 4) else i % 4);
    assert r[..2] == r;
  }

  /** A (3, 4) grid whose inner axis alternates is walked as a snake. */
  lemma SnakeScanExample()
    ensures var shape := [3, 4, 100, 200];
      seq(12, i requires 0 <= i < 12 => FrameCoordinates(i, [3, 4], [false, true], shape))
      == [[0, 0], [0, 1], [0, 2], [0, 3], [1, 3], [1, 2], [1, 1], [1, 0], [2, 0], [2, 1], [2, 2], [2, 3]]
  {
    var shape := [3, 4, 100, 200];
    forall i: nat | i < 12 {
      GridCoordinates(i, shape);
    }
  }

  /** Three files of 2, 3 and 5 frames total 10 frames, yet a 10-frame
      layout is refused: the check compares the first file's count. */
  lemma FirstFileFrameCheckExample()
    ensures var files := [Metadata([2], 100, 200, "uint16"), Metadata([3], 100, 200, "uint16"), Metadata([5], 100, 200, "uint16")];
      && ProcessSourceDatasets(files) == Ok(Processed(files[0], 10))
      && CreateVirtualLayout(files[0], [10], None) == Err(FrameCountMismatch(2, 10))
  {
  }
}
