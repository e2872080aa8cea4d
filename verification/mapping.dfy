/** Mapping geometry between a source tile and a target tile (vdsgen/group.py,
    `VirtualMap` and `VGroup.create_virtual_dataset`).

    Only the parameter values handed to HDF5 are modelled: the block shape,
    and the hyperslab start, stride and count of each side. */
module Mapping {
  import opened Common
  import opened Slicing

  /** `n` singleton extents. */
  function Ones(n: nat): (r: seq<int>)
    ensures |r| == n && forall i :: 0 <= i < n ==> r[i] == 1
  {
    seq(n, _ => 1)
  }

  /** The block shape of a mapping. Equal ranks take the source shape. A
      larger target rank left-pads the source shape with singletons, except
      for a rank-1 source, which leaves the block unset. A larger source rank
      takes the target shape unpadded (the padding tuple `(1,)*rank_def` is
      empty for a negative difference), except for a rank-1 target. */
  function BlockShape(src: seq<int>, tgt: seq<int>): (b: Option<seq<int>>)
    ensures b.None? <==> (|tgt| > |src| && |src| == 1) || (|tgt| < |src| && |tgt| == 1)
    ensures b.Some? && |tgt| >= |src| ==>
      && |b.value| == |tgt|
      && b.value[|tgt| - |src|..] == src
      && forall i :: 0 <= i < |tgt| - |src| ==> b.value[i] == 1
    ensures b.Some? && |tgt| < |src| ==> b.value == tgt
  {
    var diff := |tgt| - |src|;
    if diff > 0 then
      if |src| == 1 then None else Some(Ones(diff) + src)
    else if diff < 0 then
      if |tgt| == 1 then None else Some(tgt)
    else
      Some(src)
  }

  /** Position of the first occurrence of `x`, or |s| when absent (`.index`). */
  function FirstIndexOf(s: seq<int>, x: int): (p: nat)
    ensures p <= |s|
    ensures p < |s| ==> s[p] == x
    ensures forall j :: 0 <= j < p ==> s[j] != x
    ensures p == |s| <==> x !in s
  {
    if s == [] then 0
    else if s[0] == x then 0
    else 1 + FirstIndexOf(s[1..], x)
  }

  /** Hyperslab counts and the axis that got UNLIMITED, if any. */
  datatype Counts = Counts(count: seq<int>, unlimitedAxis: Option<nat>)

  /** The hyperslab count of one side: 1 on every axis, except that the first
      axis whose maximum extent is UNLIMITED gets UNLIMITED. That axis is found
      in `maxshape`, which vds-gen never checks against the rank; when it
      lies past the rank the assignment raises. */
  function HyperslabCount(maxshape: seq<int>, rank: nat): (r: Result<Counts>)
    ensures r.Err? <==> UNLIMITED in maxshape && FirstIndexOf(maxshape, UNLIMITED) >= rank
    ensures r.Err? ==> r.error == UnlimitedAxisBeyondRank
    ensures r.Ok? ==>
      && |r.value.count| == rank
      && (r.value.unlimitedAxis.None? <==> UNLIMITED !in maxshape)
      && (r.value.unlimitedAxis.Some? ==>
            r.value.unlimitedAxis.value == FirstIndexOf(maxshape, UNLIMITED) < rank)
      && forall i :: 0 <= i < rank ==>
           r.value.count[i] == (if r.value.unlimitedAxis == Some(i) then UNLIMITED else 1)
  {
    if UNLIMITED in maxshape then
      var u := FirstIndexOf(maxshape, UNLIMITED);
      if u < rank then Ok(Counts(Ones(rank)[u := UNLIMITED], Some(u)))
      else Err(UnlimitedAxisBeyondRank)
    else
      Ok(Counts(Ones(rank), None))
  }

  /** Per-axis starts of a slice list. */
  function Starts(slices: seq<Slice>): (r: seq<int>)
    ensures |r| == |slices| && forall i :: 0 <= i < |slices| ==> r[i] == slices[i].start
  {
    seq(|slices|, i requires 0 <= i < |slices| => slices[i].start)
  }

  /** Per-axis steps of a slice list. */
  function Strides(slices: seq<Slice>): (r: seq<int>)
    ensures |r| == |slices| && forall i :: 0 <= i < |slices| ==> r[i] == slices[i].step
  {
    seq(|slices|, i requires 0 <= i < |slices| => slices[i].step)
  }

  /** A mapping from a source tile to a target tile, with the source-side
      hyperslab parameters. */
  datatype VirtualMap = VirtualMap(
    src: Container,
    target: Container,
    dtype: DType,
    blockShape: Option<seq<int>>,
    srcStart: seq<int>,
    srcStride: seq<int>,
    srcCount: seq<int>)

  /** `VirtualMap.__init__`: re-slices both descriptors with `[...]`, derives
      the block shape and the source-side hyperslab. On the first UNLIMITED
      axis of the source dataset the count becomes UNLIMITED and the block collapses to 1. */
  function MakeVirtualMap(source: Container, target: Container, dtype: DType): (r: Result<VirtualMap>)
    requires source.Valid() && target.Valid()
    ensures |source.shape| == 0 ==> r == Err(RankExceeded)
    ensures |source.shape| > 0 && |target.shape| == 0 ==> r == Err(RankExceeded)
    ensures r.Ok? ==>
      var m := r.value;
      && m.src == GetItem(source, [Ellipsis]).value
      && m.target == GetItem(target, [Ellipsis]).value
      && m.dtype == dtype
      && |m.srcStart| == |m.srcStride| == |m.srcCount| == |source.shape|
      && (forall i :: 0 <= i < |source.shape| ==>
            m.srcStart[i] == m.src.sliceList[i].start && m.srcStride[i] == m.src.sliceList[i].step)
    ensures r.Ok? && UNLIMITED !in source.maxshape ==>
      && r.value.blockShape == BlockShape(r.value.src.shape, r.value.target.shape)
      && forall i :: 0 <= i < |source.shape| ==> r.value.srcCount[i] == 1
    ensures r.Ok? && UNLIMITED in source.maxshape ==>
      var u := FirstIndexOf(source.maxshape, UNLIMITED);
      && u < |source.shape|
      && r.value.srcCount[u] == UNLIMITED
      && (forall i :: 0 <= i < |source.shape| && i != u ==> r.value.srcCount[i] == 1)
      && var b := BlockShape(r.value.src.shape, r.value.target.shape);
      && b.Some? && u < |b.value|
      && r.value.blockShape == Some(b.value[u := 1])
    ensures |source.shape| > 0 && |target.shape| > 0 ==>
      (r.Ok? <==>
         UNLIMITED in source.maxshape ==>
           var u := FirstIndexOf(source.maxshape, UNLIMITED);
           var b := BlockShape(GetItem(source, [Ellipsis]).value.shape, GetItem(target, [Ellipsis]).value.shape);
           u < |source.shape| && b.Some? && u < |b.value|)
    ensures |source.shape| > 0 && |target.shape| > 0 && r.Err? ==>
      var u := FirstIndexOf(source.maxshape, UNLIMITED);
      var b := BlockShape(GetItem(source, [Ellipsis]).value.shape, GetItem(target, [Ellipsis]).value.shape);
      r.error == (if u >= |source.shape| then UnlimitedAxisBeyondRank
                  else if b.None? then NoBlockShape
                  else BlockAxisBeyondRank)
  {
    // Slicing a rank-0 descriptor raises before anything else happens.
    if |source.shape| == 0 || |target.shape| == 0 then Err(RankExceeded)
    else
      EllipsisAccepted(source);
      EllipsisAccepted(target);
      MapResliced(GetItem(source, [Ellipsis]).value, GetItem(target, [Ellipsis]).value, dtype)
  }

  /** The part of `VirtualMap.__init__` after re-slicing: the block shape,
      the source-side start/stride/count and the collapse of the block on the
      first UNLIMITED axis, each failure with its own error. */
  function MapResliced(src: Container, tgt: Container, dtype: DType): (r: Result<VirtualMap>)
    requires src.Valid() && tgt.Valid()
    ensures r.Ok? ==>
      var m := r.value;
      && m.src == src && m.target == tgt && m.dtype == dtype
      && |m.srcStart| == |m.srcStride| == |m.srcCount| == |src.shape|
      && (forall i :: 0 <= i < |src.shape| ==>
            m.srcStart[i] == src.sliceList[i].start && m.srcStride[i] == src.sliceList[i].step)
    ensures r.Ok? && UNLIMITED !in src.maxshape ==>
      && r.value.blockShape == BlockShape(src.shape, tgt.shape)
      && forall i :: 0 <= i < |src.shape| ==> r.value.srcCount[i] == 1
    ensures r.Ok? && UNLIMITED in src.maxshape ==>
      var u := FirstIndexOf(src.maxshape, UNLIMITED);
      && u < |src.shape|
      && r.value.srcCount[u] == UNLIMITED
      && (forall i :: 0 <= i < |src.shape| && i != u ==> r.value.srcCount[i] == 1)
      && var b := BlockShape(src.shape, tgt.shape);
      && b.Some? && u < |b.value|
      && r.value.blockShape == Some(b.value[u := 1])
    ensures r.Ok? <==>
      UNLIMITED in src.maxshape ==>
        var u := FirstIndexOf(src.maxshape, UNLIMITED);
        var b := BlockShape(src.shape, tgt.shape);
        u < |src.shape| && b.Some? && u < |b.value|
    ensures r.Err? ==>
      var u := FirstIndexOf(src.maxshape, UNLIMITED);
      var b := BlockShape(src.shape, tgt.shape);
      r.error == (if u >= |src.shape| then UnlimitedAxisBeyondRank
                  else if b.None? then NoBlockShape
                  else BlockAxisBeyondRank)
  {
    var block := BlockShape(src.shape, tgt.shape);
    var counts :- HyperslabCount(src.maxshape, |src.sliceList|);
    var start := Starts(src.sliceList);
    var stride := Strides(src.sliceList);
    match counts.unlimitedAxis
    case None => Ok(VirtualMap(src, tgt, dtype, block, start, stride, counts.count))
    case Some(u) =>
      var forced :- CollapseBlockAxis(block, u);
      Ok(VirtualMap(src, tgt, dtype, forced, start, stride, counts.count))
  }

  /** Forcing the block to 1 on the UNLIMITED axis: `list(None)` raises when
      there is no block, and the assignment raises when the axis lies past
      the block's rank. */
  function CollapseBlockAxis(block: Option<seq<int>>, u: nat): (r: Result<Option<seq<int>>>)
    ensures r.Err? <==> block.None? || u >= |block.value|
    ensures r.Err? ==> r.error == (if block.None? then NoBlockShape else BlockAxisBeyondRank)
    ensures r.Ok? ==>
      && r.value.Some? && |r.value.value| == |block.value|
      && r.value.value[u] == 1
      && forall i :: 0 <= i < |block.value| && i != u ==> r.value.value[i] == block.value[i]
  {
    if block.None? then Err(NoBlockShape)
    else if u >= |block.value| then Err(BlockAxisBeyondRank)
    else Ok(Some(block.value[u := 1]))
  }

  /** The hyperslab selected in the virtual dataset for one mapping, and the
      source it is linked to. */
  datatype VirtualEntry = VirtualEntry(
    start: seq<int>,
    stride: seq<int>,
    count: seq<int>,
    block: Option<seq<int>>,
    srcPath: string,
    srcKey: string,
    srcStart: seq<int>,
    srcStride: seq<int>,
    srcCount: seq<int>)

  /** The parameters vds-gen passes to HDF5 when creating the virtual dataset. The
      name and element type come from the last mapping, the shape and maximum
      shape from the first. */
  datatype VirtualDataset = VirtualDataset(
    name: string,
    dtype: DType,
    shape: seq<int>,
    maxshape: seq<int>,
    fillValue: Option<int>,
    entries: seq<VirtualEntry>)

  /** The target side of one mapping: the same start/stride/count rule as the
      source side, without forcing the block. */
  function TargetEntry(m: VirtualMap): (r: Result<VirtualEntry>)
    ensures r.Ok? <==> HyperslabCount(m.target.maxshape, |m.target.sliceList|).Ok?
    ensures r.Err? ==> r.error == UnlimitedAxisBeyondRank
    ensures r.Ok? ==>
      var e := r.value;
      && e.start == Starts(m.target.sliceList)
      && e.stride == Strides(m.target.sliceList)
      && |e.count| == |m.target.sliceList|
      && (UNLIMITED !in m.target.maxshape ==> forall i :: 0 <= i < |e.count| ==> e.count[i] == 1)
      && (UNLIMITED in m.target.maxshape ==>
            var u := FirstIndexOf(m.target.maxshape, UNLIMITED);
            && u < |e.count| && e.count[u] == UNLIMITED
            && forall i :: 0 <= i < |e.count| && i != u ==> e.count[i] == 1)
      && e.block == m.blockShape
      && e.srcPath == m.src.path && e.srcKey == m.src.key
      && e.srcStart == m.srcStart && e.srcStride == m.srcStride && e.srcCount == m.srcCount
  {
    var counts :- HyperslabCount(m.target.maxshape, |m.target.sliceList|);
    Ok(VirtualEntry(Starts(m.target.sliceList), Strides(m.target.sliceList), counts.count,
                    m.blockShape, m.src.path, m.src.key, m.srcStart, m.srcStride, m.srcCount))
  }

  /** Entries for a list of mappings, in order; the first failure aborts. */
  function Entries(maps: seq<VirtualMap>): (r: Result<seq<VirtualEntry>>)
    ensures r.Ok? <==> forall i :: 0 <= i < |maps| ==> TargetEntry(maps[i]).Ok?
    ensures r.Ok? ==> |r.value| == |maps| && forall i :: 0 <= i < |maps| ==> r.value[i] == TargetEntry(maps[i]).value
    ensures r.Err? ==> r.error == UnlimitedAxisBeyondRank
  {
    if maps == [] then Ok([])
    else
      var first :- TargetEntry(maps[0]);
      var rest :- Entries(maps[1..]);
      Ok([first] + rest)
  }

  /** `VGroup.create_virtual_dataset`, up to the native calls: rejects an
      empty list before anything is built, then selects one target
      hyperslab per mapping. */
  function CreateVirtualDataset(maps: seq<VirtualMap>, fillValue: Option<int>): (r: Result<VirtualDataset>)
    ensures maps == [] ==> r == Err(EmptyMapList)
    ensures maps != [] && r.Err? ==> r.error == UnlimitedAxisBeyondRank
    ensures r.Ok? <==> maps != [] && forall i :: 0 <= i < |maps| ==> TargetEntry(maps[i]).Ok?
    ensures r.Ok? ==>
      var d := r.value;
      && d.shape == maps[0].target.shape
      && d.maxshape == maps[0].target.maxshape
      && d.name == maps[|maps| - 1].target.key
      && d.dtype == maps[|maps| - 1].dtype
      && d.fillValue == fillValue
      && |d.entries| == |maps|
      && forall i :: 0 <= i < |maps| ==> d.entries[i] == TargetEntry(maps[i]).value
  {
    if maps == [] then Err(EmptyMapList)
    else
      var entries :- Entries(maps);
      Ok(VirtualDataset(maps[|maps| - 1].target.key, maps[|maps| - 1].dtype,
                        maps[0].target.shape, maps[0].target.maxshape, fillValue, entries))
  }

  // ---------------------------------------------------------------------------
  // Properties of the mapping geometry

  /** A rank-2 source of shape (10, 10) mapped into a rank-3 target gets the
      block (1, 10, 10). */
  lemma {:induction false} RankPaddingExample()
    ensures var source := NewContainer(SourceRole, "raw.h5", "data", [10, 10], None);
            var target := NewContainer(TargetRole, "vds.h5", "full", [4, 10, 10], None);
            var r := MakeVirtualMap(source, target, "uint16");
            r.Ok? && r.value.blockShape == Some([1, 10, 10])
  {
    var source := NewContainer(SourceRole, "raw.h5", "data", [10, 10], None);
    var target := NewContainer(TargetRole, "vds.h5", "full", [4, 10, 10], None);
    FreshEllipsisIsIdentity(SourceRole, "raw.h5", "data", [10, 10], None);
    FreshEllipsisIsIdentity(TargetRole, "vds.h5", "full", [4, 10, 10], None);
    assert UNLIMITED !in source.maxshape;
    assert Ones(1) + [10, 10] == [1, 10, 10];
  }

  /** Between fresh descriptors of non-empty arrays without an UNLIMITED
      extent, a mapping always succeeds and selects the whole source once:
      start 0, stride 1 and count 1 on every axis, with the block shape of
      the two shapes. */
  lemma {:induction false} FreshMapSelectsWholeSource(srcShape: seq<int>, tgtShape: seq<int>, dtype: DType)
    requires |srcShape| > 0 && |tgtShape| > 0
    requires forall i :: 0 <= i < |srcShape| ==> 0 <= srcShape[i] < UNLIMITED
    requires forall i :: 0 <= i < |tgtShape| ==> tgtShape[i] >= 0
    ensures var source := NewContainer(SourceRole, "", "", srcShape, None);
            var target := NewContainer(TargetRole, "", "", tgtShape, None);
            var r := MakeVirtualMap(source, target, dtype);
      && r.Ok?
      && r.value.blockShape == BlockShape(srcShape, tgtShape)
      && forall i :: 0 <= i < |srcShape| ==>
           r.value.srcStart[i] == 0 && r.value.srcStride[i] == 1 && r.value.srcCount[i] == 1
  {
    var source := NewContainer(SourceRole, "", "", srcShape, None);
    var target := NewContainer(TargetRole, "", "", tgtShape, None);
    FreshEllipsisIsIdentity(SourceRole, "", "", srcShape, None);
    FreshEllipsisIsIdentity(TargetRole, "", "", tgtShape, None);
    assert UNLIMITED !in source.maxshape;
  }
}
