/** Array descriptors and NumPy-style slice resolution (vdsgen/group.py,
    `DatasetContainer`, `VirtualSource` and `VirtualTarget`).

    A key is a sequence of integers, slices with optional bounds and at most
    one ellipsis. Resolution places the key on the axes, fills in defaults,
    shifts negative bounds by the axis length (once, without clamping) and
    computes each axis length with vds-gen's ceiling formula. */
module Slicing {
  import opened Common

  /** One entry of an index key. */
  datatype KeyItem =
    | Index(i: int)
    | Range(start: Option<int>, stop: Option<int>, step: Option<int>)
    | Ellipsis

  /** A fully resolved slice of one axis. */
  datatype Slice = Slice(start: int, stop: int, step: int)

  /** Whether slicing re-derives the shape (a source) or keeps it (a target). */
  datatype Role = SourceRole | TargetRole

  /** A description of an array that is never read: where it lives, its
      shape, its maximum shape (UNLIMITED marks an open-ended axis) and the
      slice currently selected on each axis. */
  datatype Container = Container(
    role: Role,
    path: string,
    key: string,
    shape: seq<int>,
    maxshape: seq<int>,
    sliceList: seq<Slice>)
  {
    /** One slice per axis, none with a zero step. */
    predicate Valid() {
      && |sliceList| == |shape|
      && forall i :: 0 <= i < |sliceList| ==> sliceList[i].step != 0
    }
  }

  /** A fresh descriptor selecting the whole array. The element type handed
      to the Python constructor is never stored, so it is not a parameter
      here; a `None` entry of a given maximum shape becomes UNLIMITED. */
  function NewContainer(role: Role, path: string, key: string, shape: seq<int>,
                        maxshape: Option<seq<Option<int>>>): (c: Container)
    ensures c.Valid()
    ensures c.role == role && c.path == path && c.key == key && c.shape == shape
    ensures forall i :: 0 <= i < |shape| ==> c.sliceList[i] == Slice(0, shape[i], 1)
    ensures maxshape.None? ==> c.maxshape == shape
    ensures maxshape.Some? ==>
      && |c.maxshape| == |maxshape.value|
      && forall i :: 0 <= i < |c.maxshape| ==>
           (maxshape.value[i].None? ==> c.maxshape[i] == UNLIMITED)
           && (maxshape.value[i].Some? ==> c.maxshape[i] == maxshape.value[i].value)
  {
    var limits :=
      if maxshape.None? then shape
      else seq(|maxshape.value|, i requires 0 <= i < |maxshape.value| => maxshape.value[i].GetOr(UNLIMITED));
    Container(role, path, key, shape, limits,
              seq(|shape|, i requires 0 <= i < |shape| => Slice(0, shape[i], 1)))
  }

  // ---------------------------------------------------------------------------
  // Axis lengths

  /** For m > 0 and s > 0, (m + s - 1) / s is the ceiling of m / s. */
  lemma CeilingDivision(m: int, s: int)
    requires m > 0 && s > 0
    ensures var q := (m + s - 1) / s; q >= 1 && (q - 1) * s < m <= q * s
  {
    var q := (m + s - 1) / s;
    var rem := (m + s - 1) % s;
    assert m + s - 1 == q * s + rem && 0 <= rem < s;
    assert (q - 1) * s == q * s - s;
  }

  /** The number of elements a resolved slice selects, as vds-gen computes
      it. The code targets Python 2, where `/` on integers floors; both
      operands are positive here, so Dafny's `/` agrees with it. */
  function AxisLength(start: int, stop: int, step: int): (len: nat)
    requires step != 0
    ensures len == 0 <==> (if step > 0 then start >= stop else start <= stop)
  {
    if step > 0 then
      if start < stop then CeilingDivision(stop - start, step); (stop - start + step - 1) / step
      else 0
    else
      if start > stop then CeilingDivision(start - stop, -step); (start - stop - step - 1) / -step
      else 0
  }

  /** A non-empty range needs exactly `len` steps to be covered: `len - 1`
      steps fall short of the stop and `len` steps reach or pass it. */
  lemma {:induction false} AxisLengthIsCeiling(start: int, stop: int, step: int)
    requires step != 0
    ensures var len := AxisLength(start, stop, step);
      && (step > 0 && start < stop ==> (len - 1) * step < stop - start <= len * step)
      && (step < 0 && start > stop ==> (len - 1) * -step < start - stop <= len * -step)
  {
    if step > 0 && start < stop {
      CeilingDivision(stop - start, step);
    } else if step < 0 && start > stop {
      CeilingDivision(start - stop, -step);
    }
  }

  /** Brute-force reference: the indices a slice visits, one by one. */
  function Enumerate(start: int, stop: int, step: int): seq<int>
    requires step != 0
    decreases if step > 0 then stop - start else start - stop
  {
    if (step > 0 && start < stop) || (step < 0 && start > stop) then
      [start] + Enumerate(start + step, stop, step)
    else
      []
  }

  /** A ceiling is unique: two counts that both cover `m` in steps of `s`
      without overshooting by a whole step are equal. */
  lemma CeilingUnique(m: int, s: int, a: int, b: int)
    requires s > 0
    requires (a - 1) * s < m <= a * s
    requires (b - 1) * s < m <= b * s
    ensures a == b
  {
  }

  /** One step fewer to cover means one element fewer. */
  lemma {:induction false} CeilingStep(m: int, s: int, len: int, len': int)
    requires s > 0 && m > 0
    requires (len - 1) * s < m <= len * s
    requires m - s > 0 ==> (len' - 1) * s < m - s <= len' * s
    requires m - s <= 0 ==> len' == 0
    ensures len == len' + 1
  {
    if m - s > 0 {
      assert (len' + 1 - 1) * s == len' * s;
      assert (len' + 1) * s == len' * s + s;
      CeilingUnique(m, s, len, len' + 1);
    } else {
      CeilingUnique(m, s, len, 1);
    }
  }

  /** The computed length is exactly the number of indices the slice visits. */
  lemma {:induction false} AxisLengthCountsIndices(start: int, stop: int, step: int)
    requires step != 0
    ensures AxisLength(start, stop, step) == |Enumerate(start, stop, step)|
    decreases if step > 0 then stop - start else start - stop
  {
    AxisLengthIsCeiling(start, stop, step);
    AxisLengthIsCeiling(start + step, stop, step);
    if step > 0 && start < stop {
      AxisLengthCountsIndices(start + step, stop, step);
      CeilingStep(stop - start, step, AxisLength(start, stop, step), AxisLength(start + step, stop, step));
    } else if step < 0 && start > stop {
      AxisLengthCountsIndices(start + step, stop, step);
      CeilingStep(start - stop, -step, AxisLength(start, stop, step), AxisLength(start + step, stop, step));
    }
  }

  // ---------------------------------------------------------------------------
  // Resolving one axis

  /** A negative bound counts from the end of the axis; it is shifted once. */
  function Shift(n: int, bound: int): int {
    if bound < 0 then n + bound else bound
  }

  /** Resolves one slice against an axis of length `n`: defaults depend on the
      sign of the step, negative bounds are shifted, nothing is clamped. */
  function ResolveAxis(n: int, item: KeyItem): (r: Result<Slice>)
    requires item.Range?
    ensures r.Err? <==> item.step == Some(0)
    ensures r.Err? ==> r.error == ZeroStep
    ensures r.Ok? ==> r.value.step == item.step.GetOr(1) && r.value.step != 0
    ensures r.Ok? && item.start.Some? ==> r.value.start == Shift(n, item.start.value)
    ensures r.Ok? && item.stop.Some? ==> r.value.stop == Shift(n, item.stop.value)
    ensures r.Ok? && item.start.None? ==> r.value.start == Shift(n, if r.value.step > 0 then 0 else n)
    ensures r.Ok? && item.stop.None? ==> r.value.stop == Shift(n, if r.value.step > 0 then n else 0)
  {
    var step := item.step.GetOr(1);
    if step > 0 then
      Ok(Slice(Shift(n, item.start.GetOr(0)), Shift(n, item.stop.GetOr(n)), step))
    else if step < 0 then
      Ok(Slice(Shift(n, item.start.GetOr(n)), Shift(n, item.stop.GetOr(0)), step))
    else
      Err(ZeroStep)
  }

  /** Omitted bounds select the whole axis in the direction of the step:
      forwards from 0 to n, backwards from n to 0. */
  lemma OmittedBoundsSelectWholeAxis(n: int, step: int)
    requires n >= 0 && step != 0
    ensures var r := ResolveAxis(n, Range(None, None, Some(step)));
      && r.Ok?
      && (step > 0 ==> r.value == Slice(0, n, step))
      && (step < 0 ==> r.value == Slice(n, 0, step))
      && (step == 1 || step == -1 ==> AxisLength(r.value.start, r.value.stop, r.value.step) == n)
  {
  }

  /** The stop bound is not clamped to the axis: a stop past the end yields a
      length past the end too. */
  lemma StopIsNotClamped(n: int, extra: nat)
    requires n >= 0
    ensures var r := ResolveAxis(n, Range(Some(0), Some(n + extra), None));
      r == Ok(Slice(0, n + extra, 1)) && AxisLength(0, n + extra, 1) == n + extra
  {
  }

  /** Resolves every axis in order; the first zero step aborts. */
  function ResolveAll(shape: seq<int>, items: seq<KeyItem>): (r: Result<seq<Slice>>)
    requires |items| == |shape|
    requires forall j :: 0 <= j < |items| ==> items[j].Range?
    ensures r.Ok? <==> forall j :: 0 <= j < |items| ==> items[j].step != Some(0)
    ensures r.Err? ==> r.error == ZeroStep
    ensures r.Ok? ==> |r.value| == |items|
    ensures r.Ok? ==> forall j :: 0 <= j < |items| ==> ResolveAxis(shape[j], items[j]) == Ok(r.value[j])
    decreases |items|
  {
    if items == [] then Ok([])
    else
      var first :- ResolveAxis(shape[0], items[0]);
      var rest :- ResolveAll(shape[1..], items[1..]);
      Ok([first] + rest)
  }

  // ---------------------------------------------------------------------------
  // Placing a key on the axes

  /** An integer index keeps its axis: `i` becomes the slice `i:i+1:1`. */
  function ToRange(item: KeyItem): KeyItem {
    match item
    case Index(i) => Range(Some(i), Some(i + 1), Some(1))
    case _ => item
  }

  function EllipsisCount(key: seq<KeyItem>): nat {
    if key == [] then 0 else (if key[0].Ellipsis? then 1 else 0) + EllipsisCount(key[1..])
  }

  /** Rewrites every integer of a key as a one-element slice. */
  function Normalize(key: seq<KeyItem>): (r: seq<KeyItem>)
    ensures |r| == |key|
    ensures forall j :: 0 <= j < |key| ==> r[j] == ToRange(key[j]) && !r[j].Index?
    ensures EllipsisCount(r) == EllipsisCount(key)
    ensures EllipsisPosition(r) == EllipsisPosition(key)
  {
    if key == [] then [] else [ToRange(key[0])] + Normalize(key[1..])
  }

  /** Position of the first ellipsis, or |key| when there is none. */
  function EllipsisPosition(key: seq<KeyItem>): (p: nat)
    ensures p <= |key|
    ensures p < |key| ==> key[p].Ellipsis?
    ensures forall j :: 0 <= j < p ==> !key[j].Ellipsis?
    ensures p == |key| <==> EllipsisCount(key) == 0
    ensures EllipsisCount(key) == 1 ==> forall j :: p < j < |key| ==> !key[j].Ellipsis?
  {
    if key == [] then 0
    else if key[0].Ellipsis? then
      assert EllipsisCount(key[1..]) == 0 ==> forall j :: 0 <= j < |key[1..]| ==> !key[1..][j].Ellipsis? by {
        NoEllipsisCounted(key[1..]);
      }
      0
    else 1 + EllipsisPosition(key[1..])
  }

  lemma {:induction false} NoEllipsisCounted(key: seq<KeyItem>)
    ensures EllipsisCount(key) == 0 <==> forall j :: 0 <= j < |key| ==> !key[j].Ellipsis?
  {
    if key != [] {
      NoEllipsisCounted(key[1..]);
      assert forall j :: 1 <= j < |key| ==> key[j] == key[1..][j - 1];
    }
  }

  /** The keys the code places without growing the slice list past the
      rank: a key with two or more ellipses (it is refused before it is
      placed), a key without an ellipsis no longer than the rank, and a key
      with one ellipsis where the entries before it and the entries after it
      each fit in the rank. */
  predicate KeyFits(key: seq<KeyItem>, rank: nat) {
    || EllipsisCount(key) > 1
    || (EllipsisCount(key) == 0 && |key| <= rank)
    || (EllipsisCount(key) == 1 && EllipsisPosition(key) <= rank && |key| - 1 - EllipsisPosition(key) <= rank)
  }

  /** The current slices of a descriptor, as fully specified key entries. */
  function PriorItems(slices: seq<Slice>): (r: seq<KeyItem>)
    ensures |r| == |slices|
    ensures forall j :: 0 <= j < |r| ==> r[j].Range? && r[j].step == Some(slices[j].step)
  {
    seq(|slices|, j requires 0 <= j < |slices| =>
      Range(Some(slices[j].start), Some(slices[j].stop), Some(slices[j].step)))
  }

  /** Places a key on the axes. Without an ellipsis the key overwrites the
      leading axes. An ellipsis alone changes nothing. Otherwise the entries
      before the ellipsis overwrite the leading axes, and then the entries
      after it overwrite the trailing axes, but only when there are at least
      as many of them as there are entries before it (where the two runs
      overlap, the trailing entry wins); axes not overwritten keep their
      slice. */
  function PlaceKey(prior: seq<KeyItem>, key: seq<KeyItem>): (placed: seq<KeyItem>)
    requires EllipsisCount(key) <= 1
    requires KeyFits(key, |prior|)
    ensures |placed| == |prior|
    ensures EllipsisCount(key) == 0 ==>
      forall j :: 0 <= j < |prior| ==> placed[j] == (if j < |key| then key[j] else prior[j])
    ensures key == [Ellipsis] ==> placed == prior
    ensures EllipsisCount(key) == 1 && |key| > 1 ==>
      var before := EllipsisPosition(key);
      var after := |key| - 1 - before;
      forall j :: 0 <= j < |prior| ==>
        placed[j] == (if after >= before && j >= |prior| - after then key[j - (|prior| - |key|)]
                      else if j < before then key[j]
                      else prior[j])
    ensures (forall j :: 0 <= j < |prior| ==> prior[j].Range?)
            && (forall j :: 0 <= j < |key| ==> !key[j].Index?)
            ==> forall j :: 0 <= j < |placed| ==> placed[j].Range?
  {
    var e := EllipsisPosition(key);
    if e == |key| then
      NoEllipsisCounted(key);
      key + prior[|key|..]
    else if |key| == 1 then
      prior
    else
      var before := e;
      var after := |key| - 1 - e;
      var lead := key[..before] + prior[before..];
      if after >= before then lead[..|prior| - after] + key[|key| - after..] else lead
  }

  // ---------------------------------------------------------------------------
  // Slicing a descriptor

  /** The per-axis slices a key selects on a descriptor, before resolution. */
  function Placed(c: Container, key: seq<KeyItem>): seq<KeyItem>
    requires EllipsisCount(key) <= 1
    requires KeyFits(key, |c.sliceList|)
  {
    PlaceKey(PriorItems(c.sliceList), Normalize(key))
  }

  /** `DatasetContainer._parse_slicing`: a copy of the descriptor with the
      key's slices resolved and the shape recomputed from them. The code's
      rank check measures the wrapped argument tuple, which always has one
      entry, so it fires only for rank 0. A key that would make the slice
      list grow past the rank is excluded here (see `KeyFits`). */
  function ParseSlicing(c: Container, key: seq<KeyItem>): (r: Result<Container>)
    requires c.Valid()
    requires |c.shape| == 0 || KeyFits(key, |c.shape|)
    ensures |c.shape| == 0 ==> r == Err(RankExceeded)
    ensures |c.shape| > 0 && EllipsisCount(key) > 1 ==> r == Err(MultipleEllipsis)
    ensures |c.shape| > 0 && EllipsisCount(key) <= 1 ==>
      var items := Placed(c, key);
      && (r.Ok? <==> forall j :: 0 <= j < |items| ==> items[j].step != Some(0))
      && (r.Err? ==> r.error == ZeroStep)
    ensures r.Ok? ==>
      var d := r.value;
      && d.Valid()
      && d.role == c.role && d.path == c.path && d.key == c.key && d.maxshape == c.maxshape
      && |d.shape| == |c.shape|
      && forall j :: 0 <= j < |c.shape| ==>
           && ResolveAxis(c.shape[j], Placed(c, key)[j]) == Ok(d.sliceList[j])
           && d.shape[j] == AxisLength(d.sliceList[j].start, d.sliceList[j].stop, d.sliceList[j].step)
  {
    if |c.shape| < 1 then Err(RankExceeded)
    else
      var key' := Normalize(key);
      if EllipsisCount(key') > 1 then Err(MultipleEllipsis)
      else
        var items := PlaceKey(PriorItems(c.sliceList), key');
        var slices :- ResolveAll(c.shape, items);
        Ok(c.(sliceList := slices,
              shape := seq(|slices|, j requires 0 <= j < |slices| =>
                             AxisLength(slices[j].start, slices[j].stop, slices[j].step))))
  }

  /** `VirtualSource.__getitem__` and `VirtualTarget.__getitem__`: both resolve
      the same slices; a source takes the sliced shape, a target keeps its own. */
  function GetItem(c: Container, key: seq<KeyItem>): (r: Result<Container>)
    requires c.Valid()
    requires |c.shape| == 0 || KeyFits(key, |c.shape|)
    ensures r.Ok? <==> ParseSlicing(c, key).Ok?
    ensures r.Err? ==> r.error == ParseSlicing(c, key).error
    ensures r.Ok? ==>
      && r.value.Valid()
      && r.value.role == c.role && r.value.path == c.path && r.value.key == c.key
      && r.value.maxshape == c.maxshape
      && r.value.sliceList == ParseSlicing(c, key).value.sliceList
      && (c.role == SourceRole ==> r.value.shape == ParseSlicing(c, key).value.shape)
      && (c.role == TargetRole ==> r.value.shape == c.shape)
  {
    var d :- ParseSlicing(c, key);
    if c.role == TargetRole then Ok(d.(shape := c.shape)) else Ok(d)
  }

  // ---------------------------------------------------------------------------
  // Properties of slicing

  /** A fresh descriptor of a non-empty array is unchanged by `[...]`. */
  lemma FreshEllipsisIsIdentity(role: Role, path: string, key: string, shape: seq<int>,
                                maxshape: Option<seq<Option<int>>>)
    requires |shape| > 0
    requires forall i :: 0 <= i < |shape| ==> shape[i] >= 0
    ensures var c := NewContainer(role, path, key, shape, maxshape);
      GetItem(c, [Ellipsis]) == Ok(c)
  {
    var c := NewContainer(role, path, key, shape, maxshape);
    var items := Placed(c, [Ellipsis]);
    assert items == PriorItems(c.sliceList);
    var d := ParseSlicing(c, [Ellipsis]).value;
    forall k | 0 <= k < |shape|
      ensures d.sliceList[k] == Slice(0, shape[k], 1) && d.shape[k] == shape[k]
    {
      assert items[k] == Range(Some(0), Some(shape[k]), Some(1));
      assert ResolveAxis(shape[k], items[k]) == Ok(d.sliceList[k]);
    }
    assert d.sliceList == c.sliceList;
    assert d.shape == c.shape;
  }

  /** Every valid descriptor of non-zero rank accepts `[...]`: the key fits,
      every placed slice is a prior one with a non-zero step, and the result
      keeps the rank and the maximum shape. */
  lemma EllipsisAccepted(c: Container)
    requires c.Valid() && |c.shape| > 0
    ensures GetItem(c, [Ellipsis]).Ok?
    ensures GetItem(c, [Ellipsis]).value.Valid()
    ensures GetItem(c, [Ellipsis]).value.maxshape == c.maxshape
    ensures |GetItem(c, [Ellipsis]).value.shape| == |c.shape|
  {
    var items := Placed(c, [Ellipsis]);
    assert items == PriorItems(c.sliceList);
    assert forall j :: 0 <= j < |items| ==> items[j].step != Some(0);
  }

  /** Re-slicing with `[...]` keeps resolved slices whose bounds are not
      negative (a negative bound would be shifted a second time); a source
      then takes the lengths of those slices as its shape. */
  lemma {:induction false} EllipsisKeepsResolvedSlices(c: Container)
    requires c.Valid() && |c.shape| > 0
    requires forall k :: 0 <= k < |c.sliceList| ==> c.sliceList[k].start >= 0 && c.sliceList[k].stop >= 0
    ensures GetItem(c, [Ellipsis]).Ok?
    ensures GetItem(c, [Ellipsis]).value.sliceList == c.sliceList
    ensures c.role == SourceRole ==> forall k :: 0 <= k < |c.shape| ==>
      GetItem(c, [Ellipsis]).value.shape[k] == AxisLength(c.sliceList[k].start, c.sliceList[k].stop, c.sliceList[k].step)
  {
    var items := Placed(c, [Ellipsis]);
    assert items == PriorItems(c.sliceList);
    var d := ParseSlicing(c, [Ellipsis]).value;
    forall k | 0 <= k < |c.shape|
      ensures d.sliceList[k] == c.sliceList[k]
    {
      assert ResolveAxis(c.shape[k], items[k]) == Ok(d.sliceList[k]);
    }
    assert d.sliceList == c.sliceList;
  }

  /** A key of integers (no ellipsis) never fails and keeps every axis. */
  lemma {:induction false} IntegerKeyAccepted(c: Container, key: seq<KeyItem>)
    requires c.Valid() && |c.shape| > 0 && |key| <= |c.shape|
    requires EllipsisCount(key) == 0
    requires forall k :: 0 <= k < |key| ==> key[k].Index?
    ensures GetItem(c, key).Ok?
    ensures |GetItem(c, key).value.sliceList| == |c.shape|
  {
    IndexKeyPlaced(c, key);
  }

  /** An integer index `i` on axis `j` with `0 <= i < n` selects `i:i+1:1`
      on that axis, and a source gets length 1 on it. */
  lemma {:induction false} IntegerIndexKeepsAxis(c: Container, key: seq<KeyItem>, j: nat)
    requires c.Valid() && |c.shape| > 0 && |key| <= |c.shape|
    requires EllipsisCount(key) == 0
    requires forall k :: 0 <= k < |key| ==> key[k].Index?
    requires j < |key| && 0 <= key[j].i < c.shape[j]
    ensures GetItem(c, key).Ok?
    ensures GetItem(c, key).value.sliceList[j] == Slice(key[j].i, key[j].i + 1, 1)
    ensures c.role == SourceRole ==> GetItem(c, key).value.shape[j] == 1
  {
    IntegerKeyAccepted(c, key);
    IndexKeyPlaced(c, key);
    var i := key[j].i;
    var item := Placed(c, key)[j];
    assert item == Range(Some(i), Some(i + 1), Some(1));
    var d := ParseSlicing(c, key).value;
    assert d.sliceList[j] == Slice(i, i + 1, 1) by {
      assert ResolveAxis(c.shape[j], item) == Ok(d.sliceList[j]);
      assert ResolveAxis(c.shape[j], item) == Ok(Slice(i, i + 1, 1));
    }
    assert d.shape[j] == AxisLength(i, i + 1, 1) == 1;
  }

  /** A key of integers only places one-element slices on the leading axes
      and keeps the descriptor's slices on the others. */
  lemma {:induction false} IndexKeyPlaced(c: Container, key: seq<KeyItem>)
    requires c.Valid() && |key| <= |c.shape|
    requires EllipsisCount(key) == 0
    requires forall k :: 0 <= k < |key| ==> key[k].Index?
    ensures forall k :: 0 <= k < |key| ==> Placed(c, key)[k] == Range(Some(key[k].i), Some(key[k].i + 1), Some(1))
    ensures forall k :: 0 <= k < |c.shape| ==> Placed(c, key)[k].step != Some(0)
    ensures forall k :: |key| <= k < |c.shape| ==> Placed(c, key)[k] == PriorItems(c.sliceList)[k]
  {
    var prior := PriorItems(c.sliceList);
    var key' := Normalize(key);
    assert EllipsisCount(key') == 0;
    var items := PlaceKey(prior, key');
    assert items == Placed(c, key);
    forall k | 0 <= k < |c.shape|
      ensures items[k] == (if k < |key| then Range(Some(key[k].i), Some(key[k].i + 1), Some(1)) else prior[k])
      ensures items[k].step != Some(0)
    {
      if k < |key| {
        assert items[k] == key'[k] == ToRange(key[k]);
      } else {
        assert items[k] == prior[k];
        assert prior[k].step == Some(c.sliceList[k].step);
      }
    }
  }

  /** The integer index -1 selects the empty slice `n-1:0:1`: the axis becomes
      empty instead of selecting the last element. */
  lemma MinusOneIndexIsEmpty(c: Container, j: nat)
    requires c.Valid() && c.role == SourceRole
    requires j < |c.shape| && c.shape[j] >= 1
    ensures var key := seq(j, _ => Range(None, None, None)) + [Index(-1)];
      && GetItem(c, key).Ok?
      && GetItem(c, key).value.sliceList[j] == Slice(c.shape[j] - 1, 0, 1)
      && GetItem(c, key).value.shape[j] == 0
  {
    var key := seq(j, _ => Range(None, None, None)) + [Index(-1)];
    assert key[j] == Index(-1);
    assert forall k :: 0 <= k < |key| ==> !key[k].Ellipsis?;
    NoEllipsisCounted(key);
    var items := Placed(c, key);
    assert forall k :: 0 <= k < |items| ==> items[k].step != Some(0);
  }

  /** With an ellipsis after two leading entries and only one trailing entry,
      the trailing entry is dropped: the last axis keeps its slice. */
  lemma TrailingEntryDropped(c: Container)
    requires c.Valid() && c.role == SourceRole && |c.shape| == 4
    requires forall i :: 0 <= i < 4 ==> c.shape[i] >= 1
    ensures var key := [Index(0), Index(0), Ellipsis, Index(0)];
      && GetItem(c, key).Ok?
      && GetItem(c, key).value.sliceList[3] == ResolveAxis(c.shape[3], PriorItems(c.sliceList)[3]).value
  {
    var key := [Index(0), Index(0), Ellipsis, Index(0)];
    assert EllipsisCount(key) == 1;
    assert EllipsisPosition(key) == 2;
    var items := Placed(c, key);
    assert forall k :: 0 <= k < |items| ==> items[k].step != Some(0);
  }

  /** A key with an ellipsis may be one entry longer than the rank: on a
      rank-2 descriptor `[i, ..., k]` places `i:i+1:1` on the first axis and
      `k:k+1:1` on the second. */
  lemma EllipsisBetweenIndicesPlaced(c: Container, i: int, k: int)
    requires c.Valid() && |c.shape| == 2
    ensures var key := [Index(i), Ellipsis, Index(k)];
      && KeyFits(key, |c.shape|)
      && GetItem(c, key).Ok?
      && GetItem(c, key).value.sliceList == [Slice(Shift(c.shape[0], i), Shift(c.shape[0], i + 1), 1),
                                             Slice(Shift(c.shape[1], k), Shift(c.shape[1], k + 1), 1)]
  {
    var key := [Index(i), Ellipsis, Index(k)];
    assert EllipsisCount([Index(k)]) == 0 by { assert [Index(k)][1..] == []; }
    assert EllipsisCount([Ellipsis, Index(k)]) == 1 by { assert [Ellipsis, Index(k)][1..] == [Index(k)]; }
    assert EllipsisCount(key) == 1 by { assert key[1..] == [Ellipsis, Index(k)]; }
    assert EllipsisPosition(key) == 1;
    var items := Placed(c, key);
    assert items[0] == Range(Some(i), Some(i + 1), Some(1));
    assert items[1] == Range(Some(k), Some(k + 1), Some(1));
  }

  /** When the entries before and after the ellipsis together outnumber the
      axes, the trailing entries are assigned last and win: on a rank-1
      descriptor `[i, ..., k]` selects `k:k+1:1`. */
  lemma OverlapTrailingEntryWins(c: Container, i: int, k: int)
    requires c.Valid() && |c.shape| == 1
    ensures var key := [Index(i), Ellipsis, Index(k)];
      && KeyFits(key, |c.shape|)
      && GetItem(c, key).Ok?
      && GetItem(c, key).value.sliceList == [Slice(Shift(c.shape[0], k), Shift(c.shape[0], k + 1), 1)]
  {
    var key := [Index(i), Ellipsis, Index(k)];
    assert EllipsisCount([Index(k)]) == 0 by { assert [Index(k)][1..] == []; }
    assert EllipsisCount([Ellipsis, Index(k)]) == 1 by { assert [Ellipsis, Index(k)][1..] == [Index(k)]; }
    assert EllipsisCount(key) == 1 by { assert key[1..] == [Ellipsis, Index(k)]; }
    assert EllipsisPosition(key) == 1;
    var items := Placed(c, key);
    assert items[0] == Range(Some(k), Some(k + 1), Some(1));
  }
}
