/** Mixed-radix frame indexing with alternating ("snake") axes
    (vdsgen/reshapevdsgenerator.py, `product`, `create_mixed_radix_set` and
    `calculate_axis_indices`).

    A linear frame index is decoded against radices by repeated subtraction,
    outermost axis first; afterwards an axis flagged as alternating is mirrored
    when the (already final) coordinate of its parent axis is odd. */
module MixedRadix {

  // ---------------------------------------------------------------------------
  // Products and radices

  /** Product of the elements; 1 for the empty sequence. */
  function Product(s: seq<int>): int {
    if s == [] then 1 else s[0] * Product(s[1..])
  }

  lemma {:induction false} ProductAppend(a: seq<int>, b: seq<int>)
    ensures Product(a + b) == Product(a) * Product(b)
  {
    if a != [] {
      assert (a + b)[0] == a[0];
      assert (a + b)[1..] == a[1..] + b;
      ProductAppend(a[1..], b);
      assert a[0] * (Product(a[1..]) * Product(b)) == (a[0] * Product(a[1..])) * Product(b);
    } else {
      assert a + b == b;
    }
  }

  /** `product`: multiplies the elements into an accumulator starting at 1. */
  method ProductOf(values: seq<int>) returns (product: int)
    ensures product == Product(values)
    ensures values == [] ==> product == 1
  {
    product := 1;
    var i := 0;
    while i < |values|
      invariant 0 <= i <= |values|
      invariant product == Product(values[..i])
    {
      ProductAppend(values[..i], [values[i]]);
      assert values[..i + 1] == values[..i] + [values[i]];
      product := product * values[i];
      i := i + 1;
    }
    assert values[..i] == values;
  }

  /** Every axis after the first has positive length. */
  predicate InnerPositive(dims: seq<int>) {
    forall i :: 1 <= i < |dims| ==> dims[i] > 0
  }

  predicate AllPositive(s: seq<int>) {
    forall i :: 0 <= i < |s| ==> s[i] > 0
  }

  lemma MulPositive(a: int, b: int)
    requires a > 0 && b > 0
    ensures a * b > 0
  {
  }

  /** Positive axis lengths have a positive product. */
  lemma {:induction false} ProductPositive(s: seq<int>)
    requires AllPositive(s)
    ensures Product(s) > 0
  {
    if s != [] {
      ProductPositive(s[1..]);
    }
  }

  /** `create_mixed_radix_set`: starting from the unit radix, walks the axes
      after the first from the innermost outwards, prepending the previous
      front radix times the axis length. An empty dimension tuple still
      yields the unit radix. */
  function CreateMixedRadixSet(dims: seq<int>): (radices: seq<int>)
    ensures |radices| == (if |dims| == 0 then 1 else |dims|)
    ensures radices[|radices| - 1] == 1
    ensures forall i :: 0 <= i < |dims| ==> radices[i] == Product(dims[i + 1..])
    ensures InnerPositive(dims) ==> AllPositive(radices)
    decreases |dims|
  {
    if |dims| <= 1 then [1]
    else
      var rest := CreateMixedRadixSet(dims[1..]);
      var front := rest[0] * dims[1];
      assert front == Product(dims[1..]) by {
        assert dims[1..][1..] == dims[2..];
        assert rest[0] == Product(dims[2..]);
      }
      assert InnerPositive(dims) ==> front > 0 by {
        if InnerPositive(dims) {
          assert InnerPositive(dims[1..]);
          MulPositive(rest[0], dims[1]);
        }
      }
      assert forall k :: 0 <= k < |rest| ==> rest[k] == Product(dims[k + 2..]) by {
        forall k | 0 <= k < |rest|
          ensures rest[k] == Product(dims[k + 2..])
        {
          assert dims[1..][k + 1..] == dims[k + 2..];
        }
      }
      [front] + rest
  }

  // ---------------------------------------------------------------------------
  // Repeated subtraction

  /** How many times `radix` can be subtracted from `x` while `x >= radix`. */
  function Subtractions(x: int, radix: int): nat
    requires radix > 0
    decreases x
  {
    if x < radix then 0 else 1 + Subtractions(x - radix, radix)
  }

  /** What is left of `x` after those subtractions. */
  function Leftover(x: int, radix: int): int
    requires radix > 0
    decreases x
  {
    if x < radix then x else Leftover(x - radix, radix)
  }

  /** The subtractions account for all of `x`, and for `x >= 0` what is left
      is below the radix; a negative `x` is left untouched. */
  lemma {:induction false} SubtractionSplit(x: int, radix: int)
    requires radix > 0
    ensures Subtractions(x, radix) * radix + Leftover(x, radix) == x
    ensures x >= 0 ==> 0 <= Leftover(x, radix) < radix
    ensures x < 0 ==> Subtractions(x, radix) == 0 && Leftover(x, radix) == x
    decreases x
  {
    if x >= radix {
      SubtractionSplit(x - radix, radix);
      var q := Subtractions(x - radix, radix);
      assert (q + 1) * radix == q * radix + radix;
    }
  }

  /** Subtracting a radix from `q * radix + e` leaves `(q - 1) * radix + e`. */
  lemma {:induction false} SubtractionsOfMultiple(q: nat, e: int, radix: int)
    requires radix > 0 && 0 <= e < radix
    ensures Subtractions(q * radix + e, radix) == q
    ensures Leftover(q * radix + e, radix) == e
    decreases q
  {
    if q > 0 {
      assert q * radix + e - radix == (q - 1) * radix + e;
      SubtractionsOfMultiple(q - 1, e, radix);
    }
  }

  /** Repeated subtraction computes floor division and remainder. */
  lemma {:induction false} SubtractionIsDivision(x: int, radix: int)
    requires radix > 0 && x >= 0
    ensures Subtractions(x, radix) == x / radix
    ensures Leftover(x, radix) == x % radix
  {
    assert (x / radix) * radix + x % radix == x;
    SubtractionsOfMultiple(x / radix, x % radix, radix);
  }

  // ---------------------------------------------------------------------------
  // Decoding and encoding

  /** The raw coordinates: for each radix in order, the number of
      subtractions of it from what the previous radices left. */
  function Digits(x: int, radices: seq<int>): (d: seq<int>)
    requires AllPositive(radices)
    ensures |d| == |radices|
    decreases |radices|
  {
    if radices == [] then []
    else [Subtractions(x, radices[0])] + Digits(Leftover(x, radices[0]), radices[1..])
  }

  /** What is left after all radices. */
  function Remainder(x: int, radices: seq<int>): int
    requires AllPositive(radices)
    decreases |radices|
  {
    if radices == [] then x else Remainder(Leftover(x, radices[0]), radices[1..])
  }

  /** Decoding against one more radix appends one digit. */
  lemma {:induction false} DigitsSnoc(x: int, radices: seq<int>, radix: int)
    requires AllPositive(radices) && radix > 0
    ensures AllPositive(radices + [radix])
    ensures Digits(x, radices + [radix]) == Digits(x, radices) + [Subtractions(Remainder(x, radices), radix)]
    ensures Remainder(x, radices + [radix]) == Leftover(Remainder(x, radices), radix)
    decreases |radices|
  {
    if radices != [] {
      assert (radices + [radix])[1..] == radices[1..] + [radix];
      DigitsSnoc(Leftover(x, radices[0]), radices[1..], radix);
    }
  }

  /** The linear index of coordinates: the sum of coordinate times radix. */
  function Encode(coords: seq<int>, radices: seq<int>): int
    requires |coords| == |radices|
  {
    if coords == [] then 0 else coords[0] * radices[0] + Encode(coords[1..], radices[1..])
  }

  /** Decoding then re-encoding gives back the index, up to what is left after
      the last radix, which is below that radix. */
  lemma {:induction false} EncodeDigits(x: int, radices: seq<int>)
    requires AllPositive(radices) && x >= 0
    ensures Encode(Digits(x, radices), radices) + Remainder(x, radices) == x
    ensures radices != [] ==> 0 <= Remainder(x, radices) < radices[|radices| - 1]
    decreases |radices|
  {
    if radices != [] {
      var r := radices[0];
      var left := Leftover(x, r);
      var d := Digits(x, radices);
      assert d[0] == Subtractions(x, r) && d[1..] == Digits(left, radices[1..]);
      assert Encode(d, radices) == Subtractions(x, r) * r + Encode(Digits(left, radices[1..]), radices[1..]);
      assert Remainder(x, radices) == Remainder(left, radices[1..]);
      SubtractionSplit(x, r);
      EncodeDigits(left, radices[1..]);
    }
  }

  /** With the radices of a dimension tuple, decoding is exact: the weighted
      sum of the coordinates is the frame index. */
  lemma {:induction false} FrameIndexRoundTrip(x: int, dims: seq<int>)
    requires InnerPositive(dims) && x >= 0
    ensures Encode(Digits(x, CreateMixedRadixSet(dims)), CreateMixedRadixSet(dims)) == x
  {
    var radices := CreateMixedRadixSet(dims);
    EncodeDigits(x, radices);
  }

  /** Coordinates within the dimensions. */
  predicate InBox(coords: seq<int>, dims: seq<int>) {
    |coords| == |dims| && forall k :: 0 <= k < |dims| ==> 0 <= coords[k] < dims[k]
  }

  /** Below `d * r`, the number of subtractions of `r` is below `d`. */
  lemma LeadingDigitBound(x: int, d: int, r: int)
    requires r > 0 && 0 <= x < d * r
    ensures Subtractions(x, r) < d
    ensures 0 <= Leftover(x, r) < r
  {
    SubtractionSplit(x, r);
  }

  /** Appending an inner coordinate below its radix stays below the product. */
  lemma {:induction false} StepBound(c: int, d: int, r: int, t: int)
    requires 0 <= c < d && r > 0 && 0 <= t < r
    ensures 0 <= c * r + t < d * r
  {
    assert (c + 1) * r == c * r + r;
    assert (c + 1) * r <= d * r;
  }

  /** Every frame index below the product of the dimensions decodes to
      coordinates within the dimensions. */
  lemma {:induction false} DigitsInBox(x: int, dims: seq<int>)
    requires AllPositive(dims) && |dims| > 0
    requires 0 <= x < Product(dims)
    ensures InBox(Digits(x, CreateMixedRadixSet(dims)), dims)
    decreases |dims|
  {
    var radices := CreateMixedRadixSet(dims);
    var r0 := radices[0];
    assert r0 == Product(dims[1..]);
    LeadingDigitBound(x, dims[0], r0);
    var d := Digits(x, radices);
    var left := Leftover(x, r0);
    assert d == [Subtractions(x, r0)] + Digits(left, radices[1..]);
    if |dims| > 1 {
      assert radices[1..] == CreateMixedRadixSet(dims[1..]);
      DigitsInBox(left, dims[1..]);
    }
  }

  /** Coordinates within the dimensions encode to an index below their
      product. */
  lemma {:induction false} EncodeInRange(coords: seq<int>, dims: seq<int>)
    requires AllPositive(dims) && |dims| > 0
    requires InBox(coords, dims)
    ensures 0 <= Encode(coords, CreateMixedRadixSet(dims)) < Product(dims)
    decreases |dims|
  {
    var radices := CreateMixedRadixSet(dims);
    var r0 := radices[0];
    assert r0 == Product(dims[1..]);
    if |dims| > 1 {
      assert radices[1..] == CreateMixedRadixSet(dims[1..]);
      EncodeInRange(coords[1..], dims[1..]);
    }
    StepBound(coords[0], dims[0], r0, Encode(coords[1..], radices[1..]));
  }

  /** Decoding the index of coordinates within the dimensions gives them
      back: together with `FrameIndexRoundTrip`, decoding is a bijection
      between [0, product) and the coordinates within the dimensions. */
  lemma {:induction false} DigitsOfEncode(coords: seq<int>, dims: seq<int>)
    requires AllPositive(dims) && |dims| > 0
    requires InBox(coords, dims)
    ensures Digits(Encode(coords, CreateMixedRadixSet(dims)), CreateMixedRadixSet(dims)) == coords
    decreases |dims|
  {
    var radices := CreateMixedRadixSet(dims);
    var tail := Encode(coords[1..], radices[1..]);
    assert 0 <= tail < radices[0] && Digits(tail, radices[1..]) == coords[1..] by {
      if |dims| > 1 {
        assert radices[1..] == CreateMixedRadixSet(dims[1..]);
        assert radices[0] == Product(dims[1..]);
        EncodeInRange(coords[1..], dims[1..]);
        DigitsOfEncode(coords[1..], dims[1..]);
      }
    }
    DigitsOfLeading(coords, radices);
  }

  /** The inductive step of `DigitsOfEncode`: a leading coordinate in front
      of a tail that decodes back to itself. */
  lemma {:induction false} DigitsOfLeading(coords: seq<int>, radices: seq<int>)
    requires AllPositive(radices) && |radices| > 0 && |coords| == |radices| && coords[0] >= 0
    requires 0 <= Encode(coords[1..], radices[1..]) < radices[0]
    requires Digits(Encode(coords[1..], radices[1..]), radices[1..]) == coords[1..]
    ensures Digits(Encode(coords, radices), radices) == coords
  {
    var tail := Encode(coords[1..], radices[1..]);
    var x := Encode(coords, radices);
    assert x == coords[0] * radices[0] + tail;
    DigitsCons(x, coords[0], tail, radices);
    assert [coords[0]] + coords[1..] == coords;
  }

  /** A leading coordinate over a tail below the first radix decodes to that
      coordinate followed by the tail's digits. */
  lemma DigitsCons(x: int, c: nat, tail: int, radices: seq<int>)
    requires AllPositive(radices) && |radices| > 0 && 0 <= tail < radices[0]
    requires x == c * radices[0] + tail
    ensures Digits(x, radices) == [c] + Digits(tail, radices[1..])
  {
    SubtractionsOfMultiple(c, tail, radices[0]);
    assert Subtractions(x, radices[0]) == c && Leftover(x, radices[0]) == tail;
  }

  // ---------------------------------------------------------------------------
  // Alternating axes

  /** Mirrors `c` on an axis of length `n`. */
  function Mirror(n: int, c: int): int {
    n - 1 - c
  }

  /** The inversion pass: axis 0 is kept; axis k >= 1 is mirrored when it
      alternates and the coordinate of axis k-1, as already inverted, is odd.
      The code only reads `alternate` and `shape` for axes 1 onwards. */
  function Snake(raw: seq<int>, alternate: seq<bool>, shape: seq<int>): (r: seq<int>)
    requires |raw| <= 1 || (|raw| <= |alternate| && |raw| <= |shape|)
    ensures |r| == |raw|
    ensures |raw| > 0 ==> r[0] == raw[0]
    ensures forall j, k {:trigger r[j], r[k]} :: 0 <= j && k == j + 1 && k < |raw| ==>
      r[k] == (if alternate[k] && r[j] % 2 != 0 then Mirror(shape[k], raw[k]) else raw[k])
    decreases |raw|
  {
    if |raw| <= 1 then raw
    else
      var k := |raw| - 1;
      var prefix := Snake(raw[..k], alternate, shape);
      prefix + [if alternate[k] && prefix[k - 1] % 2 != 0 then Mirror(shape[k], raw[k]) else raw[k]]
  }

  /** The inverse pass: each axis is mirrored under the same condition, now
      read from the final coordinates. */
  function Unsnake(coords: seq<int>, alternate: seq<bool>, shape: seq<int>): (raw: seq<int>)
    requires |coords| <= 1 || (|coords| <= |alternate| && |coords| <= |shape|)
    ensures |raw| == |coords|
  {
    seq(|coords|, k requires 0 <= k < |coords| =>
      if k >= 1 && alternate[k] && coords[k - 1] % 2 != 0 then Mirror(shape[k], coords[k]) else coords[k])
  }

  lemma {:induction false} UnsnakeSnake(raw: seq<int>, alternate: seq<bool>, shape: seq<int>)
    requires |raw| <= 1 || (|raw| <= |alternate| && |raw| <= |shape|)
    ensures Unsnake(Snake(raw, alternate, shape), alternate, shape) == raw
  {
    var r := Snake(raw, alternate, shape);
    var u := Unsnake(r, alternate, shape);
    forall k | 0 <= k < |raw|
      ensures u[k] == raw[k]
    {
      if k > 0 {
        assert r[k] == (if alternate[k] && r[k - 1] % 2 != 0 then Mirror(shape[k], raw[k]) else raw[k]);
      }
    }
  }

  lemma {:induction false} SnakeUnsnakeAt(coords: seq<int>, alternate: seq<bool>, shape: seq<int>, k: nat)
    requires |coords| <= 1 || (|coords| <= |alternate| && |coords| <= |shape|)
    requires k < |coords|
    ensures Snake(Unsnake(coords, alternate, shape), alternate, shape)[k] == coords[k]
  {
    if k > 0 {
      SnakeUnsnakeAt(coords, alternate, shape, k - 1);
    }
  }

  /** The inversion pass is a bijection: it has `Unsnake` as inverse on both
      sides. */
  lemma {:induction false} SnakeUnsnake(coords: seq<int>, alternate: seq<bool>, shape: seq<int>)
    requires |coords| <= 1 || (|coords| <= |alternate| && |coords| <= |shape|)
    ensures Snake(Unsnake(coords, alternate, shape), alternate, shape) == coords
  {
    forall k | 0 <= k < |coords| {
      SnakeUnsnakeAt(coords, alternate, shape, k);
    }
  }

  /** Mirroring maps [0, n) onto itself, so inversion keeps coordinates
      within the dimensions, in both directions, when the shape it mirrors
      against starts with those dimensions. */
  lemma {:induction false} SnakeKeepsBox(coords: seq<int>, alternate: seq<bool>, shape: seq<int>, dims: seq<int>)
    requires |coords| <= 1 || (|coords| <= |alternate| && |coords| <= |shape|)
    requires |dims| <= |shape| && forall k :: 0 <= k < |dims| ==> shape[k] == dims[k]
    ensures InBox(coords, dims) ==> InBox(Snake(coords, alternate, shape), dims)
    ensures InBox(coords, dims) ==> InBox(Unsnake(coords, alternate, shape), dims)
  {
    if InBox(coords, dims) {
      var r := Snake(coords, alternate, shape);
      forall k | 0 <= k < |dims|
        ensures 0 <= r[k] < dims[k]
      {
        if k > 0 {
          assert r[k] == (if alternate[k] && r[k - 1] % 2 != 0 then Mirror(shape[k], coords[k]) else coords[k]);
        }
      }
      var u := Unsnake(coords, alternate, shape);
      forall k | 0 <= k < |dims|
        ensures 0 <= u[k] < dims[k]
      {
        assert u[k] == coords[k] || u[k] == Mirror(shape[k], coords[k]);
      }
    }
  }

  // ---------------------------------------------------------------------------
  // calculate_axis_indices

  /** The inner loop of `calculate_axis_indices`: subtracts `radix` from
      `x` while it fits, counting the subtractions. */
  method SubtractRepeatedly(x: int, radix: int) returns (count: nat, left: int)
    requires radix > 0
    ensures count == Subtractions(x, radix) && left == Leftover(x, radix)
    ensures x >= 0 ==> count * radix + left == x && 0 <= left < radix
  {
    count, left := 0, x;
    while left >= radix
      invariant count + Subtractions(left, radix) == Subtractions(x, radix)
      invariant Leftover(left, radix) == Leftover(x, radix)
      decreases left
    {
      left := left - radix;
      count := count + 1;
    }
    SubtractionSplit(x, radix);
  }

  /** The decoding loop of `calculate_axis_indices`: one zero-initialised
      coordinate per radix, raised by the number of subtractions of that
      radix from what the outer radices left. */
  method DecodeBySubtraction(frameIndex: int, radices: seq<int>) returns (raw: seq<int>)
    requires AllPositive(radices)
    ensures raw == Digits(frameIndex, radices)
  {
    raw := seq(|radices|, _ => 0);
    var remaining := frameIndex;
    var idx := 0;
    while idx < |radices|
      invariant 0 <= idx <= |radices| && |raw| == |radices|
      invariant raw[..idx] == Digits(frameIndex, radices[..idx])
      invariant remaining == Remainder(frameIndex, radices[..idx])
      invariant forall j :: idx <= j < |raw| ==> raw[j] == 0
    {
      var radix := radices[idx];
      var count, left := SubtractRepeatedly(remaining, radix);
      DigitsSnoc(frameIndex, radices[..idx], radix);
      assert radices[..idx + 1] == radices[..idx] + [radix];
      raw := raw[idx := raw[idx] + count];
      remaining := left;
      assert raw[..idx + 1] == raw[..idx] + [raw[idx]];
      idx := idx + 1;
    }
    assert radices[..idx] == radices;
    assert raw == raw[..idx];
  }

  /** The inversion loop of `calculate_axis_indices`: axes 1 onwards, in
      place, each reading the already-updated coordinate of its parent. */
  method InvertAxes(raw: seq<int>, alternate: seq<bool>, shape: seq<int>) returns (indices: seq<int>)
    requires |raw| <= 1 || (|raw| <= |alternate| && |raw| <= |shape|)
    ensures indices == Snake(raw, alternate, shape)
  {
    indices := raw;
    if |raw| == 0 {
      return;
    }
    var axis := 1;
    while axis < |raw|
      invariant 1 <= axis <= |raw|
      invariant |indices| == |raw|
      invariant indices[..axis] == Snake(raw[..axis], alternate, shape)
      invariant indices[axis..] == raw[axis..]
    {
      ghost var prefix := Snake(raw[..axis], alternate, shape);
      assert raw[..axis + 1][..axis] == raw[..axis];
      assert indices[axis - 1] == prefix[axis - 1] && indices[axis] == raw[axis] by {
        assert indices[..axis][axis - 1] == indices[axis - 1];
        assert indices[axis..][0] == raw[axis..][0];
      }
      assert Snake(raw[..axis + 1], alternate, shape) ==
        prefix + [if alternate[axis] && prefix[axis - 1] % 2 != 0 then Mirror(shape[axis], raw[axis]) else raw[axis]];
      if alternate[axis] && indices[axis - 1] % 2 != 0 {
        indices := indices[axis := Mirror(shape[axis], indices[axis])];
      }
      assert indices[..axis + 1] == indices[..axis] + [indices[axis]];
      axis := axis + 1;
    }
    assert indices == indices[..axis];
    assert raw == raw[..axis];
  }

  /** `calculate_axis_indices`: decodes by repeated subtraction, one radix
      per axis, then runs the inversion pass over axes 1 onwards. */
  method CalculateAxisIndices(frameIndex: int, radices: seq<int>, shape: seq<int>,
                              dimensions: seq<int>, alternate: seq<bool>)
    returns (indices: seq<int>)
    requires |radices| == |dimensions| && AllPositive(radices)
    requires |dimensions| <= 1 || (|dimensions| <= |alternate| && |dimensions| <= |shape|)
    ensures indices == Snake(Digits(frameIndex, radices), alternate, shape)
  {
    var raw := DecodeBySubtraction(frameIndex, radices);
    indices := InvertAxes(raw, alternate, shape);
  }

  // ---------------------------------------------------------------------------
  // Worked examples

  /** Shape (5, 3, 10) has radices (30, 10, 1), and frame 132 is [4, 1, 2]. */
  lemma RadixExample()
    ensures CreateMixedRadixSet([5, 3, 10]) == [30, 10, 1]
    ensures Digits(132, [30, 10, 1]) == [4, 1, 2]
  {
    assert [5, 3, 10][1..] == [3, 10];
    assert [3, 10][1..] == [10];
    SubtractionIsDivision(132, 30);
    SubtractionIsDivision(12, 10);
    SubtractionIsDivision(2, 1);
    assert [30, 10, 1][1..] == [10, 1];
    assert [10, 1][1..] == [1];
  }
}
