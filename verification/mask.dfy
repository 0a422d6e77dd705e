/**
 * The mask builder (`rasterCheck`): a raster thresholded against an inclusion
 * range whose sides are strict and may each be left blank.
 */
module Mask {
  import opened Wrappers
  import opened Errors

  /** A raster's cell values, one per grid cell in a fixed order. */
  type Raster = seq<int>

  /** A boolean raster: true where the cell passes its test. */
  type Mask = seq<bool>

  /** One side of an inclusion range; `None` is the blank answer `""`. */
  type Bound = Option<int>

  /** Reference meaning of a range: each given side is a strict bound, a blank side imposes nothing. */
  predicate InRange(v: int, lo: Bound, hi: Bound) {
    && (lo.Some? ==> lo.value < v)
    && (hi.Some? ==> v < hi.value)
  }

  /** `raster < t` */
  function Below(r: Raster, t: int): Mask {
    seq(|r|, i requires 0 <= i < |r| => r[i] < t)
  }

  /** `raster > t` */
  function Above(r: Raster, t: int): Mask {
    seq(|r|, i requires 0 <= i < |r| => r[i] > t)
  }

  /** `a & b` on two masks of one grid */
  function And(a: Mask, b: Mask): Mask
    requires |a| == |b|
  {
    seq(|a|, i requires 0 <= i < |a| => a[i] && b[i])
  }

  /** A mask written out as the 1/0 raster map algebra produces. */
  function ToCells(m: Mask): (r: Raster)
    ensures |r| == |m|
    ensures forall i :: 0 <= i < |m| ==> (r[i] == 1 <==> m[i]) && (r[i] == 0 <==> !m[i])
  {
    seq(|m|, i requires 0 <= i < |m| => if m[i] then 1 else 0)
  }

  /**
   * `rasterCheck(r, lo, hi)`. The blank lower side is examined first: with both
   * sides blank the source evaluates `int("")`, which raises.
   */
  function Threshold(r: Raster, lo: Bound, hi: Bound): (m: Result<Mask, Error>)
    ensures m.Ok? <==> lo.Some? || hi.Some?
    ensures m.Err? ==> m.error == BlankBounds
    ensures m.Ok? ==> |m.value| == |r|
    ensures m.Ok? ==> forall i :: 0 <= i < |r| ==> (m.value[i] <==> InRange(r[i], lo, hi))
  {
    if lo.None? then
      if hi.None? then Err(BlankBounds)
      else Ok(Below(r, hi.value))
    else if hi.None? then
      Ok(Above(r, lo.value))
    else
      Ok(And(Below(r, hi.value), Above(r, lo.value)))
  }

  /** A range with `lo >= hi` raises nothing; it passes no cell at all. */
  lemma EmptyRangeMasksAll(r: Raster, lo: int, hi: int)
    requires lo >= hi
    ensures Threshold(r, Some(lo), Some(hi)) == Ok(seq(|r|, _ => false))
  {
    var m := Threshold(r, Some(lo), Some(hi)).value;
    forall i | 0 <= i < |r|
      ensures !m[i]
    {
      assert !InRange(r[i], Some(lo), Some(hi));
    }
    var none: Mask := seq(|r|, _ => false);
    assert |m| == |none| && forall i :: 0 <= i < |r| ==> m[i] == none[i];
    assert m == none;
  }

  /** Elevation cells 100, 6000, 3000 against the range (0, 5000). */
  lemma TwoSidedExample()
    ensures Threshold([100, 6000, 3000], Some(0), Some(5000)) == Ok([true, false, true])
  {
    var m := Threshold([100, 6000, 3000], Some(0), Some(5000)).value;
    assert |m| == 3 && m[0] && !m[1] && m[2];
    assert m == [true, false, true];
  }

  /** Both bounds are exclusive: a cell equal to either bound is left out. */
  lemma BoundsExclusive(r: Raster, lo: Bound, hi: Bound, i: nat)
    requires Threshold(r, lo, hi).Ok? && i < |r|
    requires (lo.Some? && r[i] == lo.value) || (hi.Some? && r[i] == hi.value)
    ensures !Threshold(r, lo, hi).value[i]
  {
  }
}
