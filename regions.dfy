/** The crop taken around each person box before the face search:
    the box padded on every side, clamped to the image, then cut out with
    numpy's slice rules (`img[y1:y2, x1:x2]`). */
module Regions {
  import opened Wrappers

  /** Pixel corners `(x1, y1, x2, y2)`, as the detector reports them. */
  datatype Box = Box(x1: int, y1: int, x2: int, y2: int)

  /** Padding used for still photos (`pad = 20`). */
  const PhotoPad: nat := 20

  /** Padding used for live frames (`pad = 5`), against the half-size frame. */
  const LivePad: nat := 5

  /** `max(0, b - pad)` / `min(limit, b + pad)` on every side. */
  function PadClamp(b: Box, width: nat, height: nat, pad: nat): (r: Box)
    ensures r.x1 >= 0 && r.x1 >= b.x1 - pad && (r.x1 == 0 || r.x1 == b.x1 - pad)
    ensures r.y1 >= 0 && r.y1 >= b.y1 - pad && (r.y1 == 0 || r.y1 == b.y1 - pad)
    ensures r.x2 <= width && r.x2 <= b.x2 + pad && (r.x2 == width || r.x2 == b.x2 + pad)
    ensures r.y2 <= height && r.y2 <= b.y2 + pad && (r.y2 == height || r.y2 == b.y2 + pad)
  {
    Box(if b.x1 - pad < 0 then 0 else b.x1 - pad,
        if b.y1 - pad < 0 then 0 else b.y1 - pad,
        if b.x2 + pad > width then width else b.x2 + pad,
        if b.y2 + pad > height then height else b.y2 + pad)
  }

  /** How a numpy/Python slice bound i is read against a dimension of length n:
      a negative bound counts from the end, and the result is clamped to [0, n]. */
  function SliceBound(i: int, n: nat): (r: nat)
    ensures r <= n
    ensures 0 <= i <= n ==> r == i
    ensures i < 0 ==> r == if n + i < 0 then 0 else n + i
    ensures i > n ==> r == n
  {
    if i < 0 then (if i + n < 0 then 0 else i + n)
    else if i > n then n
    else i
  }

  /** The region `img[y1:y2, x1:x2]` actually cut out for a box, or None when
      that crop has no pixels (`person_crop.size == 0`). */
  function Crop(b: Box, width: nat, height: nat, pad: nat): (r: Option<Box>)
    ensures r.Some? ==> 0 <= r.value.x1 < r.value.x2 <= width && 0 <= r.value.y1 < r.value.y2 <= height
    ensures r.Some? ==> r.value.x1 <= b.x1 || r.value.x1 == 0
    ensures var p := PadClamp(b, width, height, pad);
      var x1, x2 := SliceBound(p.x1, width), SliceBound(p.x2, width);
      var y1, y2 := SliceBound(p.y1, height), SliceBound(p.y2, height);
      && (r.None? <==> x2 <= x1 || y2 <= y1)
      && (r.Some? ==> r.value == Box(x1, y1, x2, y2))
  {
    var p := PadClamp(b, width, height, pad);
    var x1, x2 := SliceBound(p.x1, width), SliceBound(p.x2, width);
    var y1, y2 := SliceBound(p.y1, height), SliceBound(p.y2, height);
    if x1 < x2 && y1 < y2 then Some(Box(x1, y1, x2, y2)) else None
  }

  /** For a non-empty box inside the image, as the detector reports it, the
      crop is the padded box clamped to the image, and it contains the box. */
  lemma CropOfBoxInImage(b: Box, width: nat, height: nat, pad: nat)
    requires 0 <= b.x1 < b.x2 <= width && 0 <= b.y1 < b.y2 <= height
    ensures Crop(b, width, height, pad) == Some(PadClamp(b, width, height, pad))
    ensures var c := Crop(b, width, height, pad).value;
      c.x1 <= b.x1 && c.y1 <= b.y1 && b.x2 <= c.x2 && b.y2 <= c.y2
  {
  }
}
