/** Page geometry of `ProcessDiaryPage`: clamping a rounded box to the
    page, repairing narrow `row` boxes from the previous row's horizontal
    extent, the carried extent itself, and the quarter split of a row crop.
    All coordinates are integer page pixels. */
module Geometry {
  import opened Classes

  /** A box in page pixels, as the corners `(left, top)` and `(right, bottom)`. */
  datatype Rect = Rect(left: int, top: int, right: int, bottom: int)

  /** The horizontal extent of the last row, `(prev_left, prev_right)`. */
  datatype Extent = Extent(left: int, right: int)

  /** Clamps a box: `left` and `top` are raised to 0 when negative; `right`
      (`bottom`) is set to `width - 1` (`height - 1`) only when it exceeds
      `width` (`height`), so a right edge equal to the width stays. */
  function Clamp(b: Rect, width: nat, height: nat): (c: Rect)
    ensures c.left >= 0 && c.top >= 0 && c.right <= width && c.bottom <= height
    ensures b.left >= 0 ==> c.left == b.left
    ensures b.top >= 0 ==> c.top == b.top
    ensures b.right <= width ==> c.right == b.right
    ensures b.bottom <= height ==> c.bottom == b.bottom
    ensures b.left < 0 ==> c.left == 0
    ensures b.top < 0 ==> c.top == 0
    ensures b.right > width ==> c.right == width - 1
    ensures b.bottom > height ==> c.bottom == height - 1
  {
    var left := if b.left < 0 then 0 else b.left;
    var top := if b.top < 0 then 0 else b.top;
    var right := if b.right > width then width - 1 else b.right;
    var bottom := if b.bottom > height then height - 1 else b.bottom;
    Rect(left, top, right, bottom)
  }

  /** Clamping twice is clamping once. */
  lemma ClampIdempotent(b: Rect, width: nat, height: nat)
    ensures Clamp(Clamp(b, width, height), width, height) == Clamp(b, width, height)
  {
  }

  /** `int(image_width*5/7)`: a row narrower than this is repaired. */
  function NarrowLimit(width: nat): nat
  {
    (5 * width) / 7
  }

  predicate IsNarrow(r: Rect, width: nat)
  {
    r.right - r.left < NarrowLimit(width)
  }

  /** The extent assumed before the first row of a page:
      `(int(image_width/20), int(image_width*19/20))`. */
  function InitialExtent(width: nat): Extent
  {
    Extent(width / 20, (19 * width) / 20)
  }

  /** Row repair: a narrow `row` box takes the previous row's left and right;
      every other box is kept as clamped. */
  function Reconcile(cls: ClassName, c: Rect, prev: Extent, width: nat): (r: Rect)
    ensures r.top == c.top && r.bottom == c.bottom
    ensures cls == Row && IsNarrow(c, width) ==> r.left == prev.left && r.right == prev.right
    ensures !(cls == Row && IsNarrow(c, width)) ==> r == c
  {
    if cls == Row && IsNarrow(c, width) then Rect(prev.left, c.top, prev.right, c.bottom)
    else c
  }

  /** The carried extent after a detection: rows set it to their repaired
      left and right; other classes leave it alone. */
  function NextExtent(cls: ClassName, r: Rect, prev: Extent): (e: Extent)
    ensures cls == Row ==> e.left == r.left && e.right == r.right
    ensures cls != Row ==> e == prev
  {
    if cls == Row then Extent(r.left, r.right) else prev
  }

  /** An extent inside the page and at least as wide as the narrow limit. */
  predicate WideExtent(e: Extent, width: nat)
  {
    0 <= e.left && e.right <= width && e.right - e.left >= NarrowLimit(width)
  }

  /** The default extent is wide for every page width: with
      `width = 20q + r`, its span is `18q + floor(19r/20)`, which is at
      least `floor((100q + 5r)/7)`. */
  lemma InitialExtentWide(width: nat)
    ensures WideExtent(InitialExtent(width), width)
  {
    var q := width / 20;
    var r := width % 20;
    assert width == 20 * q + r;
    var lo := width / 20;
    var hi := (19 * width) / 20;
    assert lo == q;
    assert 19 * width == 20 * (19 * q) + 19 * r;
    assert hi == 19 * q + (19 * r) / 20;
    if r == 0 {
      assert hi - lo == 18 * q;
      assert 7 * (18 * q) >= 5 * width;
    } else {
      assert (19 * r) / 20 == r - 1 by {
        assert 19 * r == 20 * (r - 1) + (20 - r);
      }
      assert hi - lo == 18 * q + r - 1;
      if q == 0 {
        assert width == r;
        assert 1 <= r < 20;
        assert NarrowLimit(width) <= r - 1 by {
          if r >= 4 {
            assert 7 * (r - 1) >= 5 * r;
          } else {
            assert r == 1 || r == 2 || r == 3;
          }
        }
      } else {
        assert 7 * (18 * q + r - 1) >= 5 * width;
      }
    }
  }

  /** One step of the page loop keeps the carried extent wide, and every
      repaired `row` box is inside the page and at least as wide as the
      narrow limit. */
  lemma ReconcileKeepsWide(cls: ClassName, b: Rect, prev: Extent, width: nat, height: nat)
    requires WideExtent(prev, width)
    ensures var r := Reconcile(cls, Clamp(b, width, height), prev, width);
            && (cls == Row ==> WideExtent(Extent(r.left, r.right), width))
            && WideExtent(NextExtent(cls, r, prev), width)
  {
  }

  /** Normalises one numpy slice bound against an axis of length `n`:
      negative bounds count from the end, and bounds are cut to `[0, n]`. */
  function SliceBound(i: int, n: nat): (k: nat)
    ensures k <= n
    ensures 0 <= i <= n ==> k == i
  {
    if i < 0 then (if i + n < 0 then 0 else i + n)
    else if i > n then n
    else i
  }

  /** Number of columns of `image[:, left:right]` on a page `width` wide. */
  function CropWidth(r: Rect, width: nat): (cw: nat)
    ensures 0 <= r.left <= r.right <= width ==> cw == r.right - r.left
  {
    var lo := SliceBound(r.left, width);
    var hi := SliceBound(r.right, width);
    if hi < lo then 0 else hi - lo
  }

  /** A repaired row lies inside the page, so its crop is exactly
      `right - left` columns wide. */
  lemma RowCropWidth(cls: ClassName, b: Rect, prev: Extent, width: nat, height: nat)
    requires cls == Row && WideExtent(prev, width)
    ensures var r := Reconcile(cls, Clamp(b, width, height), prev, width);
            CropWidth(r, width) == r.right - r.left >= NarrowLimit(width)
  {
    ReconcileKeepsWide(cls, b, prev, width, height);
  }

  /** `int(w/4)`: the column where the time/phone part of a row ends and the
      activity part begins. */
  function Quarter(cw: nat): (q: nat)
    ensures 4 * q <= cw < 4 * q + 4
  {
    cw / 4
  }

  /** The part of a row crop OCR'd for the time and phone: the crop's left
      quarter (`cropped_image[0:h, 0:int(w/4)]`), as page columns. */
  function TimeRegion(r: Rect, width: nat): (t: Rect)
    ensures t.left == r.left && t.top == r.top && t.bottom == r.bottom
    ensures 4 * (t.right - t.left) <= CropWidth(r, width) < 4 * (t.right - t.left) + 4
  {
    Rect(r.left, r.top, r.left + Quarter(CropWidth(r, width)), r.bottom)
  }

  /** The part of a row crop OCR'd for the activity: the rest of the crop
      (`cropped_image[0:h, int(w/4):w]`), as page columns. */
  function ActivityRegion(r: Rect, width: nat): (a: Rect)
    ensures a.left == TimeRegion(r, width).right && a.top == r.top && a.bottom == r.bottom
    ensures a.right == r.left + CropWidth(r, width)
    ensures 0 <= r.left <= r.right <= width ==> a.right == r.right
  {
    var cw := CropWidth(r, width);
    Rect(r.left + Quarter(cw), r.top, r.left + cw, r.bottom)
  }

  /** For a row lying inside the page, the time/phone region and the
      activity region are adjacent, span the row's full height, and split
      its columns: every column of the row lies in exactly one of them, and
      neither reaches outside the row. */
  lemma QuarterSplitPartitions(r: Rect, width: nat, x: int)
    requires 0 <= r.left <= r.right <= width
    ensures var t := TimeRegion(r, width);
            var a := ActivityRegion(r, width);
            && t.left == r.left && t.right == a.left && a.right == r.right
            && t.top == a.top == r.top && t.bottom == a.bottom == r.bottom
            && r.left <= t.right <= r.right
            && (r.left <= x < r.right <==> (t.left <= x < t.right || a.left <= x < a.right))
            && !(t.left <= x < t.right && a.left <= x < a.right)
  {
  }
}
