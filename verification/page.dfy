/** `ProcessDiaryPage`: a left fold over the page's detections, sorted top
    to bottom, carrying the previous row's extent and the current location
    and date.  Every detection yields a record; the page's output is the
    records whose activity is non-empty.  The fold is `Records`; `Snapshot`
    and `ExpectedRows` describe the same result without the fold, and
    `RecordsFollowSnapshots` and `ProcessDiaryPageSpec` connect the two. */
module Page {
  import opened Wrappers
  import opened Classes
  import opened Geometry
  import opened OcrText
  import opened TimeParse

  /** One CSV row: `Filename, Location, Date, FromTime, ToTime, Phone, Activity`. */
  datatype Record = Record(filename: string, location: string, date: string,
                           fromTime: string, toTime: string, phone: string, activity: string)

  /** A detection of the sorted list, with its box already rounded to page pixels. */
  datatype PageBox = PageBox(cls: ClassName, rect: Rect)

  /** The page image as the program sees it: its size, and the text
      recogniser applied to the crop with the given page rectangle. */
  datatype PageImage = PageImage(width: nat, height: nat, ocr: Rect -> seq<OcrLine>)

  /** What the loop carries: `(prev_left, prev_right)`, `location`, `date`. */
  datatype PageState = PageState(prev: Extent, location: string, date: string)

  function Filename(pdfName: string): string
  {
    pdfName + ".pdf"
  }

  /** The state every page starts from: the default extent and empty
      location and date. */
  function Start(width: nat): PageState
  {
    PageState(InitialExtent(width), "", "")
  }

  /** The box of a detection after clamping and row repair. */
  function Place(img: PageImage, prev: Extent, b: PageBox): Rect
  {
    Reconcile(b.cls, Clamp(b.rect, img.width, img.height), prev, img.width)
  }

  /** One iteration of the detection loop: the next state and this
      detection's record, or `None` when the join of a recogniser result
      raises. */
  function Step(img: PageImage, pdfName: string, st: PageState, b: PageBox): Option<(PageState, Record)>
  {
    var r := Place(img, st.prev, b);
    match b.cls
    case Row =>
      var timeText :- RowText(img.ocr(TimeRegion(r, img.width)));
      var f := ParseTime(timeText);
      var activity :- RowText(img.ocr(ActivityRegion(r, img.width)));
      Some((PageState(NextExtent(b.cls, r, st.prev), st.location, st.date),
            Record(Filename(pdfName), st.location, st.date, f.fromTime, f.toTime, f.phone, activity)))
    case Location =>
      var t :- ContextText(img.ocr(r));
      Some((st.(location := t), Record(Filename(pdfName), t, st.date, "", "", "", "")))
    case Date =>
      var t :- ContextText(img.ocr(r));
      Some((st.(date := t), Record(Filename(pdfName), st.location, t, "", "", "", "")))
    case DiaryPage =>
      Some((st, Record(Filename(pdfName), st.location, st.date, "", "", "", "")))
  }

  /** The records of the loop, `page_info`, one per detection. */
  function Records(img: PageImage, pdfName: string, st: PageState, boxes: seq<PageBox>): (rs: Option<seq<Record>>)
    ensures rs.Some? ==> |rs.value| == |boxes|
    decreases |boxes|
  {
    if boxes == [] then Some([])
    else
      var next :- Step(img, pdfName, st, boxes[0]);
      var rest :- Records(img, pdfName, next.0, boxes[1..]);
      Some([next.1] + rest)
  }

  /** The records written to the CSV file: those with a non-empty activity,
      in order. */
  function Written(rs: seq<Record>): (ws: seq<Record>)
    ensures forall k :: 0 <= k < |ws| ==> ws[k].activity != "" && ws[k] in rs
    ensures forall k :: 0 <= k < |rs| && rs[k].activity != "" ==> rs[k] in ws
    ensures |ws| <= |rs|
  {
    if rs == [] then []
    else (if rs[0].activity != "" then [rs[0]] else []) + Written(rs[1..])
  }

  /** The filter keeps the order of the records: filtering a concatenation
      concatenates the filtered parts. */
  lemma {:induction false} WrittenAppend(a: seq<Record>, b: seq<Record>)
    ensures Written(a + b) == Written(a) + Written(b)
    decreases |a|
  {
    if a == [] {
      assert a + b == b;
    } else {
      assert (a + b)[0] == a[0];
      assert (a + b)[1..] == a[1..] + b;
      WrittenAppend(a[1..], b);
    }
  }

  /** A single record is written exactly when its activity is non-empty. */
  lemma WrittenOne(r: Record)
    ensures Written([r]) == if r.activity != "" then [r] else []
  {
    assert [r][1..] == [];
  }

  /** The page: nothing unless the page gate accepts the image, otherwise the
      written records of the fold from the per-page start state; `None`
      when processing raises before the CSV file is written. */
  function ProcessDiaryPage(isDiaryPage: bool, img: PageImage, pdfName: string, boxes: seq<PageBox>)
    : Option<seq<Record>>
  {
    if !isDiaryPage then Some([])
    else
      var rs :- Records(img, pdfName, Start(img.width), boxes);
      Some(Written(rs))
  }

  // The loop's state described without the loop.

  /** A `row` whose clamped box is wide enough to be kept as detected. */
  predicate IsWideRow(img: PageImage, b: PageBox)
  {
    b.cls == Row && !IsNarrow(Clamp(b.rect, img.width, img.height), img.width)
  }

  function ClampedExtent(img: PageImage, b: PageBox): Extent
  {
    var c := Clamp(b.rect, img.width, img.height);
    Extent(c.left, c.right)
  }

  /** The extent of the last wide row in `s`, or `init` when there is none:
      a narrow row copies the extent it is repaired with, so only wide rows
      change the carried extent. */
  function LastWideExtent(img: PageImage, init: Extent, s: seq<PageBox>): Extent
  {
    if s == [] then init
    else if IsWideRow(img, s[|s| - 1]) then ClampedExtent(img, s[|s| - 1])
    else LastWideExtent(img, init, s[..|s| - 1])
  }

  /** The joined text of a date or location detection's crop. */
  function CropText(img: PageImage, b: PageBox): string
  {
    Spaced(Texts(img.ocr(Clamp(b.rect, img.width, img.height))))
  }

  /** The text of the last detection of class `cls` in `s`, or `init` when
      there is none (last write wins). */
  function LatestText(img: PageImage, init: string, s: seq<PageBox>, cls: ClassName): string
  {
    if s == [] then init
    else if s[|s| - 1].cls == cls then CropText(img, s[|s| - 1])
    else LatestText(img, init, s[..|s| - 1], cls)
  }

  /** The state the loop holds before detection `i`, given the state `st`
      it started from. */
  function Snapshot(img: PageImage, st: PageState, boxes: seq<PageBox>, i: nat): PageState
    requires i <= |boxes|
  {
    PageState(LastWideExtent(img, st.prev, boxes[..i]),
              LatestText(img, st.location, boxes[..i], Location),
              LatestText(img, st.date, boxes[..i], Date))
  }

  lemma {:induction false} LastWideExtentCons(img: PageImage, init: Extent, b: PageBox, t: seq<PageBox>)
    ensures LastWideExtent(img, init, [b] + t)
            == LastWideExtent(img, if IsWideRow(img, b) then ClampedExtent(img, b) else init, t)
    decreases |t|
  {
    var s := [b] + t;
    if t == [] {
      assert s[..|s| - 1] == [];
    } else {
      assert s[|s| - 1] == t[|t| - 1];
      assert s[..|s| - 1] == [b] + t[..|t| - 1];
      LastWideExtentCons(img, init, b, t[..|t| - 1]);
    }
  }

  lemma {:induction false} LatestTextCons(img: PageImage, init: string, b: PageBox, t: seq<PageBox>, cls: ClassName)
    ensures LatestText(img, init, [b] + t, cls)
            == LatestText(img, if b.cls == cls then CropText(img, b) else init, t, cls)
    decreases |t|
  {
    var s := [b] + t;
    if t == [] {
      assert s[..|s| - 1] == [];
    } else {
      assert s[|s| - 1] == t[|t| - 1];
      assert s[..|s| - 1] == [b] + t[..|t| - 1];
      LatestTextCons(img, init, b, t[..|t| - 1], cls);
    }
  }

  /** What one iteration changes: the extent only on a wide row (a narrow
      row is repaired with the extent it then stores), the location only on
      a location detection and the date only on a date detection; and only
      rows can have an activity. */
  lemma StepState(img: PageImage, pdfName: string, st: PageState, b: PageBox)
    requires Step(img, pdfName, st, b).Some?
    ensures var (st', rec) := Step(img, pdfName, st, b).value;
            && st'.prev == (if IsWideRow(img, b) then ClampedExtent(img, b) else st.prev)
            && st'.location == (if b.cls == Location then CropText(img, b) else st.location)
            && st'.date == (if b.cls == Date then CropText(img, b) else st.date)
            && rec.filename == Filename(pdfName)
            && (b.cls != Row ==> rec.activity == "")
  {
    var c := Clamp(b.rect, img.width, img.height);
    if b.cls == Location || b.cls == Date {
      ContextTextShape(img.ocr(c));
    }
  }

  lemma SnapshotShift(img: PageImage, pdfName: string, st: PageState, boxes: seq<PageBox>, i: nat)
    requires 1 <= i <= |boxes|
    requires Step(img, pdfName, st, boxes[0]).Some?
    ensures Snapshot(img, st, boxes, i) == Snapshot(img, Step(img, pdfName, st, boxes[0]).value.0, boxes[1..], i - 1)
  {
    var b := boxes[0];
    var t := boxes[1..][..i - 1];
    var st' := Step(img, pdfName, st, b).value.0;
    StepState(img, pdfName, st, b);
    assert boxes[..i] == [b] + t;
    LastWideExtentCons(img, st.prev, b, t);
    LatestTextCons(img, st.location, b, t, Location);
    LatestTextCons(img, st.date, b, t, Date);
    assert Snapshot(img, st, boxes, i).prev == LastWideExtent(img, st'.prev, t);
    assert Snapshot(img, st, boxes, i).location == LatestText(img, st'.location, t, Location);
    assert Snapshot(img, st, boxes, i).date == LatestText(img, st'.date, t, Date);
  }

  lemma SnapshotStart(img: PageImage, st: PageState, boxes: seq<PageBox>)
    ensures Snapshot(img, st, boxes, 0) == st
  {
    assert boxes[..0] == [];
  }

  /** The fold visits the snapshots: it succeeds exactly when every
      detection's step succeeds from its snapshot, and then the step at `i`
      goes from snapshot `i` to snapshot `i + 1` emitting record `i`. */
  lemma {:induction false} RecordsFollowSnapshots(img: PageImage, pdfName: string, st: PageState, boxes: seq<PageBox>)
    ensures Records(img, pdfName, st, boxes).Some? <==>
              forall i :: 0 <= i < |boxes| ==> Step(img, pdfName, Snapshot(img, st, boxes, i), boxes[i]).Some?
    ensures Records(img, pdfName, st, boxes).Some? ==>
              forall i :: 0 <= i < |boxes| ==>
                Step(img, pdfName, Snapshot(img, st, boxes, i), boxes[i])
                == Some((Snapshot(img, st, boxes, i + 1), Records(img, pdfName, st, boxes).value[i]))
    decreases |boxes|
  {
    if boxes != [] {
      var b := boxes[0];
      var t := boxes[1..];
      SnapshotStart(img, st, boxes);
      var o := Step(img, pdfName, st, b);
      if o.Some? {
        var st' := o.value.0;
        RecordsFollowSnapshots(img, pdfName, st', t);
        forall i | 1 <= i <= |boxes|
          ensures Snapshot(img, st, boxes, i) == Snapshot(img, st', t, i - 1)
        {
          SnapshotShift(img, pdfName, st, boxes, i);
        }
        SnapshotStart(img, st', t);
        assert Snapshot(img, st, boxes, 1) == st';
        forall i | 1 <= i < |boxes|
          ensures Step(img, pdfName, Snapshot(img, st, boxes, i), boxes[i])
                  == Step(img, pdfName, Snapshot(img, st', t, i - 1), t[i - 1])
        {
        }
        if Records(img, pdfName, st', t).Some? {
          var rs := Records(img, pdfName, st, boxes).value;
          assert rs == [o.value.1] + Records(img, pdfName, st', t).value;
          forall i | 0 <= i < |boxes|
            ensures Step(img, pdfName, Snapshot(img, st, boxes, i), boxes[i])
                    == Some((Snapshot(img, st, boxes, i + 1), rs[i]))
          {
            if i > 0 {
              assert rs[i] == Records(img, pdfName, st', t).value[i - 1];
            }
          }
        } else {
          var i' :| 0 <= i' < |t| && Step(img, pdfName, Snapshot(img, st', t, i'), t[i']).None?;
          assert Step(img, pdfName, Snapshot(img, st, boxes, i' + 1), boxes[i' + 1]).None?;
        }
      }
    }
  }

  // The page's output described without the loop.

  /** The box of detection `k` after clamping and row repair, with the
      extent of the last wide row before it (or the default extent). */
  function PlacedAt(img: PageImage, boxes: seq<PageBox>, k: nat): Rect
    requires k < |boxes|
  {
    Place(img, LastWideExtent(img, InitialExtent(img.width), boxes[..k]), boxes[k])
  }

  function TimeLinesAt(img: PageImage, boxes: seq<PageBox>, k: nat): seq<OcrLine>
    requires k < |boxes|
  {
    img.ocr(TimeRegion(PlacedAt(img, boxes, k), img.width))
  }

  function ActivityLinesAt(img: PageImage, boxes: seq<PageBox>, k: nat): seq<OcrLine>
    requires k < |boxes|
  {
    img.ocr(ActivityRegion(PlacedAt(img, boxes, k), img.width))
  }

  /** The recogniser results of detection `k` can all be joined without
      raising. */
  predicate ReadableAt(img: PageImage, boxes: seq<PageBox>, k: nat)
    requires k < |boxes|
  {
    match boxes[k].cls
    case Row => Unpacks(TimeLinesAt(img, boxes, k), true) && Unpacks(ActivityLinesAt(img, boxes, k), true)
    case Date => Unpacks(img.ocr(PlacedAt(img, boxes, k)), false)
    case Location => Unpacks(img.ocr(PlacedAt(img, boxes, k)), false)
    case DiaryPage => true
  }

  /** The record of row `k`: the latest location and date before it on this
      page (empty when there is none), the time fields parsed from its
      time/phone text, and its activity text. */
  function ExpectedRecord(img: PageImage, pdfName: string, boxes: seq<PageBox>, k: nat): Record
    requires k < |boxes|
  {
    var f := ParseTime(Spaced(Texts(TimeLinesAt(img, boxes, k))));
    Record(Filename(pdfName), LatestText(img, "", boxes[..k], Location), LatestText(img, "", boxes[..k], Date),
           f.fromTime, f.toTime, f.phone, Spaced(Texts(ActivityLinesAt(img, boxes, k))))
  }

  /** The records of the rows from `k` on whose activity text is non-empty,
      in detection order. */
  function ExpectedRows(img: PageImage, pdfName: string, boxes: seq<PageBox>, k: nat): seq<Record>
    requires k <= |boxes|
    decreases |boxes| - k
  {
    if k == |boxes| then []
    else
      (if boxes[k].cls == Row && Texts(ActivityLinesAt(img, boxes, k)) != []
       then [ExpectedRecord(img, pdfName, boxes, k)] else [])
      + ExpectedRows(img, pdfName, boxes, k + 1)
  }

  lemma StepAtSnapshot(img: PageImage, pdfName: string, boxes: seq<PageBox>, k: nat)
    requires k < |boxes|
    ensures var o := Step(img, pdfName, Snapshot(img, Start(img.width), boxes, k), boxes[k]);
            && (o.Some? <==> ReadableAt(img, boxes, k))
            && (o.Some? && boxes[k].cls == Row ==> o.value.1 == ExpectedRecord(img, pdfName, boxes, k))
            && (o.Some? && boxes[k].cls != Row ==> o.value.1.activity == "")
  {
    var st := Snapshot(img, Start(img.width), boxes, k);
    var b := boxes[k];
    var r := PlacedAt(img, boxes, k);
    assert Place(img, st.prev, b) == r;
    match b.cls
    case Row =>
      RowTextShape(TimeLinesAt(img, boxes, k));
      RowTextShape(ActivityLinesAt(img, boxes, k));
    case Date =>
      ContextTextShape(img.ocr(r));
    case Location =>
      ContextTextShape(img.ocr(r));
    case DiaryPage =>
  }

  lemma {:induction false} WrittenIsExpected(img: PageImage, pdfName: string, boxes: seq<PageBox>,
                                            rs: seq<Record>, k: nat)
    requires |rs| == |boxes| && k <= |boxes|
    requires forall i :: 0 <= i < |boxes| && boxes[i].cls == Row ==> rs[i] == ExpectedRecord(img, pdfName, boxes, i)
    requires forall i :: 0 <= i < |boxes| && boxes[i].cls != Row ==> rs[i].activity == ""
    ensures Written(rs[k..]) == ExpectedRows(img, pdfName, boxes, k)
    decreases |boxes| - k
  {
    if k < |boxes| {
      WrittenIsExpected(img, pdfName, boxes, rs, k + 1);
      assert rs[k..][1..] == rs[k + 1..];
      if boxes[k].cls == Row {
        SpacedShape(Texts(ActivityLinesAt(img, boxes, k)));
      }
    }
  }

  lemma RecordsReadable(img: PageImage, pdfName: string, boxes: seq<PageBox>)
    ensures Records(img, pdfName, Start(img.width), boxes).Some? <==>
              forall k :: 0 <= k < |boxes| ==> ReadableAt(img, boxes, k)
  {
    var st := Start(img.width);
    RecordsFollowSnapshots(img, pdfName, st, boxes);
    forall k | 0 <= k < |boxes|
      ensures Step(img, pdfName, Snapshot(img, st, boxes, k), boxes[k]).Some? <==> ReadableAt(img, boxes, k)
    {
      StepAtSnapshot(img, pdfName, boxes, k);
    }
  }

  lemma RecordsExpected(img: PageImage, pdfName: string, boxes: seq<PageBox>)
    requires Records(img, pdfName, Start(img.width), boxes).Some?
    ensures Written(Records(img, pdfName, Start(img.width), boxes).value) == ExpectedRows(img, pdfName, boxes, 0)
  {
    var st := Start(img.width);
    var rs := Records(img, pdfName, st, boxes).value;
    RecordsFollowSnapshots(img, pdfName, st, boxes);
    forall i | 0 <= i < |boxes|
      ensures boxes[i].cls == Row ==> rs[i] == ExpectedRecord(img, pdfName, boxes, i)
      ensures boxes[i].cls != Row ==> rs[i].activity == ""
    {
      var o := Step(img, pdfName, Snapshot(img, st, boxes, i), boxes[i]);
      assert o == Some((Snapshot(img, st, boxes, i + 1), rs[i]));
      StepAtSnapshot(img, pdfName, boxes, i);
    }
    WrittenIsExpected(img, pdfName, boxes, rs, 0);
    assert rs[0..] == rs;
  }

  /** The page's output, for a page the gate accepts: it is produced exactly
      when every detection's recogniser results can be joined, and it is
      then the records of the rows with a non-empty activity, in detection
      order, each carrying the page's latest preceding location and date. */
  lemma ProcessDiaryPageSpec(img: PageImage, pdfName: string, boxes: seq<PageBox>)
    ensures ProcessDiaryPage(true, img, pdfName, boxes).Some? <==>
              forall k :: 0 <= k < |boxes| ==> ReadableAt(img, boxes, k)
    ensures ProcessDiaryPage(true, img, pdfName, boxes).Some? ==>
              ProcessDiaryPage(true, img, pdfName, boxes).value == ExpectedRows(img, pdfName, boxes, 0)
  {
    RecordsReadable(img, pdfName, boxes);
    if Records(img, pdfName, Start(img.width), boxes).Some? {
      RecordsExpected(img, pdfName, boxes);
    }
  }

  /** A page the gate rejects writes nothing. */
  lemma RejectedPageWritesNothing(img: PageImage, pdfName: string, boxes: seq<PageBox>)
    ensures ProcessDiaryPage(false, img, pdfName, boxes) == Some([])
  {
  }

  lemma {:induction false} LastWideExtentWide(img: PageImage, init: Extent, s: seq<PageBox>)
    requires WideExtent(init, img.width)
    ensures WideExtent(LastWideExtent(img, init, s), img.width)
    decreases |s|
  {
    if s != [] {
      LastWideExtentWide(img, init, s[..|s| - 1]);
    }
  }

  /** Every repaired `row` box lies inside the page and is at least
      `int(width*5/7)` wide, so its crop is `right - left` columns wide. */
  lemma RowsAreWide(img: PageImage, boxes: seq<PageBox>, k: nat)
    requires k < |boxes| && boxes[k].cls == Row
    ensures var r := PlacedAt(img, boxes, k);
            && 0 <= r.left && r.right <= img.width
            && r.right - r.left >= NarrowLimit(img.width)
            && CropWidth(r, img.width) == r.right - r.left
  {
    var init := InitialExtent(img.width);
    InitialExtentWide(img.width);
    LastWideExtentWide(img, init, boxes[..k]);
    RowCropWidth(Row, boxes[k].rect, LastWideExtent(img, init, boxes[..k]), img.width, img.height);
  }

  /** Without a detection of the class, `LatestText` is the initial text. */
  lemma {:induction false} LatestTextAbsent(img: PageImage, init: string, s: seq<PageBox>, cls: ClassName)
    requires forall j :: 0 <= j < |s| ==> s[j].cls != cls
    ensures LatestText(img, init, s, cls) == init
    decreases |s|
  {
    if s != [] {
      var n := |s| - 1;
      assert forall j :: 0 <= j < n ==> s[..n][j] == s[j];
      LatestTextAbsent(img, init, s[..n], cls);
    }
  }

  /** `LatestText` is the text of the last detection of the class. */
  lemma {:induction false} LatestTextIsLast(img: PageImage, init: string, s: seq<PageBox>, cls: ClassName, j: nat)
    requires j < |s| && s[j].cls == cls
    requires forall j' :: j < j' < |s| ==> s[j'].cls != cls
    ensures LatestText(img, init, s, cls) == CropText(img, s[j])
    decreases |s|
  {
    var n := |s| - 1;
    if j < n {
      var t := s[..n];
      assert s[n].cls != cls;
      assert LatestText(img, init, s, cls) == LatestText(img, init, t, cls);
      assert forall j' :: j < j' < n ==> t[j'] == s[j'];
      assert t[j] == s[j];
      LatestTextIsLast(img, init, t, cls, j);
    }
  }

  // A worked page: a date, a location and two rows, the second with no
  // activity text.

  function ExampleOcr(r: Rect): seq<OcrLine>
  {
    if r.top == 50 then [Some([WordEntry(2, "2024-01-05")])]
    else if r.top == 120 then [Some([WordEntry(2, "Clinic"), WordEntry(2, "A")])]
    else if r.top == 300 && r.left == 0 then [Some([WordEntry(2, "9:00"), WordEntry(1, "")])]
    else if r.top == 300 then [None, Some([WordEntry(2, "rounds")])]
    else [None]
  }

  const ExampleImage := PageImage(1000, 1400, ExampleOcr)

  const ExampleBoxes := [
    PageBox(Date, Rect(100, 50, 400, 100)),
    PageBox(Location, Rect(500, 120, 900, 170)),
    PageBox(Row, Rect(-5, 300, 1010, 350)),
    PageBox(Row, Rect(300, 400, 700, 450))
  ]

  lemma ExampleJoin(es: seq<WordEntry>, skipNone: bool)
    requires forall k :: 0 <= k < |es| ==> es[k].arity <= 2
    ensures JoinLines("", [Some(es)], skipNone) == Some(Spaced(EntryTexts(es)))
  {
    JoinLinesSpec("", [Some(es)], skipNone);
    assert Unpacks([Some(es)], skipNone) by {
      assert LineUnpacks([Some(es)][0], skipNone);
    }
    assert [Some(es)][1..] == [];
    assert Texts([Some(es)]) == EntryTexts(es) + Texts([]);
    assert EntryTexts(es) + [] == EntryTexts(es);
    assert "" + Spaced(EntryTexts(es)) == Spaced(EntryTexts(es));
  }

  lemma SpacedOne(t: string)
    ensures Spaced([t]) == " " + t
  {
    assert [t][1..] == [];
  }

  const ExampleDate := Record("diary.pdf", "", " 2024-01-05", "", "", "", "")
  const ExampleLocation := Record("diary.pdf", " Clinic A", " 2024-01-05", "", "", "", "")
  const ExampleRow := Record("diary.pdf", " Clinic A", " 2024-01-05", "9:00", "", "", " rounds")
  const ExampleBlankRow := Record("diary.pdf", " Clinic A", " 2024-01-05", "", "", "", "")

  lemma ExampleDateStep()
    ensures Step(ExampleImage, "diary", Start(1000), ExampleBoxes[0])
            == Some((Start(1000).(date := " 2024-01-05"), ExampleDate))
  {
    var es := [WordEntry(2, "2024-01-05")];
    var r := Rect(100, 50, 400, 100);
    assert Clamp(r, 1000, 1400) == r;
    assert Place(ExampleImage, Start(1000).prev, ExampleBoxes[0]) == r;
    assert ExampleImage.ocr(r) == [Some(es)];
    ExampleJoin(es, false);
    assert EntryTexts(es) == ["2024-01-05"];
    SpacedOne("2024-01-05");
    assert Spaced(EntryTexts(es)) == " 2024-01-05";
    assert JoinLines("", [Some(es)], false) == Some(" 2024-01-05");
    assert ContextText([Some(es)]) == Some(" 2024-01-05");
    assert ContextText(ExampleImage.ocr(r)) == Some(" 2024-01-05");
    ExampleFilename();
  }

  lemma ExampleLocationStep()
    ensures Step(ExampleImage, "diary", Start(1000).(date := " 2024-01-05"), ExampleBoxes[1])
            == Some((PageState(Extent(50, 950), " Clinic A", " 2024-01-05"), ExampleLocation))
  {
    var es := [WordEntry(2, "Clinic"), WordEntry(2, "A")];
    var r := Rect(500, 120, 900, 170);
    assert Start(1000).prev == Extent(50, 950);
    assert Clamp(r, 1000, 1400) == r;
    assert Place(ExampleImage, Extent(50, 950), ExampleBoxes[1]) == r;
    assert ExampleImage.ocr(r) == [Some(es)];
    ExampleJoin(es, false);
    assert EntryTexts(es) == ["Clinic", "A"] by {
      assert es[1..] == [WordEntry(2, "A")];
      assert EntryTexts(es[1..]) == ["A"];
    }
    assert Spaced(["Clinic", "A"]) == " Clinic A" by {
      assert ["Clinic", "A"][1..] == ["A"];
      SpacedOne("A");
    }
    assert ContextText(ExampleImage.ocr(r)) == Some(" Clinic A");
    ExampleFilename();
  }

  /** The right edge 1010 exceeds the width, so it becomes 999, not 1000;
      the crop is 999 columns wide and splits at column 249. */
  lemma ExampleRowPlace()
    ensures Place(ExampleImage, Extent(50, 950), ExampleBoxes[2]) == Rect(0, 300, 999, 350)
    ensures TimeRegion(Rect(0, 300, 999, 350), 1000) == Rect(0, 300, 249, 350)
    ensures ActivityRegion(Rect(0, 300, 999, 350), 1000) == Rect(249, 300, 999, 350)
  {
    assert Clamp(Rect(-5, 300, 1010, 350), 1000, 1400) == Rect(0, 300, 999, 350);
    assert CropWidth(Rect(0, 300, 999, 350), 1000) == 999;
    assert Quarter(999) == 249;
  }

  lemma ExampleTimeText()
    ensures RowText(ExampleOcr(Rect(0, 300, 249, 350))) == Some(" 9:00")
  {
    var es := [WordEntry(2, "9:00"), WordEntry(1, "")];
    assert ExampleOcr(Rect(0, 300, 249, 350)) == [Some(es)];
    ExampleJoin(es, true);
    assert EntryTexts(es) == ["9:00"] by {
      assert es[1..] == [WordEntry(1, "")];
      assert EntryTexts(es[1..]) == [];
    }
    SpacedOne("9:00");
    assert Spaced(EntryTexts(es)) == " 9:00";
    assert RowText([Some(es)]) == Some(" 9:00");
  }

  lemma ExampleActivityText()
    ensures RowText(ExampleOcr(Rect(249, 300, 999, 350))) == Some(" rounds")
  {
    var es := [WordEntry(2, "rounds")];
    var lines := [None, Some(es)];
    assert ExampleOcr(Rect(249, 300, 999, 350)) == lines;
    assert JoinLines("", lines, true) == JoinLines("", [Some(es)], true) by {
      assert lines[1..] == [Some(es)];
    }
    ExampleJoin(es, true);
    assert EntryTexts(es) == ["rounds"];
    SpacedOne("rounds");
    assert Spaced(EntryTexts(es)) == " rounds";
    assert RowText(lines) == Some(" rounds");
  }

  /** A row step whose two recogniser joins succeed and whose time text
      parses to `f`. */
  lemma RowStepJoined(img: PageImage, pdfName: string, st: PageState, b: PageBox, t: string, a: string, f: TimeFields)
    requires b.cls == Row
    requires RowText(img.ocr(TimeRegion(Place(img, st.prev, b), img.width))) == Some(t)
    requires RowText(img.ocr(ActivityRegion(Place(img, st.prev, b), img.width))) == Some(a)
    requires ParseTime(t) == f
    ensures Step(img, pdfName, st, b)
            == Some((PageState(NextExtent(Row, Place(img, st.prev, b), st.prev), st.location, st.date),
                     Record(Filename(pdfName), st.location, st.date, f.fromTime, f.toTime, f.phone, a)))
  {
  }

  lemma ExampleFilename()
    ensures Filename("diary") == "diary.pdf"
  {
  }

  lemma ExampleRowStep()
    ensures Step(ExampleImage, "diary", PageState(Extent(50, 950), " Clinic A", " 2024-01-05"), ExampleBoxes[2])
            == Some((PageState(Extent(0, 999), " Clinic A", " 2024-01-05"), ExampleRow))
  {
    ExampleRowPlace();
    ExampleTimeText();
    ExampleActivityText();
    ExampleShortFrom();
    ExampleFilename();
    RowStepJoined(ExampleImage, "diary", PageState(Extent(50, 950), " Clinic A", " 2024-01-05"), ExampleBoxes[2],
                  " 9:00", " rounds", TimeFields("9:00", "", ""));
  }

  /** The second row is narrow and takes the first row's extent; its
      recogniser finds nothing. */
  lemma ExampleBlankRowStep()
    ensures Step(ExampleImage, "diary", PageState(Extent(0, 999), " Clinic A", " 2024-01-05"), ExampleBoxes[3])
            == Some((PageState(Extent(0, 999), " Clinic A", " 2024-01-05"), ExampleBlankRow))
  {
    assert Place(ExampleImage, Extent(0, 999), ExampleBoxes[3]) == Rect(0, 400, 999, 450);
    var blank: seq<OcrLine> := [None];
    assert blank[1..] == [];
    assert RowText(blank) == Some("");
    assert FirstToken("", 0) == 0;
    assert ParseTime("") == TimeFields("", "", "");
    ExampleFilename();
  }

  lemma ExampleRecordsCons(st: PageState, boxes: seq<PageBox>, next: PageState, r: Record, rest: seq<Record>)
    requires boxes != []
    requires Step(ExampleImage, "diary", st, boxes[0]) == Some((next, r))
    requires Records(ExampleImage, "diary", next, boxes[1..]) == Some(rest)
    ensures Records(ExampleImage, "diary", st, boxes) == Some([r] + rest)
  {
  }

  const ExampleRecordList := [ExampleDate, ExampleLocation, ExampleRow, ExampleBlankRow]

  /** The fold over the two rows, from the state the location leaves. */
  lemma ExampleRowRecords()
    ensures Records(ExampleImage, "diary", PageState(Extent(50, 950), " Clinic A", " 2024-01-05"), ExampleBoxes[2..])
            == Some([ExampleRow, ExampleBlankRow])
  {
    var bs := ExampleBoxes;
    var st2 := PageState(Extent(50, 950), " Clinic A", " 2024-01-05");
    var st3 := PageState(Extent(0, 999), " Clinic A", " 2024-01-05");
    assert Records(ExampleImage, "diary", st3, bs[3..]) == Some([ExampleBlankRow]) by {
      ExampleBlankRowStep();
      assert bs[3..][1..] == [] && bs[3..][0] == bs[3];
      ExampleRecordsCons(st3, bs[3..], st3, ExampleBlankRow, []);
      assert [ExampleBlankRow] + [] == [ExampleBlankRow];
    }
    ExampleRowStep();
    assert bs[2..][1..] == bs[3..] && bs[2..][0] == bs[2];
    ExampleRecordsCons(st2, bs[2..], st3, ExampleRow, [ExampleBlankRow]);
    assert [ExampleRow] + [ExampleBlankRow] == [ExampleRow, ExampleBlankRow];
  }

  /** The fold from the location box on, from the state the date leaves. */
  lemma ExampleLocationRecords()
    ensures Records(ExampleImage, "diary", Start(1000).(date := " 2024-01-05"), ExampleBoxes[1..])
            == Some([ExampleLocation, ExampleRow, ExampleBlankRow])
  {
    var bs := ExampleBoxes;
    var st1 := Start(1000).(date := " 2024-01-05");
    var st2 := PageState(Extent(50, 950), " Clinic A", " 2024-01-05");
    ExampleRowRecords();
    ExampleLocationStep();
    assert bs[1..][1..] == bs[2..] && bs[1..][0] == bs[1];
    ExampleRecordsCons(st1, bs[1..], st2, ExampleLocation, [ExampleRow, ExampleBlankRow]);
    assert [ExampleLocation] + [ExampleRow, ExampleBlankRow] == [ExampleLocation, ExampleRow, ExampleBlankRow];
  }

  lemma ExampleRecords()
    ensures Records(ExampleImage, "diary", Start(1000), ExampleBoxes) == Some(ExampleRecordList)
  {
    var bs := ExampleBoxes;
    var st1 := Start(1000).(date := " 2024-01-05");
    var rest := [ExampleLocation, ExampleRow, ExampleBlankRow];
    assert [ExampleDate] + rest == ExampleRecordList;
    ExampleLocationRecords();
    ExampleDateStep();
    ExampleRecordsCons(Start(1000), bs, st1, ExampleDate, rest);
  }

  /** Only the row with activity text is written; it carries the page's
      date and location, and every joined text keeps its leading space. */
  lemma ExamplePage()
    ensures ProcessDiaryPage(true, ExampleImage, "diary", ExampleBoxes) == Some([ExampleRow])
  {
    ExampleRecords();
    var rs := ExampleRecordList;
    assert rs[3..][1..] == [] && Written(rs[3..]) == [];
    assert rs[2..][1..] == rs[3..] && Written(rs[2..]) == [ExampleRow];
    assert rs[1..][1..] == rs[2..] && Written(rs[1..]) == [ExampleRow];
    assert Written(rs) == [ExampleRow];
  }
}
