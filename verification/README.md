# Diary page layout, modelled in Dafny

DiaryPdf_To_CSV turns scanned diary pages into CSV rows. A detector finds
typed boxes on a page image: the page itself, `date`, `location` and `row`.
Each row box is split into a time/phone column (the left quarter) and an
activity column (the rest). Each crop goes to a text recogniser. The time
column is parsed with the pattern `(\d{1,2}:\d{2})\s*(\d{1,2}:\d{2})?\s*([RP])?`.
The page then produces one record per detection. A record carries the
latest location and date seen on the page. Only records with a non-empty
activity are written to the CSV file.

This project models the page layout logic as pure functions and proves
properties about it:

- `Classes`: the detector's class table.
- `Detection`: the detector's candidate stage. It takes each candidate's best
  class and drops candidates below the confidence threshold 0.3. It turns
  centre-form boxes into corner-form boxes. It then emits the candidates
  that non-maximum suppression keeps.
- `TableSort`: the stable sort of detections by the top edge of their box.
- `Geometry`: box clamping to the page, and the repair of narrow row boxes
  with the extent of the last accepted row. It also covers numpy slice
  widths and the quarter split of a row crop.
- `OcrText`: joining the recogniser's word entries into one string.
- `TimeParse`: a leftmost, greedy matcher for the time pattern. It is proved
  to return the match Python's `re.search` returns.
- `Page`: the per-page loop. A left fold builds the records and a filter
  picks the written rows. The fold is proved equal to a reference stated
  per detection, without a loop.

The recogniser is a parameter of the page: a function from a page rectangle
to its list of text lines. A line is `None` or a list of word entries. The
non-maximum suppression result is an input to `Detection.DetectionProcess`.

The model keeps these behaviours of the code:

- Joined texts keep their leading space. Each word is appended as
  `" " + text` and nothing is trimmed.
- The location, the date and the carried row extent start fresh on every
  page. They are local variables of `ProcessDiaryPage` (main.py:109-114).
- Every detection yields a record. Non-row records have an empty activity,
  so the written-rows filter drops them.
- A word entry with fewer than two elements is skipped. One with exactly two
  elements is joined. One with more than two makes the unpacking
  `box, (text, score) = word_info` raise.
- A `None` recogniser line is skipped in the row columns (`if line:`). In the
  date and location branches it is iterated over, so processing raises.
  Raising is modelled as a `None` result for the whole page: the CSV file is
  not written for that page.

## Model

| member | source | states |
|---|---|---|
| Classes.ClassOf | diarytable_detection.py:10 | The class named by detector index `id` has exactly the name at position `id` of the class table. |
| Classes.ClassOfBijective | diarytable_detection.py:10 | The four indices name four distinct classes, and every class is named by some index. |
| Classes.NameInjective | diarytable_detection.py:10 | Two classes have the same table name only if they are the same class. |
| Detection.MaxScore | diarytable_detection.py:41-42 | The recorded score bounds every class score and is one of them. |
| Detection.ArgMax | diarytable_detection.py:41-42 | The recorded class index holds the largest score, and every earlier index has a strictly smaller score (ties go to the first). |
| Detection.ArgMaxAttainsMax | diarytable_detection.py:42 | The score at the recorded class index is the recorded score. |
| Detection.CornerBox | diarytable_detection.py:44-46 | The corner-form box has the candidate's size and is centred on the candidate's centre. |
| Detection.Kept | diarytable_detection.py:40-43 | The kept indices are in range, all reach the threshold, and are strictly increasing. Every candidate that reaches the threshold is kept. |
| Detection.KeptSnoc | diarytable_detection.py:40-49 | One more candidate appends its index to the kept list exactly when its best score reaches the threshold. |
| Detection.SelectCandidates | diarytable_detection.py:36-49 | The three parallel lists have one entry per kept candidate. Entry `k` is that candidate's corner box, best score and best class index. |
| Detection.Emit | diarytable_detection.py:53-63 | One detection per suppression survivor, in survivor order. Each carries the survivor's class index, box, score and the scale. Its class name is the class table entry for the index. |
| Detection.DetectionProcess | diarytable_detection.py:36-64 | Each emitted detection traces back to one raw candidate. Its confidence is that candidate's best score and is at least 0.3. Its class is the candidate's best class and its box is the candidate's corner box. |
| TableSort.Insert | diarytable_detection.py:86 | Inserting into a sorted list keeps it sorted and adds exactly one element. Detections with equal top keep their order, with the new one first. |
| TableSort.DetectDiaryTable | diarytable_detection.py:67-87 | The result is sorted by top, is a permutation of the input, and keeps the input order among detections with equal top (stability). |
| TableSort.StableSortIsUnique | diarytable_detection.py:86 | Two lists sorted by top whose equal-top groups match are identical, so the stable sort's output is fully determined. |
| TableSort.WithTopMembers | diarytable_detection.py:86 | A detection is in the equal-top group for `y` exactly when it is in the list and its top is `y`. |
| Geometry.Clamp | main.py:127-130 | Negative left or top edges become 0. A right edge beyond the width becomes `width - 1` and a bottom edge beyond the height becomes `height - 1`. Edges already in range are unchanged. |
| Geometry.ClampIdempotent | main.py:127-130 | Clamping a clamped box changes nothing. |
| Geometry.Reconcile | main.py:132-134 | A row narrower than `int(width*5/7)` takes the carried left and right. Every other box is unchanged. Top and bottom never change. |
| Geometry.NextExtent | main.py:164-165 | A row replaces the carried extent with its repaired left and right; every other box leaves it unchanged. |
| Geometry.InitialExtentWide | main.py:113-114 | The default extent `[int(width/20), int(width*19/20)]` lies inside the page and is never narrow. |
| Geometry.ReconcileKeepsWide | main.py:127-134 | If the carried extent is wide and inside the page, the extent a repaired row leaves behind is too. |
| Geometry.SliceBound | main.py:140 | A numpy slice bound inside `[0, n]` is used as is, and every bound lands in `[0, n]`. |
| Geometry.CropWidth | main.py:140 | A box lying inside the page crops to exactly `right - left` columns. |
| Geometry.RowCropWidth | main.py:127-140 | A repaired row crops to exactly `right - left` columns and is not narrow. |
| Geometry.Quarter | main.py:159-160 | `int(w/4)` is the largest `q` with `4q <= w`. |
| Geometry.TimeRegion | main.py:159-160 | The time/phone region starts at the row's left edge, has the row's full height, and is `int(w/4)` columns wide for a crop `w` columns wide. |
| Geometry.ActivityRegion | main.py:159-195 | The activity region starts where the time/phone region ends, has the row's full height, and ends where the crop ends, which is the row's right edge for a row inside the page. |
| Geometry.QuarterSplitPartitions | main.py:159-195 | For a row inside the page, the time/phone and activity regions are adjacent and lie inside the row. Every column of the row lies in exactly one of them. |
| OcrText.JoinEntriesSpec | main.py:168-182 | Joining a line's entries appends `" " + text` for exactly the two-element entries, in order. It raises exactly when some entry has more than two elements. |
| OcrText.JoinLinesSpec | main.py:166-182 | Joining the lines appends the texts of all present lines, in order, each preceded by one space. It raises exactly when an entry cannot be unpacked, or (date/location) when a line is `None`. |
| OcrText.RowTextShape | main.py:162-182 | A row column's text is produced exactly when every entry unpacks. It is then the recognised words, each preceded by one space. |
| OcrText.ContextTextShape | main.py:218-237 | A date/location text is produced exactly when no line is `None` and every entry unpacks. It is then the recognised words, each preceded by one space. |
| OcrText.SpacedAppend | main.py:182 | Joining two word lists in turn gives the join of the concatenated list. |
| OcrText.SpacedShape | main.py:182 | A joined text is non-empty exactly when there is a word, and then starts with a space. |
| OcrText.SpacedLengthSum | main.py:182 | A joined text is as long as its words plus one space per word. |
| OcrText.EntryTextsNonEmpty | main.py:168-171 | A line contributes a word exactly when one of its entries has two elements. |
| OcrText.TextsNonEmpty | main.py:166-171 | A column yields some word exactly when some present line has a two-element entry. |
| TimeParse.TokenLen | main.py:186 | The token at a position is 5 characters, 4 or none, and fits in the string. A result of 5 means a `dd:dd` token starts there and 4 means a `d:dd` token. A `dd:dd` token always gives 5, and a `d:dd` token always gives a token. |
| TimeParse.FirstToken | main.py:187 | The scan position is the leftmost position at which a time token starts. |
| TimeParse.SpaceRun | main.py:186 | `\s*` takes the longest run of whitespace. |
| TimeParse.ScanMatchIsMatch | main.py:186-187 | The scanner's result is a match of the pattern. |
| TimeParse.ScanMatchFirstAtStart | main.py:186-187 | No other match at the same start is tried before the scanner's by the regex engine's order: greedy quantifiers, and optional groups tried present first. |
| TimeParse.ParseTime | main.py:186-191 | The times are empty or 4 or 5 characters long and the phone is empty, `R` or `P`. A second time or a phone only appears with a first time. |
| TimeParse.ParseTimeIsFirstMatch | main.py:186-191 | With no match all three fields are empty. Otherwise they are the groups of the first match in `re.search` order: leftmost start, then backtracking order. |
| TimeParse.FromTimeIffDigitColonDigits | main.py:186-189 | A first time is found exactly when the text contains a digit, a colon and two digits in a row. |
| TimeParse.NoDigitNoTime | main.py:186-191 | A text without digits yields three empty fields. |
| TimeParse.ExampleFull | main.py:186-191 | `" 9:00 10:30 R extra"` gives `9:00`, `10:30` and `R`. |
| TimeParse.ExampleLeftmostBacktrack | main.py:186-189 | `"123:45"` gives first time `23:45`: the match at position 0 fails and the one at position 1 succeeds. |
| Page.Records | main.py:115-241 | The loop produces one record per detection. |
| Page.Written | main.py:255-257 | Each written row is a record with a non-empty activity, each such record is written, and there are no more written rows than records. |
| Page.WrittenAppend | main.py:255-257 | The filter keeps record order: the rows written from two consecutive lists of records are those of the first list followed by those of the second. |
| Page.WrittenOne | main.py:256-257 | A single record is written, once, exactly when its activity is non-empty. |
| Page.StepState | main.py:115-240 | One iteration moves the extent only on a wide row, the location only on a location box and the date only on a date box. Only a row has an activity, and the filename is `<pdf name>.pdf`. |
| Page.RecordsFollowSnapshots | main.py:107-241 | The loop succeeds exactly when every detection's step succeeds from its loop-free snapshot. Step `i` then goes from snapshot `i` to snapshot `i + 1` and emits record `i`. |
| Page.StepAtSnapshot | main.py:115-241 | The step at detection `k` succeeds exactly when its recogniser results can be joined. A row's record is then the loop-free expected record and a non-row record has no activity. |
| Page.RecordsReadable | main.py:107-241 | The loop completes exactly when every detection's recogniser results can be joined. |
| Page.RecordsExpected | main.py:107-257 | The written rows of a completed loop are the expected rows. |
| Page.ProcessDiaryPageSpec | main.py:98-257 | An accepted page writes output exactly when every recogniser result can be joined. It then writes, in detection order, one record per row box that has activity words. Each record holds the latest location and date before it on the page, the parsed time fields and the activity text. |
| Page.RejectedPageWritesNothing | main.py:100 | A page the page gate rejects writes nothing. |
| Page.LastWideExtentWide | main.py:113-165 | The carried extent stays inside the page and wide, whatever rows came before. |
| Page.RowsAreWide | main.py:127-140 | Every repaired row box lies inside the page and is at least `int(width*5/7)` wide, so its crop has `right - left` columns. |
| Page.LatestTextAbsent | main.py:109-110 | Without a location (date) box before a detection, its location (date) is empty. |
| Page.LatestTextIsLast | main.py:217-240 | The location (date) of a detection is the text of the last location (date) box before it. |
| Page.ExamplePage | main.py:98-257 | A page with a date, a location, a wide row with a time and an activity, and a narrow empty row writes exactly one record: `" Clinic A"`, `" 2024-01-05"`, `9:00`, and the activity `" rounds"`. |

## Left out

- The graphical shell, PDF rasterisation, `list_images` and the CSV file I/O (header and append mode) are left out. Writing is modelled as the list of written rows.
- The page gate `DetectDiagyPage` is a boolean input of `Page.ProcessDiaryPage`, because it calls the page classifier model.
- The detector network, image padding and blob preparation (diarytable_detection.py:23-34) are left out. Raw candidates are an input of `Detection.DetectionProcess`.
- Non-maximum suppression (`cv2.dnn.NMSBoxes`) is an oracle. Its result indices are an input, required to index the kept candidates.
- The text recogniser is a function parameter from a page rectangle to text lines. Sub-crops are named by their page rectangle. The recogniser therefore sees which part of the page it reads, but not the pixels.
- Coordinates are scaled and rounded (`round(box*scale)`, main.py:125-126) at the start of each page-loop iteration. The rounding depends only on the detection, so the page model takes the rounded integer rectangles as input. This step, and the link from a `Detection.Detection` to a `Page.PageBox`, are left out. Python's `round` and floating point are not modelled. Scores and box coordinates in `Detection` are exact reals.
- `cv2.rectangle` drawing and the debug `print` calls are left out. They only draw on, or report, the image. The drawing does change the pixels later crops are recognised from, and the model does not see that.
- `\d` and `\s` are modelled as ASCII digits and ASCII whitespace: space, tab, newline, carriage return, vertical tab, form feed, and the separators U+001C to U+001F. Python 3 `str` patterns also accept non-ASCII Unicode digits and spaces (for example U+0085 and U+00A0).
- Detection.ArgMax: the tie-break of `cv2.minMaxLoc` (first maximum) is assumed, not derived, because OpenCV's code is not part of this model.
- The unused `extracted_data` dictionary, the confidence, class id and scale fields of a detection inside the page loop, and the recogniser's word boxes and scores are not modelled.
