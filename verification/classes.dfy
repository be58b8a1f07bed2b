/** The four region classes of the diary-table detector and the table that
    maps a class index to its name (`recognition_classes`). */
module Classes {

  datatype ClassName = DiaryPage | Date | Row | Location

  /** Class names, indexed by the detector's class index. */
  const RecognitionClasses: seq<string> := ["diarypage", "date", "row", "location"]

  /** The name the program uses for a class. */
  function Name(c: ClassName): string
  {
    match c
    case DiaryPage => "diarypage"
    case Date => "date"
    case Row => "row"
    case Location => "location"
  }

  /** The class a detector index stands for. */
  function ClassOf(id: nat): (c: ClassName)
    requires id < |RecognitionClasses|
    ensures Name(c) == RecognitionClasses[id]
  {
    if id == 0 then DiaryPage
    else if id == 1 then Date
    else if id == 2 then Row
    else Location
  }

  /** Names are distinct, so comparing names (as the program does with
      `class_name == "row"`) is the same as comparing classes. */
  lemma NameInjective(a: ClassName, b: ClassName)
    ensures Name(a) == Name(b) <==> a == b
  {
  }

  /** Every class appears in the table exactly once, at one index. */
  lemma ClassOfBijective(c: ClassName)
    ensures exists id :: 0 <= id < |RecognitionClasses| && ClassOf(id) == c
    ensures forall i, j :: 0 <= i < j < |RecognitionClasses| ==> ClassOf(i) != ClassOf(j)
  {
    match c
    case DiaryPage => assert ClassOf(0) == c;
    case Date => assert ClassOf(1) == c;
    case Row => assert ClassOf(2) == c;
    case Location => assert ClassOf(3) == c;
  }
}
