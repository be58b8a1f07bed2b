/** `DetectDiaryTable`: the detections are copied field by field and then
    sorted by the `y` of their box with Python's stable `list.sort`.  The
    sort is modelled as a stable insertion sort; `StableSortIsUnique` shows
    that any stable sort gives the same list, so the choice of algorithm
    does not matter. */
module TableSort {
  import opened Detection

  function Top(d: Detection): real
  {
    d.box.y
  }

  predicate SortedByTop(s: seq<Detection>)
  {
    forall i, j :: 0 <= i < j < |s| ==> Top(s[i]) <= Top(s[j])
  }

  /** The detections whose box starts at `y`, in their order in `s`. */
  function WithTop(s: seq<Detection>, y: real): seq<Detection>
  {
    if s == [] then []
    else (if Top(s[0]) == y then [s[0]] else []) + WithTop(s[1..], y)
  }

  /** Stability: every group of equal keys keeps its relative order. */
  ghost predicate SameGroups(a: seq<Detection>, b: seq<Detection>)
  {
    forall y :: WithTop(a, y) == WithTop(b, y)
  }

  /** Inserts `d` before the first element whose key is not smaller, so that
      `d` stays ahead of the equal keys it preceded in the input. */
  function Insert(d: Detection, s: seq<Detection>): (r: seq<Detection>)
    requires SortedByTop(s)
    ensures |r| == |s| + 1
    ensures r[0] == d || (|s| > 0 && r[0] == s[0])
    ensures SortedByTop(r)
    ensures multiset(r) == multiset(s) + multiset{d}
    ensures forall y :: WithTop(r, y) == WithTop([d] + s, y)
  {
    if s == [] || Top(d) <= Top(s[0]) then
      assert ([d] + s)[1..] == s;
      [d] + s
    else
      var t := Insert(d, s[1..]);
      InsertSorted(d, s, t);
      InsertGroups(d, s, t);
      [s[0]] + t
  }

  /** Putting the head of `s` back in front of the insertion into the tail
      keeps the list sorted and the multiset right. */
  lemma InsertSorted(d: Detection, s: seq<Detection>, t: seq<Detection>)
    requires SortedByTop(s) && s != [] && Top(s[0]) < Top(d)
    requires SortedByTop(t) && |t| == |s|
    requires t[0] == d || (|s| > 1 && t[0] == s[1])
    requires multiset(t) == multiset(s[1..]) + multiset{d}
    ensures SortedByTop([s[0]] + t)
    ensures multiset([s[0]] + t) == multiset(s) + multiset{d}
  {
    var r := [s[0]] + t;
    assert Top(s[0]) <= Top(t[0]);
    forall i, j | 0 <= i < j < |r|
      ensures Top(r[i]) <= Top(r[j])
    {
      if i > 0 {
        assert r[i] == t[i - 1] && r[j] == t[j - 1];
      } else {
        assert r[j] == t[j - 1];
        assert Top(t[0]) <= Top(t[j - 1]);
      }
    }
    assert s == [s[0]] + s[1..];
  }

  /** The equal-top groups after inserting `d` behind the head of `s`, given
      those of the insertion into the tail. */
  lemma InsertGroups(d: Detection, s: seq<Detection>, t: seq<Detection>)
    requires s != []
    requires forall y :: WithTop(t, y) == WithTop([d] + s[1..], y)
    requires Top(s[0]) < Top(d)
    ensures forall y :: WithTop([s[0]] + t, y) == WithTop([d] + s, y)
  {
    forall y
      ensures WithTop([s[0]] + t, y) == WithTop([d] + s, y)
    {
      InsertGroupAt(d, s, t, y);
    }
  }

  lemma InsertGroupAt(d: Detection, s: seq<Detection>, t: seq<Detection>, y: real)
    requires s != []
    requires WithTop(t, y) == WithTop([d] + s[1..], y)
    requires Top(s[0]) < Top(d)
    ensures WithTop([s[0]] + t, y) == WithTop([d] + s, y)
  {
    var hs := if Top(s[0]) == y then [s[0]] else [];
    var hd := if Top(d) == y then [d] else [];
    var rest := WithTop(s[1..], y);
    WithTopCons(d, s[1..], y);
    WithTopCons(s[0], t, y);
    WithTopCons(s[0], s[1..], y);
    WithTopCons(d, s, y);
    assert s == [s[0]] + s[1..];
    assert hs == [] || hd == [];
  }

  lemma WithTopCons(x: Detection, s: seq<Detection>, y: real)
    ensures WithTop([x] + s, y) == (if Top(x) == y then [x] else []) + WithTop(s, y)
  {
    assert ([x] + s)[1..] == s;
  }

  /** The copy-then-sort of `DetectDiaryTable`. */
  function DetectDiaryTable(ds: seq<Detection>): (r: seq<Detection>)
    ensures SortedByTop(r)
    ensures multiset(r) == multiset(ds)
    ensures SameGroups(r, ds)
  {
    if ds == [] then []
    else
      var t := DetectDiaryTable(ds[1..]);
      assert ds == [ds[0]] + ds[1..];
      var r := Insert(ds[0], t);
      forall y
        ensures WithTop(r, y) == WithTop(ds, y)
      {
        assert ([ds[0]] + t)[1..] == t;
      }
      r
  }

  lemma {:induction false} WithTopMembers(s: seq<Detection>, y: real)
    ensures forall d :: d in WithTop(s, y) <==> d in s && Top(d) == y
  {
    if s != [] {
      WithTopMembers(s[1..], y);
      assert s == [s[0]] + s[1..];
    }
  }

  /** In a sorted list the first element has the least key, and its key
      group starts with it. */
  lemma FirstOfSorted(s: seq<Detection>)
    requires SortedByTop(s) && s != []
    ensures WithTop(s, Top(s[0])) != [] && WithTop(s, Top(s[0]))[0] == s[0]
  {
  }

  lemma SameGroupsTail(a: seq<Detection>, b: seq<Detection>)
    requires a != [] && b != [] && a[0] == b[0]
    requires SameGroups(a, b)
    ensures SameGroups(a[1..], b[1..])
  {
    forall y
      ensures WithTop(a[1..], y) == WithTop(b[1..], y)
    {
      assert WithTop(a, y) == WithTop(b, y);
      if Top(a[0]) == y {
        assert WithTop(a, y) == [a[0]] + WithTop(a[1..], y);
        assert WithTop(b, y) == [b[0]] + WithTop(b[1..], y);
        assert WithTop(a[1..], y) == WithTop(a, y)[1..];
        assert WithTop(b[1..], y) == WithTop(b, y)[1..];
      } else {
        assert WithTop(a, y) == WithTop(a[1..], y);
        assert WithTop(b, y) == WithTop(b[1..], y);
      }
    }
  }

  /** A sorted, group-preserving rearrangement is unique: two sorted lists
      with the same key groups are equal.  Hence `DetectDiaryTable` is the
      result of any stable sort by box `y`, Python's included. */
  lemma {:induction false} StableSortIsUnique(a: seq<Detection>, b: seq<Detection>)
    requires SortedByTop(a) && SortedByTop(b)
    requires SameGroups(a, b)
    ensures a == b
    decreases |a|
  {
    if a == [] {
      if b != [] {
        FirstOfSorted(b);
        assert false;
      }
    } else if b == [] {
      FirstOfSorted(a);
      assert false;
    } else {
      FirstOfSorted(a);
      FirstOfSorted(b);
      WithTopMembers(a, Top(b[0]));
      WithTopMembers(b, Top(a[0]));
      assert a[0] in WithTop(a, Top(a[0]));
      assert a[0] in WithTop(b, Top(a[0]));
      assert b[0] in WithTop(a, Top(b[0]));
      var ia :| 0 <= ia < |a| && a[ia] == b[0];
      var ib :| 0 <= ib < |b| && b[ib] == a[0];
      assert Top(a[0]) <= Top(b[0]) by { assert Top(a[0]) <= Top(a[ia]); }
      assert Top(b[0]) <= Top(a[0]) by { assert Top(b[0]) <= Top(b[ib]); }
      assert a[0] == b[0];
      SameGroupsTail(a, b);
      StableSortIsUnique(a[1..], b[1..]);
      assert a == [a[0]] + a[1..];
      assert b == [b[0]] + b[1..];
    }
  }
}
