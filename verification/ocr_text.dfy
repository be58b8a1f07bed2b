/** Joining the words returned by the text recogniser.  A recogniser result
    is a list of lines; a line is Python `None` or a list of word entries;
    a word entry is a list `[box, (text, score)]`.  The program appends
    `" " + text` for every entry, in order, skipping entries with fewer than
    two elements.  An entry with more than two elements makes the unpacking
    `box, (text, score) = word_info` raise, and so does a `None` line in the
    date/location branch, which iterates over it; in the row branch `None`
    and empty lines are skipped.  Raising is modelled as `None`. */
module OcrText {
  import opened Wrappers

  /** A word entry: how many elements the entry list has and, when it has
      two, the recognised text. */
  datatype WordEntry = WordEntry(arity: nat, text: string)

  type OcrLine = Option<seq<WordEntry>>

  /** The loop body for one word entry. */
  function AddEntry(acc: string, e: WordEntry): Option<string>
  {
    if e.arity < 2 then Some(acc)
    else if e.arity == 2 then Some(acc + " " + e.text)
    else None
  }

  /** The inner loop, over the entries of one line. */
  function JoinEntries(acc: string, es: seq<WordEntry>): Option<string>
    decreases |es|
  {
    if es == [] then Some(acc)
    else
      var acc' :- AddEntry(acc, es[0]);
      JoinEntries(acc', es[1..])
  }

  /** The outer loop, over the lines; `skipNone` is the row branch's
      `if line:` guard. */
  function JoinLines(acc: string, lines: seq<OcrLine>, skipNone: bool): Option<string>
    decreases |lines|
  {
    if lines == [] then Some(acc)
    else if lines[0].None? then
      if skipNone then JoinLines(acc, lines[1..], skipNone) else None
    else
      var acc' :- JoinEntries(acc, lines[0].value);
      JoinLines(acc', lines[1..], skipNone)
  }

  /** Text of a row's time/phone or activity crop. */
  function RowText(lines: seq<OcrLine>): Option<string>
  {
    JoinLines("", lines, true)
  }

  /** Text of a date or location crop. */
  function ContextText(lines: seq<OcrLine>): Option<string>
  {
    JoinLines("", lines, false)
  }

  // Reference definitions: what the joins produce, stated without loops.

  /** The texts of the two-element entries of a line, in order. */
  function EntryTexts(es: seq<WordEntry>): seq<string>
  {
    if es == [] then []
    else (if es[0].arity == 2 then [es[0].text] else []) + EntryTexts(es[1..])
  }

  /** The texts of the two-element entries of all present lines, in order. */
  function Texts(lines: seq<OcrLine>): seq<string>
  {
    if lines == [] then []
    else (if lines[0].Some? then EntryTexts(lines[0].value) else []) + Texts(lines[1..])
  }

  /** Each text preceded by one space, concatenated. */
  function Spaced(ts: seq<string>): string
  {
    if ts == [] then "" else " " + ts[0] + Spaced(ts[1..])
  }

  /** Sum of `1 + |t|` over the texts. */
  function SpacedLength(ts: seq<string>): nat
  {
    if ts == [] then 0 else 1 + |ts[0]| + SpacedLength(ts[1..])
  }

  /** No entry has more than two elements. */
  predicate EntriesUnpack(es: seq<WordEntry>)
  {
    forall k :: 0 <= k < |es| ==> es[k].arity <= 2
  }

  /** The join does not raise: every entry unpacks, and (date/location
      branch) no line is `None`. */
  predicate Unpacks(lines: seq<OcrLine>, skipNone: bool)
  {
    forall i :: 0 <= i < |lines| ==> LineUnpacks(lines[i], skipNone)
  }

  predicate LineUnpacks(l: OcrLine, skipNone: bool)
  {
    if l.Some? then EntriesUnpack(l.value) else skipNone
  }

  lemma {:induction false} SpacedAppend(a: seq<string>, b: seq<string>)
    ensures Spaced(a + b) == Spaced(a) + Spaced(b)
  {
    if a == [] {
      assert a + b == b;
    } else {
      assert (a + b)[1..] == a[1..] + b;
      SpacedAppend(a[1..], b);
    }
  }

  lemma EntriesUnpackCons(es: seq<WordEntry>)
    requires es != []
    ensures EntriesUnpack(es) <==> es[0].arity <= 2 && EntriesUnpack(es[1..])
  {
    if es[0].arity <= 2 && EntriesUnpack(es[1..]) {
      forall k | 0 <= k < |es|
        ensures es[k].arity <= 2
      {
        if k > 0 {
          assert es[k] == es[1..][k - 1];
        }
      }
    }
  }

  lemma UnpacksCons(lines: seq<OcrLine>, skipNone: bool)
    requires lines != []
    ensures Unpacks(lines, skipNone) <==> LineUnpacks(lines[0], skipNone) && Unpacks(lines[1..], skipNone)
  {
    if LineUnpacks(lines[0], skipNone) && Unpacks(lines[1..], skipNone) {
      forall i | 0 <= i < |lines|
        ensures LineUnpacks(lines[i], skipNone)
      {
        if i > 0 {
          assert lines[i] == lines[1..][i - 1];
        }
      }
    }
  }

  lemma {:induction false} JoinEntriesSpec(acc: string, es: seq<WordEntry>)
    ensures JoinEntries(acc, es) ==
              if EntriesUnpack(es) then Some(acc + Spaced(EntryTexts(es))) else None
    decreases |es|
  {
    if es == [] {
      assert acc + Spaced([]) == acc;
    } else {
      var e := es[0];
      EntriesUnpackCons(es);
      if e.arity == 2 {
        var acc' := acc + " " + e.text;
        JoinEntriesSpec(acc', es[1..]);
        assert JoinEntries(acc, es) == JoinEntries(acc', es[1..]);
        assert EntryTexts(es) == [e.text] + EntryTexts(es[1..]);
        assert Spaced(EntryTexts(es)) == " " + e.text + Spaced(EntryTexts(es[1..]));
        assert acc' + Spaced(EntryTexts(es[1..])) == acc + Spaced(EntryTexts(es));
      } else if e.arity < 2 {
        JoinEntriesSpec(acc, es[1..]);
        assert JoinEntries(acc, es) == JoinEntries(acc, es[1..]);
        assert EntryTexts(es) == EntryTexts(es[1..]);
      } else {
        assert JoinEntries(acc, es) == None;
      }
    }
  }

  /** Joining a present first line and then the rest is joining all lines. */
  lemma SpacedHead(acc: string, lines: seq<OcrLine>)
    requires lines != [] && lines[0].Some?
    ensures acc + Spaced(EntryTexts(lines[0].value)) + Spaced(Texts(lines[1..]))
            == acc + Spaced(Texts(lines))
  {
    var a, b := EntryTexts(lines[0].value), Texts(lines[1..]);
    var x, y := Spaced(a), Spaced(b);
    assert Spaced(Texts(lines)) == x + y by {
      assert Texts(lines) == a + b;
      SpacedAppend(a, b);
    }
    assert acc + x + y == acc + (x + y);
  }

  /** The joins append `" " + text` for exactly the two-element entries, in
      order, and raise exactly when some entry (or, for the date/location
      branch, some line) cannot be unpacked. */
  lemma {:induction false} JoinLinesSpec(acc: string, lines: seq<OcrLine>, skipNone: bool)
    ensures JoinLines(acc, lines, skipNone) ==
              if Unpacks(lines, skipNone) then Some(acc + Spaced(Texts(lines))) else None
    decreases |lines|
  {
    if lines == [] {
      assert acc + Spaced([]) == acc;
    } else {
      var l := lines[0];
      UnpacksCons(lines, skipNone);
      if l.None? {
        assert Texts(lines) == Texts(lines[1..]);
        if skipNone {
          JoinLinesSpec(acc, lines[1..], skipNone);
          assert JoinLines(acc, lines, skipNone) == JoinLines(acc, lines[1..], skipNone);
        } else {
          assert JoinLines(acc, lines, skipNone) == None;
        }
      } else {
        JoinEntriesSpec(acc, l.value);
        if EntriesUnpack(l.value) {
          var acc' := acc + Spaced(EntryTexts(l.value));
          JoinLinesSpec(acc', lines[1..], skipNone);
          assert JoinLines(acc, lines, skipNone) == JoinLines(acc', lines[1..], skipNone);
          SpacedHead(acc, lines);
        }
      }
    }
  }

  lemma {:induction false} SpacedLengthSum(ts: seq<string>)
    ensures |Spaced(ts)| == SpacedLength(ts)
    ensures |Spaced(ts)| >= |ts|
  {
    if ts != [] {
      SpacedLengthSum(ts[1..]);
    }
  }

  lemma SpacedShape(ts: seq<string>)
    ensures Spaced(ts) != [] <==> ts != []
    ensures ts != [] ==> Spaced(ts)[0] == ' '
  {
    if ts != [] {
      assert Spaced(ts) == [' '] + ts[0] + Spaced(ts[1..]);
    }
  }

  /** Row text: unless it raises, it is `" " + t1 + " " + t2 + ...` over the
      well-formed entries of the present lines, its length is the sum of
      `1 + |t|`, and it is non-empty exactly when some entry is well-formed,
      in which case it starts with a space (it is never trimmed). */
  lemma RowTextShape(lines: seq<OcrLine>)
    ensures RowText(lines).Some? <==> Unpacks(lines, true)
    ensures RowText(lines).Some? ==>
              && RowText(lines).value == Spaced(Texts(lines))
              && |RowText(lines).value| == SpacedLength(Texts(lines))
              && (RowText(lines).value != "" <==> Texts(lines) != [])
              && (RowText(lines).value != "" ==> RowText(lines).value[0] == ' ')
  {
    JoinLinesSpec("", lines, true);
    assert "" + Spaced(Texts(lines)) == Spaced(Texts(lines));
    SpacedLengthSum(Texts(lines));
    SpacedShape(Texts(lines));
  }

  /** Date/location text: the same join, except that a `None` line raises. */
  lemma ContextTextShape(lines: seq<OcrLine>)
    ensures ContextText(lines).Some? <==> Unpacks(lines, false)
    ensures ContextText(lines).Some? ==>
              && ContextText(lines).value == Spaced(Texts(lines))
              && |ContextText(lines).value| == SpacedLength(Texts(lines))
              && (ContextText(lines).value != "" <==> Texts(lines) != [])
  {
    JoinLinesSpec("", lines, false);
    assert "" + Spaced(Texts(lines)) == Spaced(Texts(lines));
    SpacedLengthSum(Texts(lines));
    SpacedShape(Texts(lines));
  }

  lemma {:induction false} EntryTextsNonEmpty(es: seq<WordEntry>)
    ensures EntryTexts(es) != [] <==> exists k :: 0 <= k < |es| && es[k].arity == 2
  {
    if es != [] {
      EntryTextsNonEmpty(es[1..]);
      if exists k :: 0 <= k < |es| && es[k].arity == 2 {
        var k :| 0 <= k < |es| && es[k].arity == 2;
        if k > 0 {
          assert es[1..][k - 1].arity == 2;
        }
      }
      if exists k :: 0 <= k < |es[1..]| && es[1..][k].arity == 2 {
        var k :| 0 <= k < |es[1..]| && es[1..][k].arity == 2;
        assert es[k + 1].arity == 2;
      }
    }
  }

  /** A line holds a word when it is present and has a two-element entry. */
  predicate HasWord(l: OcrLine)
  {
    l.Some? && exists k :: 0 <= k < |l.value| && l.value[k].arity == 2
  }

  /** The texts are non-empty exactly when some present line has a
      two-element entry. */
  lemma {:induction false} TextsNonEmpty(lines: seq<OcrLine>)
    ensures Texts(lines) != [] <==> exists i :: 0 <= i < |lines| && HasWord(lines[i])
  {
    if lines != [] {
      TextsNonEmpty(lines[1..]);
      if lines[0].Some? {
        EntryTextsNonEmpty(lines[0].value);
      }
      if exists i :: 0 <= i < |lines| && HasWord(lines[i]) {
        var i :| 0 <= i < |lines| && HasWord(lines[i]);
        if i > 0 {
          assert HasWord(lines[1..][i - 1]);
        }
      }
      if exists i :: 0 <= i < |lines[1..]| && HasWord(lines[1..][i]) {
        var i :| 0 <= i < |lines[1..]| && HasWord(lines[1..][i]);
        assert HasWord(lines[i + 1]);
      }
    }
  }
}
