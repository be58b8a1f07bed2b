/** Candidate selection in the diary-table detector: for every raw
    candidate the arg-max class is taken, candidates below the confidence
    threshold are dropped, centre-form boxes become corner-form boxes, and
    the candidates picked by non-maximum suppression are emitted as
    detections.  Scores and coordinates are reals used as an ordered field
    (no floating-point rounding). */
module Detection {
  import opened Classes

  /** Minimum class score a candidate needs to be kept. */
  const ConfThreshold: real := 0.3

  /** One row of the detector output: centre, size and one score per class. */
  datatype Candidate = Candidate(cx: real, cy: real, w: real, h: real, scores: seq<real>)

  /** A box in corner form: top-left corner, width and height. */
  datatype Box = Box(x: real, y: real, w: real, h: real)

  datatype Detection = Detection(classId: nat, className: ClassName, confidence: real, box: Box, scale: real)

  /** The detector produces one score per entry of the class table. */
  predicate WellShaped(c: Candidate)
  {
    |c.scores| == |RecognitionClasses|
  }

  predicate AllWellShaped(cands: seq<Candidate>)
  {
    forall i :: 0 <= i < |cands| ==> WellShaped(cands[i])
  }

  function Max(a: real, b: real): real
  {
    if a < b then b else a
  }

  /** The largest score (the `maxVal` of `cv2.minMaxLoc`). */
  function MaxScore(s: seq<real>): (m: real)
    requires |s| > 0
    ensures forall k :: 0 <= k < |s| ==> s[k] <= m
    ensures exists k :: 0 <= k < |s| && s[k] == m
  {
    if |s| == 1 then s[0]
    else
      var m' := MaxScore(s[..|s| - 1]);
      assert forall k :: 0 <= k < |s| - 1 ==> s[..|s| - 1][k] == s[k];
      Max(m', s[|s| - 1])
  }

  /** The position of the largest score (the `maxLoc` of `cv2.minMaxLoc`).
      Ties go to the first position, as the scan of `cv2.minMaxLoc` only
      moves on a strictly greater value. */
  function ArgMax(s: seq<real>): (k: nat)
    requires |s| > 0
    ensures k < |s|
    ensures forall j :: 0 <= j < |s| ==> s[j] <= s[k]
    ensures forall j :: 0 <= j < k ==> s[j] < s[k]
  {
    if |s| == 1 then 0
    else
      var k' := ArgMax(s[..|s| - 1]);
      assert forall j :: 0 <= j < |s| - 1 ==> s[..|s| - 1][j] == s[j];
      if s[|s| - 1] > s[k'] then |s| - 1 else k'
  }

  /** The recorded score is the maximum, and the recorded class attains it. */
  lemma ArgMaxAttainsMax(s: seq<real>)
    requires |s| > 0
    ensures s[ArgMax(s)] == MaxScore(s)
  {
    var k := ArgMax(s);
    var m := MaxScore(s);
    var j :| 0 <= j < |s| && s[j] == m;
    assert s[j] <= s[k];
  }

  predicate Keeps(c: Candidate, conf: real)
    requires WellShaped(c)
  {
    MaxScore(c.scores) >= conf
  }

  /** Converts a centre-form candidate box to corner form. */
  function CornerBox(c: Candidate): (b: Box)
    ensures b.x + b.w / 2.0 == c.cx && b.y + b.h / 2.0 == c.cy
    ensures b.w == c.w && b.h == c.h
  {
    Box(c.cx - 0.5 * c.w, c.cy - 0.5 * c.h, c.w, c.h)
  }

  /** `ks` lists, in increasing order, exactly the indices `i < n` with
      `keep[i]`. */
  predicate SelectedAfter(keep: seq<bool>, n: nat, ks: seq<nat>)
    requires n <= |keep|
  {
    && (forall k :: 0 <= k < |ks| ==> ks[k] < n && keep[ks[k]])
    && (forall k, l :: 0 <= k < l < |ks| ==> ks[k] < ks[l])
    && (forall i :: 0 <= i < n && keep[i] ==> i in ks)
  }

  /** The indices below `n` whose flag is set, in increasing order: what a
      loop over the first `n` positions appending each flagged index builds. */
  function Selected(keep: seq<bool>, n: nat): (ks: seq<nat>)
    requires n <= |keep|
    ensures SelectedAfter(keep, n, ks)
  {
    if n == 0 then []
    else
      var ks' := Selected(keep, n - 1);
      SelectedStep(keep, n, ks');
      if keep[n - 1] then ks' + [n - 1] else ks'
  }

  /** One more position keeps `SelectedAfter`. */
  lemma SelectedStep(keep: seq<bool>, n: nat, ks: seq<nat>)
    requires 0 < n <= |keep|
    requires SelectedAfter(keep, n - 1, ks)
    ensures SelectedAfter(keep, n, if keep[n - 1] then ks + [n - 1] else ks)
  {
    var i := n - 1;
    var r := if keep[i] then ks + [i] else ks;
    assert forall k :: 0 <= k < |ks| ==> r[k] == ks[k];
    forall j | 0 <= j <= i && keep[j]
      ensures j in r
    {
      if j < i {
        assert j in ks;
      }
    }
  }

  /** Two flag lists that agree on their first `n` entries select the same
      indices among them. */
  lemma {:induction false} SelectedAgree(a: seq<bool>, b: seq<bool>, n: nat)
    requires n <= |a| && n <= |b|
    requires forall i :: 0 <= i < n ==> a[i] == b[i]
    ensures Selected(a, n) == Selected(b, n)
  {
    if n > 0 {
      SelectedAgree(a, b, n - 1);
    }
  }

  /** The selection test of every candidate. */
  function KeepFlags(cands: seq<Candidate>, conf: real): (f: seq<bool>)
    requires AllWellShaped(cands)
    ensures |f| == |cands|
    ensures forall i :: 0 <= i < |cands| ==> f[i] == Keeps(cands[i], conf)
  {
    seq(|cands|, i requires 0 <= i < |cands| && WellShaped(cands[i]) => Keeps(cands[i], conf))
  }

  /** Indices of the kept candidates, in input order. */
  function Kept(cands: seq<Candidate>, conf: real): (ks: seq<nat>)
    requires AllWellShaped(cands)
    ensures forall k :: 0 <= k < |ks| ==> ks[k] < |cands| && Keeps(cands[ks[k]], conf)
    ensures forall k, l :: 0 <= k < l < |ks| ==> ks[k] < ks[l]
    ensures forall i :: 0 <= i < |cands| && Keeps(cands[i], conf) ==> i in ks
  {
    var f := KeepFlags(cands, conf);
    var ks := Selected(f, |cands|);
    assert forall k :: 0 <= k < |ks| ==> f[ks[k]];
    ks
  }

  /** The kept indices of a prefix are the flagged positions below its
      length. */
  lemma KeptPrefix(cands: seq<Candidate>, conf: real, n: nat)
    requires AllWellShaped(cands) && n <= |cands|
    ensures AllWellShaped(cands[..n])
    ensures Kept(cands[..n], conf) == Selected(KeepFlags(cands, conf), n)
  {
    var p := cands[..n];
    assert forall i :: 0 <= i < n ==> p[i] == cands[i];
    SelectedAgree(KeepFlags(p, conf), KeepFlags(cands, conf), n);
  }

  /** Extending the prefix by one candidate appends its index exactly when
      it is kept. */
  lemma KeptSnoc(cands: seq<Candidate>, i: nat, conf: real)
    requires AllWellShaped(cands) && i < |cands|
    ensures AllWellShaped(cands[..i]) && AllWellShaped(cands[..i + 1])
    ensures Kept(cands[..i + 1], conf)
            == if Keeps(cands[i], conf) then Kept(cands[..i], conf) + [i] else Kept(cands[..i], conf)
  {
    KeptPrefix(cands, conf, i);
    KeptPrefix(cands, conf, i + 1);
  }

  /** `boxes`, `scores` and `classIds` hold, entry by entry, the corner box,
      best score and best class of the candidates listed in `ks`. */
  predicate Built(cands: seq<Candidate>, ks: seq<nat>, boxes: seq<Box>, scores: seq<real>, classIds: seq<nat>)
    requires AllWellShaped(cands)
  {
    && |boxes| == |scores| == |classIds| == |ks|
    && forall k :: 0 <= k < |ks| ==>
         && ks[k] < |cands|
         && var c := cands[ks[k]];
            && boxes[k] == CornerBox(c)
            && scores[k] == MaxScore(c.scores)
            && classIds[k] == ArgMax(c.scores)
  }

  /** Appending one candidate's entries keeps `Built`. */
  lemma BuiltSnoc(cands: seq<Candidate>, ks: seq<nat>, boxes: seq<Box>, scores: seq<real>, classIds: seq<nat>, i: nat)
    requires AllWellShaped(cands) && i < |cands|
    requires Built(cands, ks, boxes, scores, classIds)
    ensures var c := cands[i];
            Built(cands, ks + [i], boxes + [CornerBox(c)], scores + [MaxScore(c.scores)], classIds + [ArgMax(c.scores)])
  {
  }

  /** The per-candidate loop: builds the parallel lists `boxes`, `scores`
      and `class_ids` of the candidates whose best score reaches `conf`. */
  method SelectCandidates(cands: seq<Candidate>, conf: real)
    returns (boxes: seq<Box>, scores: seq<real>, classIds: seq<nat>)
    requires AllWellShaped(cands)
    ensures |boxes| == |scores| == |classIds| == |Kept(cands, conf)|
    ensures forall k :: 0 <= k < |boxes| ==>
              var c := cands[Kept(cands, conf)[k]];
              && boxes[k] == CornerBox(c)
              && scores[k] == MaxScore(c.scores)
              && classIds[k] == ArgMax(c.scores)
  {
    ghost var f := KeepFlags(cands, conf);
    boxes, scores, classIds := [], [], [];
    var i := 0;
    while i < |cands|
      invariant 0 <= i <= |cands|
      invariant Built(cands, Selected(f, i), boxes, scores, classIds)
    {
      var c := cands[i];
      var maxScore := MaxScore(c.scores);
      var maxClassIndex := ArgMax(c.scores);
      if maxScore >= conf {
        BuiltSnoc(cands, Selected(f, i), boxes, scores, classIds, i);
        boxes := boxes + [CornerBox(c)];
        scores := scores + [maxScore];
        classIds := classIds + [maxClassIndex];
      }
      i := i + 1;
    }
  }

  /** Every class index a well-shaped candidate can produce names a class. */
  lemma ClassIdsInRange(cands: seq<Candidate>, conf: real, classIds: seq<nat>, k: nat)
    requires AllWellShaped(cands)
    requires |classIds| == |Kept(cands, conf)|
    requires forall j :: 0 <= j < |classIds| ==> classIds[j] == ArgMax(cands[Kept(cands, conf)[j]].scores)
    requires k < |classIds|
    ensures classIds[k] < |RecognitionClasses|
  {
  }

  /** Builds the detections for the indices `picked` returned by
      non-maximum suppression, in the order of `picked`. */
  function Emit(boxes: seq<Box>, scores: seq<real>, classIds: seq<nat>, picked: seq<nat>, scale: real)
    : (ds: seq<Detection>)
    requires |boxes| == |scores| == |classIds|
    requires forall k :: 0 <= k < |picked| ==> picked[k] < |boxes|
    requires forall j :: 0 <= j < |classIds| ==> classIds[j] < |RecognitionClasses|
    ensures |ds| == |picked|
    ensures forall k :: 0 <= k < |ds| ==>
              && ds[k].classId == classIds[picked[k]]
              && Name(ds[k].className) == RecognitionClasses[ds[k].classId]
              && ds[k].confidence == scores[picked[k]]
              && ds[k].box == boxes[picked[k]]
              && ds[k].scale == scale
  {
    seq(|picked|, k requires 0 <= k < |picked| =>
      var i := picked[k];
      Detection(classIds[i], ClassOf(classIds[i]), scores[i], boxes[i], scale))
  }

  /** The whole candidate stage: selection with the configured threshold,
      then emission of the suppression survivors `picked` (indices into the
      kept candidates).  Each detection is traced back to the candidate it
      came from. */
  method DetectionProcess(cands: seq<Candidate>, picked: seq<nat>, scale: real) returns (ds: seq<Detection>)
    requires AllWellShaped(cands)
    requires forall k :: 0 <= k < |picked| ==> picked[k] < |Kept(cands, ConfThreshold)|
    ensures |ds| == |picked|
    ensures forall k :: 0 <= k < |ds| ==>
              var c := cands[Kept(cands, ConfThreshold)[picked[k]]];
              && ds[k].confidence == MaxScore(c.scores) >= ConfThreshold
              && ds[k].classId == ArgMax(c.scores)
              && ds[k].className == ClassOf(ds[k].classId)
              && ds[k].box == CornerBox(c)
              && ds[k].scale == scale
  {
    var boxes, scores, classIds := SelectCandidates(cands, ConfThreshold);
    forall j | 0 <= j < |classIds|
      ensures classIds[j] < |RecognitionClasses|
    {
      ClassIdsInRange(cands, ConfThreshold, classIds, j);
    }
    ds := Emit(boxes, scores, classIds, picked, scale);
  }
}
