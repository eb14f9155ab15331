/** `multiclass_nms` and its two policies, class-aware and class-agnostic,
    in backend/app/ml/yolox_model.py. */
module Multiclass {
  import opened Wrappers
  import opened Suppression

  /** One row of the `dets` array: corners, score, class index. */
  datatype Det = Det(box: Box, score: real, cls: nat)

  /** A score matrix with one row per box and `numClasses` columns. */
  predicate Rectangular(scores: seq<seq<real>>, numClasses: nat) {
    forall k :: 0 <= k < |scores| ==> |scores[k]| == numClasses
  }

  /** `scores[:, c]`. */
  function Column(scores: seq<seq<real>>, c: nat): seq<real>
    requires forall k :: 0 <= k < |scores| ==> c < |scores[k]|
  {
    seq(|scores|, k requires 0 <= k < |scores| => scores[k][c])
  }

  /** The positions that the mask `s > thr` selects, in increasing order. */
  function Passing(s: seq<real>, thr: real): (idx: seq<nat>)
    ensures Indices(idx, |s|)
  {
    if s == [] then []
    else Passing(s[..|s| - 1], thr) + (if s[|s| - 1] > thr then [|s| - 1] else [])
  }

  /** `Passing` selects exactly the positions whose entry exceeds `thr`. */
  lemma {:induction false} PassingMembers(s: seq<real>, thr: real)
    ensures forall i: nat :: i in Passing(s, thr) <==> i < |s| && s[i] > thr
  {
    if s != [] {
      var init := s[..|s| - 1];
      PassingMembers(init, thr);
      assert forall i: nat :: i < |s| - 1 ==> init[i] == s[i];
    }
  }

  /** `Passing` lists the positions in increasing order, each once. */
  lemma {:induction false} PassingAscending(s: seq<real>, thr: real)
    ensures forall a, b :: 0 <= a < b < |Passing(s, thr)| ==> Passing(s, thr)[a] < Passing(s, thr)[b]
  {
    if s != [] {
      var init := s[..|s| - 1];
      PassingAscending(init, thr);
      var front := Passing(init, thr);
      var idx := Passing(s, thr);
      assert idx == front + (if s[|s| - 1] > thr then [|s| - 1] else []);
      forall a, b | 0 <= a < b < |idx| ensures idx[a] < idx[b] {
        if b < |front| {
          assert idx[a] == front[a] && idx[b] == front[b];
        } else {
          assert idx[a] == front[a] && front[a] < |init| && idx[b] == |s| - 1;
        }
      }
    }
  }

  /** `s[idx]`, NumPy's fancy indexing. */
  function Gather<T>(s: seq<T>, idx: seq<nat>): (r: seq<T>)
    requires Indices(idx, |s|)
    ensures |r| == |idx|
  {
    seq(|idx|, k requires 0 <= k < |idx| => s[idx[k]])
  }

  // ---------------------------------------------------------------------------
  // Class-aware policy.

  /** The rows one pass of the class loop appends for channel `c`: the boxes
      whose score in that channel exceeds `scoreThr`, reduced by `nms`. */
  function ChannelRows(boxes: seq<Box>, scores: seq<seq<real>>, c: nat, nmsThr: real, scoreThr: real): seq<Det>
    requires |boxes| == |scores|
    requires forall k :: 0 <= k < |scores| ==> c < |scores[k]|
  {
    var col := Column(scores, c);
    var idx := Passing(col, scoreThr);
    var validScores := Gather(col, idx);
    var validBoxes := Gather(boxes, idx);
    var keep := NmsSpec(validBoxes, validScores, nmsThr);
    seq(|keep|, k requires 0 <= k < |keep| => Det(validBoxes[keep[k]], validScores[keep[k]], c))
  }

  /** The rows of every channel below `numClasses`, as one function of the
      channel index. */
  function Channels(boxes: seq<Box>, scores: seq<seq<real>>, numClasses: nat, nmsThr: real, scoreThr: real): nat -> seq<Det>
    requires |boxes| == |scores| && Rectangular(scores, numClasses)
  {
    (c: nat) => if c < numClasses then ChannelRows(boxes, scores, c, nmsThr, scoreThr) else []
  }

  /** The rows of channels 0 .. n - 1, one channel after the other. */
  function Concat(channel: nat -> seq<Det>, n: nat): seq<Det> {
    if n == 0 then [] else Concat(channel, n - 1) + channel(n - 1)
  }

  /** The list `final_dets` after channels 0 .. n - 1: one entry per channel
      that kept at least one row. */
  function Groups(channel: nat -> seq<Det>, n: nat): seq<seq<Det>> {
    if n == 0 then []
    else Groups(channel, n - 1) + (if |channel(n - 1)| > 0 then [channel(n - 1)] else [])
  }

  /** `np.concatenate(final_dets, 0)`. */
  function Flatten(groups: seq<seq<Det>>): seq<Det> {
    if groups == [] then [] else Flatten(groups[..|groups| - 1]) + groups[|groups| - 1]
  }

  /** `multiclass_nms_class_aware` as a value. */
  function ClassAwareSpec(boxes: seq<Box>, scores: seq<seq<real>>, numClasses: nat, nmsThr: real, scoreThr: real): Option<seq<Det>>
    requires |boxes| == |scores| && Rectangular(scores, numClasses)
  {
    var rows := Concat(Channels(boxes, scores, numClasses, nmsThr, scoreThr), numClasses);
    if rows == [] then None else Some(rows)
  }

  lemma FlattenSnoc(groups: seq<seq<Det>>, g: seq<Det>)
    ensures Flatten(groups + [g]) == Flatten(groups) + g
  {
    assert (groups + [g])[..|groups|] == groups;
  }

  /** Concatenating `final_dets` gives the rows of all channels, and the list
      is empty exactly when no channel kept a row. */
  lemma {:induction false} GroupsFlatten(channel: nat -> seq<Det>, n: nat)
    ensures Flatten(Groups(channel, n)) == Concat(channel, n)
    ensures Groups(channel, n) == [] <==> Concat(channel, n) == []
  {
    if n > 0 {
      GroupsFlatten(channel, n - 1);
      var front := Groups(channel, n - 1);
      if |channel(n - 1)| > 0 {
        FlattenSnoc(front, channel(n - 1));
      } else {
        assert front + [] == front;
      }
    }
  }

  /** The concatenation is empty exactly when every channel is. */
  lemma {:induction false} ConcatEmpty(channel: nat -> seq<Det>, n: nat)
    ensures Concat(channel, n) == [] <==> forall c :: 0 <= c < n ==> channel(c) == []
  {
    if n > 0 {
      ConcatEmpty(channel, n - 1);
    }
  }

  /** When each channel's rows carry its own index, the concatenation lists
      the rows by ascending class below `n`. */
  lemma {:induction false} ConcatGrouped(channel: nat -> seq<Det>, n: nat)
    requires forall c, k :: 0 <= c < n && 0 <= k < |channel(c)| ==> channel(c)[k].cls == c
    ensures RowsGrouped(Concat(channel, n))
    ensures forall k :: 0 <= k < |Concat(channel, n)| ==> Concat(channel, n)[k].cls < n
  {
    if n > 0 {
      ConcatGrouped(channel, n - 1);
      var front := Concat(channel, n - 1);
      var last := channel(n - 1);
      var rows := front + last;
      forall k | 0 <= k < |rows| ensures rows[k].cls < n {
        if k >= |front| {
          assert rows[k] == last[k - |front|];
        }
      }
      forall p, q | 0 <= p < q < |rows| ensures rows[p].cls <= rows[q].cls {
        if q < |front| {
          assert rows[p] == front[p] && rows[q] == front[q];
        } else if p < |front| {
          assert rows[p] == front[p] && rows[q] == last[q - |front|];
        } else {
          assert rows[p] == last[p - |front|] && rows[q] == last[q - |front|];
        }
      }
    }
  }

  /** Every row of the concatenation is a row of some channel. */
  lemma {:induction false} ConcatFrom(channel: nat -> seq<Det>, n: nat, boxes: seq<Box>, scores: seq<seq<real>>, scoreThr: real)
    requires forall c, k :: 0 <= c < n && 0 <= k < |channel(c)| ==> RowFromBox(channel(c)[k], boxes, scores, scoreThr)
    ensures forall k :: 0 <= k < |Concat(channel, n)| ==> RowFromBox(Concat(channel, n)[k], boxes, scores, scoreThr)
  {
    if n > 0 {
      ConcatFrom(channel, n - 1, boxes, scores, scoreThr);
      var front := Concat(channel, n - 1);
      var last := channel(n - 1);
      forall k | 0 <= k < |front + last| ensures RowFromBox((front + last)[k], boxes, scores, scoreThr) {
        if k < |front| {
          assert (front + last)[k] == front[k];
        } else {
          assert (front + last)[k] == last[k - |front|];
        }
      }
    }
  }

  /** One pass of the class loop of `multiclass_nms_class_aware`: the rows
      it appends for channel `c`, or `[]` when it appends nothing. */
  method ChannelNms(boxes: seq<Box>, scores: seq<seq<real>>, numClasses: nat, c: nat, nmsThr: real, scoreThr: real)
    returns (dets: seq<Det>)
    requires |boxes| == |scores| && Rectangular(scores, numClasses) && c < numClasses
    ensures dets == Channels(boxes, scores, numClasses, nmsThr, scoreThr)(c)
  {
    var clsScores := Column(scores, c);
    var idx := Passing(clsScores, scoreThr);
    if |idx| == 0 {
      return [];
    }
    var validScores := Gather(clsScores, idx);
    var validBoxes := Gather(boxes, idx);
    var keep := Nms(validBoxes, validScores, nmsThr);
    dets := seq(|keep|, k requires 0 <= k < |keep| => Det(validBoxes[keep[k]], validScores[keep[k]], c));
  }

  /** The class loop of `multiclass_nms_class_aware`, which builds the list
      `final_dets`. */
  method ClassLoop(boxes: seq<Box>, scores: seq<seq<real>>, numClasses: nat, nmsThr: real, scoreThr: real)
    returns (finalDets: seq<seq<Det>>)
    requires |boxes| == |scores| && Rectangular(scores, numClasses)
    ensures finalDets == Groups(Channels(boxes, scores, numClasses, nmsThr, scoreThr), numClasses)
  {
    ghost var channel := Channels(boxes, scores, numClasses, nmsThr, scoreThr);
    finalDets := [];
    for c := 0 to numClasses
      invariant finalDets == Groups(channel, c)
    {
      var dets := ChannelNms(boxes, scores, numClasses, c, nmsThr, scoreThr);
      if |dets| > 0 {
        finalDets := finalDets + [dets];
      }
    }
  }

  /** `multiclass_nms_class_aware`: per class channel, filter by score, run
      `nms`, and append the kept rows tagged with the channel; `None` when no
      channel kept a row. */
  method MulticlassNmsClassAware(boxes: seq<Box>, scores: seq<seq<real>>, numClasses: nat, nmsThr: real, scoreThr: real)
    returns (r: Option<seq<Det>>)
    requires |boxes| == |scores| && Rectangular(scores, numClasses)
    ensures r == ClassAwareSpec(boxes, scores, numClasses, nmsThr, scoreThr)
    ensures r.None? <==> forall j, c :: 0 <= j < |scores| && 0 <= c < numClasses ==> scores[j][c] <= scoreThr
    ensures r.Some? ==> RowsGrouped(r.value)
  {
    var finalDets := ClassLoop(boxes, scores, numClasses, nmsThr, scoreThr);
    if |finalDets| == 0 {
      r := None;
    } else {
      r := Some(Flatten(finalDets));
    }
    AwareResult(boxes, scores, numClasses, nmsThr, scoreThr);
  }

  /** What `multiclass_nms_class_aware` returns once the class loop has built
      `final_dets`: `None` for an empty list, the concatenation otherwise. */
  lemma AwareResult(boxes: seq<Box>, scores: seq<seq<real>>, numClasses: nat, nmsThr: real, scoreThr: real)
    requires |boxes| == |scores| && Rectangular(scores, numClasses)
    ensures var groups := Groups(Channels(boxes, scores, numClasses, nmsThr, scoreThr), numClasses);
      var r := if |groups| == 0 then None else Some(Flatten(groups));
      && r == ClassAwareSpec(boxes, scores, numClasses, nmsThr, scoreThr)
      && (r.None? <==> forall j, c :: 0 <= j < |scores| && 0 <= c < numClasses ==> scores[j][c] <= scoreThr)
      && (r.Some? ==> RowsGrouped(r.value))
  {
    GroupsFlatten(Channels(boxes, scores, numClasses, nmsThr, scoreThr), numClasses);
    AwareNoneIff(boxes, scores, numClasses, nmsThr, scoreThr);
    AwareGrouped(boxes, scores, numClasses, nmsThr, scoreThr);
  }

  /** Rows of a row list come in blocks of ascending class index. */
  predicate RowsGrouped(rows: seq<Det>) {
    forall p, q :: 0 <= p < q < |rows| ==> rows[p].cls <= rows[q].cls
  }

  /** A row that comes from box `j` of the input with its score in channel
      `cls`, which exceeds the threshold. */
  ghost predicate RowFromBox(row: Det, boxes: seq<Box>, scores: seq<seq<real>>, scoreThr: real) {
    exists j :: 0 <= j < |boxes| && j < |scores| && row.cls < |scores[j]|
      && row.box == boxes[j] && row.score == scores[j][row.cls] && row.score > scoreThr
  }

  /** Every row of channel `c` is tagged `c` and comes from an input box whose
      score in that channel exceeds the threshold. */
  lemma ChannelFrom(boxes: seq<Box>, scores: seq<seq<real>>, c: nat, nmsThr: real, scoreThr: real)
    requires |boxes| == |scores|
    requires forall k :: 0 <= k < |scores| ==> c < |scores[k]|
    ensures var rows := ChannelRows(boxes, scores, c, nmsThr, scoreThr);
      forall k :: 0 <= k < |rows| ==> rows[k].cls == c && RowFromBox(rows[k], boxes, scores, scoreThr)
  {
    var col := Column(scores, c);
    var idx := Passing(col, scoreThr);
    PassingMembers(col, scoreThr);
    var validScores := Gather(col, idx);
    var validBoxes := Gather(boxes, idx);
    var keep := NmsSpec(validBoxes, validScores, nmsThr);
    var rows := ChannelRows(boxes, scores, c, nmsThr, scoreThr);
    forall k | 0 <= k < |rows| ensures rows[k].cls == c && RowFromBox(rows[k], boxes, scores, scoreThr) {
      var j := idx[keep[k]];
      assert j in idx;
      assert rows[k].box == boxes[j] && rows[k].score == scores[j][c];
    }
  }

  /** The mask selects nothing exactly when no entry exceeds `thr`. */
  lemma PassingEmpty(s: seq<real>, thr: real)
    ensures Passing(s, thr) == [] <==> forall i :: 0 <= i < |s| ==> s[i] <= thr
  {
    var idx := Passing(s, thr);
    PassingMembers(s, thr);
    if idx != [] {
      var i := idx[0];
      assert i in idx;
    } else {
      forall i | 0 <= i < |s| ensures s[i] <= thr {
        assert i !in idx;
      }
    }
  }

  /** Channel `c` keeps no row exactly when no box scores above the threshold
      in it. */
  lemma ChannelEmpty(boxes: seq<Box>, scores: seq<seq<real>>, c: nat, nmsThr: real, scoreThr: real)
    requires |boxes| == |scores|
    requires forall k :: 0 <= k < |scores| ==> c < |scores[k]|
    ensures ChannelRows(boxes, scores, c, nmsThr, scoreThr) == [] <==>
      forall j :: 0 <= j < |scores| ==> scores[j][c] <= scoreThr
  {
    var col := Column(scores, c);
    PassingEmpty(col, scoreThr);
    var idx := Passing(col, scoreThr);
    var keep := NmsSpec(Gather(boxes, idx), Gather(col, idx), nmsThr);
    assert |ChannelRows(boxes, scores, c, nmsThr, scoreThr)| == |keep|;
    assert keep == [] <==> idx == [];
    assert forall j :: 0 <= j < |scores| ==> col[j] == scores[j][c];
  }

  /** Channel by channel, a channel of `Channels` is empty exactly when no
      box scores above the threshold in it. */
  lemma ChannelsEmpty(boxes: seq<Box>, scores: seq<seq<real>>, numClasses: nat, nmsThr: real, scoreThr: real)
    requires |boxes| == |scores| && Rectangular(scores, numClasses)
    ensures var channel := Channels(boxes, scores, numClasses, nmsThr, scoreThr);
      forall c :: 0 <= c < numClasses ==>
        (channel(c) == [] <==> forall j :: 0 <= j < |scores| ==> scores[j][c] <= scoreThr)
  {
    forall c | 0 <= c < numClasses
      ensures ChannelRows(boxes, scores, c, nmsThr, scoreThr) == [] <==>
        forall j :: 0 <= j < |scores| ==> scores[j][c] <= scoreThr
    {
      ChannelEmpty(boxes, scores, c, nmsThr, scoreThr);
    }
  }

  /** Within one channel the rows are the `nms` result: by non-increasing
      score, and any two pass the IoU test against each other. */
  lemma ChannelRowsSuppressed(boxes: seq<Box>, scores: seq<seq<real>>, c: nat, nmsThr: real, scoreThr: real)
    requires |boxes| == |scores|
    requires forall k :: 0 <= k < |scores| ==> c < |scores[k]|
    ensures var rows := ChannelRows(boxes, scores, c, nmsThr, scoreThr);
      forall a, b :: 0 <= a < b < |rows| ==>
        rows[a].score >= rows[b].score && Survives(rows[a].box, rows[b].box, nmsThr)
  {
    var col := Column(scores, c);
    var idx := Passing(col, scoreThr);
    var validScores := Gather(col, idx);
    var validBoxes := Gather(boxes, idx);
    NmsDistinctSorted(validBoxes, validScores, nmsThr);
    NmsPairwise(validBoxes, validScores, nmsThr);
  }

  /** Class-aware NMS returns `None` exactly when no channel has a score
      above `score_thr`. */
  lemma AwareNoneIff(boxes: seq<Box>, scores: seq<seq<real>>, numClasses: nat, nmsThr: real, scoreThr: real)
    requires |boxes| == |scores| && Rectangular(scores, numClasses)
    ensures ClassAwareSpec(boxes, scores, numClasses, nmsThr, scoreThr).None? <==>
      forall j, c :: 0 <= j < |scores| && 0 <= c < numClasses ==> scores[j][c] <= scoreThr
  {
    var channel := Channels(boxes, scores, numClasses, nmsThr, scoreThr);
    ConcatEmpty(channel, numClasses);
    ChannelsEmpty(boxes, scores, numClasses, nmsThr, scoreThr);
    if Concat(channel, numClasses) == [] {
      forall j, c | 0 <= j < |scores| && 0 <= c < numClasses ensures scores[j][c] <= scoreThr {
        assert channel(c) == [];
      }
    }
  }

  /** Every class-aware row comes from an input box with its own score in the
      row's class channel, that score exceeds `score_thr`, and the rows are
      grouped by ascending class index. */
  lemma AwareGrouped(boxes: seq<Box>, scores: seq<seq<real>>, numClasses: nat, nmsThr: real, scoreThr: real)
    requires |boxes| == |scores| && Rectangular(scores, numClasses)
    ensures var r := ClassAwareSpec(boxes, scores, numClasses, nmsThr, scoreThr);
      r.Some? ==> (RowsGrouped(r.value) &&
        forall k :: 0 <= k < |r.value| ==> r.value[k].cls < numClasses && RowFromBox(r.value[k], boxes, scores, scoreThr))
  {
    var channel := Channels(boxes, scores, numClasses, nmsThr, scoreThr);
    forall c | 0 <= c < numClasses
      ensures forall k :: 0 <= k < |channel(c)| ==> channel(c)[k].cls == c && RowFromBox(channel(c)[k], boxes, scores, scoreThr)
    {
      ChannelFrom(boxes, scores, c, nmsThr, scoreThr);
    }
    ConcatGrouped(channel, numClasses);
    ConcatFrom(channel, numClasses, boxes, scores, scoreThr);
  }

  // ---------------------------------------------------------------------------
  // Class-agnostic policy.

  /** `argmax`: the first position of a largest entry. */
  function ArgMax(s: seq<real>): (r: nat)
    requires |s| > 0
    ensures r < |s|
    ensures forall k :: 0 <= k < |s| ==> s[k] <= s[r]
    ensures forall k :: 0 <= k < r ==> s[k] < s[r]
  {
    if |s| == 1 then 0
    else
      var t := ArgMax(s[..|s| - 1]);
      assert forall k :: 0 <= k < |s| - 1 ==> s[..|s| - 1][k] == s[k];
      if s[|s| - 1] > s[t] then |s| - 1 else t
  }

  /** `scores.argmax(1)`. */
  function BestClasses(scores: seq<seq<real>>): seq<nat>
    requires forall k :: 0 <= k < |scores| ==> |scores[k]| > 0
  {
    seq(|scores|, k requires 0 <= k < |scores| => ArgMax(scores[k]))
  }

  /** `scores[np.arange(len(cls_inds)), cls_inds]`: each box's best score. */
  function BestScores(scores: seq<seq<real>>): seq<real>
    requires forall k :: 0 <= k < |scores| ==> |scores[k]| > 0
  {
    seq(|scores|, k requires 0 <= k < |scores| => scores[k][ArgMax(scores[k])])
  }

  /** `multiclass_nms_class_agnostic`: reduce each box to its best class,
      filter by score and run one `nms` over all boxes. The source leaves
      `dets` unbound when `keep` is empty; the `assert false` shows that this
      cannot happen once some box passed the filter. */
  function MulticlassNmsClassAgnostic(boxes: seq<Box>, scores: seq<seq<real>>, numClasses: nat, nmsThr: real, scoreThr: real)
    : Option<seq<Det>>
    requires |boxes| == |scores| && Rectangular(scores, numClasses) && numClasses > 0
  {
    var clsInds := BestClasses(scores);
    var clsScores := BestScores(scores);
    var idx := Passing(clsScores, scoreThr);
    if |idx| == 0 then None
    else
      var validScores := Gather(clsScores, idx);
      var validBoxes := Gather(boxes, idx);
      var validClsInds := Gather(clsInds, idx);
      var keep := NmsSpec(validBoxes, validScores, nmsThr);
      if |keep| == 0 then
        assert false; None
      else
        Some(seq(|keep|, k requires 0 <= k < |keep| =>
          Det(validBoxes[keep[k]], validScores[keep[k]], validClsInds[keep[k]])))
  }

  /** Each class-agnostic row comes from an input box `j`; its class is the
      first best column of that box, its score that maximum, above
      `score_thr`. */
  lemma AgnosticRows(boxes: seq<Box>, scores: seq<seq<real>>, numClasses: nat, nmsThr: real, scoreThr: real)
    requires |boxes| == |scores| && Rectangular(scores, numClasses) && numClasses > 0
    ensures var r := MulticlassNmsClassAgnostic(boxes, scores, numClasses, nmsThr, scoreThr);
      r.Some? ==> forall k :: 0 <= k < |r.value| ==>
        exists j :: 0 <= j < |boxes| && r.value[k].box == boxes[j]
          && r.value[k].cls == ArgMax(scores[j]) && r.value[k].score == scores[j][r.value[k].cls]
          && r.value[k].score > scoreThr
          && forall c :: 0 <= c < numClasses ==> scores[j][c] <= r.value[k].score
  {
    var r := MulticlassNmsClassAgnostic(boxes, scores, numClasses, nmsThr, scoreThr);
    var clsInds := BestClasses(scores);
    var clsScores := BestScores(scores);
    var idx := Passing(clsScores, scoreThr);
    PassingMembers(clsScores, scoreThr);
    if r.Some? {
      var validScores := Gather(clsScores, idx);
      var validBoxes := Gather(boxes, idx);
      var validClsInds := Gather(clsInds, idx);
      var keep := NmsSpec(validBoxes, validScores, nmsThr);
      forall k | 0 <= k < |r.value|
        ensures exists j :: (0 <= j < |boxes| && r.value[k].box == boxes[j]
          && r.value[k].cls == ArgMax(scores[j]) && r.value[k].score == scores[j][r.value[k].cls]
          && r.value[k].score > scoreThr
          && forall c :: 0 <= c < numClasses ==> scores[j][c] <= r.value[k].score)
      {
        var j := idx[keep[k]];
        assert j in idx;
        assert r.value[k] == Det(boxes[j], clsScores[j], clsInds[j]);
      }
    }
  }

  /** Class-agnostic NMS returns `None` exactly when no box has a score above
      `score_thr` in any class. */
  lemma AgnosticNoneIff(boxes: seq<Box>, scores: seq<seq<real>>, numClasses: nat, nmsThr: real, scoreThr: real)
    requires |boxes| == |scores| && Rectangular(scores, numClasses) && numClasses > 0
    ensures MulticlassNmsClassAgnostic(boxes, scores, numClasses, nmsThr, scoreThr).None? <==>
      forall j, c :: 0 <= j < |scores| && 0 <= c < numClasses ==> scores[j][c] <= scoreThr
  {
    var clsScores := BestScores(scores);
    var idx := Passing(clsScores, scoreThr);
    PassingMembers(clsScores, scoreThr);
    if forall j, c :: 0 <= j < |scores| && 0 <= c < numClasses ==> scores[j][c] <= scoreThr {
    } else {
      var j, c :| 0 <= j < |scores| && 0 <= c < numClasses && scores[j][c] > scoreThr;
      assert clsScores[j] >= scores[j][c];
      assert j in idx;
    }
  }

  /** The class-agnostic rows are in non-increasing score order and any two
      pass the IoU test against each other. */
  lemma AgnosticSuppressed(boxes: seq<Box>, scores: seq<seq<real>>, numClasses: nat, nmsThr: real, scoreThr: real)
    requires |boxes| == |scores| && Rectangular(scores, numClasses) && numClasses > 0
    ensures var r := MulticlassNmsClassAgnostic(boxes, scores, numClasses, nmsThr, scoreThr);
      r.Some? ==> forall a, b :: 0 <= a < b < |r.value| ==>
        r.value[a].score >= r.value[b].score && Survives(r.value[a].box, r.value[b].box, nmsThr)
  {
    var clsScores := BestScores(scores);
    var idx := Passing(clsScores, scoreThr);
    var validScores := Gather(clsScores, idx);
    var validBoxes := Gather(boxes, idx);
    NmsDistinctSorted(validBoxes, validScores, nmsThr);
    NmsPairwise(validBoxes, validScores, nmsThr);
  }

  /** There is at most one class-agnostic row per box that passed the score
      filter, and with well-formed boxes and `nms_thr >= 1` exactly one. */
  lemma AgnosticCount(boxes: seq<Box>, scores: seq<seq<real>>, numClasses: nat, nmsThr: real, scoreThr: real)
    requires |boxes| == |scores| && Rectangular(scores, numClasses) && numClasses > 0
    ensures var r := MulticlassNmsClassAgnostic(boxes, scores, numClasses, nmsThr, scoreThr);
      r.Some? ==>
        && |r.value| <= |Passing(BestScores(scores), scoreThr)|
        && (nmsThr >= 1.0 && (forall i :: 0 <= i < |boxes| ==> WellFormed(boxes[i])) ==>
              |r.value| == |Passing(BestScores(scores), scoreThr)|)
  {
    var clsScores := BestScores(scores);
    var idx := Passing(clsScores, scoreThr);
    var validScores := Gather(clsScores, idx);
    var validBoxes := Gather(boxes, idx);
    var keep := NmsSpec(validBoxes, validScores, nmsThr);
    assert |keep| <= |validScores| by {
      assert keep == GreedyNms(ArgsortDesc(validScores), SurvivalTest(validBoxes, nmsThr));
    }
    if nmsThr >= 1.0 && (forall i :: 0 <= i < |boxes| ==> WellFormed(boxes[i])) {
      assert forall i :: 0 <= i < |validBoxes| ==> validBoxes[i] == boxes[idx[i]];
      NmsKeepsAll(validBoxes, validScores, nmsThr);
    }
  }

  // ---------------------------------------------------------------------------
  // Dispatch.

  /** `multiclass_nms`: the class-agnostic policy when `class_agnostic`, the
      class-aware one otherwise, with the arguments passed through. */
  method MulticlassNms(boxes: seq<Box>, scores: seq<seq<real>>, numClasses: nat, nmsThr: real, scoreThr: real,
                       classAgnostic: bool) returns (r: Option<seq<Det>>)
    requires |boxes| == |scores| && Rectangular(scores, numClasses)
    requires classAgnostic ==> numClasses > 0
    ensures classAgnostic ==> r == MulticlassNmsClassAgnostic(boxes, scores, numClasses, nmsThr, scoreThr)
    ensures !classAgnostic ==> r == ClassAwareSpec(boxes, scores, numClasses, nmsThr, scoreThr)
    ensures r.None? <==> forall j, c :: 0 <= j < |scores| && 0 <= c < numClasses ==> scores[j][c] <= scoreThr
  {
    if classAgnostic {
      r := MulticlassNmsClassAgnostic(boxes, scores, numClasses, nmsThr, scoreThr);
      AgnosticNoneIff(boxes, scores, numClasses, nmsThr, scoreThr);
    } else {
      r := MulticlassNmsClassAware(boxes, scores, numClasses, nmsThr, scoreThr);
    }
  }
}
