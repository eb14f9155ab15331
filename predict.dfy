/** The post-processing half of `YoloX.predict` in
    backend/app/ml/yolox_model.py: from the decoded network output to the
    list of crops, with the thresholds the application uses. */
module Predict {
  import opened Wrappers
  import opened Suppression
  import opened Multiclass
  import opened Decode
  import opened Crops

  /** IoU above which `nms` drops a box. */
  const NmsThr: real := 0.6

  /** Score a class channel must exceed to enter suppression. */
  const ScoreThr: real := 0.1

  /** Score a detection needs to become a crop. */
  const Conf: real := 0.45

  /** `boxes_xyxy` for every row. */
  function CornerBoxes(preds: seq<Pred>, ratio: real): seq<Box>
    requires ratio != 0.0
  {
    seq(|preds|, k requires 0 <= k < |preds| => Corners(preds[k], ratio))
  }

  /** `scores` for every row. */
  function ScoreMatrix(preds: seq<Pred>): seq<seq<real>> {
    seq(|preds|, k requires 0 <= k < |preds| => ObjScores(preds[k]))
  }

  /** `dets[:, :4]`, `dets[:, 4]` and `dets[:, 5]`; the class column is a
      float column of the array. */
  function DetBoxes(dets: seq<Det>): seq<Box> {
    seq(|dets|, k requires 0 <= k < |dets| => dets[k].box)
  }

  function DetScores(dets: seq<Det>): seq<real> {
    seq(|dets|, k requires 0 <= k < |dets| => dets[k].score)
  }

  function DetClasses(dets: seq<Det>): seq<real> {
    seq(|dets|, k requires 0 <= k < |dets| => dets[k].cls as real)
  }

  /** The crops `predict` returns for decoded rows `preds` and the resize
      ratio: class-aware suppression, then `extract_crops_info` with
      confidence 0.45. When suppression returns `None` there are no crops. */
  function PredictSpec(preds: seq<Pred>, ratio: real, numClasses: nat, classNames: seq<string>)
    : Result<seq<CropInfo>, string>
    requires ratio != 0.0
    requires forall k :: 0 <= k < |preds| ==> |preds[k].cls| == numClasses
  {
    var boxes := CornerBoxes(preds, ratio);
    var scores := ScoreMatrix(preds);
    match ClassAwareSpec(boxes, scores, numClasses, NmsThr, ScoreThr)
    case None => Success([])
    case Some(dets) => CropsSpec(DetBoxes(dets), DetScores(dets), DetClasses(dets), Conf, classNames)
  }

  /** The box transform, `multiclass_nms` with `class_agnostic=False` and the
      crop extraction, as `predict` chains them. */
  method Postprocess(preds: seq<Pred>, ratio: real, numClasses: nat, classNames: seq<string>)
    returns (crops: Result<seq<CropInfo>, string>)
    requires ratio != 0.0
    requires forall k :: 0 <= k < |preds| ==> |preds[k].cls| == numClasses
    ensures crops == PredictSpec(preds, ratio, numClasses, classNames)
  {
    var boxes, scores := BoxTransform(preds, ratio);
    assert boxes == CornerBoxes(preds, ratio);
    forall k | 0 <= k < |preds| ensures scores[k] == ObjScores(preds[k]) {
      assert |scores[k]| == |ObjScores(preds[k])|;
      forall c | 0 <= c < |scores[k]| ensures scores[k][c] == ObjScores(preds[k])[c] { }
    }
    assert scores == ScoreMatrix(preds);
    var dets := MulticlassNms(boxes, scores, numClasses, NmsThr, ScoreThr, false);
    if dets.None? {
      crops := Success([]);
    } else {
      var d := dets.value;
      crops := ExtractCropsInfo(DetBoxes(d), DetScores(d), DetClasses(d), Conf, classNames);
    }
  }

  /** With a name for every class `predict` never raises: every detection's
      class index is below the number of classes. */
  lemma PredictSucceeds(preds: seq<Pred>, ratio: real, numClasses: nat, classNames: seq<string>)
    requires ratio != 0.0
    requires forall k :: 0 <= k < |preds| ==> |preds[k].cls| == numClasses
    requires numClasses <= |classNames|
    ensures PredictSpec(preds, ratio, numClasses, classNames).Success?
  {
    var boxes := CornerBoxes(preds, ratio);
    var scores := ScoreMatrix(preds);
    var r := ClassAwareSpec(boxes, scores, numClasses, NmsThr, ScoreThr);
    AwareGrouped(boxes, scores, numClasses, NmsThr, ScoreThr);
    if r.Some? {
      var dets := r.value;
      forall i | 0 <= i < |dets| ensures 0 <= Trunc(DetClasses(dets)[i]) < |classNames| {
        TruncWhole(dets[i].cls);
      }
      CropsSucceed(DetBoxes(dets), DetScores(dets), DetClasses(dets), Conf, classNames);
    }
  }

  /** When no product of objectness and class score exceeds 0.1 there are
      no crops. */
  lemma PredictEmpty(preds: seq<Pred>, ratio: real, numClasses: nat, classNames: seq<string>)
    requires ratio != 0.0
    requires forall k :: 0 <= k < |preds| ==> |preds[k].cls| == numClasses
    requires forall k, c :: 0 <= k < |preds| && 0 <= c < numClasses ==> preds[k].obj * preds[k].cls[c] <= ScoreThr
    ensures PredictSpec(preds, ratio, numClasses, classNames) == Success([])
  {
    var boxes := CornerBoxes(preds, ratio);
    var scores := ScoreMatrix(preds);
    assert Rectangular(scores, numClasses);
    assert forall j, c :: 0 <= j < |scores| && 0 <= c < numClasses ==> scores[j][c] <= ScoreThr by {
      forall j, c | 0 <= j < |scores| && 0 <= c < numClasses ensures scores[j][c] <= ScoreThr {
        assert scores[j] == ObjScores(preds[j]);
      }
    }
    AwareNoneIff(boxes, scores, numClasses, NmsThr, ScoreThr);
    assert ClassAwareSpec(boxes, scores, numClasses, NmsThr, ScoreThr).None?;
  }

  /** Every crop has a detection with at least 0.45 confidence behind it,
      whose truncated corners it carries and whose class it names. */
  lemma PredictCrops(preds: seq<Pred>, ratio: real, numClasses: nat, classNames: seq<string>)
    requires ratio != 0.0
    requires forall k :: 0 <= k < |preds| ==> |preds[k].cls| == numClasses
    ensures var boxes := CornerBoxes(preds, ratio);
      var scores := ScoreMatrix(preds);
      var r := PredictSpec(preds, ratio, numClasses, classNames);
      var dets := ClassAwareSpec(boxes, scores, numClasses, NmsThr, ScoreThr);
      r.Success? && dets.Some? ==>
        forall k :: 0 <= k < |r.value| ==>
          exists i :: (0 <= i < |dets.value| && dets.value[i].score >= Conf
            && r.value[k].bbox == BBox(Trunc(dets.value[i].box.x1), Trunc(dets.value[i].box.y1), Trunc(dets.value[i].box.x2), Trunc(dets.value[i].box.y2))
            && Some(r.value[k].cls) == PyIndex(classNames, dets.value[i].cls))
  {
    var boxes := CornerBoxes(preds, ratio);
    var scores := ScoreMatrix(preds);
    var r := PredictSpec(preds, ratio, numClasses, classNames);
    var dets := ClassAwareSpec(boxes, scores, numClasses, NmsThr, ScoreThr);
    if r.Success? && dets.Some? {
      var d := dets.value;
      var kept := Kept(DetScores(d), |d|, Conf);
      CropsRows(DetBoxes(d), DetScores(d), DetClasses(d), Conf, classNames);
      KeptMembers(DetScores(d), |d|, Conf);
      forall k | 0 <= k < |r.value|
        ensures exists i :: (0 <= i < |d| && d[i].score >= Conf
          && r.value[k].bbox == BBox(Trunc(d[i].box.x1), Trunc(d[i].box.y1), Trunc(d[i].box.x2), Trunc(d[i].box.y2))
          && Some(r.value[k].cls) == PyIndex(classNames, d[i].cls))
      {
        var i := kept[k];
        assert i in kept;
        TruncWhole(d[i].cls);
      }
    }
  }
}
