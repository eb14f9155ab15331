/** `YoloX.extract_crops_info` in backend/app/ml/yolox_model.py: the
    detections at or above a confidence level, as integer boxes with class
    names. */
module Crops {
  import opened Wrappers
  import opened Suppression

  /** The `bbox` entry of a crop: `x_min`, `y_min`, `x_max`, `y_max`. */
  datatype BBox = BBox(xMin: int, yMin: int, xMax: int, yMax: int)

  /** One entry of `crops_info`: its box, its class name and its confidence
      in percent. */
  datatype CropInfo = CropInfo(bbox: BBox, cls: string, confidence: real)

  /** The message of the `IndexError` a class index outside the name list raises. */
  const IndexErrorMessage: string := "list index out of range"

  /** Python's `int()` on a float: truncation toward zero. */
  function Trunc(v: real): (r: int)
    ensures 0.0 <= v ==> 0 <= r && r as real <= v < r as real + 1.0
    ensures v < 0.0 ==> r <= 0 && r as real - 1.0 < v <= r as real
  {
    if v >= 0.0 then v.Floor else -((-v).Floor)
  }

  /** Truncation keeps whole numbers. */
  lemma TruncWhole(n: int)
    ensures Trunc(n as real) == n
  {
  }

  /** `names[i]` with Python's indexing: a negative index counts from the
      end, and an index outside `-|names| .. |names| - 1` raises. */
  function PyIndex<T>(names: seq<T>, i: int): Option<T> {
    if 0 <= i < |names| then Some(names[i])
    else if -|names| <= i < 0 then Some(names[|names| + i])
    else None
  }

  /** The name lookup succeeds exactly for the indices Python accepts, and
      a non-negative index names its own entry. */
  lemma PyIndexRange<T>(names: seq<T>, i: int)
    ensures PyIndex(names, i).Some? <==> -|names| <= i < |names|
    ensures 0 <= i < |names| ==> PyIndex(names, i) == Some(names[i])
  {
  }

  // ---------------------------------------------------------------------------
  // Which entries are kept.

  /** The positions below `n` whose score is at least `conf`, in order:
      `if score < conf: continue` skips exactly the others. */
  function Kept(scores: seq<real>, n: nat, conf: real): (kept: seq<nat>)
    requires n <= |scores|
    ensures forall k :: 0 <= k < |kept| ==> kept[k] < n
  {
    if n == 0 then [] else Kept(scores, n - 1, conf) + (if scores[n - 1] >= conf then [n - 1] else [])
  }

  /** An entry is kept iff its score is at least `conf`; a score equal to
      `conf` is kept. */
  lemma {:induction false} KeptMembers(scores: seq<real>, n: nat, conf: real)
    requires n <= |scores|
    ensures forall i: nat :: i in Kept(scores, n, conf) <==> i < n && scores[i] >= conf
  {
    if n > 0 {
      KeptMembers(scores, n - 1, conf);
    }
  }

  /** The kept positions are strictly increasing: the input order survives. */
  lemma {:induction false} KeptAscending(scores: seq<real>, n: nat, conf: real)
    requires n <= |scores|
    ensures forall a, b :: 0 <= a < b < |Kept(scores, n, conf)| ==> Kept(scores, n, conf)[a] < Kept(scores, n, conf)[b]
  {
    if n > 0 {
      KeptAscending(scores, n - 1, conf);
      var front := Kept(scores, n - 1, conf);
      var kept := Kept(scores, n, conf);
      assert kept == front + (if scores[n - 1] >= conf then [n - 1] else []);
      forall a, b | 0 <= a < b < |kept| ensures kept[a] < kept[b] {
        if b < |front| {
          assert kept[a] == front[a] && kept[b] == front[b];
        } else {
          assert kept[a] == front[a] && front[a] < n - 1 && kept[b] == n - 1;
        }
      }
    }
  }

  /** Nothing is kept when no score reaches `conf`. */
  lemma {:induction false} KeptNone(scores: seq<real>, n: nat, conf: real)
    requires n <= |scores| && forall i :: 0 <= i < n ==> scores[i] < conf
    ensures Kept(scores, n, conf) == []
  {
    if n > 0 {
      KeptNone(scores, n - 1, conf);
    }
  }

  /** At most one crop per input entry. */
  lemma {:induction false} KeptLength(scores: seq<real>, n: nat, conf: real)
    requires n <= |scores|
    ensures |Kept(scores, n, conf)| <= n
  {
    if n > 0 {
      KeptLength(scores, n - 1, conf);
    }
  }

  // ---------------------------------------------------------------------------
  // The crops.

  /** The class name of entry `i`: `class_names[int(cls_ids[i])]`. */
  function ClassOf(clsIds: seq<real>, names: seq<string>, i: nat): Option<string>
    requires i < |clsIds|
  {
    PyIndex(names, Trunc(clsIds[i]))
  }

  /** Every position in `kept` has a class name. */
  predicate Named(clsIds: seq<real>, names: seq<string>, kept: seq<nat>) {
    forall k :: 0 <= k < |kept| ==> kept[k] < |clsIds| && ClassOf(clsIds, names, kept[k]).Some?
  }

  /** The crop of entry `i`: each corner coordinate truncated, the class
      name, and the score in percent. */
  function CropAt(boxes: seq<Box>, scores: seq<real>, i: nat, name: string): CropInfo
    requires i < |boxes| && i < |scores|
  {
    var b := boxes[i];
    CropInfo(BBox(Trunc(b.x1), Trunc(b.y1), Trunc(b.x2), Trunc(b.y2)), name, scores[i] * 100.0)
  }

  /** The crops of the positions in `kept`, in the same order. */
  function CropRows(boxes: seq<Box>, scores: seq<real>, clsIds: seq<real>, names: seq<string>, kept: seq<nat>): (rows: seq<CropInfo>)
    requires Named(clsIds, names, kept)
    requires forall k :: 0 <= k < |kept| ==> kept[k] < |boxes| && kept[k] < |scores|
    ensures |rows| == |kept|
  {
    if kept == [] then []
    else
      var i := kept[|kept| - 1];
      CropRows(boxes, scores, clsIds, names, kept[..|kept| - 1]) + [CropAt(boxes, scores, i, ClassOf(clsIds, names, i).value)]
  }

  /** Crop `k` is the crop of the `k`-th kept position. */
  lemma {:induction false} CropRowsAt(boxes: seq<Box>, scores: seq<real>, clsIds: seq<real>, names: seq<string>, kept: seq<nat>, k: nat)
    requires Named(clsIds, names, kept)
    requires forall j :: 0 <= j < |kept| ==> kept[j] < |boxes| && kept[j] < |scores|
    requires k < |kept|
    ensures CropRows(boxes, scores, clsIds, names, kept)[k] == CropAt(boxes, scores, kept[k], ClassOf(clsIds, names, kept[k]).value)
  {
    if k < |kept| - 1 {
      CropRowsAt(boxes, scores, clsIds, names, kept[..|kept| - 1], k);
    }
  }

  /** What `extract_crops_info` returns: the crops of the kept entries, or
      the `IndexError` when some kept entry has no class name. The arrays are
      indexed up to `len(boxes)`, so `scores` and `cls_ids` must be at least
      that long. */
  function CropsSpec(boxes: seq<Box>, scores: seq<real>, clsIds: seq<real>, conf: real, names: seq<string>)
    : Result<seq<CropInfo>, string>
    requires |boxes| <= |scores| && |boxes| <= |clsIds|
  {
    var kept := Kept(scores, |boxes|, conf);
    if Named(clsIds, names, kept) then Success(CropRows(boxes, scores, clsIds, names, kept))
    else Failure(IndexErrorMessage)
  }

  /** The loop of `extract_crops_info`. */
  method ExtractCropsInfo(boxes: seq<Box>, scores: seq<real>, clsIds: seq<real>, conf: real, names: seq<string>)
    returns (r: Result<seq<CropInfo>, string>)
    requires |boxes| <= |scores| && |boxes| <= |clsIds|
    ensures r == CropsSpec(boxes, scores, clsIds, conf, names)
  {
    var crops := [];
    for i := 0 to |boxes|
      invariant Named(clsIds, names, Kept(scores, i, conf))
      invariant crops == CropRows(boxes, scores, clsIds, names, Kept(scores, i, conf))
    {
      var clsId := Trunc(clsIds[i]);
      if scores[i] < conf {
        assert Kept(scores, i + 1, conf) == Kept(scores, i, conf);
        continue;
      }
      var name := PyIndex(names, clsId);
      if name.None? {
        KeptMembers(scores, |boxes|, conf);
        assert i in Kept(scores, |boxes|, conf);
        r := Failure(IndexErrorMessage);
        return;
      }
      ghost var next := Kept(scores, i + 1, conf);
      assert next == Kept(scores, i, conf) + [i];
      assert next[..|next| - 1] == Kept(scores, i, conf) && next[|next| - 1] == i;
      assert Named(clsIds, names, next);
      assert CropRows(boxes, scores, clsIds, names, next)
        == CropRows(boxes, scores, clsIds, names, Kept(scores, i, conf)) + [CropAt(boxes, scores, i, name.value)];
      crops := crops + [CropAt(boxes, scores, i, name.value)];
    }
    r := Success(crops);
  }

  // ---------------------------------------------------------------------------
  // Properties.

  /** The call raises iff some entry at or above `conf` has a class index
      outside the name list. */
  lemma CropsFailure(boxes: seq<Box>, scores: seq<real>, clsIds: seq<real>, conf: real, names: seq<string>)
    requires |boxes| <= |scores| && |boxes| <= |clsIds|
    ensures CropsSpec(boxes, scores, clsIds, conf, names).Failure? <==>
      exists i :: 0 <= i < |boxes| && scores[i] >= conf && !(-|names| <= Trunc(clsIds[i]) < |names|)
  {
    var kept := Kept(scores, |boxes|, conf);
    KeptMembers(scores, |boxes|, conf);
    if !Named(clsIds, names, kept) {
      var k :| 0 <= k < |kept| && ClassOf(clsIds, names, kept[k]).None?;
      assert kept[k] in kept;
      PyIndexRange(names, Trunc(clsIds[kept[k]]));
    } else {
      forall i | 0 <= i < |boxes| && scores[i] >= conf ensures -|names| <= Trunc(clsIds[i]) < |names| {
        assert i in kept;
        var k :| 0 <= k < |kept| && kept[k] == i;
        PyIndexRange(names, Trunc(clsIds[i]));
      }
    }
  }

  /** On success, crop `k` comes from the `k`-th entry at or above `conf`:
      its box is the truncated corners, its class the looked-up name and its
      confidence the score in percent. There are never more crops than
      entries. */
  lemma CropsRows(boxes: seq<Box>, scores: seq<real>, clsIds: seq<real>, conf: real, names: seq<string>)
    requires |boxes| <= |scores| && |boxes| <= |clsIds|
    ensures var r := CropsSpec(boxes, scores, clsIds, conf, names);
      var kept := Kept(scores, |boxes|, conf);
      r.Success? ==> (|r.value| == |kept| <= |boxes| &&
        forall k :: 0 <= k < |kept| ==>
          r.value[k].bbox == BBox(Trunc(boxes[kept[k]].x1), Trunc(boxes[kept[k]].y1), Trunc(boxes[kept[k]].x2), Trunc(boxes[kept[k]].y2))
          && Some(r.value[k].cls) == PyIndex(names, Trunc(clsIds[kept[k]]))
          && r.value[k].confidence == scores[kept[k]] * 100.0)
  {
    var kept := Kept(scores, |boxes|, conf);
    KeptLength(scores, |boxes|, conf);
    if Named(clsIds, names, kept) {
      forall k | 0 <= k < |kept|
        ensures CropRows(boxes, scores, clsIds, names, kept)[k] == CropAt(boxes, scores, kept[k], ClassOf(clsIds, names, kept[k]).value)
      {
        CropRowsAt(boxes, scores, clsIds, names, kept, k);
      }
    }
  }

  /** When every class index names an entry of the list no error is raised. */
  lemma CropsSucceed(boxes: seq<Box>, scores: seq<real>, clsIds: seq<real>, conf: real, names: seq<string>)
    requires |boxes| <= |scores| && |boxes| <= |clsIds|
    requires forall i :: 0 <= i < |boxes| ==> 0 <= Trunc(clsIds[i]) < |names|
    ensures CropsSpec(boxes, scores, clsIds, conf, names).Success?
  {
    CropsFailure(boxes, scores, clsIds, conf, names);
  }

  /** A threshold no score reaches gives no crops. */
  lemma CropsNone(boxes: seq<Box>, scores: seq<real>, clsIds: seq<real>, conf: real, names: seq<string>)
    requires |boxes| <= |scores| && |boxes| <= |clsIds|
    requires forall i :: 0 <= i < |boxes| ==> scores[i] < conf
    ensures CropsSpec(boxes, scores, clsIds, conf, names) == Success([])
  {
    KeptNone(scores, |boxes|, conf);
  }
}
