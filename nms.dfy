/** Single-class greedy non-maximum suppression, `YoloX.nms` in
    backend/app/ml/yolox_model.py, and the descending argsort it starts from. */
module Suppression {

  /** A box in corner form. Coordinates are pixel positions in the normalised
      image; they are not clipped and may lie outside it. */
  datatype Box = Box(x1: real, y1: real, x2: real, y2: real)

  function Max(a: real, b: real): real { if a >= b then a else b }

  function Min(a: real, b: real): real { if a <= b then a else b }

  /** Pixel-count extents: both corner pixels are counted, hence the `+ 1`. */
  function Width(b: Box): real { b.x2 - b.x1 + 1.0 }

  function Height(b: Box): real { b.y2 - b.y1 + 1.0 }

  /** `areas = (x2 - x1 + 1) * (y2 - y1 + 1)`. */
  function Area(b: Box): real {
    Width(b) * Height(b)
  }

  /** Extents of the overlap, `np.maximum(0.0, xx2 - xx1 + 1)` and its
      vertical twin; zero when the boxes are apart. */
  function OverlapW(a: Box, b: Box): real { Max(0.0, Min(a.x2, b.x2) - Max(a.x1, b.x1) + 1.0) }

  function OverlapH(a: Box, b: Box): real { Max(0.0, Min(a.y2, b.y2) - Max(a.y1, b.y1) + 1.0) }

  /** Pixel-count area of the overlap. */
  function Inter(a: Box, b: Box): real {
    OverlapW(a, b) * OverlapH(a, b)
  }

  /** The denominator `areas[i] + areas[order[1:]] - inter`. */
  function Union(a: Box, b: Box): real {
    Area(a) + Area(b) - Inter(a, b)
  }

  /** Intersection over union, where the union is not zero. */
  function IoU(a: Box, b: Box): real
    requires Union(a, b) != 0.0
  {
    Inter(a, b) / Union(a, b)
  }

  /** The test `ovr <= nms_thr` of box `b` against the picked box `head`.
      A zero union makes the floating-point ratio NaN or infinite, and
      either one fails the comparison, so such a box is dropped. */
  predicate Survives(head: Box, b: Box, thr: real) {
    Union(head, b) != 0.0 && IoU(head, b) <= thr
  }

  /** Corners in order, as every box the decoder produces is. */
  predicate WellFormed(b: Box) {
    b.x1 <= b.x2 && b.y1 <= b.y2
  }

  /** Every entry of `s` indexes a sequence of length `n`. */
  predicate Indices(s: seq<nat>, n: nat) {
    forall k :: 0 <= k < |s| ==> s[k] < n
  }

  predicate Distinct(s: seq<nat>) {
    forall a, b :: 0 <= a < b < |s| ==> s[a] != s[b]
  }

  /** The indices in `s` are listed by non-increasing score. */
  predicate SortedDesc(s: seq<nat>, scores: seq<real>)
    requires Indices(s, |scores|)
  {
    forall a, b :: 0 <= a < b < |s| ==> scores[s[a]] >= scores[s[b]]
  }

  // ---------------------------------------------------------------------------
  // The descending argsort, `scores.argsort()[::-1]`.

  /** 0, 1, ..., n - 1. */
  function Range(n: nat): (r: seq<nat>)
    ensures |r| == n
    ensures forall k :: 0 <= k < n ==> r[k] == k
  {
    if n == 0 then [] else Range(n - 1) + [n - 1]
  }

  /** `Range(n)` holds each index below `n`, once. */
  lemma RangeMembers(n: nat)
    ensures forall i: nat :: i in Range(n) <==> i < n
    ensures Distinct(Range(n))
  {
    var r := Range(n);
    forall i: nat | i < n ensures i in r {
      assert r[i] == i;
    }
  }

  /** Prepending an index whose score is at least every score in a sorted
      list keeps it sorted. */
  lemma ConsSorted(x: nat, t: seq<nat>, scores: seq<real>)
    requires x < |scores| && Indices(t, |scores|) && SortedDesc(t, scores)
    requires forall k :: 0 <= k < |t| ==> scores[t[k]] <= scores[x]
    ensures Indices([x] + t, |scores|) && SortedDesc([x] + t, scores)
  {
    var r := [x] + t;
    forall a, b | 0 <= a < b < |r| ensures scores[r[a]] >= scores[r[b]] {
      assert r[b] == t[b - 1];
      if a > 0 {
        assert r[a] == t[a - 1];
      }
    }
  }

  lemma ConsDistinct(x: nat, t: seq<nat>)
    requires Distinct(t) && x !in t
    ensures Distinct([x] + t)
  {
    var r := [x] + t;
    forall a, b | 0 <= a < b < |r| ensures r[a] != r[b] {
      assert r[b] == t[b - 1];
      if a > 0 {
        assert r[a] == t[a - 1];
      }
    }
  }

  /** In a sorted list no later entry scores above the head. */
  lemma TailBelowHead(s: seq<nat>, scores: seq<real>)
    requires s != [] && Indices(s, |scores|) && SortedDesc(s, scores)
    ensures Indices(s[1..], |scores|) && SortedDesc(s[1..], scores)
    ensures forall y :: y in s[1..] ==> y < |scores| && scores[y] <= scores[s[0]]
  {
    forall y | y in s[1..] ensures y < |scores| && scores[y] <= scores[s[0]] {
      var j :| 0 <= j < |s[1..]| && s[1..][j] == y;
      assert s[j + 1] == y;
    }
    forall a, b | 0 <= a < b < |s[1..]| ensures scores[s[1..][a]] >= scores[s[1..][b]] {
      assert s[1..][a] == s[a + 1] && s[1..][b] == s[b + 1];
    }
  }

  /** Inserts `x` into a score-sorted list after every entry whose score is
      not smaller, so that equal scores keep their relative order. */
  function InsertByScore(x: nat, sorted: seq<nat>, scores: seq<real>): (r: seq<nat>)
    requires x < |scores| && Indices(sorted, |scores|)
    ensures |r| == |sorted| + 1 && Indices(r, |scores|)
  {
    if sorted == [] || scores[sorted[0]] < scores[x] then [x] + sorted
    else [sorted[0]] + InsertByScore(x, sorted[1..], scores)
  }

  /** Inserting adds `x` and loses nothing. */
  lemma {:induction false} InsertMembers(x: nat, sorted: seq<nat>, scores: seq<real>)
    requires x < |scores| && Indices(sorted, |scores|)
    ensures forall y :: y in InsertByScore(x, sorted, scores) <==> y == x || y in sorted
  {
    if sorted != [] && scores[sorted[0]] >= scores[x] {
      InsertMembers(x, sorted[1..], scores);
      assert sorted == [sorted[0]] + sorted[1..];
    }
  }

  lemma DistinctTail(s: seq<nat>)
    requires s != [] && Distinct(s)
    ensures Distinct(s[1..]) && s[0] !in s[1..]
  {
    forall a, b | 0 <= a < b < |s[1..]| ensures s[1..][a] != s[1..][b] {
      assert s[1..][a] == s[a + 1] && s[1..][b] == s[b + 1];
    }
    assert forall j :: 0 <= j < |s[1..]| ==> s[1..][j] == s[j + 1];
  }

  lemma {:induction false} InsertSorted(x: nat, sorted: seq<nat>, scores: seq<real>)
    requires x < |scores| && Indices(sorted, |scores|) && SortedDesc(sorted, scores)
    ensures SortedDesc(InsertByScore(x, sorted, scores), scores)
  {
    if sorted == [] {
    } else if scores[sorted[0]] < scores[x] {
      TailBelowHead(sorted, scores);
      forall k | 0 <= k < |sorted| ensures scores[sorted[k]] <= scores[x] {
        if k > 0 {
          assert sorted[1..][k - 1] == sorted[k];
        }
      }
      ConsSorted(x, sorted, scores);
    } else {
      TailBelowHead(sorted, scores);
      InsertSorted(x, sorted[1..], scores);
      InsertMembers(x, sorted[1..], scores);
      var tail := InsertByScore(x, sorted[1..], scores);
      forall k | 0 <= k < |tail| ensures scores[tail[k]] <= scores[sorted[0]] {
        assert tail[k] in tail;
      }
      ConsSorted(sorted[0], tail, scores);
    }
  }

  lemma {:induction false} InsertDistinct(x: nat, sorted: seq<nat>, scores: seq<real>)
    requires x < |scores| && Indices(sorted, |scores|)
    requires Distinct(sorted) && x !in sorted
    ensures Distinct(InsertByScore(x, sorted, scores))
  {
    if sorted == [] {
    } else if scores[sorted[0]] < scores[x] {
      ConsDistinct(x, sorted);
    } else {
      DistinctTail(sorted);
      assert sorted == [sorted[0]] + sorted[1..];
      InsertDistinct(x, sorted[1..], scores);
      InsertMembers(x, sorted[1..], scores);
      ConsDistinct(sorted[0], InsertByScore(x, sorted[1..], scores));
    }
  }

  /** Insertion sort of the indices `idx` by non-increasing score. Applied to
      0, 1, ..., n - 1 it lists equal scores by decreasing index, as a stable
      ascending argsort read backwards does. */
  function SortByScore(idx: seq<nat>, scores: seq<real>): (r: seq<nat>)
    requires Indices(idx, |scores|)
    ensures |r| == |idx| && Indices(r, |scores|)
  {
    if idx == [] then []
    else InsertByScore(idx[0], SortByScore(idx[1..], scores), scores)
  }

  /** Sorting keeps exactly the indices it was given. */
  lemma {:induction false} SortMembers(idx: seq<nat>, scores: seq<real>)
    requires Indices(idx, |scores|)
    ensures forall y :: y in SortByScore(idx, scores) <==> y in idx
  {
    if idx != [] {
      SortMembers(idx[1..], scores);
      InsertMembers(idx[0], SortByScore(idx[1..], scores), scores);
      assert idx == [idx[0]] + idx[1..];
    }
  }

  lemma {:induction false} SortSortedDistinct(idx: seq<nat>, scores: seq<real>)
    requires Indices(idx, |scores|)
    ensures SortedDesc(SortByScore(idx, scores), scores)
    ensures Distinct(idx) ==> Distinct(SortByScore(idx, scores))
  {
    if idx != [] {
      SortSortedDistinct(idx[1..], scores);
      var t := SortByScore(idx[1..], scores);
      InsertSorted(idx[0], t, scores);
      if Distinct(idx) {
        DistinctTail(idx);
        SortMembers(idx[1..], scores);
        InsertDistinct(idx[0], t, scores);
      }
    }
  }

  /** `scores.argsort()[::-1]`: every index exactly once, highest score first. */
  function ArgsortDesc(scores: seq<real>): (order: seq<nat>)
    ensures |order| == |scores| && Indices(order, |scores|)
  {
    SortByScore(Range(|scores|), scores)
  }

  /** `argsort()[::-1]` lists every index exactly once, by non-increasing
      score. */
  lemma ArgsortPermutes(scores: seq<real>)
    ensures var order := ArgsortDesc(scores);
      (forall i: nat :: i in order <==> i < |scores|) && Distinct(order) && SortedDesc(order, scores)
  {
    var idx := Range(|scores|);
    RangeMembers(|scores|);
    SortSortedDistinct(idx, scores);
    SortMembers(idx, scores);
  }

  // ---------------------------------------------------------------------------
  // The greedy loop.

  // ---------------------------------------------------------------------------
  // The greedy loop, for any pairwise test `survives(head, x)`.

  /** The vectorised filter `order[inds + 1]`: the entries of `rest` that
      survive against the picked index `head`, in their order. */
  function Survivors(head: nat, rest: seq<nat>, survives: (nat, nat) -> bool): (r: seq<nat>)
    ensures |r| <= |rest|
    ensures forall x :: x in r <==> x in rest && survives(head, x)
  {
    if rest == [] then []
    else
      assert rest == [rest[0]] + rest[1..];
      (if survives(head, rest[0]) then [rest[0]] else []) + Survivors(head, rest[1..], survives)
  }

  /** What the `while order.size > 0` loop appends to `keep`, starting from
      the candidate list `order`: take the head, filter the rest, repeat. */
  function GreedyNms(order: seq<nat>, survives: (nat, nat) -> bool): (keep: seq<nat>)
    ensures |keep| <= |order|
    ensures forall x :: x in keep ==> x in order
    decreases |order|
  {
    if order == [] then []
    else
      var rest := Survivors(order[0], order[1..], survives);
      assert forall x :: x in rest ==> x in order;
      [order[0]] + GreedyNms(rest, survives)
  }

  /** Every entry passes the test against every later one. */
  ghost predicate Pairwise(keep: seq<nat>, survives: (nat, nat) -> bool) {
    forall a, b :: 0 <= a < b < |keep| ==> survives(keep[a], keep[b])
  }

  lemma {:induction false} SurvivorsDistinct(head: nat, rest: seq<nat>, survives: (nat, nat) -> bool)
    requires Distinct(rest)
    ensures Distinct(Survivors(head, rest, survives))
  {
    if rest != [] {
      DistinctTail(rest);
      SurvivorsDistinct(head, rest[1..], survives);
      var t := Survivors(head, rest[1..], survives);
      if survives(head, rest[0]) {
        ConsDistinct(rest[0], t);
      }
    }
  }

  lemma {:induction false} SurvivorsSorted(head: nat, rest: seq<nat>, survives: (nat, nat) -> bool, scores: seq<real>)
    requires Indices(rest, |scores|) && SortedDesc(rest, scores)
    ensures Indices(Survivors(head, rest, survives), |scores|)
    ensures SortedDesc(Survivors(head, rest, survives), scores)
  {
    if rest != [] {
      TailBelowHead(rest, scores);
      SurvivorsSorted(head, rest[1..], survives, scores);
      var t := Survivors(head, rest[1..], survives);
      if survives(head, rest[0]) {
        forall k | 0 <= k < |t| ensures scores[t[k]] <= scores[rest[0]] {
          assert t[k] in t;
        }
        ConsSorted(rest[0], t, scores);
      } else {
        assert Survivors(head, rest, survives) == t;
      }
    }
  }

  /** The kept indices are distinct when the candidates are. */
  lemma {:induction false} GreedyDistinct(order: seq<nat>, survives: (nat, nat) -> bool)
    requires Distinct(order)
    ensures Distinct(GreedyNms(order, survives))
    decreases |order|
  {
    if order != [] {
      var rest := Survivors(order[0], order[1..], survives);
      DistinctTail(order);
      SurvivorsDistinct(order[0], order[1..], survives);
      GreedyDistinct(rest, survives);
      ConsDistinct(order[0], GreedyNms(rest, survives));
    }
  }

  /** The kept indices keep the candidates' score order. */
  lemma {:induction false} GreedySorted(order: seq<nat>, survives: (nat, nat) -> bool, scores: seq<real>)
    requires Indices(order, |scores|) && SortedDesc(order, scores)
    ensures Indices(GreedyNms(order, survives), |scores|)
    ensures SortedDesc(GreedyNms(order, survives), scores)
    decreases |order|
  {
    if order != [] {
      var rest := Survivors(order[0], order[1..], survives);
      TailBelowHead(order, scores);
      SurvivorsSorted(order[0], order[1..], survives, scores);
      GreedySorted(rest, survives, scores);
      var t := GreedyNms(rest, survives);
      forall k | 0 <= k < |t| ensures scores[t[k]] <= scores[order[0]] {
        assert t[k] in t;
      }
      ConsSorted(order[0], t, scores);
    }
  }

  /** Any two kept indices pass the test against each other, the earlier one
      as the picked box: each later pick survived every earlier one. */
  lemma {:induction false} GreedyPairwise(order: seq<nat>, survives: (nat, nat) -> bool)
    ensures Pairwise(GreedyNms(order, survives), survives)
    decreases |order|
  {
    if order != [] {
      var rest := Survivors(order[0], order[1..], survives);
      GreedyPairwise(rest, survives);
      var keep := GreedyNms(order, survives);
      var tail := GreedyNms(rest, survives);
      assert keep == [order[0]] + tail;
      forall a, b | 0 <= a < b < |keep| ensures survives(keep[a], keep[b]) {
        assert keep[b] == tail[b - 1] && keep[b] in tail && keep[b] in rest;
        if a > 0 {
          assert keep[a] == tail[a - 1];
          assert survives(tail[a - 1], tail[b - 1]);
        } else {
          assert keep[a] == order[0];
          assert survives(order[0], keep[b]);
        }
      }
    }
  }

  /** Every candidate that is not kept fails the test against a kept index
      whose score is at least its own. */
  lemma {:induction false} GreedyDropped(order: seq<nat>, survives: (nat, nat) -> bool, scores: seq<real>)
    requires Indices(order, |scores|) && SortedDesc(order, scores)
    ensures var keep := GreedyNms(order, survives);
      Indices(keep, |scores|) &&
      forall j :: j in order && j !in keep ==>
        exists k :: k in keep && k < |scores| && j < |scores| && scores[k] >= scores[j] && !survives(k, j)
    decreases |order|
  {
    GreedySorted(order, survives, scores);
    if order != [] {
      var rest := Survivors(order[0], order[1..], survives);
      TailBelowHead(order, scores);
      SurvivorsSorted(order[0], order[1..], survives, scores);
      GreedyDropped(rest, survives, scores);
      var keep := GreedyNms(order, survives);
      var tail := GreedyNms(rest, survives);
      assert keep == [order[0]] + tail;
      forall j | j in order && j !in keep
        ensures exists k :: k in keep && k < |scores| && j < |scores| && scores[k] >= scores[j] && !survives(k, j)
      {
        assert j in order[1..] by {
          var p :| 0 <= p < |order| && order[p] == j;
          assert p != 0;
          assert order[1..][p - 1] == j;
        }
        if j in rest {
          var k :| k in tail && k < |scores| && j < |scores| && scores[k] >= scores[j] && !survives(k, j);
          assert k in keep;
        } else {
          assert order[0] in keep;
        }
      }
    }
  }

  lemma {:induction false} SurvivorsAll(head: nat, rest: seq<nat>, survives: (nat, nat) -> bool)
    requires forall x :: x in rest ==> survives(head, x)
    ensures Survivors(head, rest, survives) == rest
  {
    if rest != [] {
      assert rest == [rest[0]] + rest[1..];
      assert rest[0] in rest;
      SurvivorsAll(head, rest[1..], survives);
    }
  }

  /** When every pair passes the test, nothing is dropped. */
  lemma {:induction false} GreedyKeepsAll(order: seq<nat>, survives: (nat, nat) -> bool)
    requires forall x, y :: x in order && y in order ==> survives(x, y)
    ensures GreedyNms(order, survives) == order
  {
    if order != [] {
      assert order == [order[0]] + order[1..];
      assert order[0] in order;
      SurvivorsAll(order[0], order[1..], survives);
      GreedyKeepsAll(order[1..], survives);
    }
  }

  // ---------------------------------------------------------------------------
  // Geometry of the IoU test.

  lemma MulLe(a: real, b: real, c: real, d: real)
    requires 0.0 <= a <= c && 0.0 <= b <= d
    ensures a * b <= c * d
  {
    assert a * b <= c * b;
    assert c * b <= c * d;
  }

  lemma DivLe(x: real, y: real, t: real)
    requires y > 0.0 && x <= t * y
    ensures x / y <= t
  {
    assert x / y * y == x;
  }

  lemma DivNonNeg(x: real, y: real)
    requires y > 0.0 && x >= 0.0
    ensures x / y >= 0.0
  {
    assert x / y * y == x;
  }

  /** The overlap is no wider and no taller than either box. */
  lemma OverlapBounds(a: Box, b: Box)
    requires WellFormed(a) && WellFormed(b)
    ensures 0.0 <= OverlapW(a, b) <= Width(a) && OverlapW(a, b) <= Width(b)
    ensures 0.0 <= OverlapH(a, b) <= Height(a) && OverlapH(a, b) <= Height(b)
  {
  }

  /** The overlap is no larger than the first box, counted in pixels. */
  lemma InterLeFirst(a: Box, b: Box)
    requires WellFormed(a) && WellFormed(b)
    ensures Inter(a, b) <= Area(a)
  {
    OverlapBounds(a, b);
    MulLe(OverlapW(a, b), OverlapH(a, b), Width(a), Height(a));
  }

  lemma InterNonNeg(a: Box, b: Box)
    requires WellFormed(a) && WellFormed(b)
    ensures 0.0 <= Inter(a, b)
  {
    OverlapBounds(a, b);
    MulLe(0.0, 0.0, OverlapW(a, b), OverlapH(a, b));
  }

  /** The overlap is no larger than either box, counted in pixels. */
  lemma InterLeArea(a: Box, b: Box)
    requires WellFormed(a) && WellFormed(b)
    ensures 0.0 <= Inter(a, b) <= Area(a)
    ensures Inter(a, b) <= Area(b)
  {
    InterNonNeg(a, b);
    InterLeFirst(a, b);
    InterLeFirst(b, a);
    assert OverlapW(a, b) == OverlapW(b, a) && OverlapH(a, b) == OverlapH(b, a);
  }

  lemma AreaAtLeastOne(b: Box)
    requires WellFormed(b)
    ensures Area(b) >= 1.0
  {
    MulLe(1.0, 1.0, Width(b), Height(b));
  }

  /** For boxes with ordered corners the union is at least one pixel and the
      IoU lies in [0, 1], so the test compares a genuine IoU. */
  lemma IoUBounds(a: Box, b: Box)
    requires WellFormed(a) && WellFormed(b)
    ensures Union(a, b) >= 1.0
    ensures 0.0 <= IoU(a, b) <= 1.0
  {
    InterLeArea(a, b);
    AreaAtLeastOne(b);
    var inter, union := Inter(a, b), Union(a, b);
    assert union >= 1.0;
    DivLe(inter, union, 1.0);
    DivNonNeg(inter, union);
  }

  // ---------------------------------------------------------------------------
  // `nms` itself.

  /** The test of `nms` as a relation on indices into `boxes`. */
  function SurvivalTest(boxes: seq<Box>, thr: real): (nat, nat) -> bool {
    (i: nat, j: nat) => i < |boxes| && j < |boxes| && Survives(boxes[i], boxes[j], thr)
  }

  lemma GreedyHead(order: seq<nat>, survives: (nat, nat) -> bool)
    requires order != []
    ensures GreedyNms(order, survives) != [] && GreedyNms(order, survives)[0] == order[0]
  {
  }

  /** `nms(boxes, scores, nms_thr)` as a value. */
  function NmsSpec(boxes: seq<Box>, scores: seq<real>, thr: real): (keep: seq<nat>)
    ensures Indices(keep, |scores|)
    ensures keep == [] <==> scores == []
  {
    var order := ArgsortDesc(scores);
    var keep := GreedyNms(order, SurvivalTest(boxes, thr));
    assert order != [] ==> keep != [] by {
      if order != [] {
        GreedyHead(order, SurvivalTest(boxes, thr));
      }
    }
    assert forall k :: 0 <= k < |keep| ==> keep[k] in keep && keep[k] in order;
    keep
  }

  /** `nms` returns distinct, in-range indices by non-increasing score. */
  lemma NmsDistinctSorted(boxes: seq<Box>, scores: seq<real>, thr: real)
    ensures Distinct(NmsSpec(boxes, scores, thr))
    ensures SortedDesc(NmsSpec(boxes, scores, thr), scores)
  {
    var order := ArgsortDesc(scores);
    ArgsortPermutes(scores);
    GreedyDistinct(order, SurvivalTest(boxes, thr));
    GreedySorted(order, SurvivalTest(boxes, thr), scores);
  }

  /** The first index `nms` keeps is a box of maximum score. */
  lemma NmsLeadsWithMax(boxes: seq<Box>, scores: seq<real>, thr: real)
    requires scores != []
    ensures var keep := NmsSpec(boxes, scores, thr);
      keep != [] && forall j :: 0 <= j < |scores| ==> scores[j] <= scores[keep[0]]
  {
    var order := ArgsortDesc(scores);
    ArgsortPermutes(scores);
    GreedyHead(order, SurvivalTest(boxes, thr));
    forall j | 0 <= j < |scores| ensures scores[j] <= scores[order[0]] {
      assert j in order;
      var p :| 0 <= p < |order| && order[p] == j;
      if p > 0 {
        assert scores[order[0]] >= scores[order[p]];
      }
    }
  }

  /** Any two boxes `nms` keeps pass the IoU test against each other. */
  lemma NmsPairwise(boxes: seq<Box>, scores: seq<real>, thr: real)
    requires |boxes| == |scores|
    ensures var keep := NmsSpec(boxes, scores, thr);
      forall a, b :: 0 <= a < b < |keep| ==> Survives(boxes[keep[a]], boxes[keep[b]], thr)
  {
    ArgsortPermutes(scores);
    var test := SurvivalTest(boxes, thr);
    GreedyPairwise(ArgsortDesc(scores), test);
    var keep := NmsSpec(boxes, scores, thr);
    assert keep == GreedyNms(ArgsortDesc(scores), test);
    forall a, b | 0 <= a < b < |keep| ensures Survives(boxes[keep[a]], boxes[keep[b]], thr) {
      assert test(keep[a], keep[b]);
    }
  }

  /** Each box `nms` drops fails the IoU test against a kept box whose score
      is at least its own. */
  lemma NmsDropped(boxes: seq<Box>, scores: seq<real>, thr: real)
    requires |boxes| == |scores|
    ensures var keep := NmsSpec(boxes, scores, thr);
      forall j: nat :: j < |scores| && j !in keep ==>
        exists k :: k in keep && scores[k] >= scores[j] && !Survives(boxes[k], boxes[j], thr)
  {
    var order := ArgsortDesc(scores);
    ArgsortPermutes(scores);
    var test := SurvivalTest(boxes, thr);
    GreedyDropped(order, test, scores);
    var keep := NmsSpec(boxes, scores, thr);
    forall j: nat | j < |scores| && j !in keep
      ensures exists k :: k in keep && scores[k] >= scores[j] && !Survives(boxes[k], boxes[j], thr)
    {
      assert j in order;
      var k :| k in keep && k < |scores| && j < |scores| && scores[k] >= scores[j] && !test(k, j);
    }
  }

  /** With well-formed boxes and `nms_thr >= 1`, `nms` suppresses nothing and
      returns every index in score order. */
  lemma NmsKeepsAll(boxes: seq<Box>, scores: seq<real>, thr: real)
    requires |boxes| == |scores| && thr >= 1.0
    requires forall i :: 0 <= i < |boxes| ==> WellFormed(boxes[i])
    ensures NmsSpec(boxes, scores, thr) == ArgsortDesc(scores)
  {
    var order := ArgsortDesc(scores);
    ArgsortPermutes(scores);
    var test := SurvivalTest(boxes, thr);
    forall x, y | x in order && y in order ensures test(x, y) {
      IoUBounds(boxes[x], boxes[y]);
    }
    GreedyKeepsAll(order, test);
  }

  /** `nms`: sort by score, then repeatedly keep the head and drop every
      remaining box whose IoU with it exceeds `thr`. */
  method Nms(boxes: seq<Box>, scores: seq<real>, thr: real) returns (keep: seq<nat>)
    requires |boxes| == |scores|
    ensures keep == NmsSpec(boxes, scores, thr)
    ensures Indices(keep, |scores|) && Distinct(keep) && SortedDesc(keep, scores)
    ensures keep == [] <==> scores == []
    ensures keep != [] ==> forall j :: 0 <= j < |scores| ==> scores[j] <= scores[keep[0]]
    ensures forall a, b :: 0 <= a < b < |keep| ==> Survives(boxes[keep[a]], boxes[keep[b]], thr)
  {
    var test := SurvivalTest(boxes, thr);
    var order := ArgsortDesc(scores);
    keep := [];
    while |order| > 0
      invariant keep + GreedyNms(order, test) == NmsSpec(boxes, scores, thr)
      decreases |order|
    {
      var i := order[0];
      keep := keep + [i];
      order := Survivors(i, order[1..], test);
    }
    NmsDistinctSorted(boxes, scores, thr);
    if scores != [] {
      NmsLeadsWithMax(boxes, scores, thr);
    }
    NmsPairwise(boxes, scores, thr);
  }
}
