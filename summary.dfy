/** The per-class histogram `image_summary` and the record `image_data`
    that `CoreFunctions.predict_yolox` in backend/app/core/core_functions.py
    builds from the crops of one prediction. */
module Summary {
  import opened Crops

  /** The directory the uploaded file is stored under. */
  const DataFiles: string := "../data-files/"

  /** The `class` field of every crop, in order. */
  function Names(crops: seq<CropInfo>): seq<string> {
    seq(|crops|, k requires 0 <= k < |crops| => crops[k].cls)
  }

  /** Reference count: the number of crops whose class is `n`. */
  function Occurrences(crops: seq<CropInfo>, n: string): nat {
    if |crops| == 0 then 0
    else Occurrences(crops[..|crops| - 1], n) + (if crops[|crops| - 1].cls == n then 1 else 0)
  }

  /** The summary as a value: every class that occurs, mapped to its
      multiplicity among the crops. */
  function Histogram(crops: seq<CropInfo>): map<string, nat> {
    var ms := multiset(Names(crops));
    map n | n in ms :: ms[n]
  }

  /** Some key of a non-empty summary. */
  ghost function Pick(m: map<string, nat>): (k: string)
    requires m != map[]
    ensures k in m
  {
    assert exists k :: k in m by {
      assert m.Keys != {};
    }
    var k :| k in m;
    k
  }

  /** The sum of a summary's counts. */
  ghost function Total(m: map<string, nat>): nat
    decreases m.Keys
  {
    if m == map[] then 0
    else
      var k := Pick(m);
      m[k] + Total(m - {k})
  }

  lemma NamesSnoc(xs: seq<CropInfo>, c: CropInfo)
    ensures Names(xs + [c]) == Names(xs) + [c.cls]
  {
  }

  /** One more crop adds one to its class, or enters its class with 1:
      the two branches of the loop body. */
  lemma HistogramSnoc(xs: seq<CropInfo>, c: CropInfo)
    ensures c.cls in Histogram(xs) ==> Histogram(xs + [c]) == Histogram(xs)[c.cls := Histogram(xs)[c.cls] + 1]
    ensures c.cls !in Histogram(xs) ==> Histogram(xs + [c]) == Histogram(xs)[c.cls := 1]
  {
    NamesSnoc(xs, c);
    assert multiset(Names(xs + [c])) == multiset(Names(xs)) + multiset{c.cls};
  }

  /** The counting loop: `summary[name] += 1` when the class is already a
      key, `summary[name] = 1` otherwise. */
  method ImageSummary(crops: seq<CropInfo>) returns (summary: map<string, nat>)
    ensures summary == Histogram(crops)
  {
    summary := map[];
    for i := 0 to |crops|
      invariant summary == Histogram(crops[..i])
    {
      var name := crops[i].cls;
      HistogramSnoc(crops[..i], crops[i]);
      assert crops[..i + 1] == crops[..i] + [crops[i]];
      if name in summary {
        summary := summary[name := summary[name] + 1];
      } else {
        summary := summary[name := 1];
      }
    }
    assert crops[..|crops|] == crops;
  }

  lemma {:induction false} MultiplicityIsOccurrences(crops: seq<CropInfo>, n: string)
    ensures multiset(Names(crops))[n] == Occurrences(crops, n)
    decreases |crops|
  {
    if |crops| > 0 {
      var xs, c := crops[..|crops| - 1], crops[|crops| - 1];
      assert crops == xs + [c];
      NamesSnoc(xs, c);
      MultiplicityIsOccurrences(xs, n);
    }
  }

  /** The keys are exactly the classes that occur, each count is the number
      of crops of that class and so at least 1. */
  lemma HistogramCounts(crops: seq<CropInfo>)
    ensures forall n :: n in Histogram(crops) <==> exists k :: 0 <= k < |crops| && crops[k].cls == n
    ensures forall n :: n in Histogram(crops) ==> Histogram(crops)[n] == Occurrences(crops, n) >= 1
  {
    forall n ensures n in Histogram(crops) <==> exists k :: 0 <= k < |crops| && crops[k].cls == n {
      if n in Histogram(crops) {
        assert n in Names(crops);
        var k :| 0 <= k < |crops| && Names(crops)[k] == n;
        assert crops[k].cls == n;
      }
      if exists k :: 0 <= k < |crops| && crops[k].cls == n {
        var k :| 0 <= k < |crops| && crops[k].cls == n;
        assert Names(crops)[k] == n;
      }
    }
    forall n | n in Histogram(crops) ensures Histogram(crops)[n] == Occurrences(crops, n) {
      MultiplicityIsOccurrences(crops, n);
    }
  }

  /** No crops give the empty summary, and only they do. */
  lemma HistogramEmpty(crops: seq<CropInfo>)
    ensures Histogram(crops) == map[] <==> |crops| == 0
  {
    if |crops| > 0 {
      assert Names(crops)[0] in multiset(Names(crops));
      assert crops[0].cls in Histogram(crops);
    }
  }

  /** Removing any key takes away exactly its count, whichever key `Total`
      happens to pick first. */
  lemma TotalRemove(m: map<string, nat>, k: string)
    requires k in m
    ensures Total(m) == m[k] + Total(m - {k})
    decreases m.Keys
  {
    assert m != map[];
    var j := Pick(m);
    if j != k {
      var mj, mk := m - {j}, m - {k};
      TotalRemove(mj, k);
      TotalRemove(mk, j);
      assert mj - {k} == mk - {j};
    }
  }

  lemma TotalUpdate(m: map<string, nat>, k: string, v: nat)
    ensures Total(m[k := v]) == Total(m - {k}) + v
    ensures k in m ==> Total(m) == Total(m - {k}) + m[k]
    ensures k !in m ==> Total(m) == Total(m - {k})
  {
    TotalRemove(m[k := v], k);
    assert m[k := v] - {k} == m - {k};
    if k in m {
      TotalRemove(m, k);
    } else {
      assert m - {k} == m;
    }
  }

  /** The counts add up to the number of crops. */
  lemma {:induction false} HistogramTotal(crops: seq<CropInfo>)
    ensures Total(Histogram(crops)) == |crops|
    decreases |crops|
  {
    if |crops| == 0 {
      assert Histogram(crops) == map[];
    } else {
      var xs, c := crops[..|crops| - 1], crops[|crops| - 1];
      assert crops == xs + [c];
      HistogramSnoc(xs, c);
      HistogramTotal(xs);
      var h := Histogram(xs);
      if c.cls in h {
        TotalUpdate(h, c.cls, h[c.cls] + 1);
      } else {
        TotalUpdate(h, c.cls, 1);
      }
    }
  }

  lemma NamesConcat(xs: seq<CropInfo>, ys: seq<CropInfo>)
    ensures Names(xs + ys) == Names(xs) + Names(ys)
  {
  }

  lemma RemoveAt<T>(s: seq<T>, j: nat)
    requires j < |s|
    ensures multiset(s) == multiset(s[..j] + s[j + 1..]) + multiset{s[j]}
  {
    assert s == s[..j] + [s[j]] + s[j + 1..];
  }

  lemma Cancel<T>(x: multiset<T>, y: multiset<T>, c: T)
    requires x + multiset{c} == y + multiset{c}
    ensures x == y
  {
    forall e ensures x[e] == y[e] {
      assert (x + multiset{c})[e] == (y + multiset{c})[e];
    }
  }

  lemma NamesRemoveAt(b: seq<CropInfo>, j: nat)
    requires j < |b|
    ensures Names(b[..j] + b[j + 1..]) == Names(b)[..j] + Names(b)[j + 1..]
  {
  }

  /** Reordering the crops reorders their class names the same way. */
  lemma {:induction false} NamesPermutation(a: seq<CropInfo>, b: seq<CropInfo>)
    requires multiset(a) == multiset(b)
    ensures multiset(Names(a)) == multiset(Names(b))
    decreases |a|
  {
    if |a| > 0 {
      var i := |a| - 1;
      var c := a[i];
      assert c in multiset(b);
      var j :| 0 <= j < |b| && b[j] == c;
      var xs, rest := a[..i] + a[i + 1..], b[..j] + b[j + 1..];
      RemoveAt(a, i);
      RemoveAt(b, j);
      Cancel(multiset(xs), multiset(rest), c);
      NamesPermutation(xs, rest);
      NamesRemoveAt(a, i);
      NamesRemoveAt(b, j);
      RemoveAt(Names(a), i);
      RemoveAt(Names(b), j);
    } else {
      assert |b| == |multiset(b)| == 0;
    }
  }

  /** The summary does not depend on the order of the crops. */
  lemma HistogramPermutation(a: seq<CropInfo>, b: seq<CropInfo>)
    requires multiset(a) == multiset(b)
    ensures Histogram(a) == Histogram(b)
  {
    NamesPermutation(a, b);
  }

  /** The document `predict_yolox` stores for one upload. */
  datatype ImageRecord = ImageRecord(
    originalFileName: string,
    crops: seq<CropInfo>,
    filePath: string,
    imageSummary: map<string, nat>)

  /** `filepath` and `image_data` around the counting loop. The crops come
      from the model's prediction and are a parameter here. */
  method PredictRecord(filename: string, crops: seq<CropInfo>) returns (rec: ImageRecord)
    ensures rec.originalFileName == filename
    ensures rec.crops == crops
    ensures rec.filePath == DataFiles + filename
    ensures rec.imageSummary == Histogram(crops)
  {
    var filepath := DataFiles + filename;
    var summary := ImageSummary(crops);
    rec := ImageRecord(filename, crops, filepath, summary);
  }
}
