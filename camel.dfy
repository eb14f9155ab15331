/** `to_camel` in backend/app/util/camel_base_model.py, the alias generator
    that turns the snake_case field names of the stored record into the
    camelCase keys of its documents. */
module Camel {
  /** Python's `str.split("_")`: the pieces between underscores, empty ones
      included, and always at least one. */
  function Split(s: string): (parts: seq<string>)
    ensures |parts| >= 1
  {
    if |s| == 0 then [""]
    else
      var rest := Split(s[1..]);
      if s[0] == '_' then [""] + rest
      else [[s[0]] + rest[0]] + rest[1..]
  }

  /** `"_".join(parts)`, the inverse of `Split`. */
  function JoinUnderscore(parts: seq<string>): string
    requires |parts| >= 1
  {
    if |parts| == 1 then parts[0]
    else parts[0] + "_" + JoinUnderscore(parts[1..])
  }

  /** `"".join(parts)`. */
  function Flat(parts: seq<string>): string {
    if |parts| == 0 then "" else parts[0] + Flat(parts[1..])
  }

  /** The number of underscores in `s`. */
  function Underscores(s: string): nat {
    if |s| == 0 then 0 else (if s[0] == '_' then 1 else 0) + Underscores(s[1..])
  }

  /** The total length of the parts. */
  function SumLen(parts: seq<string>): nat {
    if |parts| == 0 then 0 else |parts[0]| + SumLen(parts[1..])
  }

  /** Case mapping of `str.upper` and `str.lower` on ASCII letters; every
      other character is left as it is. */
  function Upper(ch: char): char {
    if 'a' <= ch <= 'z' then (ch as int - 32) as char else ch
  }

  function Lower(ch: char): char {
    if 'A' <= ch <= 'Z' then (ch as int + 32) as char else ch
  }

  /** `str.lower`. */
  function LowerAll(p: string): string {
    if |p| == 0 then "" else [Lower(p[0])] + LowerAll(p[1..])
  }

  /** `str.capitalize`: the first character upper-cased, the rest
      lower-cased. */
  function Capitalize(p: string): string {
    if |p| == 0 then "" else [Upper(p[0])] + LowerAll(p[1..])
  }

  /** The parts after the loop: part 0 as it was, every later part
      capitalised. */
  function CamelParts(parts: seq<string>): seq<string> {
    seq(|parts|, i requires 0 <= i < |parts| => if i == 0 then parts[0] else Capitalize(parts[i]))
  }

  /** What `to_camel` returns. */
  function CamelSpec(s: string): string {
    Flat(CamelParts(Split(s)))
  }

  /** `split`, the loop over `enumerate(parts)` that overwrites every part
      after the first with its capitalisation, and `join`. */
  method ToCamel(s: string) returns (r: string)
    ensures r == CamelSpec(s)
  {
    var parts := Split(s);
    ghost var orig := parts;
    for index := 0 to |parts|
      invariant |parts| == |orig|
      invariant forall j :: 0 <= j < |parts| ==> parts[j] == (if 0 < j < index then Capitalize(orig[j]) else orig[j])
    {
      if index > 0 {
        parts := parts[index := Capitalize(parts[index])];
      }
    }
    assert parts == CamelParts(orig);
    r := Flat(parts);
  }

  /** No part contains an underscore. */
  lemma {:induction false} SplitParts(s: string)
    ensures forall i :: 0 <= i < |Split(s)| ==> '_' !in Split(s)[i]
    decreases |s|
  {
    if |s| > 0 {
      SplitParts(s[1..]);
      var rest := Split(s[1..]);
      if s[0] != '_' {
        assert '_' !in [s[0]] + rest[0];
      }
    }
  }

  /** Joining the parts with underscores gives back the string. */
  lemma {:induction false} SplitJoin(s: string)
    ensures JoinUnderscore(Split(s)) == s
    decreases |s|
  {
    if |s| > 0 {
      SplitJoin(s[1..]);
      var rest := Split(s[1..]);
      if s[0] == '_' {
        assert Split(s) == [""] + rest;
        assert Split(s)[1..] == rest;
        assert s == "_" + s[1..];
      } else {
        var parts := Split(s);
        assert parts[0] == [s[0]] + rest[0];
        assert s == [s[0]] + s[1..];
        if |rest| > 1 {
          assert parts[1..] == rest[1..];
        }
      }
    }
  }

  lemma {:induction false} SplitPrefix(p: string, t: string)
    requires '_' !in p
    ensures Split(p) == [p]
    ensures Split(p + "_" + t) == [p] + Split(t)
    decreases |p|
  {
    if |p| > 0 {
      SplitPrefix(p[1..], t);
      assert (p + "_" + t)[1..] == p[1..] + "_" + t;
      assert [p[0]] + p[1..] == p;
    } else {
      assert p + "_" + t == "_" + t;
      assert ("_" + t)[1..] == t;
    }
  }

  /** Splitting parts joined with underscores gives back the parts. */
  lemma {:induction false} JoinSplit(parts: seq<string>)
    requires |parts| >= 1
    requires forall i :: 0 <= i < |parts| ==> '_' !in parts[i]
    ensures Split(JoinUnderscore(parts)) == parts
    decreases |parts|
  {
    SplitPrefix(parts[0], "");
    if |parts| > 1 {
      JoinSplit(parts[1..]);
      SplitPrefix(parts[0], JoinUnderscore(parts[1..]));
      assert [parts[0]] + parts[1..] == parts;
    }
  }

  /** A string without underscores is one part. */
  lemma NoUnderscoreOnePart(s: string)
    requires '_' !in s
    ensures Split(s) == [s]
  {
    SplitPrefix(s, "");
  }

  /** Each underscore opens one more part, and the parts hold the other
      characters. */
  lemma {:induction false} SplitCount(s: string)
    ensures |Split(s)| == Underscores(s) + 1
    ensures SumLen(Split(s)) + Underscores(s) == |s|
    decreases |s|
  {
    if |s| > 0 {
      SplitCount(s[1..]);
      var rest := Split(s[1..]);
      if s[0] == '_' {
        assert ([""] + rest)[1..] == rest;
      } else {
        var parts := [[s[0]] + rest[0]] + rest[1..];
        assert parts[1..] == rest[1..];
        assert SumLen(rest) == |rest[0]| + SumLen(rest[1..]);
      }
    }
  }

  lemma {:induction false} FlatLength(parts: seq<string>)
    ensures |Flat(parts)| == SumLen(parts)
    decreases |parts|
  {
    if |parts| > 0 {
      FlatLength(parts[1..]);
    }
  }

  lemma {:induction false} FlatNoUnderscore(parts: seq<string>)
    requires forall i :: 0 <= i < |parts| ==> '_' !in parts[i]
    ensures '_' !in Flat(parts)
    decreases |parts|
  {
    if |parts| > 0 {
      FlatNoUnderscore(parts[1..]);
    }
  }

  /** Lower-casing keeps the length and neither adds nor removes an
      underscore. */
  lemma {:induction false} LowerAllShape(p: string)
    ensures |LowerAll(p)| == |p|
    ensures '_' in LowerAll(p) <==> '_' in p
    decreases |p|
  {
    if |p| > 0 {
      LowerAllShape(p[1..]);
      assert p == [p[0]] + p[1..];
    }
  }

  /** So does capitalising. */
  lemma CapitalizeShape(p: string)
    ensures |Capitalize(p)| == |p|
    ensures '_' in Capitalize(p) <==> '_' in p
  {
    if |p| > 0 {
      LowerAllShape(p[1..]);
      assert p == [p[0]] + p[1..];
    }
  }

  lemma {:induction false} CamelSumLen(parts: seq<string>)
    ensures SumLen(CamelParts(parts)) == SumLen(parts)
    decreases |parts|
  {
    if |parts| > 0 {
      TailSumLen(parts[1..]);
      var c := CamelParts(parts);
      assert c[1..] == seq(|parts| - 1, i requires 0 <= i < |parts| - 1 => Capitalize(parts[1..][i]));
      CapitalizeShape(parts[0]);
    }
  }

  /** The capitalised parts are as long as the parts. */
  lemma {:induction false} TailSumLen(parts: seq<string>)
    ensures SumLen(seq(|parts|, i requires 0 <= i < |parts| => Capitalize(parts[i]))) == SumLen(parts)
    decreases |parts|
  {
    if |parts| > 0 {
      TailSumLen(parts[1..]);
      var c := seq(|parts|, i requires 0 <= i < |parts| => Capitalize(parts[i]));
      assert c[1..] == seq(|parts| - 1, i requires 0 <= i < |parts| - 1 => Capitalize(parts[1..][i]));
      CapitalizeShape(parts[0]);
    }
  }

  /** The result contains no underscore. */
  lemma CamelNoUnderscore(s: string)
    ensures '_' !in CamelSpec(s)
  {
    var parts := Split(s);
    SplitParts(s);
    var c := CamelParts(parts);
    forall i | 0 <= i < |c| ensures '_' !in c[i] {
      if i > 0 {
        CapitalizeShape(parts[i]);
      }
    }
    FlatNoUnderscore(c);
  }

  /** A name without underscores is returned unchanged: part 0 is never
      capitalised. */
  lemma CamelUnchanged(s: string)
    requires '_' !in s
    ensures CamelSpec(s) == s
  {
    NoUnderscoreOnePart(s);
    assert CamelParts([s]) == [s];
    assert Flat([s]) == s + Flat([]);
  }

  /** The result drops exactly the underscores. */
  lemma CamelLength(s: string)
    ensures |CamelSpec(s)| == |s| - Underscores(s)
  {
    SplitCount(s);
    CamelSumLen(Split(s));
    FlatLength(CamelParts(Split(s)));
  }

  /** Applying `to_camel` twice changes nothing more. */
  lemma CamelIdempotent(s: string)
    ensures CamelSpec(CamelSpec(s)) == CamelSpec(s)
  {
    CamelNoUnderscore(s);
    CamelUnchanged(CamelSpec(s));
  }

  /** A two-word name: the first word, then the second capitalised. */
  lemma CamelTwoWords(a: string, b: string)
    requires '_' !in a && '_' !in b
    ensures CamelSpec(a + "_" + b) == a + Capitalize(b)
  {
    SplitPrefix(a, b);
    NoUnderscoreOnePart(b);
    assert Split(a + "_" + b) == [a, b];
    var c := CamelParts([a, b]);
    assert c == [a, Capitalize(b)];
    assert Flat(c) == a + Flat([Capitalize(b)]);
    assert Flat([Capitalize(b)]) == Capitalize(b) + Flat([]);
  }

  /** A three-word name: the first word, then the others capitalised. */
  lemma CamelThreeWords(a: string, b: string, d: string)
    requires '_' !in a && '_' !in b && '_' !in d
    ensures CamelSpec(a + "_" + b + "_" + d) == a + Capitalize(b) + Capitalize(d)
  {
    var t := b + "_" + d;
    var s := a + "_" + t;
    assert a + "_" + b + "_" + d == s;
    SplitPrefix(b, d);
    NoUnderscoreOnePart(d);
    SplitPrefix(a, t);
    assert Split(t) == [b, d];
    assert Split(s) == [a, b, d];
    var c := CamelParts([a, b, d]);
    assert c == [a, Capitalize(b), Capitalize(d)];
    FlatThree(a, Capitalize(b), Capitalize(d));
  }

  lemma FlatThree(x: string, y: string, z: string)
    ensures Flat([x, y, z]) == x + y + z
  {
    assert [x, y, z][1..] == [y, z];
    assert [y, z][1..] == [z];
    assert Flat([z]) == z + Flat([]);
  }

  lemma OriginalFileNameWords()
    ensures "original_file_name" == "original" + "_" + "file" + "_" + "name"
    ensures Capitalize("file") == "File" && Capitalize("name") == "Name"
    ensures "original" + "File" + "Name" == "originalFileName"
  {
  }

  /** The document keys of the three snake_case fields of `Image`. */
  lemma CamelOriginalFileName()
    ensures CamelSpec("original_file_name") == "originalFileName"
  {
    OriginalFileNameWords();
    CamelThreeWords("original", "file", "name");
  }

  lemma FilePathWords()
    ensures "file_path" == "file" + "_" + "path"
    ensures Capitalize("path") == "Path"
    ensures "file" + "Path" == "filePath"
  {
  }

  lemma CamelFilePath()
    ensures CamelSpec("file_path") == "filePath"
  {
    FilePathWords();
    CamelTwoWords("file", "path");
  }

  lemma ImageSummaryWords()
    ensures "image_summary" == "image" + "_" + "summary"
    ensures Capitalize("summary") == "Summary"
    ensures "image" + "Summary" == "imageSummary"
  {
  }

  lemma CamelImageSummary()
    ensures CamelSpec("image_summary") == "imageSummary"
  {
    ImageSummaryWords();
    CamelTwoWords("image", "summary");
  }
}
