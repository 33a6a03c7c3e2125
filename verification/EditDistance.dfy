/**
 Edit distance and string similarity (scripts/golden-set/validate.ts).

 The reference meaning is operational: an edit script is a list of single-character
 edits at arbitrary positions, applied one after the other.  The matrix method is
 proved to return the length of a shortest script, although on a character match it
 looks at the diagonal cell only.
 */
module EditDistance {
  import opened Sequences

  // ---------- reference semantics: edit scripts ----------

  datatype Edit =
    | Insert(pos: nat, c: char)
    | Delete(pos: nat)
    | Substitute(pos: nat, c: char)

  predicate Applicable(e: Edit, s: string) {
    if e.Insert? then e.pos <= |s| else e.pos < |s|
  }

  function Apply(e: Edit, s: string): string
    requires Applicable(e, s)
  {
    match e
    case Insert(i, c) => s[..i] + [c] + s[i..]
    case Delete(i) => s[..i] + s[i + 1..]
    case Substitute(i, c) => s[i := c]
  }

  /** True iff running the edits of `script` in order turns `a` into `b`. */
  ghost predicate Transforms(script: seq<Edit>, a: string, b: string) {
    if script == [] then a == b
    else Applicable(script[0], a) && Transforms(script[1..], Apply(script[0], a), b)
  }

  /** `d` is the least number of single-character edits that turn `a` into `b`. */
  ghost predicate IsEditDistance(d: nat, a: string, b: string) {
    && (exists script :: Transforms(script, a, b) && |script| == d)
    && (forall script :: Transforms(script, a, b) ==> d <= |script|)
  }

  // ---------- the recurrence that the matrix tabulates ----------

  function Distance(a: string, b: string): nat
    decreases |a| + |b|
  {
    if a == "" then |b|
    else if b == "" then |a|
    else if Last(a) == Last(b) then Distance(Init(a), Init(b))
    else Min(Distance(Init(a), Init(b)) + 1, Min(Distance(a, Init(b)) + 1, Distance(Init(a), b) + 1))
  }

  /** One step of the recurrence, so that other proofs need not unfold it. */
  lemma {:induction false} DistanceUnfolds(a: string, b: string)
    ensures a == "" ==> Distance(a, b) == |b|
    ensures b == "" ==> Distance(a, b) == |a|
    ensures a != "" && b != "" && Last(a) == Last(b) ==> Distance(a, b) == Distance(Init(a), Init(b))
    ensures a != "" && b != "" && Last(a) != Last(b) ==>
              Distance(a, b) == Min(Distance(Init(a), Init(b)) + 1,
                                    Min(Distance(a, Init(b)) + 1, Distance(Init(a), b) + 1))
  {
  }

  /** Neighbouring cells differ by at most one. */
  lemma {:induction false} NeighboursDifferByAtMostOne(a: string, b: string)
    ensures a != "" ==> Distance(a, b) <= Distance(Init(a), b) + 1 && Distance(Init(a), b) <= Distance(a, b) + 1
    ensures b != "" ==> Distance(a, b) <= Distance(a, Init(b)) + 1 && Distance(a, Init(b)) <= Distance(a, b) + 1
    decreases |a| + |b|
  {
    if a != "" && b != "" {
      NeighboursDifferByAtMostOne(Init(a), b);
      NeighboursDifferByAtMostOne(a, Init(b));
      NeighboursDifferByAtMostOne(Init(a), Init(b));
    }
  }

  /** The cost of keeping or substituting the last character. */
  function DiagonalCost(a: string, b: string): nat
    requires a != "" && b != ""
  {
    if Last(a) == Last(b) then 0 else 1
  }

  /** Taking only the diagonal on a match loses nothing: the cell is the minimum over all three predecessors. */
  lemma {:induction false} DistanceIsMinimumOfThree(a: string, b: string)
    requires a != "" && b != ""
    ensures Distance(a, b) ==
            Min(Distance(Init(a), Init(b)) + DiagonalCost(a, b),
                Min(Distance(Init(a), b) + 1, Distance(a, Init(b)) + 1))
  {
    hide Distance;
    DistanceUnfolds(a, b);
    NeighboursDifferByAtMostOne(Init(a), b);
    NeighboursDifferByAtMostOne(a, Init(b));
  }

  // ---------- metric laws ----------

  lemma {:induction false} DistanceSymmetric(a: string, b: string)
    ensures Distance(a, b) == Distance(b, a)
    decreases |a| + |b|
  {
    if a != "" && b != "" {
      DistanceSymmetric(Init(a), Init(b));
      DistanceSymmetric(a, Init(b));
      DistanceSymmetric(Init(a), b);
    }
  }

  lemma {:induction false} DistanceBounds(a: string, b: string)
    ensures |a| <= |b| + Distance(a, b)
    ensures |b| <= |a| + Distance(a, b)
    ensures Distance(a, b) <= Max(|a|, |b|)
    decreases |a| + |b|
  {
    if a != "" && b != "" {
      DistanceBounds(Init(a), Init(b));
      DistanceBounds(a, Init(b));
      DistanceBounds(Init(a), b);
    }
  }

  lemma {:induction false} DistanceZeroIffEqual(a: string, b: string)
    ensures Distance(a, b) == 0 <==> a == b
    decreases |a| + |b|
  {
    if a != "" && b != "" {
      DistanceZeroIffEqual(Init(a), Init(b));
      assert a == Init(a) + [Last(a)] && b == Init(b) + [Last(b)];
    }
  }

  lemma {:induction false} TriangleInequality(x: string, y: string, z: string)
    ensures Distance(x, z) <= Distance(x, y) + Distance(y, z)
    decreases |x| + |y| + |z|
  {
    hide Distance;
    if x == "" || y == "" || z == "" {
      DistanceBounds(x, y);
      DistanceBounds(y, z);
      DistanceBounds(x, z);
      DistanceUnfolds(x, y);
      DistanceUnfolds(y, z);
      DistanceUnfolds(x, z);
    } else {
      DistanceIsMinimumOfThree(x, y);
      DistanceIsMinimumOfThree(y, z);
      DistanceIsMinimumOfThree(x, z);
      TriangleInequality(Init(x), y, z);
      TriangleInequality(x, y, Init(z));
      TriangleInequality(x, Init(y), z);
      TriangleInequality(x, Init(y), Init(z));
      TriangleInequality(Init(x), Init(y), z);
      TriangleInequality(Init(x), Init(y), Init(z));
    }
  }

  // ---------- the recurrence computes the length of a shortest script ----------

  /** A common tail does not change the distance. */
  lemma {:induction false} CommonTail(a: string, b: string, tail: string)
    ensures Distance(a + tail, b + tail) == Distance(a, b)
    decreases |tail|
  {
    if tail == "" {
      assert a + tail == a && b + tail == b;
    } else {
      assert Init(a + tail) == a + Init(tail) && Init(b + tail) == b + Init(tail);
      CommonTail(a, b, Init(tail));
    }
  }

  lemma {:induction false} LastCharacterCostsAtMostOne(a: string, c: char, d: char)
    ensures Distance(a, a + [c]) <= 1
    ensures Distance(a + [c], a) <= 1
    ensures Distance(a + [d], a + [c]) <= 1
  {
    hide Distance;
    assert Init(a + [c]) == a && Init(a + [d]) == a;
    DistanceZeroIffEqual(a, a);
    NeighboursDifferByAtMostOne(a, a + [c]);
    NeighboursDifferByAtMostOne(a + [c], a);
    DistanceIsMinimumOfThree(a + [d], a + [c]);
  }

  lemma {:induction false} OneEditCostsAtMostOne(e: Edit, s: string)
    requires Applicable(e, s)
    ensures Distance(s, Apply(e, s)) <= 1
  {
    hide Distance;
    var i := e.pos;
    var before := s[..i];
    if e.Insert? {
      assert s == before + s[i..];
      LastCharacterCostsAtMostOne(before, e.c, e.c);
      CommonTail(before, before + [e.c], s[i..]);
    } else {
      var after := s[i + 1..];
      assert s == (before + [s[i]]) + after;
      if e.Delete? {
        LastCharacterCostsAtMostOne(before, s[i], s[i]);
        CommonTail(before + [s[i]], before, after);
      } else {
        assert Apply(e, s) == (before + [e.c]) + after;
        LastCharacterCostsAtMostOne(before, e.c, s[i]);
        CommonTail(before + [s[i]], before + [e.c], after);
      }
    }
  }

  /** No script is shorter than the distance. */
  lemma {:induction false} ScriptsAreNoShorter(script: seq<Edit>, a: string, b: string)
    requires Transforms(script, a, b)
    ensures Distance(a, b) <= |script|
    decreases |script|
  {
    if script == [] {
      DistanceZeroIffEqual(a, b);
    } else {
      var a' := Apply(script[0], a);
      ScriptsAreNoShorter(script[1..], a', b);
      OneEditCostsAtMostOne(script[0], a);
      TriangleInequality(a, a', b);
    }
  }

  lemma {:induction false} ApplyWithTail(e: Edit, s: string, tail: string)
    requires Applicable(e, s)
    ensures Applicable(e, s + tail) && Apply(e, s + tail) == Apply(e, s) + tail
  {
    if e.Insert? {
      assert (s + tail)[..e.pos] == s[..e.pos] && (s + tail)[e.pos..] == s[e.pos..] + tail;
    } else if e.Delete? {
      assert (s + tail)[..e.pos] == s[..e.pos] && (s + tail)[e.pos + 1..] == s[e.pos + 1..] + tail;
    }
  }

  lemma {:induction false} TransformsWithTail(script: seq<Edit>, a: string, b: string, tail: string)
    requires Transforms(script, a, b)
    ensures Transforms(script, a + tail, b + tail)
    decreases |script|
  {
    if script == [] {
      assert a + tail == b + tail;
    } else {
      ApplyWithTail(script[0], a, tail);
      TransformsWithTail(script[1..], Apply(script[0], a), b, tail);
    }
  }

  /** Prefixing one edit. */
  lemma {:induction false} PrefixEdit(e: Edit, a: string, a': string, script: seq<Edit>, b: string)
    requires Applicable(e, a) && Apply(e, a) == a' && Transforms(script, a', b)
    ensures Transforms([e] + script, a, b)
  {
    assert ([e] + script)[1..] == script;
  }

  /** A script of exactly that length exists. */
  lemma {:induction false} ShortestScript(a: string, b: string) returns (script: seq<Edit>)
    ensures Transforms(script, a, b) && |script| == Distance(a, b)
    decreases |a| + |b|
  {
    hide Distance;
    hide Apply;
    hide Transforms;
    DistanceUnfolds(a, b);
    if a == "" && b == "" {
      script := EmptyScript(a);
    } else if b == "" || (a != "" && Last(a) != Last(b) && Distance(a, b) == Distance(Init(a), b) + 1) {
      DistanceUnfolds(Init(a), b);
      var rest := ShortestScript(Init(a), b);
      script := DeleteLast(a, rest, b);
    } else if a == "" || (Last(a) != Last(b) && Distance(a, b) == Distance(a, Init(b)) + 1) {
      DistanceUnfolds(a, Init(b));
      var rest := ShortestScript(a, Init(b));
      script := InsertLast(a, rest, b);
    } else {
      var rest := ShortestScript(Init(a), Init(b));
      TransformsWithTail(rest, Init(a), Init(b), [Last(b)]);
      assert b == Init(b) + [Last(b)];
      if Last(a) == Last(b) {
        assert a == Init(a) + [Last(b)];
        script := rest;
      } else {
        script := SubstituteLast(a, rest, b);
      }
    }
  }

  lemma {:induction false} EmptyScript(a: string) returns (script: seq<Edit>)
    ensures Transforms(script, a, a) && |script| == 0
  {
    script := [];
  }

  lemma {:induction false} DeleteLast(a: string, rest: seq<Edit>, b: string) returns (script: seq<Edit>)
    requires a != "" && Transforms(rest, Init(a), b)
    ensures Transforms(script, a, b) && |script| == |rest| + 1
  {
    hide Transforms;
    var e := Delete(|a| - 1);
    assert Apply(e, a) == Init(a);
    PrefixEdit(e, a, Init(a), rest, b);
    script := [e] + rest;
  }

  lemma {:induction false} AppendCharacter(s: string, c: char)
    ensures Applicable(Insert(|s|, c), s) && Apply(Insert(|s|, c), s) == s + [c]
  {
    assert s[..|s|] == s && s[|s|..] == "";
  }

  lemma {:induction false} InsertLast(a: string, rest: seq<Edit>, b: string) returns (script: seq<Edit>)
    requires b != "" && Transforms(rest, a, Init(b))
    ensures Transforms(script, a, b) && |script| == |rest| + 1
  {
    hide Transforms;
    hide Apply;
    var e := Insert(|a|, Last(b));
    AppendCharacter(a, Last(b));
    TransformsWithTail(rest, a, Init(b), [Last(b)]);
    assert b == Init(b) + [Last(b)];
    PrefixEdit(e, a, a + [Last(b)], rest, b);
    script := [e] + rest;
  }

  lemma {:induction false} SubstituteLast(a: string, rest: seq<Edit>, b: string) returns (script: seq<Edit>)
    requires a != "" && b != "" && Transforms(rest, Init(a), Init(b))
    ensures Transforms(script, a, b) && |script| == |rest| + 1
  {
    hide Transforms;
    var e := Substitute(|a| - 1, Last(b));
    assert Apply(e, a) == Init(a) + [Last(b)];
    TransformsWithTail(rest, Init(a), Init(b), [Last(b)]);
    assert b == Init(b) + [Last(b)];
    PrefixEdit(e, a, Init(a) + [Last(b)], rest, b);
    script := [e] + rest;
  }

  /** Main result: the recurrence is the edit distance. */
  lemma {:induction false} DistanceIsEditDistance(a: string, b: string)
    ensures IsEditDistance(Distance(a, b), a, b)
  {
    hide Distance;
    var script := ShortestScript(a, b);
    forall s | Transforms(s, a, b) ensures Distance(a, b) <= |s| {
      ScriptsAreNoShorter(s, a, b);
    }
  }

  // ---------- the matrix method ----------

  method LevenshteinDistance(str1: string, str2: string) returns (d: nat)
    ensures IsEditDistance(d, str1, str2)
    ensures d == Distance(str1, str2)
  {
    hide Distance;
    hide IsEditDistance;
    var rows, cols := |str2| + 1, |str1| + 1;
    var m := new nat[rows, cols];
    for i := 0 to rows
      invariant forall k :: 0 <= k < i ==> m[k, 0] == k
    {
      m[i, 0] := i;
    }
    for j := 0 to cols
      invariant forall k :: 0 <= k < rows ==> m[k, 0] == k
      invariant forall k :: 0 <= k < j ==> m[0, k] == k
    {
      m[0, j] := j;
    }
    forall c | 0 <= c < cols ensures m[0, c] == Distance(str2[..0], str1[..c]) {
      DistanceUnfolds(str2[..0], str1[..c]);
    }
    for i := 1 to rows
      invariant forall k :: 0 <= k < rows ==> m[k, 0] == k
      invariant forall r, c :: 0 <= r < i && 0 <= c < cols ==> m[r, c] == Distance(str2[..r], str1[..c])
    {
      DistanceUnfolds(str2[..i], str1[..0]);
      for j := 1 to cols
        invariant forall k :: 0 <= k < rows ==> m[k, 0] == k
        invariant forall r, c :: 0 <= r < i && 0 <= c < cols ==> m[r, c] == Distance(str2[..r], str1[..c])
        invariant forall c :: 0 <= c < j ==> m[i, c] == Distance(str2[..i], str1[..c])
      {
        assert Init(str2[..i]) == str2[..i - 1] && Init(str1[..j]) == str1[..j - 1];
        DistanceUnfolds(str2[..i], str1[..j]);
        if str2[i - 1] == str1[j - 1] {
          m[i, j] := m[i - 1, j - 1];
        } else {
          m[i, j] := Min(m[i - 1, j - 1] + 1, Min(m[i, j - 1] + 1, m[i - 1, j] + 1));
        }
      }
    }
    d := m[|str2|, |str1|];
    assert str2[..|str2|] == str2 && str1[..|str1|] == str1;
    DistanceSymmetric(str1, str2);
    assert IsEditDistance(d, str1, str2) by {
      DistanceIsEditDistance(str1, str2);
    }
  }

  // ---------- similarity ----------

  /** The share of the longer string that the distance leaves over; 1 for two empty strings. */
  function Similarity(a: string, b: string): real {
    var n := Max(|a|, |b|);
    if n == 0 then 1.0 else (n - Distance(a, b)) as real / n as real
  }

  method CalculateSimilarity(str1: string, str2: string) returns (s: real)
    ensures s == Similarity(str1, str2)
  {
    hide Distance;
    var longer := if |str1| > |str2| then str1 else str2;
    var shorter := if |str1| > |str2| then str2 else str1;
    if |longer| == 0 { return 1.0; }
    var distance := LevenshteinDistance(longer, shorter);
    DistanceSymmetric(str1, str2);
    s := (|longer| - distance) as real / |longer| as real;
  }

  /** Multiplying both sides of a comparison by a positive number. */
  lemma {:induction false} Scale(x: real, y: real, k: real)
    requires k > 0.0
    ensures x < y <==> x * k < y * k
  {
    var d := y - x;
    assert d * k == y * k - x * k;
    if d > 0.0 {
      assert d * k > 0.0;
    } else {
      assert (-d) * k >= 0.0;
    }
  }

  lemma {:induction false} RatioIsUnitScore(n: nat, d: nat)
    requires n > 0 && d <= n
    ensures 0.0 <= (n - d) as real / n as real <= 1.0
    ensures (n - d) as real / n as real == 1.0 <==> d == 0
  {
    var q := (n - d) as real / n as real;
    assert q * n as real == n as real - d as real;
    Scale(q, 1.0, n as real);
    Scale(q, 0.0, n as real);
    Scale(1.0, q, n as real);
  }

  lemma {:induction false} RatioThreshold(n: nat, d: nat)
    requires n > 0
    ensures (n - d) as real / n as real < 0.8 <==> n < 5 * d
  {
    var q := (n - d) as real / n as real;
    assert q * n as real == n as real - d as real;
    Scale(q, 0.8, n as real);
  }

  /** The similarity is the part of the longer length that a shortest edit list leaves. */
  lemma {:induction false} SimilarityIs(a: string, b: string, d: nat)
    requires IsEditDistance(d, a, b) && |a| + |b| > 0
    ensures Similarity(a, b) * Max(|a|, |b|) as real == Max(|a|, |b|) as real - d as real
  {
    hide Distance;
    hide IsEditDistance;
    DistanceIsEditDistance(a, b);
    EditDistanceIsUnique(a, b, d, Distance(a, b));
    var n := Max(|a|, |b|);
    assert (n - d) as real / n as real * n as real == n as real - d as real;
  }

  lemma {:induction false} EditDistanceIsUnique(a: string, b: string, d: nat, e: nat)
    requires IsEditDistance(d, a, b) && IsEditDistance(e, a, b)
    ensures d == e
  {
    hide Transforms;
  }

  /** Similarity is a symmetric score in [0,1] that is 1 only for equal strings. */
  lemma {:induction false} SimilarityLaws(a: string, b: string)
    ensures 0.0 <= Similarity(a, b) <= 1.0
    ensures Similarity(a, b) == 1.0 <==> a == b
    ensures Similarity(a, b) == Similarity(b, a)
  {
    hide Distance;
    DistanceBounds(a, b);
    DistanceZeroIffEqual(a, b);
    DistanceSymmetric(a, b);
    if |a| + |b| > 0 {
      RatioIsUnitScore(Max(|a|, |b|), Distance(a, b));
    }
  }

  /** An issuer name passes the 0.8 threshold exactly when some script of at most a fifth of the longer name's length exists. */
  lemma {:induction false} ThresholdMeaning(a: string, b: string)
    ensures !(Similarity(a, b) < 0.8) <==>
            exists script :: Transforms(script, a, b) && 5 * |script| <= Max(|a|, |b|)
  {
    hide Distance;
    hide Transforms;
    if |a| + |b| > 0 {
      RatioThreshold(Max(|a|, |b|), Distance(a, b));
    }
    DistanceBounds(a, b);
    DistanceIsEditDistance(a, b);
    var shortest := ShortestScript(a, b);
  }
}
