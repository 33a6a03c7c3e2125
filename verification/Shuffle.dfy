/**
 The seeded shuffle that draws the manual-verification sample
 (scripts/golden-set/manual-verification.ts): a 32-bit linear congruential generator driving a
 Fisher-Yates loop.  The generator's quotient s / 0xffffffff can be exactly 1, and then the drawn
 index is one past the last position that the loop meant to draw from.
 */
module Shuffle {
  import opened Sequences

  const MODULUS: nat := 0x1_0000_0000
  const MAX_DRAW: nat := 0xffff_ffff
  const MULTIPLIER: nat := 1664525
  const INCREMENT: nat := 1013904223

  // ---------- the generator ----------

  /** Conversion of an integer to an unsigned 32-bit word. */
  function ToUint32(n: int): (r: nat)
    ensures r < MODULUS
  {
    n % MODULUS
  }

  function NextState(s: nat): (t: nat)
    ensures t <= MAX_DRAW
  {
    ToUint32(MULTIPLIER * s + INCREMENT)
  }

  /** The unrounded product is an exact double. */
  lemma {:induction false} ProductIsExact(s: nat)
    requires s < MODULUS
    ensures MULTIPLIER * s + INCREMENT < 0x20_0000_0000_0000
  {
  }

  /** MULTIPLIER * INVERSE is 1 modulo 2^32. */
  const INVERSE: nat := 4276115653
  /** The one residue whose first draw is MAX_DRAW. */
  const BAD_SEED: nat := 653637408

  function PreviousState(t: nat): nat {
    ToUint32(INVERSE * (t - INCREMENT))
  }

  /** The generator step is a bijection on 32-bit words. */
  lemma {:induction false} StepIsInvertible(s: nat)
    requires s < MODULUS
    ensures PreviousState(NextState(s)) == s
    ensures NextState(PreviousState(s)) == s
  {
    var q := (MULTIPLIER * s + INCREMENT) / MODULUS;
    assert NextState(s) == MULTIPLIER * s + INCREMENT - MODULUS * q;
    RemainderIsUnique(INVERSE * (NextState(s) - INCREMENT), s, 1657219 * s - INVERSE * q);
    var p := (INVERSE * (s - INCREMENT)) / MODULUS;
    assert PreviousState(s) == INVERSE * (s - INCREMENT) - MODULUS * p;
    RemainderIsUnique(MULTIPLIER * PreviousState(s) + INCREMENT, s, 1657219 * (s - INCREMENT) - MULTIPLIER * p);
  }

  lemma {:induction false} RemainderIsUnique(n: int, r: nat, k: int)
    requires r < MODULUS && n == r + MODULUS * k
    ensures n % MODULUS == r
  {
  }

  /** Exactly one seed residue makes the first draw the largest word. */
  lemma {:induction false} FirstDrawIsMaximalIffBadSeed(seed: int)
    ensures NextState(ToUint32(seed)) == MAX_DRAW <==> ToUint32(seed) == BAD_SEED
  {
    StepIsInvertible(ToUint32(seed));
    assert PreviousState(MAX_DRAW) == BAD_SEED;
    StepIsInvertible(BAD_SEED);
    StepIsInvertible(MAX_DRAW);
  }

  // ---------- the array ----------

  /** A position of a JavaScript array: reading past the end yields Hole, writing there grows the array. */
  datatype Slot<+T> = Hole | Item(value: T)

  function Items<T>(items: seq<T>): (slots: seq<Slot<T>>)
    ensures |slots| == |items| && forall k :: 0 <= k < |items| ==> slots[k] == Item(items[k])
  {
    seq(|items|, k requires 0 <= k < |items| => Item(items[k]))
  }

  function Read<T>(arr: seq<Slot<T>>, k: nat): Slot<T> {
    if k < |arr| then arr[k] else Hole
  }

  function Write<T>(arr: seq<Slot<T>>, k: nat, slot: Slot<T>): seq<Slot<T>>
    requires k <= |arr|
  {
    if k < |arr| then arr[k := slot] else arr + [slot]
  }

  /** The index floor(s / MAX_DRAW * (i + 1)), with the quotient taken exactly. */
  function DrawnIndex(s: nat, i: nat): nat {
    s * (i + 1) / MAX_DRAW
  }

  /** The drawn position is the whole part of s * (i + 1) / 0xffffffff. */
  lemma {:induction false} DrawnIndexIff(s: nat, i: nat, j: nat)
    ensures j == DrawnIndex(s, i) <==> j * 0xffff_ffff <= s * (i + 1) < (j + 1) * 0xffff_ffff
  {
    var x := s * (i + 1);
    QuotientIff(x, j);
  }

  lemma {:induction false} QuotientIff(x: nat, j: nat)
    ensures j == x / MAX_DRAW <==> j * 0xffff_ffff <= x < (j + 1) * 0xffff_ffff
  {
  }

  /** Whatever the position, some word draws it. */
  lemma {:induction false} EveryPositionIsDrawn(i: nat, j: nat) returns (s: nat)
    requires j <= i < 0xffff_ffff
    ensures s < 0xffff_ffff && DrawnIndex(s, i) == j
  {
    var n := i + 1;
    var x := j * 0xffff_ffff;
    s := (x + i) / n;
    DivisionBounds(x + i, n, s);
    assert x <= s * n <= x + i;
    DrawnIndexIff(s, i, j);
    assert x <= i * 0xffff_ffff;
    SmallerFactor(s, 0xffff_ffff, n);
  }

  lemma {:induction false} SmallerFactor(a: nat, b: nat, n: nat)
    requires a * n < b * n
    ensures a < b
  {
    assert a >= b ==> (a - b) * n >= 0;
  }

  lemma {:induction false} DivisionBounds(x: nat, n: nat, q: nat)
    requires n > 0 && q == x / n
    ensures q * n <= x < q * n + n
  {
  }

  /** The drawn index is one of 0..i, except that the largest word draws i + 1. */
  lemma {:induction false} DrawnIndexRange(s: nat, i: nat)
    requires s <= MAX_DRAW
    ensures if s == MAX_DRAW then DrawnIndex(s, i) == i + 1 else DrawnIndex(s, i) <= i
  {
    if s < MAX_DRAW {
      assert s * (i + 1) < MAX_DRAW * (i + 1);
    } else {
      assert s * (i + 1) == MAX_DRAW * (i + 1);
    }
  }

  lemma {:induction false} SwapKeepsContents<T>(arr: seq<Slot<T>>, i: nat, j: nat)
    requires i < |arr| && j <= |arr|
    ensures var swapped := Write(Write(arr, i, Read(arr, j)), j, Read(arr, i));
            if j < |arr| then |swapped| == |arr| && multiset(swapped) == multiset(arr)
            else |swapped| == |arr| + 1 && multiset(swapped) == multiset(arr) + multiset{Hole}
  {
    if j < |arr| {
      var swapped := arr[i := arr[j]][j := arr[i]];
      assert multiset(swapped) == multiset(arr);
    } else {
      assert multiset(arr[i := Hole]) == multiset(arr) - multiset{arr[i]} + multiset{Hole};
    }
  }

  /** The array after the passes for positions i, i-1, ..., 1, from generator state s. */
  function Shuffled<T>(arr: seq<Slot<T>>, i: int, s: nat): seq<Slot<T>>
    requires i < |arr|
    decreases i
  {
    if i <= 0 then arr else Shuffled(Pass(arr, i, NextState(s)), i - 1, NextState(s))
  }

  /** One pass: exchange position i with the position drawn by the word `draw`. */
  function Pass<T>(arr: seq<Slot<T>>, i: nat, draw: nat): (swapped: seq<Slot<T>>)
    requires i < |arr| && draw <= MAX_DRAW
    ensures |swapped| >= |arr|
  {
    var j := DrawnIndex(draw, i);
    DrawnIndexRange(draw, i);
    Write(Write(arr, i, Read(arr, j)), j, Read(arr, i))
  }

  /** Positions i and j have exchanged their contents, and nothing else has changed; one past the end there was a hole. */
  ghost predicate Exchanged<T>(arr: seq<Slot<T>>, i: nat, j: nat, swapped: seq<Slot<T>>) {
    && i < |arr| && j <= |arr|
    && |swapped| == (if j < |arr| then |arr| else |arr| + 1)
    && swapped[i] == (if j < |arr| then arr[j] else Hole)
    && swapped[j] == arr[i]
    && forall k :: 0 <= k < |arr| && k != i && k != j ==> swapped[k] == arr[k]
  }

  /** One pass exchanges position i with the position that its word draws. */
  ghost predicate IsPass<T>(arr: seq<Slot<T>>, i: nat, word: nat, swapped: seq<Slot<T>>) {
    exists j: nat :: j * 0xffff_ffff <= word * (i + 1) < (j + 1) * 0xffff_ffff && Exchanged(arr, i, j, swapped)
  }

  /** The words follow the generator from the seed. */
  ghost predicate AreWords(words: seq<nat>, seed: int) {
    && words != [] && words[0] == seed % 0x1_0000_0000
    && forall k :: 0 < k < |words| ==> words[k] == (1664525 * words[k - 1] + 1013904223) % 0x1_0000_0000
  }

  /** One array per pass, from the input on: pass k exchanges position |items| - k with the one that word k draws. */
  ghost predicate IsShuffleRun<T>(words: seq<nat>, arrays: seq<seq<Slot<T>>>, items: seq<T>, seed: int) {
    && AreWords(words, seed)
    && |arrays| == |words| <= Max(|items|, 1) && arrays[0] == Items(items)
    && forall k :: 0 < k < |arrays| ==> IsPass(arrays[k - 1], |items| - k, words[k], arrays[k])
  }

  lemma {:induction false} RunExtends<T>(
    words: seq<nat>, arrays: seq<seq<Slot<T>>>, items: seq<T>, seed: int, word: nat, arr: seq<Slot<T>>)
    requires IsShuffleRun(words, arrays, items, seed) && |words| < |items|
    requires word == NextState(Last(words)) && IsPass(Last(arrays), |items| - |words|, word, arr)
    ensures IsShuffleRun(words + [word], arrays + [arr], items, seed)
  {
    hide IsPass;
    var w, a := words + [word], arrays + [arr];
    forall k | 0 < k < |w| ensures w[k] == (1664525 * w[k - 1] + 1013904223) % 0x1_0000_0000 {
      assert k < |words| ==> w[k] == words[k];
    }
  }

  lemma {:induction false} PassExchanges<T>(arr: seq<Slot<T>>, i: nat, draw: nat)
    requires i < |arr| && draw <= MAX_DRAW
    ensures IsPass(arr, i, draw, Pass(arr, i, draw))
  {
    var j := DrawnIndex(draw, i);
    DrawnIndexRange(draw, i);
    DrawnIndexIff(draw, i, j);
    assert Exchanged(arr, i, j, Pass(arr, i, draw));
  }

  lemma {:induction false} PassContents<T>(arr: seq<Slot<T>>, i: nat, draw: nat)
    requires i < |arr| && draw <= MAX_DRAW
    ensures var swapped := Pass(arr, i, draw);
            if draw < MAX_DRAW || i + 1 < |arr| then |swapped| == |arr| && multiset(swapped) == multiset(arr)
            else |swapped| == |arr| + 1 && multiset(swapped) == multiset(arr) + multiset{Hole}
  {
    DrawnIndexRange(draw, i);
    SwapKeepsContents(arr, i, DrawnIndex(draw, i));
  }

  /** Once the drawn position is inside the array, whatever the draw, passes only permute. */
  lemma {:induction false} LaterPassesPermute<T>(arr: seq<Slot<T>>, i: nat, s: nat)
    requires i + 1 < |arr|
    ensures |Shuffled(arr, i, s)| == |arr| && multiset(Shuffled(arr, i, s)) == multiset(arr)
    decreases i
  {
    if i > 0 {
      PassContents(arr, i, NextState(s));
      LaterPassesPermute(Pass(arr, i, NextState(s)), i - 1, NextState(s));
    }
  }

  /** The first pass alone decides whether the whole shuffle permutes. */
  lemma {:induction false} FirstDrawDecides<T>(arr: seq<Slot<T>>, s: nat)
    requires |arr| >= 2
    ensures var result := Shuffled(arr, |arr| - 1, s);
            if NextState(s) == MAX_DRAW
            then |result| == |arr| + 1 && multiset(result) == multiset(arr) + multiset{Hole}
            else |result| == |arr| && multiset(result) == multiset(arr)
  {
    var i, draw := |arr| - 1, NextState(s);
    hide Pass;
    PassContents(arr, i, draw);
    LaterPassesPermute(Pass(arr, i, draw), i - 1, draw);
  }

  lemma {:induction false} HoleIsExtra<T>(contents: multiset<Slot<T>>)
    ensures contents + multiset{Hole} != contents
  {
    assert (contents + multiset{Hole})[Hole] == contents[Hole] + 1;
  }

  lemma {:induction false} RunStarts<T>(items: seq<T>, seed: int)
    ensures IsShuffleRun([ToUint32(seed)], [Items(items)], items, seed)
  {
  }

  /** Whether the outcome of the passes is a permutation. */
  lemma {:induction false} ShuffledPermutesIff<T>(items: seq<T>, seed: int)
    ensures var arr := Shuffled(Items(items), |items| - 1, ToUint32(seed));
            && (|items| < 2 ==> arr == Items(items))
            && (multiset(arr) == multiset(Items(items)) <==> |items| < 2 || ToUint32(seed) != BAD_SEED)
            && (|items| >= 2 && ToUint32(seed) == BAD_SEED ==>
                  |arr| == |items| + 1 && multiset(arr) == multiset(Items(items)) + multiset{Hole})
  {
    hide Pass;
    hide NextState;
    hide ToUint32;
    if |items| >= 2 {
      FirstDrawIsMaximalIffBadSeed(seed);
      FirstDrawDecides(Items(items), ToUint32(seed));
      HoleIsExtra(multiset(Items(items)));
    }
  }

  /**
   Main result.  The passes exchange position i with floor(word * (i + 1) / 0xffffffff) for the words
   of the seed.  The result is a permutation of the input exactly when the input has fewer than two
   elements or the seed is not the excluded residue; for that residue it is one longer and carries a
   hole.
   */
  method SeededShuffle<T(==)>(items: seq<T>, seed: int)
    returns (arr: seq<Slot<T>>, ghost words: seq<nat>, ghost arrays: seq<seq<Slot<T>>>)
    ensures |items| < 2 ==> arr == Items(items)
    ensures multiset(arr) == multiset(Items(items)) <==> |items| < 2 || ToUint32(seed) != BAD_SEED
    ensures |items| >= 2 && ToUint32(seed) == BAD_SEED ==>
              |arr| == |items| + 1 && multiset(arr) == multiset(Items(items)) + multiset{Hole}
    ensures |words| == Max(|items|, 1) && IsShuffleRun(words, arrays, items, seed) && arr == Last(arrays)
    ensures arr == Shuffled(Items(items), |items| - 1, ToUint32(seed))
  {
    hide IsShuffleRun;
    hide IsPass;
    hide NextState;
    hide ToUint32;
    hide DrawnIndex;
    var s: nat := ToUint32(seed);
    arr := Items(items);
    words, arrays := [s], [arr];
    RunStarts(items, seed);
    var i := |items| - 1;
    while i > 0
      invariant -1 <= i < |items| <= |arr| && (i < 0 ==> items == [])
      invariant Shuffled(arr, i, s) == Shuffled(Items(items), |items| - 1, ToUint32(seed))
      invariant |words| == |arrays| == (if i < 0 then 1 else |items| - i) && IsShuffleRun(words, arrays, items, seed)
      invariant Last(words) == s && Last(arrays) == arr
    {
      s := NextState(s);
      var j := DrawnIndex(s, i);
      DrawnIndexRange(s, i);
      var swapped := Write(Write(arr, i, Read(arr, j)), j, Read(arr, i));
      assert swapped == Pass(arr, i, s);
      PassExchanges(arr, i, s);
      RunExtends(words, arrays, items, seed, s, swapped);
      words, arrays := words + [s], arrays + [swapped];
      arr := swapped;
      i := i - 1;
    }
    ShuffledPermutesIff(items, seed);
  }
}
