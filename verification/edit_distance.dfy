/** Levenshtein edit distance: the least number of single-character
    insertions, deletions and substitutions turning one string into
    another. The answer check calls a `levenshteinDistance` helper
    (src/components/QuizScreen.tsx:6,96) whose text is not part of this
    model; `Dist` is the standard definition it is meant to compute, and
    `ComputeDist` the usual row-by-row table, proved to agree with it. */
module EditDistance {

  function Min3(x: nat, y: nat, z: nat): (m: nat)
    ensures m <= x && m <= y && m <= z
    ensures m == x || m == y || m == z
  {
    if x <= y && x <= z then x else if y <= z then y else z
  }

  /** Distance between `a` and `b`, by recursion on their last characters. */
  function Dist(a: string, b: string): nat
    decreases |a| + |b|
  {
    if |a| == 0 then |b|
    else if |b| == 0 then |a|
    else
      Min3(
        Dist(a[..|a| - 1], b) + 1,
        Dist(a, b[..|b| - 1]) + 1,
        Dist(a[..|a| - 1], b[..|b| - 1]) + (if a[|a| - 1] == b[|b| - 1] then 0 else 1))
  }

  /** The distance is at least the difference of the lengths and at most
      the longer length. */
  lemma {:induction false} DistBounds(a: string, b: string)
    ensures |a| - |b| <= Dist(a, b) && |b| - |a| <= Dist(a, b)
    ensures Dist(a, b) <= |a| || Dist(a, b) <= |b|
    decreases |a| + |b|
  {
    if |a| > 0 && |b| > 0 {
      DistBounds(a[..|a| - 1], b);
      DistBounds(a, b[..|b| - 1]);
      DistBounds(a[..|a| - 1], b[..|b| - 1]);
    }
  }

  /** A string is at distance 0 from itself. */
  lemma {:induction false} DistSelf(a: string)
    ensures Dist(a, a) == 0
    decreases |a|
  {
    if |a| > 0 {
      DistSelf(a[..|a| - 1]);
    }
  }

  lemma {:induction false} DistZeroEqual(a: string, b: string)
    requires Dist(a, b) == 0
    ensures a == b
    decreases |a|
  {
    if |a| > 0 {
      DistBounds(a, b);
      var a', b' := a[..|a| - 1], b[..|b| - 1];
      DistBounds(a', b);
      DistBounds(a, b');
      assert Dist(a', b') == 0 && a[|a| - 1] == b[|b| - 1];
      DistZeroEqual(a', b');
      assert a == a' + [a[|a| - 1]];
      assert b == b' + [b[|b| - 1]];
    }
  }

  /** Distance 0 means equal strings, and only then. */
  lemma DistZeroIffEqual(a: string, b: string)
    ensures Dist(a, b) == 0 <==> a == b
  {
    if a == b {
      DistSelf(a);
    } else if Dist(a, b) == 0 {
      DistZeroEqual(a, b);
    }
  }

  /** The distance does not depend on the order of its arguments. */
  lemma {:induction false} DistSymmetric(a: string, b: string)
    ensures Dist(a, b) == Dist(b, a)
    decreases |a| + |b|
  {
    if |a| > 0 && |b| > 0 {
      DistSymmetric(a[..|a| - 1], b);
      DistSymmetric(a, b[..|b| - 1]);
      DistSymmetric(a[..|a| - 1], b[..|b| - 1]);
    }
  }

  /** Number of positions at which two equally long strings differ. */
  function Hamming(a: string, b: string): nat
    requires |a| == |b|
    decreases |a|
  {
    if |a| == 0 then 0
    else Hamming(a[..|a| - 1], b[..|b| - 1]) + (if a[|a| - 1] == b[|b| - 1] then 0 else 1)
  }

  /** Substituting each differing position is one way to edit, so the
      distance is at most the number of differing positions. */
  lemma {:induction false} DistAtMostHamming(a: string, b: string)
    requires |a| == |b|
    ensures Dist(a, b) <= Hamming(a, b)
    decreases |a|
  {
    if |a| > 0 {
      DistAtMostHamming(a[..|a| - 1], b[..|b| - 1]);
    }
  }

  /** Between equally long strings, distance 1 can only be one
      substitution: an insertion or deletion alone changes the length. */
  lemma {:induction false} UnitDistanceIsOneSubstitution(a: string, b: string)
    requires |a| == |b| && Dist(a, b) == 1
    ensures Hamming(a, b) == 1
    decreases |a|
  {
    var a', b' := a[..|a| - 1], b[..|b| - 1];
    DistBounds(a', b);
    DistBounds(a, b');
    if a[|a| - 1] == b[|b| - 1] {
      assert Dist(a', b') == 1;
      UnitDistanceIsOneSubstitution(a', b');
    } else {
      assert Dist(a', b') == 0;
      DistZeroEqual(a', b');
      DistSelf(a');
      HammingSelf(a');
    }
  }

  lemma {:induction false} HammingSelf(a: string)
    ensures Hamming(a, a) == 0
    decreases |a|
  {
    if |a| > 0 {
      HammingSelf(a[..|a| - 1]);
    }
  }

  /** One cell of the table: the distance of two non-empty prefixes in
      terms of the three neighbouring cells. */
  lemma DistCell(a: string, b: string, i: nat, j: nat)
    requires i < |a| && 0 < j <= |b|
    ensures Dist(a[..i + 1], b[..j]) == Min3(
      Dist(a[..i], b[..j]) + 1,
      Dist(a[..i + 1], b[..j - 1]) + 1,
      Dist(a[..i], b[..j - 1]) + (if a[i] == b[j - 1] then 0 else 1))
  {
    var x, y := a[..i + 1], b[..j];
    assert x[..|x| - 1] == a[..i];
    assert y[..|y| - 1] == b[..j - 1];
    assert x[|x| - 1] == a[i] && y[|y| - 1] == b[j - 1];
    assert Dist(x, y) == Min3(
      Dist(x[..|x| - 1], y) + 1,
      Dist(x, y[..|y| - 1]) + 1,
      Dist(x[..|x| - 1], y[..|y| - 1]) + (if x[|x| - 1] == y[|y| - 1] then 0 else 1));
  }

  /** The first row and the first column of the table. */
  lemma DistEmpty(x: string)
    ensures Dist([], x) == |x| && Dist(x, []) == |x|
  {
  }

  /** Row `i + 1` of the table from row `i`. */
  method NextRow(a: string, b: string, i: nat, prev: seq<nat>) returns (cur: seq<nat>)
    requires i < |a| && |prev| == |b| + 1
    requires forall j :: 0 <= j <= |b| ==> prev[j] == Dist(a[..i], b[..j])
    ensures |cur| == |b| + 1
    ensures forall j :: 0 <= j <= |b| ==> cur[j] == Dist(a[..i + 1], b[..j])
  {
    DistEmpty(a[..i + 1]);
    cur := [i + 1];
    var j := 1;
    while j <= |b|
      invariant 1 <= j <= |b| + 1
      invariant |cur| == j
      invariant forall k :: 0 <= k < j ==> cur[k] == Dist(a[..i + 1], b[..k])
    {
      var cost := if a[i] == b[j - 1] then 0 else 1;
      var v := Min3(prev[j] + 1, cur[j - 1] + 1, prev[j - 1] + cost);
      DistCell(a, b, i, j);
      assert v == Dist(a[..i + 1], b[..j]);
      var next := cur + [v];
      assert forall k :: 0 <= k < j ==> next[k] == cur[k];
      cur := next;
      j := j + 1;
    }
  }

  /** The distance computed with one table row at a time. */
  method ComputeDist(a: string, b: string) returns (d: nat)
    ensures d == Dist(a, b)
  {
    var prev: seq<nat> := seq(|b| + 1, j => j);
    forall j | 0 <= j <= |b|
      ensures prev[j] == Dist(a[..0], b[..j])
    {
      DistEmpty(b[..j]);
    }
    var i := 0;
    while i < |a|
      invariant 0 <= i <= |a|
      invariant |prev| == |b| + 1
      invariant forall j :: 0 <= j <= |b| ==> prev[j] == Dist(a[..i], b[..j])
    {
      prev := NextRow(a, b, i, prev);
      i := i + 1;
    }
    assert a[..|a|] == a && b[..|b|] == b;
    d := prev[|b|];
  }
}
