/** Fuzzy pinyin: initials and finals that input methods commonly conflate.
    Two syllables are fuzzy-equal when swapping one listed initial leaves
    equal remainders, or swapping one listed final leaves equal stems. */
module Fuzzy {

  type Pair = (string, string)

  /** zh/z, ch/c, sh/s, in the script's order. */
  const FuzzyInitials: seq<Pair> := [("zh", "z"), ("ch", "c"), ("sh", "s")]
  /** eng/en, ing/in, ang/an, in the script's order. */
  const FuzzyFinals: seq<Pair> := [("eng", "en"), ("ing", "in"), ("ang", "an")]

  predicate EndsWith(s: string, x: string) {
    |x| <= |s| && s[|s| - |x|..] == x
  }

  /** `a` starts with `x`, `b` with `y`, and what follows is the same. */
  predicate SwapsInitial(a: string, b: string, x: string, y: string) {
    x <= a && y <= b && a[|x|..] == b[|y|..]
  }

  /** `a` ends with `x`, `b` with `y`, and what precedes is the same. */
  predicate SwapsFinal(a: string, b: string, x: string, y: string) {
    EndsWith(a, x) && EndsWith(b, y) && a[..|a| - |x|] == b[..|b| - |y|]
  }

  /** The loop over the initial pairs, each tried in both directions. */
  predicate AnyInitial(pairs: seq<Pair>, a: string, b: string)
    decreases |pairs|
  {
    |pairs| > 0 &&
    (|| SwapsInitial(a, b, pairs[0].0, pairs[0].1)
     || SwapsInitial(a, b, pairs[0].1, pairs[0].0)
     || AnyInitial(pairs[1..], a, b))
  }

  /** The loop over the final pairs, each tried in both directions. */
  predicate AnyFinal(pairs: seq<Pair>, a: string, b: string)
    decreases |pairs|
  {
    |pairs| > 0 &&
    (|| SwapsFinal(a, b, pairs[0].0, pairs[0].1)
     || SwapsFinal(a, b, pairs[0].1, pairs[0].0)
     || AnyFinal(pairs[1..], a, b))
  }

  predicate FuzzyEq(a: string, b: string) {
    AnyInitial(FuzzyInitials, a, b) || AnyFinal(FuzzyFinals, a, b)
  }

  /** `a` and `b` are `x + rest` and `y + rest`, in either order. */
  predicate InitialSpellings(a: string, b: string, x: string, y: string, rest: string) {
    (a == x + rest && b == y + rest) || (a == y + rest && b == x + rest)
  }

  /** `a` and `b` are `stem + x` and `stem + y`, in either order. */
  predicate FinalSpellings(a: string, b: string, x: string, y: string, stem: string) {
    (a == stem + x && b == stem + y) || (a == stem + y && b == stem + x)
  }

  /** Independent description: `a` and `b` are the two spellings of the
      initial pair `k` followed by a common remainder. */
  predicate InitialVariant(a: string, b: string, k: nat, rest: string) {
    k < |FuzzyInitials| && InitialSpellings(a, b, FuzzyInitials[k].0, FuzzyInitials[k].1, rest)
  }

  /** Independent description: `a` and `b` are the two spellings of the
      final pair `k` preceded by a common stem. */
  predicate FinalVariant(a: string, b: string, k: nat, stem: string) {
    k < |FuzzyFinals| && FinalSpellings(a, b, FuzzyFinals[k].0, FuzzyFinals[k].1, stem)
  }

  lemma InitialPairIff(a: string, b: string, x: string, y: string)
    ensures SwapsInitial(a, b, x, y) || SwapsInitial(a, b, y, x) <==>
      exists rest :: InitialSpellings(a, b, x, y, rest)
  {
    if SwapsInitial(a, b, x, y) {
      assert InitialSpellings(a, b, x, y, a[|x|..]);
    } else if SwapsInitial(a, b, y, x) {
      assert InitialSpellings(a, b, x, y, a[|y|..]);
    }
    if exists rest :: InitialSpellings(a, b, x, y, rest) {
      var rest :| InitialSpellings(a, b, x, y, rest);
      if a == x + rest && b == y + rest {
        assert a[|x|..] == rest && b[|y|..] == rest;
      } else {
        assert a[|y|..] == rest && b[|x|..] == rest;
      }
    }
  }

  lemma FinalPairIff(a: string, b: string, x: string, y: string)
    ensures SwapsFinal(a, b, x, y) || SwapsFinal(a, b, y, x) <==>
      exists stem :: FinalSpellings(a, b, x, y, stem)
  {
    if SwapsFinal(a, b, x, y) {
      assert a == a[..|a| - |x|] + x;
      assert b == b[..|b| - |y|] + y;
      assert FinalSpellings(a, b, x, y, a[..|a| - |x|]);
    } else if SwapsFinal(a, b, y, x) {
      assert a == a[..|a| - |y|] + y;
      assert b == b[..|b| - |x|] + x;
      assert FinalSpellings(a, b, x, y, a[..|a| - |y|]);
    }
    if exists stem :: FinalSpellings(a, b, x, y, stem) {
      var stem :| FinalSpellings(a, b, x, y, stem);
      if a == stem + x && b == stem + y {
        assert a[..|a| - |x|] == stem && a[|a| - |x|..] == x;
        assert b[..|b| - |y|] == stem && b[|b| - |y|..] == y;
      } else {
        assert a[..|a| - |y|] == stem && a[|a| - |y|..] == y;
        assert b[..|b| - |x|] == stem && b[|b| - |x|..] == x;
      }
    }
  }

  lemma {:induction false} AnyInitialIff(pairs: seq<Pair>, a: string, b: string)
    ensures AnyInitial(pairs, a, b) <==>
      exists k, rest :: 0 <= k < |pairs| && InitialSpellings(a, b, pairs[k].0, pairs[k].1, rest)
    decreases |pairs|
  {
    if |pairs| > 0 {
      AnyInitialIff(pairs[1..], a, b);
      InitialPairIff(a, b, pairs[0].0, pairs[0].1);
      if exists rest :: InitialSpellings(a, b, pairs[0].0, pairs[0].1, rest) {
        var rest :| InitialSpellings(a, b, pairs[0].0, pairs[0].1, rest);
        assert 0 <= 0 < |pairs| && InitialSpellings(a, b, pairs[0].0, pairs[0].1, rest);
      }
      if AnyInitial(pairs[1..], a, b) {
        var k, rest :| 0 <= k < |pairs[1..]| && InitialSpellings(a, b, pairs[1..][k].0, pairs[1..][k].1, rest);
        assert InitialSpellings(a, b, pairs[k + 1].0, pairs[k + 1].1, rest);
      }
      if exists k, rest :: 0 <= k < |pairs| && InitialSpellings(a, b, pairs[k].0, pairs[k].1, rest) {
        var k, rest :| 0 <= k < |pairs| && InitialSpellings(a, b, pairs[k].0, pairs[k].1, rest);
        if k > 0 {
          assert InitialSpellings(a, b, pairs[1..][k - 1].0, pairs[1..][k - 1].1, rest);
        }
      }
    }
  }

  lemma {:induction false} AnyFinalIff(pairs: seq<Pair>, a: string, b: string)
    ensures AnyFinal(pairs, a, b) <==>
      exists k, stem :: 0 <= k < |pairs| && FinalSpellings(a, b, pairs[k].0, pairs[k].1, stem)
    decreases |pairs|
  {
    if |pairs| > 0 {
      AnyFinalIff(pairs[1..], a, b);
      FinalPairIff(a, b, pairs[0].0, pairs[0].1);
      if exists stem :: FinalSpellings(a, b, pairs[0].0, pairs[0].1, stem) {
        var stem :| FinalSpellings(a, b, pairs[0].0, pairs[0].1, stem);
        assert 0 <= 0 < |pairs| && FinalSpellings(a, b, pairs[0].0, pairs[0].1, stem);
      }
      if AnyFinal(pairs[1..], a, b) {
        var k, stem :| 0 <= k < |pairs[1..]| && FinalSpellings(a, b, pairs[1..][k].0, pairs[1..][k].1, stem);
        assert FinalSpellings(a, b, pairs[k + 1].0, pairs[k + 1].1, stem);
      }
      if exists k, stem :: 0 <= k < |pairs| && FinalSpellings(a, b, pairs[k].0, pairs[k].1, stem) {
        var k, stem :| 0 <= k < |pairs| && FinalSpellings(a, b, pairs[k].0, pairs[k].1, stem);
        if k > 0 {
          assert FinalSpellings(a, b, pairs[1..][k - 1].0, pairs[1..][k - 1].1, stem);
        }
      }
    }
  }

  /** `FuzzyEq` holds exactly when the two syllables are the two spellings
      of one listed initial pair followed by a common remainder, or of one
      listed final pair preceded by a common stem. */
  lemma FuzzyEqIff(a: string, b: string)
    ensures FuzzyEq(a, b) <==>
      (exists k, rest :: InitialVariant(a, b, k, rest)) ||
      (exists k, stem :: FinalVariant(a, b, k, stem))
  {
    AnyInitialIff(FuzzyInitials, a, b);
    AnyFinalIff(FuzzyFinals, a, b);
    if AnyInitial(FuzzyInitials, a, b) {
      var k, rest :| 0 <= k < |FuzzyInitials| && InitialSpellings(a, b, FuzzyInitials[k].0, FuzzyInitials[k].1, rest);
      assert InitialVariant(a, b, k, rest);
    }
    if AnyFinal(FuzzyFinals, a, b) {
      var k, stem :| 0 <= k < |FuzzyFinals| && FinalSpellings(a, b, FuzzyFinals[k].0, FuzzyFinals[k].1, stem);
      assert FinalVariant(a, b, k, stem);
    }
  }

  /** Every pair is tried in both directions, so the relation is symmetric. */
  lemma FuzzyEqSymmetric(a: string, b: string)
    ensures FuzzyEq(a, b) <==> FuzzyEq(b, a)
  {
    FuzzyEqIff(a, b);
    FuzzyEqIff(b, a);
    if exists k: nat, rest :: InitialVariant(a, b, k, rest) {
      var k: nat, rest :| InitialVariant(a, b, k, rest);
      assert InitialVariant(b, a, k, rest);
    }
    if exists k: nat, rest :: InitialVariant(b, a, k, rest) {
      var k: nat, rest :| InitialVariant(b, a, k, rest);
      assert InitialVariant(a, b, k, rest);
    }
    if exists k: nat, stem :: FinalVariant(a, b, k, stem) {
      var k: nat, stem :| FinalVariant(a, b, k, stem);
      assert FinalVariant(b, a, k, stem);
    }
    if exists k: nat, stem :: FinalVariant(b, a, k, stem) {
      var k: nat, stem :| FinalVariant(b, a, k, stem);
      assert FinalVariant(a, b, k, stem);
    }
  }

  /** In every listed pair the two spellings differ by one letter, so
      fuzzy-equal syllables differ in length by exactly one; in particular
      no syllable is fuzzy-equal to itself, and identical syllables are
      accepted only by the matcher's own equality test. */
  lemma FuzzyEqLengths(a: string, b: string)
    requires FuzzyEq(a, b)
    ensures |a| == |b| + 1 || |b| == |a| + 1
    ensures a != b
  {
    FuzzyEqIff(a, b);
    if exists k: nat, rest :: InitialVariant(a, b, k, rest) {
      var k: nat, rest :| InitialVariant(a, b, k, rest);
      assert |FuzzyInitials[k].0| == |FuzzyInitials[k].1| + 1;
    } else {
      var k: nat, stem :| FinalVariant(a, b, k, stem);
      assert |FuzzyFinals[k].0| == |FuzzyFinals[k].1| + 1;
    }
  }

  lemma FuzzyEqExamples()
    ensures FuzzyEq("zhong", "zong")
    ensures FuzzyEq("jing", "jin")
    ensures FuzzyEq("can", "cang")
    ensures !FuzzyEq("zhong", "zhong")
    ensures !FuzzyEq("zhong", "chong")
  {
    assert InitialVariant("zhong", "zong", 0, "ong");
    FuzzyEqIff("zhong", "zong");
    assert FinalVariant("jing", "jin", 1, "j");
    FuzzyEqIff("jing", "jin");
    assert FinalVariant("can", "cang", 2, "c");
    FuzzyEqIff("can", "cang");
    if FuzzyEq("zhong", "zhong") {
      FuzzyEqLengths("zhong", "zhong");
    }
    if FuzzyEq("zhong", "chong") {
      FuzzyEqLengths("zhong", "chong");
    }
  }
}
