/**
 * `nltk.edit_distance(s1, s2)` with its defaults (every insertion, deletion
 * and substitution costs 1, no transpositions): the Levenshtein distance,
 * defined by the same recurrence over prefixes that fills nltk's table.
 */
module EditDistance {

  function Min3(x: nat, y: nat, z: nat): (m: nat)
    ensures m <= x && m <= y && m <= z
    ensures m == x || m == y || m == z
  {
    if x <= y && x <= z then x else if y <= z then y else z
  }

  /**
   * Entry `(|a|, |b|)` of the table: an empty prefix costs the length of the
   * other; otherwise the cheapest of deleting the last character of `a`,
   * inserting the last character of `b`, or matching the two last
   * characters (free when they are equal).
   */
  function Distance(a: string, b: string): nat
    decreases |a| + |b|
  {
    if a == [] then |b|
    else if b == [] then |a|
    else
      var i, j := |a| - 1, |b| - 1;
      Min3(Distance(a[..i], b) + 1, Distance(a, b[..j]) + 1,
           Distance(a[..i], b[..j]) + (if a[i] == b[j] then 0 else 1))
  }

  /** The number of positions at which two strings of equal length differ. */
  function Mismatches(a: string, b: string): (n: nat)
    requires |a| == |b|
    ensures n <= |a|
  {
    if a == [] then 0
    else Mismatches(a[..|a| - 1], b[..|b| - 1]) + (if a[|a| - 1] == b[|b| - 1] then 0 else 1)
  }

  /** Every edit changes the length by at most one, so the length gap is a lower bound. */
  lemma {:induction false} LengthGapBound(a: string, b: string)
    ensures Distance(a, b) >= |a| - |b| && Distance(a, b) >= |b| - |a|
    decreases |a| + |b|
  {
    if a != [] && b != [] {
      var i, j := |a| - 1, |b| - 1;
      LengthGapBound(a[..i], b);
      LengthGapBound(a, b[..j]);
      LengthGapBound(a[..i], b[..j]);
    }
  }

  /** Substituting every mismatched position is one way to edit, so it bounds the distance. */
  lemma {:induction false} MismatchBound(a: string, b: string)
    requires |a| == |b|
    ensures Distance(a, b) <= Mismatches(a, b)
    decreases |a|
  {
    if a != [] {
      MismatchBound(a[..|a| - 1], b[..|b| - 1]);
    }
  }

  /** Replacing one character is a single edit. */
  lemma {:induction false} OneSubstitution(before: string, x: char, y: char, after: string)
    ensures Distance(before + [x] + after, before + [y] + after) <= 1
    decreases |after|
  {
    var a, b := before + [x] + after, before + [y] + after;
    if after == [] {
      ZeroIffEqual(before, before);
      assert a[..|a| - 1] == before && b[..|b| - 1] == before;
    } else {
      var shorter := after[..|after| - 1];
      OneSubstitution(before, x, y, shorter);
      assert a[..|a| - 1] == before + [x] + shorter;
      assert b[..|b| - 1] == before + [y] + shorter;
    }
  }

  /** Rewriting every character of the shorter string and inserting the rest bounds the distance. */
  lemma {:induction false} LongerLengthBound(a: string, b: string)
    ensures Distance(a, b) <= if |a| <= |b| then |b| else |a|
    decreases |a| + |b|
  {
    if a != [] && b != [] {
      LongerLengthBound(a[..|a| - 1], b[..|b| - 1]);
    }
  }

  /** The distance is zero exactly between equal strings. */
  lemma {:induction false} ZeroIffEqual(a: string, b: string)
    ensures Distance(a, b) == 0 <==> a == b
    decreases |a| + |b|
  {
    if a == b {
      MismatchBound(a, b);
      NoMismatchesWithSelf(a);
    }
    if a != [] && b != [] && Distance(a, b) == 0 {
      var i, j := |a| - 1, |b| - 1;
      ZeroIffEqual(a[..i], b[..j]);
      assert a == a[..i] + [a[i]];
      assert b == b[..j] + [b[j]];
    }
  }

  lemma {:induction false} NoMismatchesWithSelf(a: string)
    ensures Mismatches(a, a) == 0
    decreases |a|
  {
    if a != [] {
      NoMismatchesWithSelf(a[..|a| - 1]);
    }
  }

  /** Deletions and insertions trade places, so the distance is symmetric. */
  lemma {:induction false} Symmetric(a: string, b: string)
    ensures Distance(a, b) == Distance(b, a)
    decreases |a| + |b|
  {
    if a != [] && b != [] {
      var i, j := |a| - 1, |b| - 1;
      Symmetric(a[..i], b);
      Symmetric(a, b[..j]);
      Symmetric(a[..i], b[..j]);
    }
  }
}
