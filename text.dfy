/**
 * The handful of Python `str` operations the bot relies on: `lower()`,
 * `replace(pat, '')`, `split()`, `split(maxsplit=2)` and `strip(chars)`.
 */
module Text {
  import opened Wrappers

  /** The code points `str.split()` and `str.strip()` treat as whitespace. */
  predicate IsSpace(c: char) {
    var n := c as int;
    n == 0x20 || 0x09 <= n <= 0x0D || 0x1C <= n <= 0x1F || n == 0x85 || n == 0xA0 ||
    n == 0x1680 || 0x2000 <= n <= 0x200A || n == 0x2028 || n == 0x2029 ||
    n == 0x202F || n == 0x205F || n == 0x3000
  }

  predicate IsQuote(c: char) {
    c == '"'
  }

  predicate NoSpace(s: string) {
    forall i :: 0 <= i < |s| ==> !IsSpace(s[i])
  }

  function LowerChar(c: char): char {
    if 'A' <= c <= 'Z' then (c as int + 32) as char else c
  }

  /** `s.lower()`, restricted to the ASCII letters. */
  function Lower(s: string): (r: string)
    ensures |r| == |s|
    ensures forall i :: 0 <= i < |s| ==> r[i] == LowerChar(s[i])
  {
    seq(|s|, i requires 0 <= i < |s| => LowerChar(s[i]))
  }

  /** Lower-casing twice is lower-casing once. */
  lemma LowerIdempotent(s: string)
    ensures Lower(Lower(s)) == Lower(s)
  {
  }

  /** `s.replace(c, '')` for a single character `c`. */
  function Without(s: string, c: char): (r: string)
    ensures forall x :: x in r <==> x in s && x != c
    ensures |r| <= |s|
  {
    if s == [] then [] else (if s[0] == c then [] else [s[0]]) + Without(s[1..], c)
  }

  /** Every occurrence of `c` goes, and every other character is kept as often as it occurs. */
  lemma {:induction false} WithoutCounts(s: string, c: char)
    ensures multiset(Without(s, c)) == multiset(s)[c := 0]
    decreases |s|
  {
    if s != [] {
      assert s == [s[0]] + s[1..];
      WithoutCounts(s[1..], c);
    }
  }

  /** Removing a character works piece by piece, so the kept characters stay in their order. */
  lemma {:induction false} WithoutAppend(a: string, b: string, c: char)
    ensures Without(a + b, c) == Without(a, c) + Without(b, c)
    decreases |a|
  {
    if a == [] {
      assert a + b == b;
    } else {
      assert (a + b)[1..] == a[1..] + b;
      WithoutAppend(a[1..], b, c);
    }
  }

  /**
   * `s.replace(pat, '')`: one left-to-right pass that deletes every
   * non-overlapping occurrence of `pat` and never looks at the text again.
   */
  function RemoveAll(s: string, pat: string): (r: string)
    requires pat != []
    ensures |r| <= |s|
    decreases |s|
  {
    if s == [] then []
    else if pat <= s then RemoveAll(s[|pat|..], pat)
    else [s[0]] + RemoveAll(s[1..], pat)
  }

  /** The pass only deletes characters: none is added and none is duplicated. */
  lemma {:induction false} RemoveAllOnlyDeletes(s: string, pat: string)
    requires pat != []
    ensures multiset(RemoveAll(s, pat)) <= multiset(s)
    decreases |s|
  {
    if s != [] {
      if pat <= s {
        assert s == s[..|pat|] + s[|pat|..];
        RemoveAllOnlyDeletes(s[|pat|..], pat);
      } else {
        assert s == [s[0]] + s[1..];
        RemoveAllOnlyDeletes(s[1..], pat);
      }
    }
  }

  /** `pat` occurs in `s` starting at index `i`. */
  predicate OccursAt(s: string, pat: string, i: nat)
    requires i <= |s|
  {
    pat <= s[i..]
  }

  /** A text in which `pat` never occurs is left as it is. */
  lemma {:induction false} RemoveAllWithoutPattern(s: string, pat: string)
    requires pat != []
    requires forall i :: 0 <= i < |s| ==> !OccursAt(s, pat, i)
    ensures RemoveAll(s, pat) == s
    decreases |s|
  {
    if s != [] {
      NoOccurrenceInTail(s, pat, |s|);
      RemoveAllWithoutPattern(s[1..], pat);
      RemoveAllKeeps(s, pat);
    }
  }

  /**
   * The text before the first occurrence of `pat` is kept, that occurrence
   * is deleted, and the rest is treated alike, from just after it.
   */
  lemma {:induction false} RemoveAllFirstOccurrence(w: string, pat: string, t: string)
    requires pat != []
    requires forall i :: 0 <= i < |w| ==> !OccursAt(w + pat + t, pat, i)
    ensures RemoveAll(w + pat + t, pat) == w + RemoveAll(t, pat)
    decreases |w|
  {
    if w == [] {
      RemoveAllSkips(pat, t);
      assert w + pat + t == pat + t;
    } else {
      assert (w + pat + t)[1..] == w[1..] + pat + t;
      NoOccurrenceInTail(w + pat + t, pat, |w|);
      RemoveAllFirstOccurrence(w[1..], pat, t);
      assert w + pat + t == [w[0]] + (w[1..] + pat + t);
      KeptCharacter(w[0], w[1..] + pat + t, pat, w[1..] + RemoveAll(t, pat));
      assert [w[0]] + (w[1..] + RemoveAll(t, pat)) == w + RemoveAll(t, pat);
    }
  }

  /** A first character where `pat` does not start is kept in front of the rest. */
  lemma KeptCharacter(c: char, rest: string, pat: string, kept: string)
    requires pat != [] && !(pat <= [c] + rest)
    requires RemoveAll(rest, pat) == kept
    ensures RemoveAll([c] + rest, pat) == [c] + kept
  {
    assert ([c] + rest)[0] == c && ([c] + rest)[1..] == rest;
  }

  /** With no occurrence among the first `n` positions, `s` does not start with `pat`, and its tail has none among `n - 1`. */
  lemma NoOccurrenceInTail(s: string, pat: string, n: nat)
    requires 0 < n <= |s|
    requires forall i :: 0 <= i < n ==> !OccursAt(s, pat, i)
    ensures !(pat <= s)
    ensures forall i :: 0 <= i < n - 1 ==> !OccursAt(s[1..], pat, i)
  {
    assert !OccursAt(s, pat, 0) && s[0..] == s;
    forall i | 0 <= i < n - 1 ensures !OccursAt(s[1..], pat, i) {
      assert !OccursAt(s, pat, i + 1);
      assert s[1..][i..] == s[i + 1..];
    }
  }

  /** An occurrence of `pat` at the start is deleted. */
  lemma RemoveAllSkips(pat: string, t: string)
    requires pat != []
    ensures RemoveAll(pat + t, pat) == RemoveAll(t, pat)
  {
    assert pat <= pat + t && (pat + t)[|pat|..] == t;
  }

  /** A text that does not start with `pat` keeps its first character. */
  lemma RemoveAllKeeps(s: string, pat: string)
    requires pat != [] && s != [] && !(pat <= s)
    ensures RemoveAll(s, pat) == [s[0]] + RemoveAll(s[1..], pat)
  {
  }

  /** The characters of `s` that are not whitespace, in order. */
  function NonSpace(s: string): string {
    if s == [] then [] else (if IsSpace(s[0]) then [] else [s[0]]) + NonSpace(s[1..])
  }

  function Concat(ts: seq<string>): string {
    if ts == [] then [] else ts[0] + Concat(ts[1..])
  }

  lemma {:induction false} NonSpaceAppend(a: string, b: string)
    ensures NonSpace(a + b) == NonSpace(a) + NonSpace(b)
    decreases |a|
  {
    if a == [] {
      assert a + b == b;
    } else {
      assert (a + b)[1..] == a[1..] + b;
      NonSpaceAppend(a[1..], b);
    }
  }

  lemma {:induction false} NonSpaceOfWord(w: string)
    requires NoSpace(w)
    ensures NonSpace(w) == w
    decreases |w|
  {
    if w != [] {
      NonSpaceOfWord(w[1..]);
    }
  }

  /** `s` without its leading whitespace. */
  function DropSpace(s: string): (r: string)
    ensures |r| <= |s|
    ensures r == [] || !IsSpace(r[0])
  {
    if s != [] && IsSpace(s[0]) then DropSpace(s[1..]) else s
  }

  /** The longest prefix of `s` without whitespace. */
  function Word(s: string): (w: string)
    ensures |w| <= |s|
    ensures s != [] && !IsSpace(s[0]) ==> |w| > 0
  {
    if s == [] || IsSpace(s[0]) then [] else [s[0]] + Word(s[1..])
  }

  /** The word is a prefix of `s` without whitespace. */
  lemma {:induction false} WordIsPrefix(s: string)
    ensures Word(s) == s[..|Word(s)|] && NoSpace(Word(s))
  {
    if s != [] && !IsSpace(s[0]) {
      WordIsPrefix(s[1..]);
    }
  }

  /**
   * `s.split()`, as CPython scans it: skip whitespace, take the word that
   * follows, and go on after it.
   */
  function Split(s: string): seq<string>
    decreases |s|
  {
    var a := DropSpace(s);
    if a == [] then [] else [Word(a)] + Split(a[|Word(a)|..])
  }

  /**
   * Every token of `s.split()` is non-empty and free of whitespace, and the
   * tokens put back together are exactly the non-whitespace characters of `s`.
   */
  lemma {:induction false} SplitWords(s: string)
    ensures forall k :: 0 <= k < |Split(s)| ==> Split(s)[k] != [] && NoSpace(Split(s)[k])
    ensures Concat(Split(s)) == NonSpace(s)
    decreases |s|
  {
    var a := DropSpace(s);
    NonSpaceDropSpace(s);
    if a != [] {
      var w := Word(a);
      var rest := a[|w|..];
      SplitWords(rest);
      WordIsPrefix(a);
      NonSpaceOfWord(w);
      assert a == w + rest;
      NonSpaceAppend(w, rest);
      var ts := Split(s);
      assert ts == [w] + Split(rest);
      assert ts[1..] == Split(rest);
    }
  }

  /** Whitespace in front of the text does not change how it splits. */
  lemma SplitSkipsSpace(c: char, t: string)
    requires IsSpace(c)
    ensures Split([c] + t) == Split(t)
  {
    assert ([c] + t)[1..] == t;
  }

  /**
   * A word followed by whitespace, or by nothing, is the first token, and
   * the tokens after it are those of what follows. With `Split([]) == []`
   * and `SplitSkipsSpace` this fixes `split()` on every text: a token ends
   * exactly where whitespace or the text does.
   */
  lemma SplitTakesWord(w: string, t: string)
    requires w != [] && NoSpace(w) && (t == [] || IsSpace(t[0]))
    ensures Split(w + t) == [w] + Split(t)
  {
    var s := w + t;
    assert s[0] == w[0];
    WordOfJoin(w, t);
    assert s[|w|..] == t;
  }

  lemma {:induction false} NonSpaceDropSpace(s: string)
    ensures NonSpace(DropSpace(s)) == NonSpace(s)
  {
    if s != [] && IsSpace(s[0]) {
      NonSpaceDropSpace(s[1..]);
    }
  }

  /** How many leading characters of `s` satisfy `drop`. */
  function LeadingRun(s: string, drop: char -> bool): (n: nat)
    ensures n <= |s|
    ensures forall i :: 0 <= i < n ==> drop(s[i])
    ensures n < |s| ==> !drop(s[n])
  {
    if s == [] || !drop(s[0]) then 0 else 1 + LeadingRun(s[1..], drop)
  }

  /** How many trailing characters of `s` satisfy `drop`. */
  function TrailingRun(s: string, drop: char -> bool): (n: nat)
    ensures n <= |s|
    ensures forall i :: |s| - n <= i < |s| ==> drop(s[i])
    ensures n < |s| ==> !drop(s[|s| - 1 - n])
  {
    if s == [] || !drop(s[|s| - 1]) then 0 else 1 + TrailingRun(s[..|s| - 1], drop)
  }

  /**
   * `s.strip(chars)`: `s` without its longest prefix and suffix made of
   * characters satisfying `drop`.
   */
  function Trim(s: string, drop: char -> bool): (r: string)
    ensures LeadingRun(s, drop) + |r| <= |s|
    ensures r == s[LeadingRun(s, drop)..LeadingRun(s, drop) + |r|]
    ensures forall i :: LeadingRun(s, drop) + |r| <= i < |s| ==> drop(s[i])
    ensures r != [] ==> !drop(r[0]) && !drop(r[|r| - 1])
    ensures |s| >= 2 && drop(s[0]) && drop(s[|s| - 1]) ==> |r| + 2 <= |s|
  {
    var a := LeadingRun(s, drop);
    var t := s[a..];
    assert t != [] ==> t[|t| - 1] == s[|s| - 1];
    t[..|t| - TrailingRun(t, drop)]
  }

  /** `s.strip()`. */
  function Strip(s: string): string {
    Trim(s, IsSpace)
  }

  /** The text after skipping whitespace, one word, and whitespace again. */
  function AfterWord(s: string): (r: string)
    ensures |r| <= |s|
    ensures r == [] || !IsSpace(r[0])
  {
    var a := DropSpace(s);
    DropSpace(a[|Word(a)|..])
  }

  lemma DropSpaceTwice(s: string)
    ensures DropSpace(DropSpace(s)) == DropSpace(s)
  {
  }

  /** Skipping whitespace leaves a suffix of the text. */
  lemma {:induction false} DropSpaceIsSuffix(s: string)
    ensures DropSpace(s) == s[|s| - |DropSpace(s)|..]
  {
    if s != [] && IsSpace(s[0]) {
      DropSpaceIsSuffix(s[1..]);
    }
  }

  /** What follows the first word is a suffix of the text, spacing included. */
  lemma AfterWordIsSuffix(s: string)
    ensures AfterWord(s) == s[|s| - |AfterWord(s)|..]
  {
    var a := DropSpace(s);
    DropSpaceIsSuffix(s);
    var b := a[|Word(a)|..];
    DropSpaceIsSuffix(b);
    assert b == s[|s| - |b|..];
  }

  /** Splitting takes the first word off and splits what follows it alike. */
  lemma SplitAfterWord(s: string)
    ensures |Split(s)| == 0 ==> AfterWord(s) == []
    ensures |Split(s)| > 0 ==> |Split(s)| == 1 + |Split(AfterWord(s))|
    ensures |Split(s)| > 0 ==> Split(s)[1..] == Split(AfterWord(s))
    ensures AfterWord(s) != [] ==> |Split(AfterWord(s))| > 0
  {
    var a := DropSpace(s);
    if a != [] {
      var b := a[|Word(a)|..];
      DropSpaceTwice(b);
      assert Split(DropSpace(b)) == Split(b);
    }
  }

  /** A word followed by whitespace, or by nothing, is the word `Word` reads. */
  lemma {:induction false} WordOfJoin(w: string, t: string)
    requires NoSpace(w) && (t == [] || IsSpace(t[0]))
    ensures Word(w + t) == w
    decreases |w|
  {
    if w == [] {
      assert w + t == t;
    } else {
      assert (w + t)[1..] == w[1..] + t;
      WordOfJoin(w[1..], t);
    }
  }

  /** After a word and one space comes the text that follows them. */
  lemma AfterWordJoin(w: string, t: string)
    requires w != [] && NoSpace(w) && t != [] && !IsSpace(t[0])
    ensures AfterWord(w + " " + t) == t
  {
    var s := w + " " + t;
    assert s == w + (" " + t);
    assert s[0] == w[0];
    assert DropSpace(s) == s;
    WordOfJoin(w, " " + t);
    assert s[|w|..] == " " + t;
    assert (" " + t)[1..] == t;
    assert DropSpace(" " + t) == DropSpace(t) == t;
  }

  lemma ThirdFieldSplit(s: string)
    ensures AfterWord(AfterWord(s)) != [] <==> |Split(s)| >= 3
    ensures AfterWord(AfterWord(s)) != [] ==> Split(AfterWord(AfterWord(s))) == Split(s)[2..]
  {
    var a1 := AfterWord(s);
    var a2 := AfterWord(a1);
    SplitAfterWord(s);
    SplitAfterWord(a1);
    SplitAfterWord(a2);
    var t0, t1, t2 := Split(s), Split(a1), Split(a2);
    if |t0| > 0 && |t1| > 0 {
      assert t0[2..] == t0[1..][1..];
    }
  }

  /**
   * The third field of `s.split(maxsplit=2)`: present exactly when `s` has
   * at least three words, in which case it is the rest of `s` from the third
   * word on, with its inner and trailing whitespace kept, and splitting it
   * gives the words of `s` after the first two.
   */
  function ThirdField(s: string): (r: Option<string>)
    ensures r.Some? <==> |Split(s)| >= 3
    ensures r.Some? ==> r.value != [] && !IsSpace(r.value[0])
    ensures r.Some? ==> Split(r.value) == Split(s)[2..]
    ensures r.Some? ==> |r.value| <= |s| && r.value == s[|s| - |r.value|..]
  {
    var rest := AfterWord(AfterWord(s));
    ThirdFieldSplit(s);
    AfterWordIsSuffix(s);
    AfterWordIsSuffix(AfterWord(s));
    if rest == [] then None else Some(rest)
  }
}
