/**
 * The argument parsing of `!sponsor`: the first match of the regular
 * expression `".*"` in the text after the mention, with its surrounding
 * quotes stripped, names the visa role, and the duration is whatever follows
 * at `len(role) + 2`, stripped of whitespace.
 */
module Quotes {
  import opened Wrappers
  import opened Text

  /** The end of the line that position `i` is on: the first '\n' at or after `i`, or the end of `s`. */
  function LineEnd(s: string, i: nat): (e: nat)
    requires i <= |s|
    ensures i <= e <= |s|
    ensures forall k :: i <= k < e ==> s[k] != '\n'
    ensures e < |s| ==> s[e] == '\n'
    decreases |s| - i
  {
    if i == |s| || s[i] == '\n' then i else LineEnd(s, i + 1)
  }

  /** The last '"' in `s[lo..hi]`, if there is one. */
  function LastQuote(s: string, lo: nat, hi: nat): (q: Option<nat>)
    requires lo <= hi <= |s|
    ensures q.Some? ==> lo <= q.value < hi && s[q.value] == '"'
    ensures q.Some? ==> forall k :: q.value < k < hi ==> s[k] != '"'
    ensures q.None? ==> forall k :: lo <= k < hi ==> s[k] != '"'
    decreases hi - lo
  {
    if lo == hi then None
    else if s[hi - 1] == '"' then Some(hi - 1)
    else LastQuote(s, lo, hi - 1)
  }

  /**
   * `s[a..b + 1]` can be matched by `".*"`: it starts and ends with a quote
   * and `.` (which does not match a newline) covers what lies between.
   */
  predicate QuotedAt(s: string, a: int, b: int) {
    0 <= a < b < |s| && s[a] == '"' && s[b] == '"' &&
    forall k :: a < k < b ==> s[k] != '\n'
  }

  /** Where the greedy match that starts at `a` ends, if one starts there. */
  function MatchEnd(s: string, a: nat): (b: Option<nat>)
    requires a < |s|
    ensures b.Some? ==> QuotedAt(s, a, b.value)
    ensures b.Some? ==> forall k :: b.value < k < LineEnd(s, b.value) ==> s[k] != '"'
    ensures b.None? ==> forall k :: !QuotedAt(s, a, k)
  {
    if s[a] != '"' then None
    else
      var e := LineEnd(s, a + 1);
      var q := LastQuote(s, a + 1, e);
      if q.Some? then
        assert LineEnd(s, q.value) == e by { LineEndFrom(s, a + 1, q.value); }
        q
      else
        None
  }

  /** Every position before the end of a line ends on that same line. */
  lemma {:induction false} LineEndFrom(s: string, i: nat, j: nat)
    requires i <= |s| && i <= j <= LineEnd(s, i)
    ensures LineEnd(s, j) == LineEnd(s, i)
    decreases j - i
  {
    if i < j {
      LineEndFrom(s, i + 1, j);
    }
  }

  /**
   * The first match of `".*"` at or after `from`, as the positions of its
   * opening and closing quotes: it starts at the leftmost quote that has
   * another quote after it on the same line, and ends at the last quote of
   * that line.
   */
  function FirstMatch(s: string, from: nat): (m: Option<(nat, nat)>)
    requires from <= |s|
    ensures m.Some? ==> from <= m.value.0 && QuotedAt(s, m.value.0, m.value.1)
    ensures m.Some? ==> forall k :: m.value.1 < k < LineEnd(s, m.value.1) ==> s[k] != '"'
    ensures m.Some? ==> forall a, b :: from <= a < m.value.0 ==> !QuotedAt(s, a, b)
    ensures m.None? ==> forall a, b :: from <= a ==> !QuotedAt(s, a, b)
    decreases |s| - from
  {
    if from == |s| then None
    else match MatchEnd(s, from)
      case Some(b) => Some((from, b))
      case None => FirstMatch(s, from + 1)
  }

  /**
   * `_re_extract_from_quotes(text)`: the first match of `".*"` with every
   * leading and trailing quote stripped off, or `None` where the source
   * raises `ValueError` because nothing matched. Nothing matches exactly when
   * no two quotes share a line; the role is then two characters shorter than
   * the match at least.
   */
  function ExtractFromQuotes(text: string): (role: Option<string>)
    ensures role.None? <==> forall a, b :: !QuotedAt(text, a, b)
    ensures role.Some? ==> |role.value| + 2 <= |text|
  {
    match FirstMatch(text, 0)
    case None => None
    case Some((a, b)) =>
      var m := text[a..b + 1];
      assert |m| >= 2 && IsQuote(m[0]) && IsQuote(m[|m| - 1]);
      Some(Trim(m, IsQuote))
  }

  /**
   * The duration text of `!sponsor`: `rest` from `len(role) + 2` on,
   * stripped of whitespace; Python's slice yields nothing past the end.
   */
  function DurationText(rest: string, role: string): (d: string)
    ensures |d| <= |rest|
    ensures d != [] ==> !IsSpace(d[0]) && !IsSpace(d[|d| - 1])
  {
    var start := if |role| + 2 <= |rest| then |role| + 2 else |rest|;
    Strip(rest[start..])
  }

  /**
   * The form the usage text asks for, `"R" D` with a role `R` on one line and
   * no quote in `R` or `D`, gives back `R` and `D` without its surrounding
   * whitespace.
   */
  lemma QuotedRoleRoundTrip(role: string, duration: string)
    requires '"' !in role && '\n' !in role && '"' !in duration
    ensures ExtractFromQuotes("\"" + role + "\"" + duration) == Some(role)
    ensures DurationText("\"" + role + "\"" + duration, role) == Strip(duration)
  {
    var s := "\"" + role + "\"" + duration;
    var b := |role| + 1;
    assert s[0] == '"' && s[b] == '"';
    assert forall k :: 0 < k < b ==> s[k] == role[k - 1];
    assert forall k :: b < k < |s| ==> s[k] == duration[k - b - 1];
    var e := LineEnd(s, 1);
    assert b < e;
    assert LastQuote(s, 1, e) == Some(b) by {
      LastQuoteIsOnlyQuote(s, 1, e, b);
    }
    assert FirstMatch(s, 0) == Some((0, b));
    var m := s[0..b + 1];
    assert m == "\"" + role + "\"";
    TrimQuotes(role);
    assert s[|role| + 2..] == duration;
  }

  /** The only quote of `s[lo..hi]` is its last one. */
  lemma LastQuoteIsOnlyQuote(s: string, lo: nat, hi: nat, q: nat)
    requires lo <= q < hi <= |s| && s[q] == '"'
    requires forall k :: q < k < hi ==> s[k] != '"'
    ensures LastQuote(s, lo, hi) == Some(q)
  {
  }

  /** Stripping quotes off `"R"`, for `R` without quotes, leaves `R`. */
  lemma TrimQuotes(role: string)
    requires '"' !in role
    ensures Trim("\"" + role + "\"", IsQuote) == role
  {
    var m := "\"" + role + "\"";
    var t := m[1..];
    if role == [] {
      assert LeadingRun(m, IsQuote) == 2;
    } else {
      assert LeadingRun(m, IsQuote) == 1 by {
        assert m[1] == role[0];
      }
      assert t == role + "\"";
      assert TrailingRun(t, IsQuote) == 1 by {
        assert t[..|t| - 1] == role;
        assert t[|t| - 2] == role[|role| - 1];
      }
      assert t[..|t| - 1] == role;
    }
  }
}
