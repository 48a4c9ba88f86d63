/**
 * `parse_duration`: a free-text phrase such as "3 hrs, 1 min and 30 secs"
 * becomes a number of seconds. Values are exact reals parsed from decimal
 * literals; the seconds per unit are those of Python's `timedelta`.
 */
module Duration {
  import opened Wrappers
  import opened Text

  /** Why a phrase is rejected: an unknown unit (`ValueError`), a number
      with no token after it (`IndexError` from `tokens[i + 1]`), or a
      `timedelta` beyond its range (`OverflowError`). */
  datatype DurationError = UnsupportedUnit | MissingUnit | OutOfRange

  /** `timedelta.max.days`: no `timedelta` lasts more than 999999999 days either way. */
  const MaxDays := 999999999

  /**
   * Whether a `timedelta` can hold `seconds`: its days, rounded down, lie
   * between -999999999 and 999999999. A term or a running total outside
   * this range makes `timedelta` raise `OverflowError`.
   */
  predicate Representable(seconds: real) {
    -(MaxDays as real) * 86400.0 <= seconds < (MaxDays + 1) as real * 86400.0
  }

  /** The five unit classes `parse_duration` recognises. */
  datatype Unit = Second | Minute | Hour | Day | Week

  /** The words of each class, matched after lower-casing. */
  function UnitWords(u: Unit): set<string> {
    match u
    case Second => {"sec", "secs", "second", "seconds"}
    case Minute => {"min", "mins", "minute", "minutes"}
    case Hour => {"hr", "hrs", "hour", "hours"}
    case Day => {"day", "days"}
    case Week => {"week", "weeks"}
  }

  /** Seconds per unit, as `timedelta` counts them. */
  function Seconds(u: Unit): nat {
    match u
    case Second => 1
    case Minute => 60
    case Hour => 3600
    case Day => 86400
    case Week => 7 * 86400
  }

  /** Each branch multiplies the value by the seconds of its unit. */
  lemma InSecondsIsProduct(value: real, u: Unit)
    ensures InSeconds(value, u) == value * Seconds(u) as real
  {
  }

  /** The unit a word names: the classes are tried in the source's order,
      and since they share no word, a word names a unit exactly when it is
      one of that unit's words. */
  function UnitOf(word: string): (r: Option<Unit>)
    ensures forall u :: r == Some(u) <==> word in UnitWords(u)
  {
    if word in UnitWords(Second) then Some(Second)
    else if word in UnitWords(Minute) then Some(Minute)
    else if word in UnitWords(Hour) then Some(Hour)
    else if word in UnitWords(Day) then Some(Day)
    else if word in UnitWords(Week) then Some(Week)
    else None
  }

  /** `timedelta(<unit>=value)` in seconds, one branch per unit as in the source. */
  function InSeconds(value: real, u: Unit): real {
    match u
    case Second => value
    case Minute => 60.0 * value
    case Hour => 3600.0 * value
    case Day => 86400.0 * value
    case Week => 604800.0 * value
  }

  predicate IsDigit(c: char) {
    '0' <= c <= '9'
  }

  /**
   * The state of reading a decimal literal left to right: its sign, the
   * digits before the point as a whole number, the digits after it as
   * `fraction / scale`, how many digits were read, whether the point was
   * passed, and whether nothing has been read yet (a sign may come only then).
   */
  datatype Reader =
    | Reading(negative: bool, whole: nat, fraction: nat, scale: nat, digits: nat, pointSeen: bool, atStart: bool)
    | Rejected

  const Start := Reading(false, 0, 0, 1, 0, false, true)

  function Step(r: Reader, c: char): Reader {
    match r
    case Rejected => Rejected
    case Reading(negative, whole, fraction, scale, digits, pointSeen, atStart) =>
      if IsDigit(c) then
        var d := c as int - '0' as int;
        if pointSeen then Reading(negative, whole, 10 * fraction + d, 10 * scale, digits + 1, true, false)
        else Reading(negative, 10 * whole + d, fraction, scale, digits + 1, false, false)
      else if c == '.' && !pointSeen then Reading(negative, whole, fraction, scale, digits, true, false)
      else if (c == '+' || c == '-') && atStart then Reading(c == '-', whole, fraction, scale, digits, pointSeen, false)
      else Rejected
  }

  function Read(s: string, r: Reader): Reader {
    if s == [] then r else Read(s[1..], Step(r, s[0]))
  }

  lemma {:induction false} ReadSnoc(s: string, c: char, r: Reader)
    ensures Read(s + [c], r) == Step(Read(s, r), c)
  {
    if s != [] {
      assert (s + [c])[1..] == s[1..] + [c];
      ReadSnoc(s[1..], c, Step(r, s[0]));
    }
  }

  /** The value a finished reading stands for, if it read at least one digit. */
  function Finish(r: Reader): Option<real> {
    match r
    case Rejected => None
    case Reading(negative, whole, fraction, scale, digits, _, _) =>
      if digits == 0 || scale == 0 then None
      else
        var magnitude := whole as real + fraction as real / scale as real;
        Some(if negative then -magnitude else magnitude)
  }

  /**
   * `float(token)` for a decimal literal: an optional sign, then digits with
   * at most one '.', at least one digit in all ("5", "1.5", ".5", "5.", "-2").
   * Anything else is not a number.
   */
  function Number(token: string): Option<real> {
    Finish(Read(token, Start))
  }

  /** The decimal numeral of `n`, the form in which a whole number is typed. */
  function Numeral(n: nat): (s: string)
    ensures s != [] && '0' <= s[0] <= '9'
  {
    var d := ['0' + ((n % 10) as char)];
    if n < 10 then d else Numeral(n / 10) + d
  }

  /** Reading a numeral yields its number and one digit per character. */
  lemma {:induction false} ReadNumeral(n: nat)
    ensures Read(Numeral(n), Start) == Reading(false, n, 0, 1, |Numeral(n)|, false, false)
  {
    var d := ['0' + ((n % 10) as char)];
    if n < 10 {
      assert Numeral(n) == d;
      assert Read(d, Start) == Read([], Step(Start, d[0]));
    } else {
      ReadNumeral(n / 10);
      ReadSnoc(Numeral(n / 10), d[0], Start);
      assert Numeral(n) == Numeral(n / 10) + [d[0]];
    }
  }

  /** `float` reads a typed whole number as that number. */
  lemma NumberOfNumeral(n: nat)
    ensures Number(Numeral(n)) == Some(n as real)
  {
    ReadNumeral(n);
  }

  /** The tokens `parse_duration` walks: lower-cased, commas and every
      occurrence of "and" deleted, split on whitespace. */
  function Tokens(text: string): seq<string> {
    Split(RemoveAll(Without(Lower(text), ','), "and"))
  }

  /** A token as the loop sees it: its text, what `float` makes of it, and
      the unit it names, if any. */
  datatype Token = Token(text: string, number: Option<real>, unit: Option<Unit>)

  function Classify(tokens: seq<string>): (ts: seq<Token>)
    ensures |ts| == |tokens|
  {
    if tokens == [] then []
    else [Token(tokens[0], Number(tokens[0]), UnitOf(tokens[0]))] + Classify(tokens[1..])
  }

  /** Each token is classified on its own. */
  lemma {:induction false} ClassifyAt(tokens: seq<string>, i: nat)
    requires i < |tokens|
    ensures Classify(tokens)[i] == Token(tokens[i], Number(tokens[i]), UnitOf(tokens[i]))
  {
    if i > 0 {
      ClassifyAt(tokens[1..], i - 1);
    }
  }

  /** Adds `x` to a successful running total; an error stays an error. */
  function Plus(x: real, r: Result<real, DurationError>): Result<real, DurationError> {
    match r
    case Success(v) => Success(x + v)
    case Failure(e) => Failure(e)
  }

  /** A numeric token at `i` that has no known unit after it. */
  predicate Dangling(ts: seq<Token>, i: int)
    requires 0 <= i < |ts|
  {
    ts[i].number.Some? && (i + 1 == |ts| || ts[i + 1].unit.None?)
  }

  /**
   * The exact sum the tokens stand for: each numeric token contributes its
   * value times the seconds of the unit after it, and the first numeric
   * token without a known unit after it makes the phrase an error. This is
   * what the loop of `parse_duration` computes as long as no `timedelta`
   * leaves its range.
   */
  function SumOf(ts: seq<Token>): Result<real, DurationError>
  {
    if ts == [] then Success(0.0)
    else match ts[0].number
      case None => SumOf(ts[1..])
      case Some(v) =>
        if |ts| == 1 then Failure(MissingUnit)
        else match ts[1].unit
          case None => Failure(UnsupportedUnit)
          case Some(u) => Plus(InSeconds(v, u), SumOf(ts[1..]))
  }

  /**
   * What the loop of `parse_duration` returns when it meets the tokens `ts`
   * with `parsed` seconds already added: a word is skipped, a number takes
   * the next token as its unit, and the term `timedelta(<unit>=value)` and
   * the new running total must both be representable.
   */
  function Total(ts: seq<Token>, parsed: real): Result<real, DurationError>
  {
    if ts == [] then Success(parsed)
    else match ts[0].number
      case None => Total(ts[1..], parsed)
      case Some(v) =>
        if |ts| == 1 then Failure(MissingUnit)
        else match ts[1].unit
          case None => Failure(UnsupportedUnit)
          case Some(u) =>
            var amount := InSeconds(v, u);
            if Representable(amount) && Representable(parsed + amount) then Total(ts[1..], parsed + amount)
            else Failure(OutOfRange)
  }

  /**
   * Whether every term and every running total the loop meets, from
   * `parsed` on and up to the first unit error, is representable.
   */
  predicate StaysInRange(ts: seq<Token>, parsed: real)
  {
    if ts == [] then true
    else match ts[0].number
      case None => StaysInRange(ts[1..], parsed)
      case Some(v) =>
        if |ts| == 1 then true
        else match ts[1].unit
          case None => true
          case Some(u) =>
            var amount := InSeconds(v, u);
            Representable(amount) && Representable(parsed + amount) && StaysInRange(ts[1..], parsed + amount)
  }

  /**
   * The loop computes the exact sum, or fails with that sum's unit error,
   * unless some term or running total leaves the range of `timedelta`;
   * then, and only then, it raises `OverflowError`.
   */
  lemma {:induction false} TotalIsSumInRange(ts: seq<Token>, parsed: real)
    ensures Total(ts, parsed) ==
      if StaysInRange(ts, parsed) then Plus(parsed, SumOf(ts)) else Failure(OutOfRange)
  {
    if ts != [] {
      match ts[0].number
      case None =>
        TotalIsSumInRange(ts[1..], parsed);
      case Some(v) =>
        if |ts| > 1 && ts[1].unit.Some? {
          var amount := InSeconds(v, ts[1].unit.value);
          TotalIsSumInRange(ts[1..], parsed + amount);
          PlusPlus(parsed, amount, SumOf(ts[1..]));
        }
    }
  }

  /** The duration `parse_duration` gives `text`, as a specification. */
  function Parsed(text: string): Result<real, DurationError> {
    Total(Classify(Tokens(text)), 0.0)
  }

  /**
   * `parse_duration(text)`: the phrase is cut into tokens, each token is
   * classified (`float(tk)` and the unit sets), and the loop adds up the
   * (value, unit) pairs; short of an overflow, the result is the exact sum.
   */
  method ParseDuration(text: string) returns (r: Result<real, DurationError>)
    ensures r == Parsed(text)
    ensures r != Failure(OutOfRange) ==> r == SumOf(Classify(Tokens(text)))
  {
    var tokens := Tokens(text);
    var ts := Classify(tokens);
    r := Accumulate(ts);
    TotalIsSumInRange(ts, 0.0);
    assert Plus(0.0, SumOf(ts)) == SumOf(ts);
  }

  /**
   * The loop of `parse_duration` with the running total `parsed`: a token
   * that is not a number is skipped, a number takes the next token as its
   * unit, a missing or unknown unit stops the loop with an error, and so
   * does a term or a total that `timedelta` cannot hold.
   */
  method Accumulate(ts: seq<Token>) returns (r: Result<real, DurationError>)
    ensures r == Total(ts, 0.0)
  {
    ghost var total := Total(ts, 0.0);
    var parsed := 0.0;
    var i := 0;
    while i < |ts|
      invariant 0 <= i <= |ts|
      invariant total == Total(ts[i..], parsed)
    {
      TotalAt(ts, i, parsed);
      var value := ts[i].number;
      if value.Some? {
        if i + 1 == |ts| {
          return Failure(MissingUnit);
        }
        var unit := ts[i + 1].unit;
        if unit.None? {
          return Failure(UnsupportedUnit);
        }
        var amount := InSeconds(value.value, unit.value);
        if !Representable(amount) {
          return Failure(OutOfRange);
        }
        if !Representable(parsed + amount) {
          return Failure(OutOfRange);
        }
        parsed := parsed + amount;
      }
      i := i + 1;
    }
    assert ts[i..] == [];
    return Success(parsed);
  }

  lemma PlusPlus(x: real, y: real, r: Result<real, DurationError>)
    ensures Plus(x, Plus(y, r)) == Plus(x + y, r)
  {
  }

  /** One step of the loop at token `i`, with `parsed` seconds added so far. */
  lemma TotalAt(ts: seq<Token>, i: nat, parsed: real)
    requires i < |ts|
    ensures ts[i].number.None? ==> Total(ts[i..], parsed) == Total(ts[i + 1..], parsed)
    ensures ts[i].number.Some? && i + 1 == |ts| ==> Total(ts[i..], parsed) == Failure(MissingUnit)
    ensures ts[i].number.Some? && i + 1 < |ts| && ts[i + 1].unit.None? ==>
      Total(ts[i..], parsed) == Failure(UnsupportedUnit)
    ensures ts[i].number.Some? && i + 1 < |ts| && ts[i + 1].unit.Some? ==>
      var amount := InSeconds(ts[i].number.value, ts[i + 1].unit.value);
      Total(ts[i..], parsed) ==
        if Representable(amount) && Representable(parsed + amount) then Total(ts[i + 1..], parsed + amount)
        else Failure(OutOfRange)
  {
    assert ts[i..][1..] == ts[i + 1..];
    if i + 1 < |ts| {
      assert ts[i..][1] == ts[i + 1];
    }
  }

  /** A phrase fails exactly when some numeric token lacks a known unit after it. */
  lemma {:induction false} FailsIffDangling(ts: seq<Token>)
    ensures SumOf(ts).Failure? <==> exists i :: 0 <= i < |ts| && Dangling(ts, i)
  {
    if ts != [] {
      FailsIffDangling(ts[1..]);
      if SumOf(ts).Failure? && !Dangling(ts, 0) {
        var j :| 0 <= j < |ts[1..]| && Dangling(ts[1..], j);
        assert Dangling(ts, j + 1);
      }
      if !SumOf(ts).Failure? {
        forall i | 0 <= i < |ts| ensures !Dangling(ts, i) {
          if i > 0 { assert !Dangling(ts[1..], i - 1); }
        }
      }
    }
  }

  /** The error is `MissingUnit` exactly when the only dangling token is the last one. */
  lemma {:induction false} MissingUnitIffLastDangles(ts: seq<Token>)
    ensures SumOf(ts) == Failure(MissingUnit) <==>
      |ts| > 0 && Dangling(ts, |ts| - 1) &&
      forall i :: 0 <= i < |ts| - 1 ==> !Dangling(ts, i)
  {
    if ts != [] {
      MissingUnitIffLastDangles(ts[1..]);
      var t := ts[1..];
      if |ts| > 1 {
        assert Dangling(ts, |ts| - 1) == Dangling(t, |t| - 1);
        assert (forall i :: 0 <= i < |ts| - 1 ==> !Dangling(ts, i)) <==>
          !Dangling(ts, 0) && (forall i :: 0 <= i < |t| - 1 ==> !Dangling(t, i)) by {
          if forall i :: 0 <= i < |ts| - 1 ==> !Dangling(ts, i) {
            forall i | 0 <= i < |t| - 1 ensures !Dangling(t, i) {
              assert !Dangling(ts, i + 1);
            }
          }
          if !Dangling(ts, 0) && (forall i :: 0 <= i < |t| - 1 ==> !Dangling(t, i)) {
            forall i | 0 <= i < |ts| - 1 ensures !Dangling(ts, i) {
              if i > 0 { assert !Dangling(t, i - 1); }
            }
          }
        }
      }
    }
  }

  /** Text without numeric tokens (empty, or only connective words) lasts zero seconds. */
  lemma {:induction false} NoNumbersNoTime(ts: seq<Token>)
    requires forall i :: 0 <= i < |ts| ==> ts[i].number.None?
    ensures SumOf(ts) == Success(0.0)
  {
    if ts != [] {
      NoNumbersNoTime(ts[1..]);
    }
  }

  /**
   * Units are evaluated independently: a phrase that does not end in a number
   * followed by any other phrase lasts the sum of the two, with no carrying.
   */
  lemma {:induction false} SumOfAppend(a: seq<Token>, b: seq<Token>)
    requires a == [] || a[|a| - 1].number.None?
    ensures SumOf(a + b) ==
      match (SumOf(a), SumOf(b))
      case (Success(x), Success(y)) => Success(x + y)
      case (Failure(e), _) => Failure(e)
      case (_, Failure(e)) => Failure(e)
  {
    if a == [] {
      assert a + b == b;
    } else {
      assert (a + b)[1..] == a[1..] + b;
      SumOfAppend(a[1..], b);
      if |a| == 1 {
        assert (a + b)[0] == a[0];
      } else {
        assert (a + b)[0] == a[0] && (a + b)[1] == a[1];
      }
    }
  }

  /** A phrase written as (value, unit) pairs of tokens. */
  datatype Term = Term(quantity: Token, word: Token)

  /** Every pair is a number followed by a unit word. */
  predicate WellFormed(terms: seq<Term>) {
    forall k :: 0 <= k < |terms| ==>
      terms[k].quantity.number.Some? && terms[k].word.number.None? && terms[k].word.unit.Some?
  }

  function Flatten(terms: seq<Term>): seq<Token> {
    if terms == [] then [] else [terms[0].quantity, terms[0].word] + Flatten(terms[1..])
  }

  /** The seconds the pairs stand for: each value in its unit, summed. */
  function TermsSeconds(terms: seq<Term>): real
    requires WellFormed(terms)
  {
    if terms == [] then 0.0
    else InSeconds(terms[0].quantity.number.value, terms[0].word.unit.value) + TermsSeconds(terms[1..])
  }

  /** No unit word reads as a number, so a unit token is never numeric. */
  lemma UnitsAreNotNumbers(unit: string)
    requires UnitOf(unit).Some?
    ensures Number(unit).None?
  {
    var u := UnitOf(unit).value;
    UnitWordsStartWithLetters(unit, u);
    assert Step(Start, unit[0]) == Rejected;
    ReadRejected(unit[1..]);
  }

  lemma UnitWordsStartWithLetters(word: string, u: Unit)
    requires word in UnitWords(u)
    ensures word != [] && 'a' <= word[0] <= 'z'
  {
  }

  /** Once rejected, a reading stays rejected. */
  lemma {:induction false} ReadRejected(s: string)
    ensures Read(s, Rejected) == Rejected
  {
    if s != [] {
      ReadRejected(s[1..]);
    }
  }

  /**
   * A phrase made of well-formed (value, unit) pairs lasts exactly the sum of
   * each value in its unit over the pairs.
   */
  lemma {:induction false} SumOfTerms(terms: seq<Term>)
    requires WellFormed(terms)
    ensures SumOf(Flatten(terms)) == Success(TermsSeconds(terms))
  {
    if terms != [] {
      var t := terms[0];
      assert WellFormed(terms[1..]) by {
        forall k | 0 <= k < |terms[1..]|
          ensures terms[1..][k] == terms[k + 1]
        {
        }
      }
      SumOfTerms(terms[1..]);
      SumOfPair(t.quantity, t.word, Flatten(terms[1..]));
    }
  }

  /** A number followed by its unit adds that many seconds to the rest. */
  lemma SumOfPair(first: Token, second: Token, rest: seq<Token>)
    requires first.number.Some? && second.number.None? && second.unit.Some?
    ensures SumOf([first, second] + rest) ==
      Plus(InSeconds(first.number.value, second.unit.value), SumOf(rest))
  {
    var ts := [first, second] + rest;
    assert ts[1..] == [second] + rest;
    assert ([second] + rest)[1..] == rest;
  }

  /** Lower-casing first makes unit words match whatever their case. */
  lemma TokensIgnoreCase(text: string)
    ensures Tokens(Lower(text)) == Tokens(text)
  {
    LowerIdempotent(text);
  }

  /** A numeric token at `i` followed by a unit word adds that many seconds to the running total. */
  lemma TotalPairAt(ts: seq<Token>, i: nat, parsed: real)
    requires i + 1 < |ts| && ts[i].number.Some? && ts[i + 1].number.None? && ts[i + 1].unit.Some?
    requires Representable(InSeconds(ts[i].number.value, ts[i + 1].unit.value))
    requires Representable(parsed + InSeconds(ts[i].number.value, ts[i + 1].unit.value))
    ensures Total(ts[i..], parsed) ==
      Total(ts[i + 2..], parsed + InSeconds(ts[i].number.value, ts[i + 1].unit.value))
  {
    TotalAt(ts, i, parsed);
    TotalAt(ts, i + 1, parsed + InSeconds(ts[i].number.value, ts[i + 1].unit.value));
  }

  lemma NumberExamples()
    ensures Number("3") == Some(3.0) && Number("2") == Some(2.0) && Number("1") == Some(1.0)
    ensures Number("1.5") == Some(1.5)
  {
    NumberOfNumeral(3);
    NumberOfNumeral(2);
    NumberOfNumeral(1);
    assert Read("1.5", Start) == Reading(false, 1, 5, 10, 2, true, false);
  }

  lemma UnitExamples()
    ensures UnitOf("second") == Some(Second) && UnitOf("hours") == Some(Hour)
    ensures UnitOf("days") == Some(Day) && UnitOf("weeks") == Some(Week)
  {
    assert "days" !in UnitWords(Second) && "days" !in UnitWords(Minute) && "days" !in UnitWords(Hour);
    assert "weeks" !in UnitWords(Second) && "weeks" !in UnitWords(Minute) && "weeks" !in UnitWords(Hour);
    assert "weeks" !in UnitWords(Day);
  }

  /** Three weeks, two days, an hour and a half and a second, as classified tokens. */
  lemma {:induction false} ThreeWeeksAndChange(ts: seq<Token>)
    requires |ts| == 8
    requires ts[0].number == Some(3.0) && ts[1].number.None? && ts[1].unit == Some(Week)
    requires ts[2].number == Some(2.0) && ts[3].number.None? && ts[3].unit == Some(Day)
    requires ts[4].number == Some(1.5) && ts[5].number.None? && ts[5].unit == Some(Hour)
    requires ts[6].number == Some(1.0) && ts[7].number.None? && ts[7].unit == Some(Second)
    ensures Total(ts, 0.0) == Success(1992601.0)
  {
    TotalPairAt(ts, 0, 0.0);
    TotalPairAt(ts, 2, 1814400.0);
    TotalPairAt(ts, 4, 1987200.0);
    TotalPairAt(ts, 6, 1992600.0);
    assert ts[0..] == ts && ts[8..] == [];
  }

  /**
   * The third example of the docstring, "3 weeks, 2 days, 1.5 hours,
   * 1 second", whose words are these tokens once the commas are gone: the
   * code adds every pair, 1992601 seconds, not the 783003 seconds of the
   * `timedelta(weeks=1, days=2, hours=1.5, seconds=3)` the docstring shows.
   */
  lemma DocstringThirdExample()
    ensures Total(Classify(["3", "weeks", "2", "days", "1.5", "hours", "1", "second"]), 0.0) == Success(1992601.0)
  {
    var t := ["3", "weeks", "2", "days", "1.5", "hours", "1", "second"];
    NumberExamples();
    UnitExamples();
    UnitsAreNotNumbers("weeks");
    UnitsAreNotNumbers("days");
    UnitsAreNotNumbers("hours");
    UnitsAreNotNumbers("second");
    ClassifyAt(t, 0); ClassifyAt(t, 1); ClassifyAt(t, 2); ClassifyAt(t, 3);
    ClassifyAt(t, 4); ClassifyAt(t, 5); ClassifyAt(t, 6); ClassifyAt(t, 7);
    ThreeWeeksAndChange(Classify(t));
  }
}
