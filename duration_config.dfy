/**
 * The configuration of the duration annotator and the word tables built from
 * it: which token texts name a unit (week, day, hour, minute, second), which
 * are fillers and which say "half".
 */
module DurationConfig {
  import opened Wrappers

  /** The units a duration is made of; Unknown is the unit of an atom not yet completed. */
  datatype DurationUnit = Unknown | Week | Day | Hour | Minute | Second

  /** Milliseconds in one unit. */
  function UnitMillis(u: DurationUnit): nat {
    match u
    case Week => 7 * 24 * 60 * 60 * 1000
    case Day => 24 * 60 * 60 * 1000
    case Hour => 60 * 60 * 1000
    case Minute => 60 * 1000
    case Second => 1000
    case Unknown => 0
  }

  /** The options of the annotator: an enabled flag and the configured word lists. */
  datatype Options = Options(
    enabled: bool,
    weekExpressions: seq<string>,
    dayExpressions: seq<string>,
    hourExpressions: seq<string>,
    minuteExpressions: seq<string>,
    secondExpressions: seq<string>,
    fillerExpressions: seq<string>,
    halfExpressions: seq<string>)

  /** The options the duration tests configure. */
  function TestingOptions(): Options {
    Options(
      enabled := true,
      weekExpressions := ["week", "weeks"],
      dayExpressions := ["day", "days"],
      hourExpressions := ["hour", "hours"],
      minuteExpressions := ["minute", "minutes"],
      secondExpressions := ["second", "seconds"],
      fillerExpressions := ["and", "a", "an", "one"],
      halfExpressions := ["half"])
  }

  /** The tables the annotator looks token texts up in. */
  datatype Lexicon = Lexicon(
    enabled: bool,
    unitOf: map<string, DurationUnit>,
    fillers: set<string>,
    halves: set<string>)

  function AsSet(words: seq<string>): (r: set<string>)
    ensures forall w :: w in r <==> w in words
  {
    set w | w in words
  }

  /**
   * Enters every word of `expressions`, in order, into `m` as a name of `unit`;
   * an entry already in `m` for the same word is overwritten.
   */
  function WithUnitWords(m: map<string, DurationUnit>, expressions: seq<string>, unit: DurationUnit)
    : (r: map<string, DurationUnit>)
    ensures r.Keys == m.Keys + AsSet(expressions)
    ensures forall w :: w in expressions ==> r[w] == unit
    ensures forall w :: w in m && w !in expressions ==> r[w] == m[w]
    decreases |expressions|
  {
    if expressions == [] then m
    else
      var init := expressions[..|expressions| - 1];
      var last := expressions[|expressions| - 1];
      assert expressions == init + [last];
      WithUnitWords(m, init, unit)[last := unit]
  }

  /**
   * The unit a word names when the lists are entered week first and second
   * last: the last list that holds the word wins.
   */
  function LastListedUnit(o: Options, w: string): DurationUnit {
    if w in o.secondExpressions then Second
    else if w in o.minuteExpressions then Minute
    else if w in o.hourExpressions then Hour
    else if w in o.dayExpressions then Day
    else if w in o.weekExpressions then Week
    else Unknown
  }

  /** The map from unit words to units, built list by list. */
  function TokenToDurationUnit(o: Options): (r: map<string, DurationUnit>)
    ensures forall w :: w in r <==> LastListedUnit(o, w) != Unknown
    ensures forall w :: w in r ==> r[w] == LastListedUnit(o, w)
  {
    var weeks := WithUnitWords(map[], o.weekExpressions, Week);
    var days := WithUnitWords(weeks, o.dayExpressions, Day);
    var hours := WithUnitWords(days, o.hourExpressions, Hour);
    var minutes := WithUnitWords(hours, o.minuteExpressions, Minute);
    WithUnitWords(minutes, o.secondExpressions, Second)
  }

  /** Every unit word names a real unit. */
  predicate WellFormed(lex: Lexicon) {
    forall w :: w in lex.unitOf ==> lex.unitOf[w] != Unknown
  }

  /**
   * The word tables of an annotator constructed with options `o`: a word is a
   * unit word when some unit list holds it, a filler or half word when the
   * filler or half list holds it.
   */
  function BuildLexicon(o: Options): (lex: Lexicon)
    ensures WellFormed(lex)
    ensures lex.enabled == o.enabled
    ensures forall w :: w in lex.unitOf <==>
      w in o.weekExpressions || w in o.dayExpressions || w in o.hourExpressions
      || w in o.minuteExpressions || w in o.secondExpressions
    ensures forall w :: w in lex.fillers <==> w in o.fillerExpressions
    ensures forall w :: w in lex.halves <==> w in o.halfExpressions
  {
    Lexicon(o.enabled, TokenToDurationUnit(o), AsSet(o.fillerExpressions), AsSet(o.halfExpressions))
  }

  /** What a quantity token contributes: the half word, or a whole number. */
  datatype Quantity = HalfWord | Number(n: nat)

  predicate IsDigit(c: char) {
    '0' <= c <= '9'
  }

  predicate AllDigits(s: string) {
    forall k :: 0 <= k < |s| ==> IsDigit(s[k])
  }

  /** Value of a string of decimal digits, most significant first. */
  function DigitsValue(s: string): nat
    requires AllDigits(s)
  {
    if s == [] then 0
    else DigitsValue(s[..|s| - 1]) * 10 + (s[|s| - 1] as int - '0' as int)
  }

  /** A whole number written in decimal digits; anything else is not a number. */
  function ParseDecimal(s: string): (r: Option<nat>)
    ensures r.Some? <==> s != [] && AllDigits(s)
    ensures r.Some? ==> r.value == DigitsValue(s)
  {
    if s != [] && AllDigits(s) then Some(DigitsValue(s)) else None
  }

  /** The digit for a value below ten. */
  function Digit(d: nat): (c: char)
    requires d < 10
    ensures IsDigit(c) && c as int - '0' as int == d
  {
    ('0' as int + d) as char
  }

  /** The decimal writing of `n`, most significant digit first, without leading zeros. */
  function DecimalString(n: nat): (s: string)
    ensures s != [] && AllDigits(s)
    ensures |s| > 1 ==> s[0] != '0'
    decreases n
  {
    if n < 10 then [Digit(n)] else DecimalString(n / 10) + [Digit(n % 10)]
  }

  /** Reading back the decimal writing of a number gives that number. */
  lemma {:induction false} ParseDecimalString(n: nat)
    ensures ParseDecimal(DecimalString(n)) == Some(n)
    decreases n
  {
    var s := DecimalString(n);
    if n < 10 {
      assert s[..0] == [];
    } else {
      ParseDecimalString(n / 10);
      assert s[..|s| - 1] == DecimalString(n / 10);
      assert s[|s| - 1] as int - '0' as int == n % 10;
      assert DigitsValue(s) == (n / 10) * 10 + n % 10;
    }
  }

  /** A leading zero does not change the value of a number. */
  lemma {:induction false} ParseDecimalLeadingZero(s: string)
    requires s != [] && AllDigits(s)
    ensures ParseDecimal("0" + s) == ParseDecimal(s)
    decreases |s|
  {
    var z := "0" + s;
    assert AllDigits(z) by {
      forall k | 0 <= k < |z| ensures IsDigit(z[k]) {
        if k > 0 { assert z[k] == s[k - 1]; }
      }
    }
    assert z[..|z| - 1] == "0" + s[..|s| - 1];
    if |s| == 1 {
      assert DigitsValue(z[..|z| - 1]) == 0 by {
        assert z[..|z| - 1] == "0";
        assert "0"[..0] == [];
      }
    } else {
      ParseDecimalLeadingZero(s[..|s| - 1]);
    }
  }

  /**
   * A quantity token: a half word, or else a number. A word that is both a
   * half word and a number is read as a half word.
   */
  function ParseQuantityToken(lex: Lexicon, w: string): (r: Option<Quantity>)
    ensures r == Some(HalfWord) <==> w != [] && w in lex.halves
    ensures (r.Some? && r.value.Number?) <==> w !in lex.halves && ParseDecimal(w).Some?
    ensures r.Some? && r.value.Number? ==> AllDigits(w) && r.value.n == DigitsValue(w)
  {
    if w == [] then None
    else if w in lex.halves then Some(HalfWord)
    else match ParseDecimal(w)
      case Some(n) => Some(Number(n))
      case None => None
  }

  function ParseDurationUnitToken(lex: Lexicon, w: string): Option<DurationUnit> {
    if w in lex.unitOf then Some(lex.unitOf[w]) else None
  }

  predicate ParseFillerToken(lex: Lexicon, w: string) {
    w in lex.fillers
  }

  /**
   * The three token parsers of an annotator built from options `o`: a word is
   * a unit word naming exactly the unit of the last unit list holding it, a
   * filler exactly when the filler list holds it, and a half quantity exactly
   * when the half list holds it; any number reads as itself.
   */
  lemma TokenParsersOfOptions(o: Options, w: string, n: nat)
    ensures ParseDurationUnitToken(BuildLexicon(o), w).Some? <==> LastListedUnit(o, w) != Unknown
    ensures ParseDurationUnitToken(BuildLexicon(o), w).Some? ==>
      ParseDurationUnitToken(BuildLexicon(o), w).value == LastListedUnit(o, w)
    ensures ParseFillerToken(BuildLexicon(o), w) <==> w in o.fillerExpressions
    ensures ParseQuantityToken(BuildLexicon(o), w) == Some(HalfWord) <==> w != [] && w in o.halfExpressions
    ensures DecimalString(n) !in o.halfExpressions ==>
      ParseQuantityToken(BuildLexicon(o), DecimalString(n)) == Some(Number(n))
  {
    ParseDecimalString(n);
  }
}
