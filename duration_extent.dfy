/**
 * Which tokens a match is made of, stated by reference functions over the
 * token sequence rather than by the walk's variables: the span runs from the
 * first quantity or unit word the walk takes in to the last unit word, or to
 * the last quantity word after it when a half word follows that unit word; the
 * match's groups, read off the tokens, are one per unit word, each holding the
 * last number and any half word since the previous unit word; its
 * milliseconds are those groups' half units times half their unit, plus half
 * of the last unit for a trailing half word.
 */
module DurationExtent {
  import opened Wrappers
  import opened Tokenization
  import opened DurationConfig
  import opened DurationScanner
  import opened DurationProperties

  predicate IsQuantity(lex: Lexicon, w: string) {
    ParseQuantityToken(lex, w).Some?
  }

  predicate IsHalf(lex: Lexicon, w: string) {
    ParseQuantityToken(lex, w) == Some(HalfWord)
  }

  predicate IsNumber(lex: Lexicon, w: string) {
    ParseQuantityToken(lex, w).Some? && ParseQuantityToken(lex, w).value.Number?
  }

  /** A word the walk reads as a unit word: one that names a unit and is not read as a quantity. */
  predicate IsUnitWord(lex: Lexicon, w: string) {
    ParseQuantityToken(lex, w).None? && ParseDurationUnitToken(lex, w).Some?
  }

  /** The first quantity or unit word among tokens lo .. j-1. */
  function FirstKeyWord(lex: Lexicon, tokens: seq<Token>, lo: nat, j: nat): (r: Option<nat>)
    requires lo <= j <= |tokens|
    ensures r.Some? ==>
      && lo <= r.value < j && IsQuantityOrUnit(lex, tokens[r.value].value)
      && forall k :: lo <= k < r.value ==> !IsQuantityOrUnit(lex, tokens[k].value)
    ensures r.None? ==> forall k :: lo <= k < j ==> !IsQuantityOrUnit(lex, tokens[k].value)
    decreases j - lo
  {
    if j == lo then None
    else match FirstKeyWord(lex, tokens, lo, j - 1)
      case Some(f) => Some(f)
      case None => if IsQuantityOrUnit(lex, tokens[j - 1].value) then Some(j - 1) else None
  }

  /** The last unit word among tokens lo .. j-1. */
  function LastUnitWord(lex: Lexicon, tokens: seq<Token>, lo: nat, j: nat): (r: Option<nat>)
    requires lo <= j <= |tokens|
    ensures r.Some? ==>
      && lo <= r.value < j && IsUnitWord(lex, tokens[r.value].value)
      && forall k :: r.value < k < j ==> !IsUnitWord(lex, tokens[k].value)
    ensures r.None? ==> forall k :: lo <= k < j ==> !IsUnitWord(lex, tokens[k].value)
    decreases j - lo
  {
    if j == lo then None
    else if IsUnitWord(lex, tokens[j - 1].value) then Some(j - 1)
    else LastUnitWord(lex, tokens, lo, j - 1)
  }

  /** The last quantity word among tokens lo .. j-1. */
  function LastQuantity(lex: Lexicon, tokens: seq<Token>, lo: nat, j: nat): (r: Option<nat>)
    requires lo <= j <= |tokens|
    ensures r.Some? ==>
      && lo <= r.value < j && IsQuantity(lex, tokens[r.value].value)
      && forall k :: r.value < k < j ==> !IsQuantity(lex, tokens[k].value)
    ensures r.None? ==> forall k :: lo <= k < j ==> !IsQuantity(lex, tokens[k].value)
    decreases j - lo
  {
    if j == lo then None
    else if IsQuantity(lex, tokens[j - 1].value) then Some(j - 1)
    else LastQuantity(lex, tokens, lo, j - 1)
  }

  /** The last number among tokens lo .. j-1. */
  function LastNumberAt(lex: Lexicon, tokens: seq<Token>, lo: nat, j: nat): (r: Option<nat>)
    requires lo <= j <= |tokens|
    ensures r.Some? ==>
      && lo <= r.value < j && IsNumber(lex, tokens[r.value].value)
      && forall k :: r.value < k < j ==> !IsNumber(lex, tokens[k].value)
    ensures r.None? ==> forall k :: lo <= k < j ==> !IsNumber(lex, tokens[k].value)
    decreases j - lo
  {
    if j == lo then None
    else if IsNumber(lex, tokens[j - 1].value) then Some(j - 1)
    else LastNumberAt(lex, tokens, lo, j - 1)
  }

  /** The value of the last number among tokens lo .. j-1, or 0 when there is none. */
  function LastNumber(lex: Lexicon, tokens: seq<Token>, lo: nat, j: nat): nat
    requires lo <= j <= |tokens|
  {
    match LastNumberAt(lex, tokens, lo, j)
    case None => 0
    case Some(k) => ParseQuantityToken(lex, tokens[k].value).value.n
  }

  /** Whether a half word is among tokens lo .. j-1. */
  function HasHalf(lex: Lexicon, tokens: seq<Token>, lo: nat, j: nat): (r: bool)
    requires lo <= j <= |tokens|
    ensures r <==> exists h :: lo <= h < j && IsHalf(lex, tokens[h].value)
    decreases j - lo
  {
    if j == lo then false
    else IsHalf(lex, tokens[j - 1].value) || HasHalf(lex, tokens, lo, j - 1)
  }

  /** How many unit words are among tokens lo .. j-1. */
  function CountUnitWords(lex: Lexicon, tokens: seq<Token>, lo: nat, j: nat): (r: nat)
    requires lo <= j <= |tokens|
    ensures r <= j - lo
    ensures r == 0 <==> LastUnitWord(lex, tokens, lo, j).None?
    decreases j - lo
  {
    if j == lo then 0
    else CountUnitWords(lex, tokens, lo, j - 1) + (if IsUnitWord(lex, tokens[j - 1].value) then 1 else 0)
  }

  /** The first token after the last unit word of tokens i .. j-1, or i when there is none. */
  function AfterLastUnit(lex: Lexicon, tokens: seq<Token>, i: nat, j: nat): (r: nat)
    requires i <= j <= |tokens|
    ensures i <= r <= j
  {
    match LastUnitWord(lex, tokens, i, j)
    case None => i
    case Some(b) => b + 1
  }

  /**
   * The groups of tokens i .. j-1: one per unit word, in order. Each has that
   * word's unit, the value of the last number since the previous unit word
   * (0 when there is none) and whether a half word was said since the
   * previous unit word.
   */
  function Groups(lex: Lexicon, tokens: seq<Token>, i: nat, j: nat): (r: seq<Atom>)
    requires i <= j <= |tokens|
    ensures |r| == CountUnitWords(lex, tokens, i, j)
    ensures LastUnitWord(lex, tokens, i, j).Some? ==>
      r[|r| - 1].unit == lex.unitOf[tokens[LastUnitWord(lex, tokens, i, j).value].value]
    decreases j
  {
    if j == i then []
    else if IsUnitWord(lex, tokens[j - 1].value) then
      var lo := AfterLastUnit(lex, tokens, i, j - 1);
      Groups(lex, tokens, i, j - 1)
        + [Atom(lex.unitOf[tokens[j - 1].value], LastNumber(lex, tokens, lo, j - 1), HasHalf(lex, tokens, lo, j - 1))]
    else Groups(lex, tokens, i, j - 1)
  }

  /** The sum over atoms of their half units times their unit's milliseconds. */
  function HalfUnitMillis(atoms: seq<Atom>): nat {
    if atoms == [] then 0
    else
      var a := atoms[|atoms| - 1];
      HalfUnitMillis(atoms[..|atoms| - 1]) + AtomHalves(a) * UnitMillis(a.unit)
  }

  /** The walk's variables after it took in tokens i .. j-1, as functions of those tokens. */
  predicate ExtentInv(lex: Lexicon, tokens: seq<Token>, i: nat, j: nat, s: ScanState)
    requires i <= j <= |tokens|
  {
    var last := LastUnitWord(lex, tokens, i, j);
    var lo := AfterLastUnit(lex, tokens, i, j);
    && s.startIndex == (match FirstKeyWord(lex, tokens, i, j)
                        case None => InvalidIndex
                        case Some(f) => tokens[f].start)
    && s.atoms == Groups(lex, tokens, i, j)
    && (last.Some? ==> s.endIndex == tokens[last.value].end)
    && (s.hasQuantity <==> LastQuantity(lex, tokens, lo, j).Some?)
    && (LastQuantity(lex, tokens, lo, j).Some? ==>
          s.quantityEndIndex == tokens[LastQuantity(lex, tokens, lo, j).value].end)
    && s.parsed.value == LastNumber(lex, tokens, lo, j)
    && (s.parsed.plusHalf <==> HasHalf(lex, tokens, lo, j))
  }

  lemma StepKeepsExtentQuantity(lex: Lexicon, tokens: seq<Token>, i: nat, j: nat, s: ScanState)
    requires i <= j < |tokens| && ExtentInv(lex, tokens, i, j, s)
    requires ParseQuantityToken(lex, tokens[j].value).Some?
    ensures Step(lex, s, tokens[j]).Some? && ExtentInv(lex, tokens, i, j + 1, Step(lex, s, tokens[j]).value)
  {
    var lo := AfterLastUnit(lex, tokens, i, j);
    assert LastUnitWord(lex, tokens, i, j + 1) == LastUnitWord(lex, tokens, i, j);
    assert AfterLastUnit(lex, tokens, i, j + 1) == lo;
    assert LastQuantity(lex, tokens, lo, j + 1) == Some(j);
    assert HasHalf(lex, tokens, lo, j + 1) == (IsHalf(lex, tokens[j].value) || HasHalf(lex, tokens, lo, j));
    assert Groups(lex, tokens, i, j + 1) == Groups(lex, tokens, i, j);
    if IsNumber(lex, tokens[j].value) {
      assert LastNumberAt(lex, tokens, lo, j + 1) == Some(j);
    } else {
      assert LastNumberAt(lex, tokens, lo, j + 1) == LastNumberAt(lex, tokens, lo, j);
    }
  }

  lemma StepKeepsExtentUnit(lex: Lexicon, tokens: seq<Token>, i: nat, j: nat, s: ScanState)
    requires i <= j < |tokens| && ExtentInv(lex, tokens, i, j, s)
    requires IsUnitWord(lex, tokens[j].value)
    ensures Step(lex, s, tokens[j]).Some? && ExtentInv(lex, tokens, i, j + 1, Step(lex, s, tokens[j]).value)
  {
    var s' := Step(lex, s, tokens[j]).value;
    var lo := AfterLastUnit(lex, tokens, i, j);
    assert LastUnitWord(lex, tokens, i, j + 1) == Some(j);
    assert AfterLastUnit(lex, tokens, i, j + 1) == j + 1;
    var group := Atom(lex.unitOf[tokens[j].value], LastNumber(lex, tokens, lo, j), HasHalf(lex, tokens, lo, j));
    assert s.parsed.(unit := lex.unitOf[tokens[j].value]) == group;
    assert Groups(lex, tokens, i, j + 1) == Groups(lex, tokens, i, j) + [group];
    assert s'.atoms == s.atoms + [group];
  }

  lemma StepKeepsExtentFiller(lex: Lexicon, tokens: seq<Token>, i: nat, j: nat, s: ScanState)
    requires i <= j < |tokens| && ExtentInv(lex, tokens, i, j, s)
    requires !IsQuantityOrUnit(lex, tokens[j].value) && ParseFillerToken(lex, tokens[j].value)
    ensures Step(lex, s, tokens[j]) == Some(s) && ExtentInv(lex, tokens, i, j + 1, s)
  {
    var lo := AfterLastUnit(lex, tokens, i, j);
    assert LastUnitWord(lex, tokens, i, j + 1) == LastUnitWord(lex, tokens, i, j);
    assert AfterLastUnit(lex, tokens, i, j + 1) == lo;
    assert LastQuantity(lex, tokens, lo, j + 1) == LastQuantity(lex, tokens, lo, j);
    assert HasHalf(lex, tokens, lo, j + 1) == HasHalf(lex, tokens, lo, j);
    assert LastNumberAt(lex, tokens, lo, j + 1) == LastNumberAt(lex, tokens, lo, j);
    assert Groups(lex, tokens, i, j + 1) == Groups(lex, tokens, i, j);
  }

  lemma {:induction false} ScanKeepsExtent(lex: Lexicon, tokens: seq<Token>, i: nat, j: nat, s: ScanState)
    requires i <= j <= |tokens| && ExtentInv(lex, tokens, i, j, s)
    ensures var r := Scan(lex, tokens, j, s); ExtentInv(lex, tokens, i, r.0, r.1)
    decreases |tokens| - j
  {
    if j < |tokens| && Step(lex, s, tokens[j]).Some? {
      StepKeepsExtent(lex, tokens, i, j, s);
      var s' := Step(lex, s, tokens[j]).value;
      ScanKeepsExtent(lex, tokens, i, j + 1, s');
      assert Scan(lex, tokens, j, s) == Scan(lex, tokens, j + 1, s');
    }
  }

  /** Any step the walk takes keeps the invariant. */
  lemma StepKeepsExtent(lex: Lexicon, tokens: seq<Token>, i: nat, j: nat, s: ScanState)
    requires i <= j < |tokens| && ExtentInv(lex, tokens, i, j, s)
    requires Step(lex, s, tokens[j]).Some?
    ensures ExtentInv(lex, tokens, i, j + 1, Step(lex, s, tokens[j]).value)
  {
    var t := tokens[j];
    if ParseQuantityToken(lex, t.value).Some? {
      StepKeepsExtentQuantity(lex, tokens, i, j, s);
    } else if ParseDurationUnitToken(lex, t.value).Some? {
      StepKeepsExtentUnit(lex, tokens, i, j, s);
    } else {
      StepKeepsExtentFiller(lex, tokens, i, j, s);
    }
  }

  /** Doubled, the milliseconds of atoms are their half-unit milliseconds: nothing is rounded. */
  lemma {:induction false} AtomsMillisInHalves(atoms: seq<Atom>)
    ensures 2 * AtomsMillis(atoms) == HalfUnitMillis(atoms)
    decreases |atoms|
  {
    if atoms != [] {
      AtomsMillisInHalves(atoms[..|atoms| - 1]);
      AtomMillisInHalves(atoms[|atoms| - 1]);
    }
  }

  /**
   * A match is the union of its groups. There is a match exactly when the walk
   * from token i takes in a unit word, and then the match ends where the walk
   * stops. Its span starts at the first quantity or unit word taken in; it
   * ends at the last unit word, or, when a half word follows that unit word,
   * at the last quantity word after it. Its groups are `Groups` of the tokens
   * taken in: one per unit word, each with that word's unit, the last number
   * and any half word since the previous unit word. Twice its milliseconds are
   * the groups' half units times their units, plus the last unit for a
   * trailing half word.
   */
  lemma MatchIsUnionOfGroups(lex: Lexicon, tokens: seq<Token>, i: nat)
    requires i <= |tokens|
    ensures var stop := Scan(lex, tokens, i, InitialState).0;
      var groups := Groups(lex, tokens, i, Scan(lex, tokens, i, InitialState).0);
      var m := FindDurationAt(lex, tokens, i);
      && (m.span.Some? <==> LastUnitWord(lex, tokens, i, stop).Some?)
      && (m.span.Some? ==>
            var b := LastUnitWord(lex, tokens, i, stop).value;
            var half := HasHalf(lex, tokens, b + 1, stop);
            var span := m.span.value.span;
            && m.next == stop
            && FirstKeyWord(lex, tokens, i, stop).Some?
            && span.first == tokens[FirstKeyWord(lex, tokens, i, stop).value].start
            && (!half ==> span.second == tokens[b].end)
            && (half ==> LastQuantity(lex, tokens, b + 1, stop).Some?
                         && span.second == tokens[LastQuantity(lex, tokens, b + 1, stop).value].end)
            && 2 * m.span.value.classification[0].durationMs
               == HalfUnitMillis(groups) + (if half then UnitMillis(lex.unitOf[tokens[b].value]) else 0))
  {
    var r := Scan(lex, tokens, i, InitialState);
    assert ExtentInv(lex, tokens, i, i, InitialState);
    ScanKeepsExtent(lex, tokens, i, i, InitialState);
    MatchMillisInHalves(lex, tokens, i);
  }

  /** Twice the milliseconds of a match are its groups' half units times their units, plus a trailing half. */
  lemma MatchMillisInHalves(lex: Lexicon, tokens: seq<Token>, i: nat)
    requires i <= |tokens|
    ensures var s := Scan(lex, tokens, i, InitialState).1;
      var m := FindDurationAt(lex, tokens, i);
      m.span.Some? ==>
        s.atoms != []
        && 2 * m.span.value.classification[0].durationMs
           == HalfUnitMillis(s.atoms)
              + (if s.hasQuantity && s.parsed.plusHalf then UnitMillis(s.atoms[|s.atoms| - 1].unit) else 0)
  {
    var s := Scan(lex, tokens, i, InitialState).1;
    AtomsMillisInHalves(s.atoms);
    if s.atoms != [] {
      AtomMillisInHalves(HalfOf(s.atoms[|s.atoms| - 1].unit));
    }
  }
}
