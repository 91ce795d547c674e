/**
 * The duration matcher as functions of the word tables and the token
 * sequence. A match is found by one left-to-right walk over the tokens:
 *
 *  - a quantity token (the half word, or a number) updates the atom being
 *    built and opens the match if it is not open yet;
 *  - a unit word completes the atom, appends it to the match, opens the match
 *    if needed and moves its end to the end of the unit word;
 *  - a filler is passed over without opening the match or moving its end;
 *  - any other token ends the walk.
 *
 * A half word left over after the last unit word adds half of that unit and
 * moves the end of the match to the last quantity token ("an hour and a half").
 */
module DurationScanner {
  import opened Wrappers
  import opened Tokenization
  import opened DurationConfig

  /** One unit of a duration with its quantity: `value` whole units, plus half a unit if `plusHalf`. */
  datatype Atom = Atom(unit: DurationUnit, value: nat, plusHalf: bool)

  const NoAtom := Atom(Unknown, 0, false)

  /** A half-open codepoint range [first, second). */
  datatype CodepointSpan = CodepointSpan(first: int, second: int)

  const DurationCollection := "duration"

  datatype ClassificationResult = ClassificationResult(collection: string, durationMs: int)

  datatype AnnotatedSpan = AnnotatedSpan(span: CodepointSpan, classification: seq<ClassificationResult>)

  const InvalidIndex := -1

  /**
   * The variables of the walk: where the match starts and ends (InvalidIndex
   * while unset), whether a quantity was read since the last unit word and
   * where it ends, the atom being built, and the atoms completed so far.
   */
  datatype ScanState = ScanState(
    startIndex: int,
    endIndex: int,
    hasQuantity: bool,
    quantityEndIndex: int,
    parsed: Atom,
    atoms: seq<Atom>)

  const InitialState := ScanState(InvalidIndex, InvalidIndex, false, 0, NoAtom, [])

  function ApplyQuantity(a: Atom, q: Quantity): Atom {
    match q
    case HalfWord => a.(plusHalf := true)
    case Number(n) => a.(value := n)
  }

  /** One step of the walk over token `t`; None ends the walk before `t`. */
  function Step(lex: Lexicon, s: ScanState, t: Token): Option<ScanState> {
    var start := if s.startIndex == InvalidIndex then t.start else s.startIndex;
    match ParseQuantityToken(lex, t.value)
    case Some(q) =>
      Some(s.(startIndex := start, hasQuantity := true, quantityEndIndex := t.end,
              parsed := ApplyQuantity(s.parsed, q)))
    case None =>
      match ParseDurationUnitToken(lex, t.value)
      case Some(u) =>
        Some(s.(startIndex := start, endIndex := t.end, atoms := s.atoms + [s.parsed.(unit := u)],
                hasQuantity := false, parsed := NoAtom))
      case None =>
        if ParseFillerToken(lex, t.value) then Some(s) else None
  }

  /** The walk from token `i` in state `s`: the index it stops at and the final state. */
  function Scan(lex: Lexicon, tokens: seq<Token>, i: nat, s: ScanState): (r: (nat, ScanState))
    requires i <= |tokens|
    ensures i <= r.0 <= |tokens|
    ensures r.0 == i ==> r.1 == s
    decreases |tokens| - i
  {
    if i == |tokens| then (i, s)
    else match Step(lex, s, tokens[i])
      case None => (i, s)
      case Some(s') => Scan(lex, tokens, i + 1, s')
  }

  /**
   * Quantity of an atom in half units. An atom whose value is 0 and that has
   * no half counts as one unit; a value of 0 is also what a number token "0"
   * sets, so "0 minutes" counts as one minute.
   */
  function AtomHalves(a: Atom): nat {
    2 * (if a.value == 0 && !a.plusHalf then 1 else a.value) + (if a.plusHalf then 1 else 0)
  }

  /**
   * Milliseconds of one atom: whole units, plus half a unit when `plusHalf`.
   * Completed atoms always have a unit (DurationProperties.ScanUnitsKnown);
   * the zero for an atom without one is a placeholder for a case that does not
   * arise.
   */
  function AtomMillis(a: Atom): nat {
    if a.unit == Unknown then 0
    else
      (if a.value == 0 && !a.plusHalf then 1 else a.value) * UnitMillis(a.unit)
      + (if a.plusHalf then UnitMillis(a.unit) / 2 else 0)
  }

  /** Milliseconds of a list of atoms, summed from the first. */
  function AtomsMillis(atoms: seq<Atom>): nat {
    if atoms == [] then 0
    else AtomsMillis(atoms[..|atoms| - 1]) + AtomMillis(atoms[|atoms| - 1])
  }

  /** The half unit a trailing "and a half" adds. */
  function HalfOf(u: DurationUnit): Atom {
    Atom(u, 0, true)
  }

  /** The result of looking for a match at one token: the index after it (or the same index) and the match. */
  datatype MatchResult = MatchResult(next: nat, span: Option<AnnotatedSpan>)

  /** The duration match that starts at token `i`, if there is one. */
  function FindDurationAt(lex: Lexicon, tokens: seq<Token>, i: nat): (m: MatchResult)
    requires i <= |tokens|
    ensures i <= m.next <= |tokens|
    ensures m.next == i <==> m.span.None?
    ensures m.span.Some? ==>
      |m.span.value.classification| == 1 && m.span.value.classification[0].collection == DurationCollection
  {
    var (next, s) := Scan(lex, tokens, i, InitialState);
    if s.atoms == [] then MatchResult(i, None)
    else
      var halfSuffix := s.hasQuantity && s.parsed.plusHalf;
      var endIndex := if halfSuffix then s.quantityEndIndex else s.endIndex;
      var ms := AtomsMillis(s.atoms)
        + (if halfSuffix then AtomMillis(HalfOf(s.atoms[|s.atoms| - 1].unit)) else 0);
      MatchResult(next, Some(AnnotatedSpan(CodepointSpan(s.startIndex, endIndex),
                                           [ClassificationResult(DurationCollection, ms)])))
  }

  /** Every match from token `i` on, left to right, resuming after each match. */
  function FindAllFrom(lex: Lexicon, tokens: seq<Token>, i: nat): seq<AnnotatedSpan>
    requires i <= |tokens|
    decreases |tokens| - i
  {
    if i == |tokens| then []
    else
      var m := FindDurationAt(lex, tokens, i);
      if m.next != i then [m.span.value] + FindAllFrom(lex, tokens, m.next)
      else FindAllFrom(lex, tokens, i + 1)
  }

  /** All matches in a token sequence; none when the annotator is disabled. */
  function FindAllSpec(lex: Lexicon, tokens: seq<Token>): seq<AnnotatedSpan> {
    if !lex.enabled then [] else FindAllFrom(lex, tokens, 0)
  }

  predicate ValidSelection(context: string, selection: CodepointSpan) {
    0 <= selection.first <= selection.second <= |context|
  }

  /**
   * Classification of a selection: the selected text alone is tokenized, and
   * it is a duration when one match starts at its first token and takes in
   * all of its tokens.
   */
  function ClassifySpec(lex: Lexicon, context: string, selection: CodepointSpan): Option<ClassificationResult>
    requires ValidSelection(context, selection)
  {
    if !lex.enabled then None
    else
      var tokens := Tokenize(context[selection.first..selection.second]);
      var m := FindDurationAt(lex, tokens, 0);
      if m.next == |tokens| && m.span.Some? then Some(m.span.value.classification[0]) else None
  }
}
