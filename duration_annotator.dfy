/**
 * The duration annotator object: it builds its word tables once from the
 * options and then answers FindAll and ClassifyText. Both walk the tokens
 * with the same matcher, written here as loops over mutable variables and
 * proved equal to the functions of DurationScanner.
 */
module Duration {
  import opened Wrappers
  import opened Tokenization
  import opened DurationConfig
  import opened DurationScanner

  /** Enters the words of `expressions` into the table `m0`, one at a time, as names of `unit`. */
  method FillDurationUnitMap(expressions: seq<string>, unit: DurationUnit, m0: map<string, DurationUnit>)
    returns (m: map<string, DurationUnit>)
    ensures m == WithUnitWords(m0, expressions, unit)
  {
    m := m0;
    for k := 0 to |expressions|
      invariant m == WithUnitWords(m0, expressions[..k], unit)
    {
      assert expressions[..k + 1][..k] == expressions[..k];
      m := m[expressions[k] := unit];
    }
    assert expressions[..|expressions|] == expressions;
  }

  /** The unit-word table: week words first, second words last. */
  method BuildTokenToDurationUnitMapping(options: Options) returns (m: map<string, DurationUnit>)
    ensures m == TokenToDurationUnit(options)
  {
    m := FillDurationUnitMap(options.weekExpressions, Week, map[]);
    m := FillDurationUnitMap(options.dayExpressions, Day, m);
    m := FillDurationUnitMap(options.hourExpressions, Hour, m);
    m := FillDurationUnitMap(options.minuteExpressions, Minute, m);
    m := FillDurationUnitMap(options.secondExpressions, Second, m);
  }

  /**
   * Total milliseconds of the completed atoms. The walk completes an atom only
   * at a unit word, and every unit word of a table built from options names a
   * real unit (DurationProperties.ScanUnitsKnown), so an atom without a unit
   * does not reach this loop; the zero it would add is a placeholder, not a
   * meaning.
   */
  method ParsedDurationAtomsToMillis(atoms: seq<Atom>) returns (ms: nat)
    ensures ms == AtomsMillis(atoms)
  {
    ms := 0;
    for k := 0 to |atoms|
      invariant ms == AtomsMillis(atoms[..k])
    {
      assert atoms[..k + 1][..k] == atoms[..k];
      var atom := atoms[k];
      if atom.unit != Unknown {
        var value := atom.value;
        if value == 0 && !atom.plusHalf {
          value := 1;
        }
        var unitMillis := UnitMillis(atom.unit);
        ms := ms + value * unitMillis;
        if atom.plusHalf {
          ms := ms + unitMillis / 2;
        }
      }
    }
    assert atoms[..|atoms|] == atoms;
  }

  class DurationAnnotator {
    const lexicon: Lexicon

    constructor (options: Options)
      ensures lexicon == BuildLexicon(options)
    {
      var unitOf := BuildTokenToDurationUnitMapping(options);
      lexicon := Lexicon(options.enabled, unitOf, AsSet(options.fillerExpressions), AsSet(options.halfExpressions));
    }

    /**
     * Walks the tokens from `startTokenIndex`; returns the index after the
     * walk and the match, or `startTokenIndex` and no match.
     */
    method FindDurationStartingAt(tokens: seq<Token>, startTokenIndex: nat)
      returns (next: nat, result: Option<AnnotatedSpan>)
      requires startTokenIndex <= |tokens|
      ensures MatchResult(next, result) == FindDurationAt(lexicon, tokens, startTokenIndex)
    {
      var startIndex, endIndex := InvalidIndex, InvalidIndex;
      var hasQuantity := false;
      var quantityEndIndex := 0;
      var parsed := NoAtom;
      var atoms: seq<Atom> := [];
      var tokenIndex := startTokenIndex;
      while tokenIndex < |tokens|
        invariant startTokenIndex <= tokenIndex <= |tokens|
        invariant Scan(lexicon, tokens, startTokenIndex, InitialState)
               == Scan(lexicon, tokens, tokenIndex,
                       ScanState(startIndex, endIndex, hasQuantity, quantityEndIndex, parsed, atoms))
      {
        var token := tokens[tokenIndex];
        var quantity := ParseQuantityToken(lexicon, token.value);
        if quantity.Some? {
          hasQuantity := true;
          if startIndex == InvalidIndex {
            startIndex := token.start;
          }
          quantityEndIndex := token.end;
          match quantity.value {
            case HalfWord => parsed := parsed.(plusHalf := true);
            case Number(n) => parsed := parsed.(value := n);
          }
        } else {
          var unit := ParseDurationUnitToken(lexicon, token.value);
          if unit.Some? {
            if startIndex == InvalidIndex {
              startIndex := token.start;
            }
            endIndex := token.end;
            atoms := atoms + [parsed.(unit := unit.value)];
            hasQuantity := false;
            parsed := NoAtom;
          } else if !ParseFillerToken(lexicon, token.value) {
            break;
          }
        }
        tokenIndex := tokenIndex + 1;
      }

      if atoms == [] {
        return startTokenIndex, None;
      }
      var durationMs := ParsedDurationAtomsToMillis(atoms);
      // A half word after the last unit word ("and a half") adds half of that unit.
      if hasQuantity && parsed.plusHalf {
        endIndex := quantityEndIndex;
        var halfMs := ParsedDurationAtomsToMillis([HalfOf(atoms[|atoms| - 1].unit)]);
        assert [HalfOf(atoms[|atoms| - 1].unit)][..0] == [];
        durationMs := durationMs + halfMs;
      }
      next := tokenIndex;
      result := Some(AnnotatedSpan(CodepointSpan(startIndex, endIndex),
                                   [ClassificationResult(DurationCollection, durationMs)]));
    }

    /**
     * Appends to `prior` every duration found in `tokens`, left to right; the
     * walk resumes after each match. Reports success whether or not anything
     * was found, and also when the annotator is disabled.
     */
    method FindAll(tokens: seq<Token>, prior: seq<AnnotatedSpan>)
      returns (ok: bool, results: seq<AnnotatedSpan>)
      ensures ok
      ensures results == prior + FindAllSpec(lexicon, tokens)
    {
      results := prior;
      if !lexicon.enabled {
        return true, results;
      }
      var i := 0;
      while i < |tokens|
        invariant 0 <= i <= |tokens|
        invariant prior + FindAllFrom(lexicon, tokens, 0) == results + FindAllFrom(lexicon, tokens, i)
      {
        var next, span := FindDurationStartingAt(tokens, i);
        if next != i {
          results := results + [span.value];
          i := next;
        } else {
          i := i + 1;
        }
      }
      return true, results;
    }

    /**
     * Classifies the text inside `selection`: it is tokenized on its own and
     * is a duration when one match takes in all of its tokens.
     */
    method ClassifyText(context: string, selection: CodepointSpan)
      returns (classification: Option<ClassificationResult>)
      requires ValidSelection(context, selection)
      ensures classification == ClassifySpec(lexicon, context, selection)
    {
      if !lexicon.enabled {
        return None;
      }
      var tokens := Tokenize(context[selection.first..selection.second]);
      var next, span := FindDurationStartingAt(tokens, 0);
      if next != |tokens| || span.None? {
        return None;
      }
      return Some(span.value.classification[0]);
    }
  }
}
