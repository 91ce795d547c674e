/**
 * What the matcher guarantees for every token sequence: a match begins and
 * ends on a quantity or unit word (never on a filler), takes in only
 * recognized words and stops at the first word it does not recognize, and
 * FindAll reports matches in increasing, non-overlapping order.
 */
module DurationProperties {
  import opened Wrappers
  import opened Tokenization
  import opened DurationConfig
  import opened DurationScanner

  /** A word that can begin or end a match: a quantity or a unit word. */
  predicate IsQuantityOrUnit(lex: Lexicon, w: string) {
    ParseQuantityToken(lex, w).Some? || ParseDurationUnitToken(lex, w).Some?
  }

  /** A word the matcher takes in: a quantity, a unit word or a filler. */
  predicate Recognized(lex: Lexicon, w: string) {
    IsQuantityOrUnit(lex, w) || ParseFillerToken(lex, w)
  }

  /** What holds of the walk's state after it took in tokens i .. j-1. */
  predicate ScanInv(lex: Lexicon, tokens: seq<Token>, i: nat, j: nat, s: ScanState) {
    && i <= j <= |tokens|
    && (s.startIndex == InvalidIndex ==> s.atoms == [] && !s.hasQuantity)
    && (s.startIndex != InvalidIndex ==>
          exists a :: i <= a < j && tokens[a].start == s.startIndex && IsQuantityOrUnit(lex, tokens[a].value))
    && (s.atoms != [] ==>
          && s.startIndex != InvalidIndex && s.startIndex <= s.endIndex
          && exists b :: i <= b < j && tokens[b].end == s.endIndex && IsQuantityOrUnit(lex, tokens[b].value))
    && (s.hasQuantity ==>
          && s.startIndex != InvalidIndex && s.startIndex <= s.quantityEndIndex
          && exists c :: i <= c < j && tokens[c].end == s.quantityEndIndex && IsQuantityOrUnit(lex, tokens[c].value))
  }

  lemma StepRecognizes(lex: Lexicon, s: ScanState, t: Token)
    ensures Step(lex, s, t).Some? <==> Recognized(lex, t.value)
  {
  }

  lemma StepPreservesInv(lex: Lexicon, tokens: seq<Token>, i: nat, j: nat, s: ScanState)
    requires Sorted(tokens)
    requires j < |tokens| && ScanInv(lex, tokens, i, j, s)
    requires Step(lex, s, tokens[j]).Some?
    ensures ScanInv(lex, tokens, i, j + 1, Step(lex, s, tokens[j]).value)
  {
    var t := tokens[j];
    var s' := Step(lex, s, t).value;
    StepRecognizes(lex, s, t);
    if s.startIndex != InvalidIndex {
      var a :| i <= a < j && tokens[a].start == s.startIndex && IsQuantityOrUnit(lex, tokens[a].value);
      assert tokens[a].start <= tokens[a].end <= t.start <= t.end;
      assert s'.startIndex == s.startIndex;
    } else {
      assert IsQuantityOrUnit(lex, t.value) ==> s'.startIndex == tokens[j].start;
    }
    if ParseQuantityToken(lex, t.value).Some? {
      assert s'.quantityEndIndex == tokens[j].end;
      assert s'.atoms == s.atoms && s'.endIndex == s.endIndex;
    } else if ParseDurationUnitToken(lex, t.value).Some? {
      assert s'.endIndex == tokens[j].end;
    } else {
      assert s' == s;
    }
  }

  lemma {:induction false} ScanKeepsInv(lex: Lexicon, tokens: seq<Token>, i: nat, j: nat, s: ScanState)
    requires Sorted(tokens)
    requires ScanInv(lex, tokens, i, j, s)
    ensures ScanInv(lex, tokens, i, Scan(lex, tokens, j, s).0, Scan(lex, tokens, j, s).1)
    decreases |tokens| - j
  {
    if j < |tokens| {
      match Step(lex, s, tokens[j])
      case None =>
        assert Scan(lex, tokens, j, s) == (j, s);
      case Some(s') =>
        StepPreservesInv(lex, tokens, i, j, s);
        ScanKeepsInv(lex, tokens, i, j + 1, s');
        assert Scan(lex, tokens, j, s) == Scan(lex, tokens, j + 1, s');
    }
  }

  /**
   * The walk takes in only words it recognizes, and stops only at the end of
   * the tokens or at a word it does not recognize.
   */
  lemma {:induction false} ScanStops(lex: Lexicon, tokens: seq<Token>, j: nat, s: ScanState)
    requires j <= |tokens|
    ensures forall k :: j <= k < Scan(lex, tokens, j, s).0 ==> Recognized(lex, tokens[k].value)
    ensures Scan(lex, tokens, j, s).0 < |tokens| ==>
      !Recognized(lex, tokens[Scan(lex, tokens, j, s).0].value)
    decreases |tokens| - j
  {
    if j < |tokens| {
      StepRecognizes(lex, s, tokens[j]);
      if Step(lex, s, tokens[j]).Some? {
        ScanStops(lex, tokens, j + 1, Step(lex, s, tokens[j]).value);
        assert Scan(lex, tokens, j, s) == Scan(lex, tokens, j + 1, Step(lex, s, tokens[j]).value);
      }
    }
  }

  /**
   * A match found at token i is made of tokens i .. next-1, all of them
   * recognized; the walk stopped at the end or at a word it does not
   * recognize. Its span begins at the start of a quantity or unit word and
   * ends at the end of one, so leading and trailing fillers stay outside it.
   */
  lemma MatchBoundaries(lex: Lexicon, tokens: seq<Token>, i: nat)
    requires Sorted(tokens) && i <= |tokens|
    ensures var m := FindDurationAt(lex, tokens, i);
      m.span.Some? ==>
        && (forall k :: i <= k < m.next ==> Recognized(lex, tokens[k].value))
        && (m.next == |tokens| || !Recognized(lex, tokens[m.next].value))
        && m.span.value.span.first <= m.span.value.span.second
        && (exists a :: i <= a < m.next && tokens[a].start == m.span.value.span.first
                                         && IsQuantityOrUnit(lex, tokens[a].value))
        && (exists b :: i <= b < m.next && tokens[b].end == m.span.value.span.second
                                         && IsQuantityOrUnit(lex, tokens[b].value))
  {
    assert ScanInv(lex, tokens, i, i, InitialState);
    ScanKeepsInv(lex, tokens, i, i, InitialState);
    ScanStops(lex, tokens, i, InitialState);
  }

  /** The span of a match lies within its tokens: from the start of token i to the end of token next-1. */
  lemma MatchWithinTokens(lex: Lexicon, tokens: seq<Token>, i: nat)
    requires Sorted(tokens) && i <= |tokens|
    ensures var m := FindDurationAt(lex, tokens, i);
      m.span.Some? ==>
        tokens[i].start <= m.span.value.span.first <= m.span.value.span.second <= tokens[m.next - 1].end
  {
    var m := FindDurationAt(lex, tokens, i);
    MatchBoundaries(lex, tokens, i);
    if m.span.Some? {
      var a :| i <= a < m.next && tokens[a].start == m.span.value.span.first;
      var b :| i <= b < m.next && tokens[b].end == m.span.value.span.second;
      assert tokens[i].start <= tokens[a].start;
      assert tokens[b].end <= tokens[m.next - 1].end;
    }
  }

  /** Every atom the walk completes has a unit, so each one adds at least half a second. */
  lemma {:induction false} AtomsMillisAtLeast(atoms: seq<Atom>)
    requires UnitsKnown(atoms)
    ensures AtomsMillis(atoms) >= 500 * |atoms|
    decreases |atoms|
  {
    if atoms != [] {
      AtomsMillisAtLeast(atoms[..|atoms| - 1]);
    }
  }

  /** Milliseconds of an atom are exactly its half units times half the unit; nothing is rounded. */
  lemma AtomMillisInHalves(a: Atom)
    ensures 2 * AtomMillis(a) == AtomHalves(a) * UnitMillis(a.unit)
  {
    var u := UnitMillis(a.unit);
    assert u == 2 * (u / 2);
  }

  /** A match is classified as one duration of at least half a second. */
  lemma MatchIsDuration(lex: Lexicon, tokens: seq<Token>, i: nat)
    requires WellFormed(lex) && i <= |tokens|
    ensures var m := FindDurationAt(lex, tokens, i);
      m.span.Some? ==>
        && m.span.value.classification[0].collection == DurationCollection
        && m.span.value.classification[0].durationMs >= 500
  {
    var r := Scan(lex, tokens, i, InitialState);
    ScanUnitsKnown(lex, tokens, i, InitialState);
    AtomsMillisAtLeast(r.1.atoms);
  }

  predicate UnitsKnown(atoms: seq<Atom>) {
    forall k :: 0 <= k < |atoms| ==> atoms[k].unit != Unknown
  }

  lemma {:induction false} ScanUnitsKnown(lex: Lexicon, tokens: seq<Token>, j: nat, s: ScanState)
    requires WellFormed(lex) && j <= |tokens|
    requires UnitsKnown(s.atoms)
    ensures UnitsKnown(Scan(lex, tokens, j, s).1.atoms)
    decreases |tokens| - j
  {
    if j < |tokens| && Step(lex, s, tokens[j]).Some? {
      var s' := Step(lex, s, tokens[j]).value;
      assert UnitsKnown(s'.atoms) by {
        if ParseQuantityToken(lex, tokens[j].value).None? && ParseDurationUnitToken(lex, tokens[j].value).Some? {
          assert s'.atoms == s.atoms + [s.parsed.(unit := lex.unitOf[tokens[j].value])];
        }
      }
      ScanUnitsKnown(lex, tokens, j + 1, s');
      assert Scan(lex, tokens, j, s) == Scan(lex, tokens, j + 1, s');
    }
  }

  /** Spans are well formed and each ends no later than the next begins. */
  predicate SpansOrdered(rs: seq<AnnotatedSpan>) {
    && (forall k :: 0 <= k < |rs| ==> rs[k].span.first <= rs[k].span.second)
    && (forall k :: 0 <= k && k + 1 < |rs| ==> rs[k].span.second <= rs[k + 1].span.first)
  }

  /** One duration classification of at least half a second. */
  predicate IsDuration(r: AnnotatedSpan) {
    && |r.classification| == 1
    && r.classification[0].collection == DurationCollection
    && r.classification[0].durationMs >= 500
  }

  /** What FindAll promises of the matches it reports from token i on. */
  predicate ReportedFrom(tokens: seq<Token>, i: nat, rs: seq<AnnotatedSpan>) {
    && SpansOrdered(rs)
    && (forall k :: 0 <= k < |rs| ==> i < |tokens| && tokens[i].start <= rs[k].span.first)
    && (forall k :: 0 <= k < |rs| ==> IsDuration(rs[k]))
  }

  /**
   * The matches reported from token i on are in increasing order, do not
   * overlap, begin no earlier than token i, and each is one duration.
   */
  lemma {:induction false} FindAllFromOrdered(lex: Lexicon, tokens: seq<Token>, i: nat)
    requires Sorted(tokens) && WellFormed(lex) && i <= |tokens|
    ensures ReportedFrom(tokens, i, FindAllFrom(lex, tokens, i))
    decreases |tokens| - i
  {
    if i < |tokens| {
      var m := FindDurationAt(lex, tokens, i);
      if m.next != i {
        FindAllFromOrdered(lex, tokens, m.next);
        ReportedAfterMatch(lex, tokens, i);
      } else {
        FindAllFromOrdered(lex, tokens, i + 1);
        ReportedAfterSkip(lex, tokens, i);
      }
    }
  }

  lemma ReportedAfterMatch(lex: Lexicon, tokens: seq<Token>, i: nat)
    requires Sorted(tokens) && WellFormed(lex) && i < |tokens|
    requires FindDurationAt(lex, tokens, i).next != i
    requires ReportedFrom(tokens, FindDurationAt(lex, tokens, i).next,
                          FindAllFrom(lex, tokens, FindDurationAt(lex, tokens, i).next))
    ensures ReportedFrom(tokens, i, FindAllFrom(lex, tokens, i))
  {
    var m := FindDurationAt(lex, tokens, i);
    MatchWithinTokens(lex, tokens, i);
    MatchIsDuration(lex, tokens, i);
    var rest := FindAllFrom(lex, tokens, m.next);
    assert FindAllFrom(lex, tokens, i) == [m.span.value] + rest;
    if rest != [] {
      assert tokens[m.next - 1].end <= tokens[m.next].start <= rest[0].span.first;
    }
  }

  lemma ReportedAfterSkip(lex: Lexicon, tokens: seq<Token>, i: nat)
    requires Sorted(tokens) && i < |tokens|
    requires FindDurationAt(lex, tokens, i).next == i
    requires ReportedFrom(tokens, i + 1, FindAllFrom(lex, tokens, i + 1))
    ensures ReportedFrom(tokens, i, FindAllFrom(lex, tokens, i))
  {
    assert FindAllFrom(lex, tokens, i) == FindAllFrom(lex, tokens, i + 1);
    if i + 1 < |tokens| {
      assert tokens[i].start <= tokens[i].end <= tokens[i + 1].start;
    }
  }

  /** FindAll reports its matches in increasing order without overlap. */
  lemma FindAllOrdered(lex: Lexicon, tokens: seq<Token>)
    requires Sorted(tokens) && WellFormed(lex)
    ensures SpansOrdered(FindAllSpec(lex, tokens))
  {
    FindAllFromOrdered(lex, tokens, 0);
  }

  /** A disabled annotator finds nothing and classifies nothing. */
  lemma DisabledFindsNothing(lex: Lexicon, tokens: seq<Token>, context: string, selection: CodepointSpan)
    requires !lex.enabled && ValidSelection(context, selection)
    ensures FindAllSpec(lex, tokens) == []
    ensures ClassifySpec(lex, context, selection) == None
  {
  }

  /**
   * A selection is classified as a duration exactly when FindAll over the
   * selected text finds a single match that takes in every one of its tokens;
   * the classification is that match's.
   */
  lemma ClassifyIsWholeSelectionMatch(lex: Lexicon, context: string, selection: CodepointSpan)
    requires lex.enabled && ValidSelection(context, selection)
    ensures var tokens := Tokenize(context[selection.first..selection.second]);
      var m := FindDurationAt(lex, tokens, 0);
      && (ClassifySpec(lex, context, selection).Some? <==> m.span.Some? && m.next == |tokens|)
      && (ClassifySpec(lex, context, selection).Some? ==>
            FindAllSpec(lex, tokens) == [m.span.value]
            && m.span.value.classification == [ClassifySpec(lex, context, selection).value])
  {
    var tokens := Tokenize(context[selection.first..selection.second]);
    var m := FindDurationAt(lex, tokens, 0);
    if m.span.Some? && m.next == |tokens| {
      assert FindAllFrom(lex, tokens, m.next) == [];
    }
  }

  /**
   * A walk that passes no unit word before it stops finds nothing: fillers
   * and quantities alone ("half", "a", "15") are never a duration.
   */
  lemma NoUnitWordNoMatch(lex: Lexicon, tokens: seq<Token>, i: nat, j: nat)
    requires i <= j <= |tokens|
    requires forall k :: i <= k < j ==> Recognized(lex, tokens[k].value) && tokens[k].value !in lex.unitOf
    requires j < |tokens| ==> !Recognized(lex, tokens[j].value)
    ensures FindDurationAt(lex, tokens, i) == MatchResult(i, None)
  {
    NoUnitWordScan(lex, tokens, i, j, InitialState);
  }

  lemma {:induction false} NoUnitWordScan(lex: Lexicon, tokens: seq<Token>, i: nat, j: nat, s: ScanState)
    requires i <= j <= |tokens| && s.atoms == []
    requires forall k :: i <= k < j ==> Recognized(lex, tokens[k].value) && tokens[k].value !in lex.unitOf
    requires j < |tokens| ==> !Recognized(lex, tokens[j].value)
    ensures Scan(lex, tokens, i, s).0 == j && Scan(lex, tokens, i, s).1.atoms == []
    decreases j - i
  {
    if i < |tokens| {
      StepRecognizes(lex, s, tokens[i]);
    }
    if i < j {
      NoUnitWordScan(lex, tokens, i + 1, j, Step(lex, s, tokens[i]).value);
    }
  }
}
