/**
 * The tokenizer the duration tests configure: codepoint 32 (the space) is the
 * only separator, it is discarded, and empty tokens are dropped. Every other
 * codepoint belongs to the token around it. Offsets are codepoint indices.
 * The general-purpose tokenizer of the platform is not part of this model;
 * this space split stands in for it.
 */
module Tokenization {

  /** A token: its text and its half-open codepoint span [start, end). */
  datatype Token = Token(value: string, start: nat, end: nat)

  const Space: char := ' '

  predicate NoSpace(s: string) {
    forall k :: 0 <= k < |s| ==> s[k] != Space
  }

  /** Length of the leading run of non-space codepoints of `s`. */
  function WordLength(s: string): (n: nat)
    ensures n <= |s|
    ensures NoSpace(s[..n])
    ensures n < |s| ==> s[n] == Space
    ensures s != [] && s[0] != Space ==> n > 0
  {
    if s == [] || s[0] == Space then 0
    else
      var n := 1 + WordLength(s[1..]);
      assert s[..n] == [s[0]] + s[1..][..n - 1];
      n
  }

  /** The tokens of `s`, whose first codepoint sits at offset `base` of the text. */
  function TokenizeAt(s: string, base: nat): seq<Token>
    decreases |s|
  {
    if s == [] then []
    else if s[0] == Space then TokenizeAt(s[1..], base + 1)
    else
      var n := WordLength(s);
      [Token(s[..n], base, base + n)] + TokenizeAt(s[n..], base + n)
  }

  function Tokenize(text: string): seq<Token> {
    TokenizeAt(text, 0)
  }

  /** Tokens lie in increasing order, each with start <= end, and do not overlap. */
  predicate Sorted(tokens: seq<Token>) {
    && (forall k :: 0 <= k < |tokens| ==> tokens[k].start <= tokens[k].end)
    && (forall a, b :: 0 <= a < b < |tokens| ==> tokens[a].end <= tokens[b].start)
  }

  /**
   * Token `t` is a non-empty run of non-space codepoints of `s` (placed at
   * offset `base`) that cannot be extended on either side.
   */
  predicate MaximalRun(s: string, base: nat, t: Token) {
    && base <= t.start < t.end <= base + |s|
    && t.value == s[t.start - base .. t.end - base]
    && NoSpace(t.value)
    && (t.start == base || s[t.start - base - 1] == Space)
    && (t.end == base + |s| || s[t.end - base] == Space)
  }

  /** Every non-space codepoint of `s` lies in some token of `ts`. */
  predicate Covers(s: string, base: nat, ts: seq<Token>) {
    forall p :: 0 <= p < |s| && s[p] != Space ==>
      exists k :: 0 <= k < |ts| && ts[k].start <= base + p < ts[k].end
  }

  /**
   * `ts` is the space split of `s` placed at offset `base`: its tokens are
   * maximal runs of non-space codepoints, strictly increasing, and cover every
   * non-space codepoint.
   */
  predicate SpaceSplit(s: string, base: nat, ts: seq<Token>) {
    && (forall k :: 0 <= k < |ts| ==> MaximalRun(s, base, ts[k]))
    && (forall a, b :: 0 <= a < b < |ts| ==> ts[a].end < ts[b].start)
    && Covers(s, base, ts)
  }

  lemma {:induction false} TokenizeAtIsSpaceSplit(s: string, base: nat)
    ensures SpaceSplit(s, base, TokenizeAt(s, base))
    decreases |s|
  {
    if s == [] {
    } else if s[0] == Space {
      TokenizeAtIsSpaceSplit(s[1..], base + 1);
      SplitStepSpace(s, base);
    } else {
      TokenizeAtIsSpaceSplit(s[WordLength(s)..], base + WordLength(s));
      SplitStepWord(s, base);
    }
  }

  lemma SplitStepSpace(s: string, base: nat)
    requires s != [] && s[0] == Space
    requires SpaceSplit(s[1..], base + 1, TokenizeAt(s[1..], base + 1))
    ensures SpaceSplit(s, base, TokenizeAt(s, base))
  {
    SpaceSplitAfterSpace(s, base, TokenizeAt(s[1..], base + 1));
  }

  lemma SplitStepWord(s: string, base: nat)
    requires s != [] && s[0] != Space
    requires SpaceSplit(s[WordLength(s)..], base + WordLength(s), TokenizeAt(s[WordLength(s)..], base + WordLength(s)))
    ensures SpaceSplit(s, base, TokenizeAt(s, base))
  {
    var n := WordLength(s);
    var rest := TokenizeAt(s[n..], base + n);
    var ts := TokenizeAt(s, base);
    TokenizeAtWordStep(s, base);
    SpaceSplitAfterWord(s, base, n, rest, ts);
  }

  /** A text that opens with a word: its tokens are that word and then the tokens of the rest. */
  lemma TokenizeAtWordStep(s: string, base: nat)
    requires s != [] && s[0] != Space
    ensures TokenizeAt(s, base)
      == [Token(s[..WordLength(s)], base, base + WordLength(s))] + TokenizeAt(s[WordLength(s)..], base + WordLength(s))
  {
  }

  lemma MaximalRunAfterSpace(s: string, base: nat, t: Token)
    requires s != [] && s[0] == Space
    requires MaximalRun(s[1..], base + 1, t)
    ensures MaximalRun(s, base, t)
  {
    var a, e := t.start - base, t.end - base;
    assert 1 <= a < e <= |s|;
    assert forall q :: 0 <= q < e - a ==> s[1..][a - 1 .. e - 1][q] == s[a .. e][q];
    assert s[1..][a - 1 .. e - 1] == s[a .. e];
    if t.start - base - 1 > 0 {
      assert s[t.start - base - 1] == s[1..][t.start - base - 2];
    }
    if t.end < base + |s| {
      assert s[t.end - base] == s[1..][t.end - base - 1];
    }
  }

  lemma SpaceSplitAfterSpace(s: string, base: nat, ts: seq<Token>)
    requires s != [] && s[0] == Space
    requires SpaceSplit(s[1..], base + 1, ts)
    ensures SpaceSplit(s, base, ts)
  {
    forall k | 0 <= k < |ts| ensures MaximalRun(s, base, ts[k]) {
      MaximalRunAfterSpace(s, base, ts[k]);
    }
    forall p | 0 <= p < |s| && s[p] != Space
      ensures exists k :: 0 <= k < |ts| && ts[k].start <= base + p < ts[k].end
    {
      assert p > 0 && s[1..][p - 1] == s[p];
    }
  }

  lemma MaximalRunAfterWord(s: string, base: nat, n: nat, t: Token)
    requires 0 < n <= |s| && NoSpace(s[..n]) && (n < |s| ==> s[n] == Space)
    requires MaximalRun(s[n..], base + n, t)
    ensures MaximalRun(s, base, t)
  {
    assert s[n..][t.start - base - n .. t.end - base - n] == s[t.start - base .. t.end - base];
    if t.start - base - n > 0 {
      assert s[t.start - base - 1] == s[n..][t.start - base - n - 1];
    }
    if t.end < base + |s| {
      assert s[t.end - base] == s[n..][t.end - base - n];
    }
  }

  lemma SpaceSplitAfterWord(s: string, base: nat, n: nat, rest: seq<Token>, ts: seq<Token>)
    requires 0 < n <= |s| && NoSpace(s[..n]) && (n < |s| ==> s[n] == Space)
    requires SpaceSplit(s[n..], base + n, rest)
    requires ts == [Token(s[..n], base, base + n)] + rest
    ensures SpaceSplit(s, base, ts)
  {
    RunsAfterWord(s, base, n, rest, ts);
    OrderAfterWord(s, base, n, rest, ts);
    CoversAfterWord(s, base, n, rest);
  }

  lemma RunsAfterWord(s: string, base: nat, n: nat, rest: seq<Token>, ts: seq<Token>)
    requires 0 < n <= |s| && NoSpace(s[..n]) && (n < |s| ==> s[n] == Space)
    requires forall k :: 0 <= k < |rest| ==> MaximalRun(s[n..], base + n, rest[k])
    requires ts == [Token(s[..n], base, base + n)] + rest
    ensures forall k :: 0 <= k < |ts| ==> MaximalRun(s, base, ts[k])
  {
    forall k | 0 <= k < |ts| ensures MaximalRun(s, base, ts[k]) {
      if k > 0 {
        assert ts[k] == rest[k - 1];
        MaximalRunAfterWord(s, base, n, rest[k - 1]);
      }
    }
  }

  lemma OrderAfterWord(s: string, base: nat, n: nat, rest: seq<Token>, ts: seq<Token>)
    requires 0 < n <= |s| && (n < |s| ==> s[n] == Space)
    requires forall k :: 0 <= k < |rest| ==> MaximalRun(s[n..], base + n, rest[k])
    requires forall a, b :: 0 <= a < b < |rest| ==> rest[a].end < rest[b].start
    requires ts == [Token(s[..n], base, base + n)] + rest
    ensures forall a, b :: 0 <= a < b < |ts| ==> ts[a].end < ts[b].start
  {
    forall a, b | 0 <= a < b < |ts| ensures ts[a].end < ts[b].start {
      assert ts[b] == rest[b - 1];
      if a == 0 {
        FirstRunAfterWord(s, base, n, rest[b - 1]);
      } else {
        assert ts[a] == rest[a - 1];
      }
    }
  }

  lemma FirstRunAfterWord(s: string, base: nat, n: nat, t: Token)
    requires 0 < n <= |s| && (n < |s| ==> s[n] == Space)
    requires MaximalRun(s[n..], base + n, t)
    ensures base + n < t.start
  {
    assert t.value[0] == s[n..][t.start - base - n];
    assert s[n..][0] == s[n];
  }

  lemma CoversAfterWord(s: string, base: nat, n: nat, rest: seq<Token>)
    requires 0 < n <= |s|
    requires Covers(s[n..], base + n, rest)
    ensures Covers(s, base, [Token(s[..n], base, base + n)] + rest)
  {
    var ts := [Token(s[..n], base, base + n)] + rest;
    forall p | 0 <= p < |s| && s[p] != Space
      ensures exists k :: 0 <= k < |ts| && ts[k].start <= base + p < ts[k].end
    {
      if p < n {
        assert ts[0].start <= base + p < ts[0].end;
      } else {
        assert s[n..][p - n] == s[p];
        var k :| 0 <= k < |rest| && rest[k].start <= base + n + (p - n) < rest[k].end;
        assert ts[k + 1] == rest[k];
      }
    }
  }

  /** The space split of any text is a well-formed token sequence. */
  lemma TokenizeIsSpaceSplit(text: string)
    ensures SpaceSplit(text, 0, Tokenize(text))
    ensures Sorted(Tokenize(text))
  {
    TokenizeAtIsSpaceSplit(text, 0);
  }

  /** A word followed by a space becomes one token and the split goes on after the space. */
  lemma {:induction false} TokenizeWord(w: string, rest: string, base: nat)
    requires w != [] && NoSpace(w)
    ensures TokenizeAt(w + [Space] + rest, base)
         == [Token(w, base, base + |w|)] + TokenizeAt(rest, base + |w| + 1)
  {
    var s := w + [Space] + rest;
    WordLengthOfWord(w, [Space] + rest);
    assert s == w + ([Space] + rest);
    assert s[..|w|] == w;
    assert s[|w|..] == [Space] + rest;
    assert ([Space] + rest)[1..] == rest;
  }

  /** The last word of a text becomes its last token. */
  lemma TokenizeLastWord(w: string, base: nat)
    requires w != [] && NoSpace(w)
    ensures TokenizeAt(w, base) == [Token(w, base, base + |w|)]
  {
    WordLengthOfWord(w, []);
    assert w + [] == w;
    assert w[|w|..] == [];
  }

  lemma {:induction false} WordLengthOfWord(w: string, rest: string)
    requires NoSpace(w)
    requires rest == [] || rest[0] == Space
    ensures WordLength(w + rest) == |w|
    decreases |w|
  {
    if w != [] {
      assert (w + rest)[1..] == w[1..] + rest;
      WordLengthOfWord(w[1..], rest);
    } else {
      assert w + rest == rest;
    }
  }

  /** Words joined by single spaces. */
  function JoinWords(ws: seq<string>): string {
    if |ws| == 0 then []
    else if |ws| == 1 then ws[0]
    else ws[0] + [Space] + JoinWords(ws[1..])
  }

  /** The tokens of words laid out one space apart from offset `base`. */
  function WordTokens(ws: seq<string>, base: nat): seq<Token> {
    if |ws| == 0 then []
    else [Token(ws[0], base, base + |ws[0]|)] + WordTokens(ws[1..], base + |ws[0]| + 1)
  }

  /** Splitting words joined by single spaces gives back the words, each at its offset. */
  lemma {:induction false} TokenizeJoin(ws: seq<string>, base: nat)
    requires forall k :: 0 <= k < |ws| ==> ws[k] != [] && NoSpace(ws[k])
    ensures TokenizeAt(JoinWords(ws), base) == WordTokens(ws, base)
    decreases |ws|
  {
    if |ws| == 1 {
      TokenizeLastWord(ws[0], base);
    } else if |ws| > 1 {
      assert JoinWords(ws) == ws[0] + [Space] + JoinWords(ws[1..]);
      assert WordTokens(ws, base)
          == [Token(ws[0], base, base + |ws[0]|)] + WordTokens(ws[1..], base + |ws[0]| + 1);
      TokenizeWord(ws[0], JoinWords(ws[1..]), base);
      assert forall k :: 0 <= k < |ws[1..]| ==> ws[1..][k] == ws[k + 1];
      TokenizeJoin(ws[1..], base + |ws[0]| + 1);
    }
  }

  /** `ts` are the words `ws` in order, the first at `base`, each one space after the previous. */
  predicate SpacedOnce(ws: seq<string>, base: nat, ts: seq<Token>) {
    && |ts| == |ws|
    && (forall k :: 0 <= k < |ts| ==> ts[k].value == ws[k] && ts[k].end == ts[k].start + |ws[k]|)
    && (|ts| > 0 ==> ts[0].start == base)
    && (forall k :: 0 <= k < |ts| - 1 ==> ts[k + 1].start == ts[k].end + 1)
  }

  lemma {:induction false} WordTokensSpacedOnce(ws: seq<string>, base: nat, ts: seq<Token>)
    requires SpacedOnce(ws, base, ts)
    ensures WordTokens(ws, base) == ts
    decreases |ws|
  {
    if |ws| > 0 {
      assert ts[0] == Token(ws[0], base, base + |ws[0]|);
      SpacedOnceTail(ws, base, ts);
      WordTokensSpacedOnce(ws[1..], base + |ws[0]| + 1, ts[1..]);
      assert ts == [ts[0]] + ts[1..];
    }
  }

  lemma SpacedOnceTail(ws: seq<string>, base: nat, ts: seq<Token>)
    requires SpacedOnce(ws, base, ts) && |ws| > 0
    ensures SpacedOnce(ws[1..], base + |ws[0]| + 1, ts[1..])
  {
    if |ws| > 1 {
      assert ts[1].start == ts[0].end + 1;
    }
    assert forall k :: 0 <= k < |ts| - 1 ==> ts[1..][k] == ts[k + 1] && ws[1..][k] == ws[k + 1];
  }
}
