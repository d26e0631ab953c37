/**
 The content tokenizer: words for spaced scripts, overlapping bigrams for scripts written
 without spaces. Which characters are alphanumeric is a parameter; offsets are UTF-8 bytes.
 */
module Tokenizer {
  import opened Prelude

  datatype Token = Token(offsetFrom: nat, offsetTo: nat, position: nat, text: string)

  datatype Kind = Continua | Word | Separator

  predicate IsScriptioContinua(c: char) {
    var u := c as int;
    || 0x3400 <= u <= 0x4DBF || 0x4E00 <= u <= 0x9FFF || 0xF900 <= u <= 0xFAFF || 0x20000 <= u <= 0x2FA1F
    || 0x3040 <= u <= 0x30FF || 0x31F0 <= u <= 0x31FF || 0xFF66 <= u <= 0xFF9D
    || 0x1100 <= u <= 0x11FF || 0xA960 <= u <= 0xA97F || 0xAC00 <= u <= 0xD7FF
    || 0x0E00 <= u <= 0x0E7F || 0x0E80 <= u <= 0x0EFF || 0x1780 <= u <= 0x17FF || 0x1000 <= u <= 0x109F
  }

  function KindOf(c: char, alnum: char -> bool): Kind {
    if IsScriptioContinua(c) then Continua else if alnum(c) then Word else Separator
  }

  function Kinds(text: string, alnum: char -> bool): (kinds: seq<Kind>)
    ensures |kinds| == |text| && forall i :: 0 <= i < |text| ==> kinds[i] == KindOf(text[i], alnum)
  {
    if text == [] then [] else [KindOf(text[0], alnum)] + Kinds(text[1..], alnum)
  }

  // ----- Byte offsets ----------------------------------------------------------------------------------

  function Utf8Len(c: char): nat {
    var u := c as int;
    if u < 0x80 then 1 else if u < 0x800 then 2 else if u < 0x1_0000 then 3 else 4
  }

  /** A code point takes the shortest form of UTF-8: seven bits in one byte, and 5n + 1 bits in n. */
  lemma Utf8LenIsShortest(c: char, n: nat)
    requires 2 <= n <= 4
    ensures Utf8Len(c) == 1 <==> (c as int) < 128
    ensures 1 <= Utf8Len(c) <= 4 && (Utf8Len(c) <= n <==> (c as int) < Bits(5 * n + 1))
  {
    assert Bits(11) == 0x800 && Bits(16) == 32 * Bits(11) && Bits(21) == 32 * Bits(16);
  }

  /** How many values that many bits have. */
  function Bits(n: nat): nat { if n == 0 then 1 else 2 * Bits(n - 1) }

  /** The byte offset of character `i`. */
  function Offset(text: string, i: nat): nat
    requires i <= |text|
  {
    if i == 0 then 0 else Offset(text, i - 1) + Utf8Len(text[i - 1])
  }

  lemma {:induction false} OffsetsIncrease(text: string, i: nat, j: nat)
    requires i < j <= |text|
    ensures Offset(text, i) < Offset(text, j)
    decreases j
  {
    if i < j - 1 {
      OffsetsIncrease(text, i, j - 1);
    }
  }

  /** The first character at or after byte `offset`, looking from character `i` on. */
  function CharAt(text: string, offset: nat, i: nat): (r: nat)
    requires i <= |text|
    ensures i <= r <= |text|
    decreases |text| - i
  {
    if i == |text| || Offset(text, i) >= offset then i else CharAt(text, offset, i + 1)
  }

  /** Slicing a string by byte offsets. */
  function ByteSlice(text: string, from: nat, end: nat): string {
    var a, b := CharAt(text, from, 0), CharAt(text, end, 0);
    if a <= b then text[a..b] else []
  }

  lemma {:induction false} CharAtOffset(text: string, i: nat, k: nat)
    requires k <= i <= |text|
    ensures CharAt(text, Offset(text, i), k) == i
    decreases i - k
  {
    if k < i {
      OffsetsIncrease(text, k, i);
      CharAtOffset(text, i, k + 1);
    }
  }

  lemma ByteSliceAt(text: string, a: nat, b: nat)
    requires a <= b <= |text|
    ensures ByteSlice(text, Offset(text, a), Offset(text, b)) == text[a..b]
  {
    CharAtOffset(text, a, 0);
    CharAtOffset(text, b, 0);
  }

  // ----- The specification: runs and their spans ------------------------------------------------------

  /** Characters `[a, b)`. */
  datatype Span = Span(a: nat, b: nat)

  /** How far the run that holds `[i, j)` extends. */
  function Extent(kinds: seq<Kind>, i: nat, j: nat): (e: nat)
    requires i < j <= |kinds| && forall k :: i <= k < j ==> kinds[k] == kinds[i]
    ensures j <= e <= |kinds| && forall k :: i <= k < e ==> kinds[k] == kinds[i]
    ensures e < |kinds| ==> kinds[e] != kinds[i]
    decreases |kinds| - j
  {
    if j < |kinds| && kinds[j] == kinds[i] then Extent(kinds, i, j + 1) else j
  }

  /** Separators are runs of their own. */
  function RunEnd(kinds: seq<Kind>, i: nat): (e: nat)
    requires i < |kinds|
    ensures i < e <= |kinds| && forall k :: i <= k < e ==> kinds[k] == kinds[i]
    ensures e < |kinds| && !kinds[i].Separator? ==> kinds[e] != kinds[i]
  {
    if kinds[i].Separator? then i + 1 else Extent(kinds, i, i + 1)
  }

  function Bigrams(i: nat, e: nat): (spans: seq<Span>)
    requires i < e
    ensures |spans| == e - i - 1 && forall k :: 0 <= k < |spans| ==> spans[k] == Span(i + k, i + k + 2)
    decreases e - i
  {
    if e == i + 1 then [] else [Span(i, i + 2)] + Bigrams(i + 1, e)
  }

  function RunSpans(kind: Kind, i: nat, e: nat): seq<Span>
    requires i < e
  {
    match kind
    case Separator => []
    case Word => [Span(i, e)]
    case Continua => if e == i + 1 then [Span(i, e)] else Bigrams(i, e)
  }

  /** The token spans of the text from character `i` on. */
  function Spans(kinds: seq<Kind>, i: nat): seq<Span>
    requires i <= |kinds|
    decreases |kinds| - i
  {
    if i == |kinds| then []
    else RunSpans(kinds[i], i, RunEnd(kinds, i)) + Spans(kinds, RunEnd(kinds, i))
  }

  function TokenAt(text: string, span: Span, position: nat): Token
    requires span.a <= span.b <= |text|
  {
    Token(Offset(text, span.a), Offset(text, span.b), position, text[span.a..span.b])
  }

  ghost predicate InText(spans: seq<Span>, n: nat) {
    forall k :: 0 <= k < |spans| ==> spans[k].a < spans[k].b <= n
  }

  /** The tokens are the spans' slices, offsets and indices. */
  ghost predicate IsTokens(text: string, spans: seq<Span>, out: seq<Token>) {
    && InText(spans, |text|) && |out| == |spans|
    && forall k :: 0 <= k < |out| ==> out[k] == TokenAt(text, spans[k], k)
  }

  // ----- What the spans are ---------------------------------------------------------------------------

  /** Spans lie in the text from `i` on, and each has a single kind. */
  ghost predicate GoodSpan(kinds: seq<Kind>, i: nat, s: Span) {
    && i <= s.a < s.b <= |kinds| && (forall k :: s.a <= k < s.b ==> kinds[k] == kinds[s.a] && !kinds[k].Separator?)
    && (kinds[s.a].Continua? ==> s.b - s.a <= 2)
  }

  lemma RunSpansAreGood(kinds: seq<Kind>, i: nat)
    requires i < |kinds|
    ensures var run := RunSpans(kinds[i], i, RunEnd(kinds, i));
      forall k :: 0 <= k < |run| ==> GoodSpan(kinds, i, run[k]) && run[k].b <= RunEnd(kinds, i)
  {
  }

  lemma {:induction false} SpansAreGood(kinds: seq<Kind>, i: nat)
    requires i <= |kinds|
    ensures forall k :: 0 <= k < |Spans(kinds, i)| ==> GoodSpan(kinds, i, Spans(kinds, i)[k])
    decreases |kinds| - i
  {
    if i < |kinds| {
      RunSpansAreGood(kinds, i);
      SpansAreGood(kinds, RunEnd(kinds, i));
    }
  }

  /** A span holding character `j`. */
  ghost predicate Covers(spans: seq<Span>, j: nat) {
    exists k :: 0 <= k < |spans| && spans[k].a <= j < spans[k].b
  }

  lemma CoversIn(spans: seq<Span>, k: nat, j: nat)
    requires k < |spans| && spans[k].a <= j < spans[k].b
    ensures Covers(spans, j)
  {
  }

  lemma RunIsCovered(kind: Kind, i: nat, e: nat, j: nat)
    requires i <= j < e && !kind.Separator?
    ensures Covers(RunSpans(kind, i, e), j)
  {
    if kind.Word? || e == i + 1 {
      CoversIn(RunSpans(kind, i, e), 0, j);
    } else {
      CoversIn(RunSpans(kind, i, e), if j == i then 0 else j - i - 1, j);
    }
  }

  lemma CoversConcat(s: seq<Span>, t: seq<Span>, j: nat)
    requires Covers(s, j) || Covers(t, j)
    ensures Covers(s + t, j)
  {
    if Covers(s, j) {
      var k :| 0 <= k < |s| && s[k].a <= j < s[k].b;
      CoversIn(s + t, k, j);
    } else {
      var k :| 0 <= k < |t| && t[k].a <= j < t[k].b;
      CoversIn(s + t, |s| + k, j);
    }
  }

  /** Every word or continua character is inside some token. */
  lemma {:induction false} EveryCharacterIsCovered(kinds: seq<Kind>, i: nat, j: nat)
    requires i <= j < |kinds| && !kinds[j].Separator?
    ensures Covers(Spans(kinds, i), j)
    decreases |kinds| - i
  {
    var e := RunEnd(kinds, i);
    if j < e {
      RunIsCovered(kinds[i], i, e, j);
    } else {
      EveryCharacterIsCovered(kinds, e, j);
    }
    CoversConcat(RunSpans(kinds[i], i, e), Spans(kinds, e), j);
  }

  // ----- Substrings are phrases -----------------------------------------------------------------------

  lemma StopsBeforeChange(kinds: seq<Kind>, i: nat, a: nat, b: nat)
    requires i <= a < b <= |kinds| && a < RunEnd(kinds, i)
    requires forall k :: a <= k < b ==> kinds[k].Continua?
    ensures kinds[i].Continua? && b <= RunEnd(kinds, i)
  {
    assert kinds[a] == kinds[i];
  }

  /** The bigrams of `[a, b)` are consecutive in `spans`, from index `p` on. */
  ghost predicate HasBigrams(spans: seq<Span>, p: nat, a: nat, b: nat) {
    a < b && p + (b - a - 1) <= |spans| && forall j :: p <= j < p + (b - a - 1) ==> spans[j] == Span(a + j - p, a + j - p + 2)
  }

  lemma BigramsWithin(i: nat, e: nat, a: nat, b: nat, rest: seq<Span>)
    requires i <= a && a + 2 <= b <= e
    ensures HasBigrams(Bigrams(i, e) + rest, a - i, a, b)
  {
  }

  lemma BigramsInRest(run: seq<Span>, rest: seq<Span>, q: nat, a: nat, b: nat)
    requires HasBigrams(rest, q, a, b)
    ensures HasBigrams(run + rest, |run| + q, a, b)
  {
  }

  /** The bigrams of a stretch of continua characters are consecutive among the text's spans. */
  lemma {:induction false} BigramsAreConsecutive(kinds: seq<Kind>, i: nat, a: nat, b: nat) returns (p: nat)
    requires i <= a && a + 2 <= b <= |kinds| && forall k :: a <= k < b ==> kinds[k].Continua?
    ensures HasBigrams(Spans(kinds, i), p, a, b)
    decreases |kinds| - i
  {
    var e := RunEnd(kinds, i);
    var run := RunSpans(kinds[i], i, e);
    if a < e {
      StopsBeforeChange(kinds, i, a, b);
      BigramsWithin(i, e, a, b, Spans(kinds, e));
      p := a - i;
    } else {
      var q := BigramsAreConsecutive(kinds, e, a, b);
      p := |run| + q;
      BigramsInRest(run, Spans(kinds, e), q, a, b);
    }
  }

  /** A text of nothing but continua characters is one run. */
  lemma AllContinua(kinds: seq<Kind>)
    requires |kinds| >= 2 && forall k :: 0 <= k < |kinds| ==> kinds[k].Continua?
    ensures Spans(kinds, 0) == Bigrams(0, |kinds|)
  {
    assert RunEnd(kinds, 0) == |kinds|;
  }

  /** The phrase's tokens occur in `out` from index `p` on, at consecutive positions. */
  ghost predicate PhraseAt(out: seq<Token>, phrase: seq<Token>, p: nat) {
    && p + |phrase| <= |out|
    && forall j :: p <= j < p + |phrase| ==> out[j].text == phrase[j - p].text && out[j].position == j
  }

  lemma SubSlice(text: string, a: nat, b: nat, k: nat)
    requires a + k + 2 <= b <= |text|
    ensures text[a..b][k..k + 2] == text[a + k..a + k + 2]
  {
    var s := text[a..b];
    assert s[k..k + 2] == [s[k], s[k + 1]] && text[a + k..a + k + 2] == [text[a + k], text[a + k + 1]];
  }

  lemma TokenOfSpan(text: string, spans: seq<Span>, out: seq<Token>, j: nat)
    requires IsTokens(text, spans, out) && j < |out|
    ensures spans[j].a < spans[j].b <= |text| && out[j] == TokenAt(text, spans[j], j)
  {
  }

  lemma TextBigram(text: string, spans: seq<Span>, out: seq<Token>, p: nat, a: nat, b: nat, k: nat)
    requires a < b <= |text| && IsTokens(text, spans, out) && HasBigrams(spans, p, a, b) && k < b - a - 1
    ensures out[p + k] == TokenAt(text, Span(a + k, a + k + 2), p + k)
  {
    assert spans[p + k] == Span(a + k, a + k + 2);
    TokenOfSpan(text, spans, out, p + k);
  }

  lemma PhraseBigram(text: string, a: nat, b: nat, phrase: seq<Token>, k: nat)
    requires a < b <= |text| && IsTokens(text[a..b], Bigrams(0, b - a), phrase) && k < b - a - 1
    ensures phrase[k].text == text[a + k..a + k + 2]
  {
    TokenOfSpan(text[a..b], Bigrams(0, b - a), phrase, k);
    SubSlice(text, a, b, k);
  }

  lemma SameBigram(text: string, spans: seq<Span>, out: seq<Token>, p: nat, a: nat, b: nat, phrase: seq<Token>, j: nat)
    requires a < b <= |text| && IsTokens(text, spans, out) && IsTokens(text[a..b], Bigrams(0, b - a), phrase)
    requires HasBigrams(spans, p, a, b) && p <= j < p + (b - a - 1)
    ensures out[j].text == phrase[j - p].text && out[j].position == j
  {
    TextBigram(text, spans, out, p, a, b, j - p);
    PhraseBigram(text, a, b, phrase, j - p);
  }

  lemma SameBigrams(text: string, spans: seq<Span>, out: seq<Token>, p: nat, a: nat, b: nat, phrase: seq<Token>)
    requires a + 2 <= b <= |text| && IsTokens(text, spans, out) && IsTokens(text[a..b], Bigrams(0, b - a), phrase)
    requires HasBigrams(spans, p, a, b)
    ensures |phrase| == b - a - 1 && PhraseAt(out, phrase, p) && out[p].offsetFrom == Offset(text, a)
  {
    forall j | p <= j < p + |phrase| ensures out[j].text == phrase[j - p].text && out[j].position == j {
      SameBigram(text, spans, out, p, a, b, phrase, j);
    }
    TextBigram(text, spans, out, p, a, b, 0);
  }

  /**
   Substring search works for unspaced scripts: the tokens of any stretch of two or more
   continua characters occur in the text's token stream as a phrase.
   */
  lemma SubstringIsPhrase(text: string, alnum: char -> bool, a: nat, b: nat, out: seq<Token>, phrase: seq<Token>)
    returns (p: nat)
    requires a + 2 <= b <= |text| && forall k :: a <= k < b ==> IsScriptioContinua(text[k])
    requires IsTokens(text, Spans(Kinds(text, alnum), 0), out)
    requires IsTokens(text[a..b], Spans(Kinds(text[a..b], alnum), 0), phrase)
    ensures |phrase| == b - a - 1 && PhraseAt(out, phrase, p)
    ensures out[p].offsetFrom == Offset(text, a)
  {
    var kinds, sub := Kinds(text, alnum), Kinds(text[a..b], alnum);
    p := BigramsAreConsecutive(kinds, 0, a, b);
    AllContinua(sub);
    SameBigrams(text, Spans(kinds, 0), out, p, a, b, phrase);
  }

  // ----- Phrases that are not substrings ----------------------------------------------------------------

  /** Consecutive tokens overlap by one character or do not overlap at all. */
  lemma {:induction false} SpansMoveOn(kinds: seq<Kind>, i: nat, j: nat)
    requires i <= |kinds| && j + 1 < |Spans(kinds, i)|
    ensures var s, t := Spans(kinds, i)[j], Spans(kinds, i)[j + 1];
      s.b <= t.a || (t.a == s.a + 1 && s.b == s.a + 2)
    decreases |kinds| - i
  {
    var e := RunEnd(kinds, i);
    var run := RunSpans(kinds[i], i, e);
    if j >= |run| {
      SpansMoveOn(kinds, e, j - |run|);
    } else if j + 1 == |run| {
      RunSpansAreGood(kinds, i);
      SpansAreGood(kinds, e);
      assert GoodSpan(kinds, e, Spans(kinds, e)[0]);
    }
  }

  ghost predicate MovesOn(spans: seq<Span>) {
    forall i, j :: 0 <= i && j == i + 1 < |spans| ==>
      spans[i].b <= spans[j].a || (spans[j].a == spans[i].a + 1 && spans[i].b == spans[i].a + 2)
  }

  lemma AllSpansMoveOn(kinds: seq<Kind>)
    ensures MovesOn(Spans(kinds, 0))
  {
    var spans := Spans(kinds, 0);
    forall i, j | 0 <= i && j == i + 1 < |spans|
      ensures spans[i].b <= spans[j].a || (spans[j].a == spans[i].a + 1 && spans[i].b == spans[i].a + 2)
    {
      SpansMoveOn(kinds, 0, i);
    }
  }

  /** A chain of spans of two characters, each starting after the one before. */
  ghost predicate Pairs(spans: seq<Span>, p: nat, n: nat) {
    && p + n <= |spans| && (forall j :: p <= j < p + n ==> spans[j].b == spans[j].a + 2)
    && forall i, j :: p <= i && j == i + 1 < p + n ==> spans[i].a < spans[j].a
  }

  /** Each pair starts one character after the one before. */
  ghost predicate Chained(spans: seq<Span>, p: nat, n: nat)
    requires p + n <= |spans|
  {
    forall i, j :: p <= i && j == i + 1 < p + n ==> spans[j].a == spans[i].a + 1
  }

  lemma {:induction false} PairsAdvance(spans: seq<Span>, p: nat, n: nat, i: nat, j: nat)
    requires Pairs(spans, p, n) && p <= i <= j < p + n
    ensures spans[i].a + (j - i) <= spans[j].a
    ensures Chained(spans, p, n) ==> spans[j].a == spans[i].a + (j - i)
    decreases j
  {
    if i < j {
      PairsAdvance(spans, p, n, i, j - 1);
      assert spans[j - 1].a < spans[j].a;
    }
  }

  /** As long as the last pair is `n - 1` characters after the first, no character is skipped. */
  lemma TightIsChained(spans: seq<Span>, p: nat, n: nat)
    requires Pairs(spans, p, n) && n >= 1
    ensures spans[p + n - 1].a == spans[p].a + (n - 1) <==> Chained(spans, p, n)
  {
    PairsAdvance(spans, p, n, p, p + n - 1);
    if spans[p + n - 1].a == spans[p].a + (n - 1) {
      forall i, j | p <= i && j == i + 1 < p + n ensures spans[j].a == spans[i].a + 1 {
        PairsAdvance(spans, p, n, p, i);
        PairsAdvance(spans, p, n, j, p + n - 1);
        assert spans[i].a < spans[j].a;
      }
    }
  }

  lemma PairSpells(text: string, sub: string, a: nat, j: nat, k: nat)
    requires a + j + 2 <= |text| && j + 2 <= |sub| && text[a + j..a + j + 2] == sub[j..j + 2] && j <= k <= j + 1
    ensures text[a + k] == sub[k]
  {
    assert text[a + j..a + j + 2][k - j] == sub[j..j + 2][k - j];
  }

  /** Overlapping pairs that spell the phrase pairwise spell it as a whole. */
  lemma ChainSpells(text: string, sub: string, spans: seq<Span>, p: nat, n: nat)
    requires Pairs(spans, p, n) && n >= 1 && |sub| == n + 1 && Chained(spans, p, n)
    requires forall j :: p <= j < p + n ==> spans[j].b <= |text| && text[spans[j].a..spans[j].b] == sub[j - p..j - p + 2]
    ensures spans[p].a + n + 1 <= |text| && text[spans[p].a..spans[p].a + n + 1] == sub
  {
    var a := spans[p].a;
    PairsAdvance(spans, p, n, p, p + n - 1);
    assert spans[p + n - 1].b <= |text|;
    forall k: nat | k < n + 1 ensures text[a + k] == sub[k] {
      var j := if k < n then k else k - 1;
      PairsAdvance(spans, p, n, p, p + j);
      PairSpells(text, sub, a, j, k);
    }
  }

  /** Neighbouring tokens of the match share a character. */
  ghost predicate Overlapping(out: seq<Token>, p: nat, n: nat)
    requires p + n <= |out|
  {
    forall i, j :: p <= i && j == i + 1 < p + n ==> out[j].offsetFrom < out[i].offsetTo
  }

  /** Every matched span is the pair of characters the phrase has there. */
  ghost predicate Spells(text: string, sub: string, spans: seq<Span>, p: nat)
    requires |sub| >= 2 && p + |sub| - 1 <= |spans|
  {
    forall j :: p <= j < p + |sub| - 1 ==>
      spans[j].a + 2 == spans[j].b <= |text| && text[spans[j].a..spans[j].b] == sub[j - p..j - p + 2]
  }

  lemma SameTextSameSlice(text: string, span: Span, a: Token, j: nat, sub: string, k: nat, b: Token)
    requires span.a <= span.b <= |text| && a == TokenAt(text, span, j)
    requires k + 2 <= |sub| && b == TokenAt(sub, Span(k, k + 2), k) && a.text == b.text
    ensures span.a + 2 == span.b && text[span.a..span.b] == sub[k..k + 2]
  {
    assert |text[span.a..span.b]| == span.b - span.a && |sub[k..k + 2]| == 2;
  }

  lemma MatchSpells(text: string, spans: seq<Span>, out: seq<Token>, sub: string, phrase: seq<Token>, p: nat)
    requires IsTokens(text, spans, out) && |sub| >= 2 && IsTokens(sub, Bigrams(0, |sub|), phrase)
    requires PhraseAt(out, phrase, p)
    ensures Spells(text, sub, spans, p)
  {
    forall j | p <= j < p + |sub| - 1
      ensures spans[j].a + 2 == spans[j].b <= |text| && text[spans[j].a..spans[j].b] == sub[j - p..j - p + 2]
    {
      TokenOfSpan(text, spans, out, j);
      TokenOfSpan(sub, Bigrams(0, |sub|), phrase, j - p);
      SameTextSameSlice(text, spans[j], out[j], j, sub, j - p, phrase[j - p]);
    }
  }

  lemma SpelledArePairs(text: string, sub: string, spans: seq<Span>, p: nat)
    requires |sub| >= 2 && p + |sub| - 1 <= |spans| && MovesOn(spans) && Spells(text, sub, spans, p)
    ensures Pairs(spans, p, |sub| - 1)
  {
  }

  lemma OverlapIsChain(text: string, spans: seq<Span>, out: seq<Token>, p: nat, n: nat)
    requires IsTokens(text, spans, out) && MovesOn(spans) && Pairs(spans, p, n)
    ensures Overlapping(out, p, n) <==> Chained(spans, p, n)
  {
    forall i, j | p <= i && j == i + 1 < p + n
      ensures out[j].offsetFrom < out[i].offsetTo <==> spans[j].a == spans[i].a + 1
    {
      TokenOfSpan(text, spans, out, i);
      TokenOfSpan(text, spans, out, j);
      if spans[j].a < spans[i].b {
        OffsetsIncrease(text, spans[j].a, spans[i].b);
      } else if spans[i].b < spans[j].a {
        OffsetsIncrease(text, spans[i].b, spans[j].a);
      }
    }
  }

  /** The characters from the first matched span to the last. */
  lemma TightIsSubstring(text: string, sub: string, spans: seq<Span>, p: nat)
    requires |sub| >= 2 && p + |sub| - 1 <= |spans| && MovesOn(spans) && Spells(text, sub, spans, p)
    ensures spans[p].a <= spans[p + |sub| - 2].b <= |text|
    ensures text[spans[p].a..spans[p + |sub| - 2].b] == sub <==> Chained(spans, p, |sub| - 1)
  {
    var n := |sub| - 1;
    SpelledArePairs(text, sub, spans, p);
    TightIsChained(spans, p, n);
    PairsAdvance(spans, p, n, p, p + n - 1);
    if Chained(spans, p, n) {
      ChainSpells(text, sub, spans, p, n);
    }
  }

  /** The bytes from the start of token `i` to the end of token `j` are `sub`. */
  ghost predicate CutsOut(text: string, out: seq<Token>, i: nat, j: nat, sub: string) {
    i < |out| && j < |out| && ByteSlice(text, out[i].offsetFrom, out[j].offsetTo) == sub
  }

  lemma MatchedBytes(text: string, spans: seq<Span>, out: seq<Token>, i: nat, j: nat, sub: string)
    requires IsTokens(text, spans, out) && i < |out| && j < |out| && spans[i].a <= spans[j].b <= |text|
    ensures CutsOut(text, out, i, j, sub) <==> text[spans[i].a..spans[j].b] == sub
  {
    TokenOfSpan(text, spans, out, i);
    TokenOfSpan(text, spans, out, j);
    ByteSliceAt(text, spans[i].a, spans[j].b);
  }

  lemma SpelledBytes(text: string, sub: string, spans: seq<Span>, out: seq<Token>, p: nat)
    requires IsTokens(text, spans, out) && MovesOn(spans)
    requires |sub| >= 2 && p + |sub| - 1 <= |spans| && Spells(text, sub, spans, p)
    ensures CutsOut(text, out, p, p + |sub| - 2, sub) <==> Chained(spans, p, |sub| - 1)
  {
    TightIsSubstring(text, sub, spans, p);
    MatchedBytes(text, spans, out, p, p + |sub| - 2, sub);
  }

  lemma MatchIsSubstringIff(text: string, spans: seq<Span>, out: seq<Token>, sub: string, phrase: seq<Token>, p: nat)
    requires IsTokens(text, spans, out) && MovesOn(spans)
    requires |sub| >= 2 && IsTokens(sub, Bigrams(0, |sub|), phrase) && PhraseAt(out, phrase, p)
    ensures CutsOut(text, out, p, p + |sub| - 2, sub) <==> Overlapping(out, p, |sub| - 1)
  {
    MatchSpells(text, spans, out, sub, phrase, p);
    SpelledArePairs(text, sub, spans, p);
    OverlapIsChain(text, spans, out, p, |sub| - 1);
    SpelledBytes(text, sub, spans, out, p);
  }

  /**
   A phrase match is a substring match exactly when its tokens overlap: then, and only then, the
   bytes from the first token's start to the last token's end are the searched string.
   */
  lemma PhraseIsSubstringIff(text: string, alnum: char -> bool, out: seq<Token>, sub: string, phrase: seq<Token>, p: nat)
    requires IsTokens(text, Spans(Kinds(text, alnum), 0), out)
    requires |sub| >= 2 && forall k :: 0 <= k < |sub| ==> IsScriptioContinua(sub[k])
    requires IsTokens(sub, Spans(Kinds(sub, alnum), 0), phrase) && PhraseAt(out, phrase, p)
    ensures |phrase| == |sub| - 1
    ensures CutsOut(text, out, p, p + |sub| - 2, sub) <==> Overlapping(out, p, |sub| - 1)
  {
    var kinds := Kinds(text, alnum);
    AllContinua(Kinds(sub, alnum));
    AllSpansMoveOn(kinds);
    MatchIsSubstringIff(text, Spans(kinds, 0), out, sub, phrase, p);
  }

  // ----- The scan ---------------------------------------------------------------------------------------

  /** `[r, i)` lies in one run of this kind and nothing ends it before `i`. */
  ghost predicate InRun(kinds: seq<Kind>, kind: Kind, r: nat, i: nat) {
    r <= i <= |kinds| && forall k :: r <= k < i ==> kinds[k] == kind
  }

  lemma RunEndIs(kinds: seq<Kind>, kind: Kind, r: nat, i: nat)
    requires InRun(kinds, kind, r, i) && r < i && !kind.Separator? && (i < |kinds| ==> kinds[i] != kind)
    ensures kinds[r] == kind && RunEnd(kinds, r) == i
  {
    assert kinds[r] == kind;
  }

  /** A run of one kind up to a change of kind is a run of the specification. */
  lemma RunEndsHere(kinds: seq<Kind>, kind: Kind, r: nat, i: nat)
    requires InRun(kinds, kind, r, i) && r < i && !kind.Separator? && (i < |kinds| ==> kinds[i] != kind)
    ensures Spans(kinds, r) == RunSpans(kind, r, i) + Spans(kinds, i)
  {
    RunEndIs(kinds, kind, r, i);
  }

  lemma AppendTokens(text: string, done: seq<Span>, out: seq<Token>, more: seq<Span>, tokens: seq<Token>)
    requires IsTokens(text, done, out) && InText(more, |text|) && |tokens| == |more|
    requires forall k :: 0 <= k < |tokens| ==> tokens[k] == TokenAt(text, more[k], |out| + k)
    ensures IsTokens(text, done + more, out + tokens)
  {
    forall k | 0 <= k < |out| + |tokens| ensures (out + tokens)[k] == TokenAt(text, (done + more)[k], k) {
      if k >= |out| {
        assert tokens[k - |out|] == TokenAt(text, more[k - |out|], |out| + (k - |out|));
      }
    }
  }

  method FlushWord(text: string, out: seq<Token>, pos: nat, start: nat, end: nat,
                   ghost done: seq<Span>, ghost r: nat, ghost i: nat)
    returns (next: seq<Token>, nextPos: nat)
    requires IsTokens(text, done, out) && pos == |out|
    requires r < i <= |text| && start == Offset(text, r) && end == Offset(text, i)
    ensures IsTokens(text, done + RunSpans(Word, r, i), next) && nextPos == |next|
  {
    ByteSliceAt(text, r, i);
    next := out + [Token(start, end, pos, ByteSlice(text, start, end))];
    nextPos := pos + 1;
    AppendTokens(text, done, out, [Span(r, i)], next[|out|..]);
    assert next == out + next[|out|..];
  }

  /** The buffered run: byte offset and character of each position from `r` on. */
  ghost predicate Buffers(text: string, run: seq<(nat, char)>, r: nat) {
    r + |run| <= |text| && forall k :: 0 <= k < |run| ==> run[k] == (Offset(text, r + k), text[r + k])
  }

  function PairToken(run: seq<(nat, char)>, k: nat, position: nat): Token
    requires k + 1 < |run|
  {
    var (off, a), b := run[k], run[k + 1].1;
    Token(off, off + Utf8Len(a) + Utf8Len(b), position, [a, b])
  }

  lemma PairIsSlice(text: string, run: seq<(nat, char)>, r: nat, k: nat, position: nat)
    requires Buffers(text, run, r) && k + 1 < |run|
    ensures PairToken(run, k, position) == TokenAt(text, Span(r + k, r + k + 2), position)
  {
    var a := r + k;
    assert run[k] == (Offset(text, a), text[a]) && run[k + 1].1 == text[a + 1];
    assert text[a..a + 2] == [text[a], text[a + 1]];
    assert Offset(text, a + 2) == Offset(text, a + 1) + Utf8Len(text[a + 1]);
  }

  lemma LoneIsSlice(text: string, run: seq<(nat, char)>, r: nat, position: nat)
    requires Buffers(text, run, r) && |run| == 1
    ensures Token(run[0].0, run[0].0 + Utf8Len(run[0].1), position, [run[0].1]) == TokenAt(text, Span(r, r + 1), position)
  {
    assert run[0] == (Offset(text, r), text[r]);
    assert text[r..r + 1] == [text[r]];
  }

  method FlushCont(text: string, out: seq<Token>, pos: nat, run: seq<(nat, char)>, ghost done: seq<Span>, ghost r: nat)
    returns (next: seq<Token>, nextPos: nat)
    requires IsTokens(text, done, out) && pos == |out| && run != [] && Buffers(text, run, r)
    ensures IsTokens(text, done + RunSpans(Continua, r, r + |run|), next) && nextPos == |next|
  {
    if |run| == 1 {
      LoneIsSlice(text, run, r, pos);
      var lone := Token(run[0].0, run[0].0 + Utf8Len(run[0].1), pos, [run[0].1]);
      AppendTokens(text, done, out, [Span(r, r + 1)], [lone]);
      next, nextPos := out + [lone], pos + 1;
    } else {
      var tokens: seq<Token> := [];
      for k := 0 to |run| - 1
        invariant |tokens| == k
        invariant forall j :: 0 <= j < k ==> tokens[j] == TokenAt(text, Span(r + j, r + j + 2), pos + j)
      {
        PairIsSlice(text, run, r, k, pos + k);
        tokens := tokens + [PairToken(run, k, pos + k)];
      }
      AppendTokens(text, done, out, Bigrams(r, r + |run|), tokens);
      next, nextPos := out + tokens, pos + |tokens|;
    }
  }

  /** `done` are the spans of the runs that ended at or before `r`. */
  ghost predicate Ended(text: string, kinds: seq<Kind>, out: seq<Token>, done: seq<Span>, r: nat) {
    r <= |kinds| && IsTokens(text, done, out) && Spans(kinds, 0) == done + Spans(kinds, r)
  }

  /** What is pending at character `i`: a word from `r`, a buffered run from `r`, or nothing. */
  ghost predicate Pending(text: string, kinds: seq<Kind>, wordStart: Option<nat>, cont: seq<(nat, char)>, r: nat, i: nat) {
    && r <= i <= |kinds| == |text|
    && match wordStart
       case Some(start) => cont == [] && r < i && start == Offset(text, r) && InRun(kinds, Word, r, i)
       case None => r + |cont| == i && Buffers(text, cont, r) && InRun(kinds, Continua, r, i)
  }

  lemma Reassociate(a: seq<Span>, b: seq<Span>, c: seq<Span>)
    ensures a + (b + c) == a + b + c
  {
  }

  lemma RunIsOver(text: string, kinds: seq<Kind>, out: seq<Token>, done: seq<Span>, kind: Kind, r: nat, i: nat, next: seq<Token>)
    requires Ended(text, kinds, out, done, r) && InRun(kinds, kind, r, i) && r < i && !kind.Separator?
    requires i < |kinds| ==> kinds[i] != kind
    requires IsTokens(text, done + RunSpans(kind, r, i), next)
    ensures Ended(text, kinds, next, done + RunSpans(kind, r, i), i)
  {
    RunEndsHere(kinds, kind, r, i);
    Reassociate(done, RunSpans(kind, r, i), Spans(kinds, i));
  }

  lemma SeparatorHasNoSpan(kinds: seq<Kind>, i: nat)
    requires i < |kinds| && kinds[i].Separator?
    ensures Spans(kinds, i) == Spans(kinds, i + 1)
  {
    assert Spans(kinds, i) == [] + Spans(kinds, i + 1);
  }

  lemma SeparatorIsSkipped(text: string, kinds: seq<Kind>, out: seq<Token>, done: seq<Span>, i: nat)
    requires Ended(text, kinds, out, done, i) && i < |kinds| && kinds[i].Separator?
    ensures Ended(text, kinds, out, done, i + 1)
  {
    SeparatorHasNoSpan(kinds, i);
  }

  /** Emit whatever is pending. */
  method Flush(text: string, out: seq<Token>, pos: nat, wordStart: Option<nat>, cont: seq<(nat, char)>, offset: nat,
               ghost kinds: seq<Kind>, ghost done: seq<Span>, ghost r: nat, ghost i: nat)
    returns (next: seq<Token>, nextPos: nat, ghost ended: seq<Span>)
    requires Ended(text, kinds, out, done, r) && Pending(text, kinds, wordStart, cont, r, i)
    requires pos == |out| && offset == Offset(text, i)
    requires i < |kinds| ==> kinds[i] != if wordStart.Some? then Word else Continua
    ensures Ended(text, kinds, next, ended, i) && nextPos == |next|
  {
    hide IsTokens, Spans, RunSpans, InRun, Buffers, Offset;
    if wordStart.Some? {
      next, nextPos := FlushWord(text, out, pos, wordStart.value, offset, done, r, i);
      RunIsOver(text, kinds, out, done, Word, r, i, next);
      ended := done + RunSpans(Word, r, i);
    } else if cont != [] {
      next, nextPos := FlushCont(text, out, pos, cont, done, r);
      RunIsOver(text, kinds, out, done, Continua, r, i, next);
      ended := done + RunSpans(Continua, r, i);
    } else {
      next, nextPos, ended := out, pos, done;
    }
  }

  lemma BufferGrows(text: string, kinds: seq<Kind>, cont: seq<(nat, char)>, r: nat, i: nat)
    requires Pending(text, kinds, None, cont, r, i) && i < |text| && kinds[i].Continua?
    ensures Pending(text, kinds, None, cont + [(Offset(text, i), text[i])], r, i + 1)
  {
  }

  lemma WordGrows(text: string, kinds: seq<Kind>, wordStart: Option<nat>, r: nat, i: nat)
    requires Pending(text, kinds, wordStart, [], r, i) && i < |text| && kinds[i].Word?
    ensures Pending(text, kinds, if wordStart.None? then Some(Offset(text, i)) else wordStart, [], r, i + 1)
  {
  }

  /** The variables of the scan. */
  datatype Scan = Scan(out: seq<Token>, pos: nat, wordStart: Option<nat>, cont: seq<(nat, char)>, offset: nat)

  ghost predicate At(text: string, kinds: seq<Kind>, s: Scan, done: seq<Span>, r: nat, i: nat) {
    && Ended(text, kinds, s.out, done, r) && Pending(text, kinds, s.wordStart, s.cont, r, i)
    && s.pos == |s.out| && s.offset == Offset(text, i)
  }

  /** The scan has read `i` characters. */
  ghost predicate Scanned(text: string, kinds: seq<Kind>, s: Scan, i: nat) {
    (s.wordStart.None? || s.cont == []) && exists done, r :: At(text, kinds, s, done, r, i)
  }

  lemma ScannedBy(text: string, kinds: seq<Kind>, s: Scan, done: seq<Span>, r: nat, i: nat)
    requires At(text, kinds, s, done, r, i)
    ensures Scanned(text, kinds, s, i)
  {
  }

  /** Nothing is pending at character `i`. */
  ghost predicate Flushed(text: string, kinds: seq<Kind>, s: Scan, i: nat) {
    s.wordStart.None? && s.cont == [] && exists done :: At(text, kinds, s, done, i, i)
  }

  method FlushAll(text: string, s: Scan, ghost kinds: seq<Kind>, ghost i: nat) returns (next: Scan)
    requires Scanned(text, kinds, s, i)
    requires i < |kinds| ==> kinds[i] != if s.wordStart.Some? then Word else Continua
    ensures Flushed(text, kinds, next, i) && Scanned(text, kinds, next, i)
  {
    ghost var done, r: nat :| At(text, kinds, s, done, r, i);
    var out, pos, ended := Flush(text, s.out, s.pos, s.wordStart, s.cont, s.offset, kinds, done, r, i);
    next := Scan(out, pos, None, [], s.offset);
    assert At(text, kinds, next, ended, i, i);
  }

  function Moved(s: Scan, c: char): Scan { s.(offset := s.offset + Utf8Len(c)) }

  lemma ContinuaTaken(text: string, kinds: seq<Kind>, s: Scan, i: nat)
    requires i < |text| == |kinds| && kinds[i].Continua? && Scanned(text, kinds, s, i) && s.wordStart.None?
    ensures Scanned(text, kinds, Moved(s, text[i]).(cont := s.cont + [(s.offset, text[i])]), i + 1)
  {
    var done, r: nat :| At(text, kinds, s, done, r, i);
    BufferGrows(text, kinds, s.cont, r, i);
    ScannedBy(text, kinds, Moved(s, text[i]).(cont := s.cont + [(s.offset, text[i])]), done, r, i + 1);
  }

  lemma WordTaken(text: string, kinds: seq<Kind>, s: Scan, i: nat)
    requires i < |text| == |kinds| && kinds[i].Word? && Scanned(text, kinds, s, i) && s.cont == []
    ensures Scanned(text, kinds, Moved(s, text[i]).(wordStart := if s.wordStart.None? then Some(s.offset) else s.wordStart), i + 1)
  {
    var done, r: nat :| At(text, kinds, s, done, r, i);
    WordGrows(text, kinds, s.wordStart, r, i);
    ScannedBy(text, kinds, Moved(s, text[i]).(wordStart := if s.wordStart.None? then Some(s.offset) else s.wordStart), done, r, i + 1);
  }

  lemma SeparatorTaken(text: string, kinds: seq<Kind>, s: Scan, i: nat)
    requires i < |text| == |kinds| && kinds[i].Separator? && Flushed(text, kinds, s, i)
    ensures Scanned(text, kinds, Moved(s, text[i]), i + 1)
  {
    var done :| At(text, kinds, s, done, i, i);
    SeparatorIsSkipped(text, kinds, s.out, done, i);
    ScannedBy(text, kinds, Moved(s, text[i]), done, i + 1, i + 1);
  }

  lemma AllScanned(text: string, kinds: seq<Kind>, s: Scan)
    requires |kinds| == |text| && Flushed(text, kinds, s, |text|)
    ensures IsTokens(text, Spans(kinds, 0), s.out)
  {
    var done :| At(text, kinds, s, done, |text|, |text|);
    assert done + Spans(kinds, |text|) == done;
  }

  lemma NothingScanned(text: string, kinds: seq<Kind>)
    requires |kinds| == |text|
    ensures Scanned(text, kinds, Scan([], 0, None, [], 0), 0)
  {
    assert [] + Spans(kinds, 0) == Spans(kinds, 0);
    ScannedBy(text, kinds, Scan([], 0, None, [], 0), [], 0, 0);
  }

  method TakeContinua(text: string, s: Scan, ghost kinds: seq<Kind>, i: nat) returns (next: Scan)
    requires i < |text| == |kinds| && kinds[i].Continua? && Scanned(text, kinds, s, i)
    ensures Scanned(text, kinds, next, i + 1)
  {
    next := s;
    if s.wordStart.Some? {
      next := FlushAll(text, s, kinds, i);
    }
    ContinuaTaken(text, kinds, next, i);
    next := Moved(next, text[i]).(cont := next.cont + [(next.offset, text[i])]);
  }

  method TakeWord(text: string, s: Scan, ghost kinds: seq<Kind>, i: nat) returns (next: Scan)
    requires i < |text| == |kinds| && kinds[i].Word? && Scanned(text, kinds, s, i)
    ensures Scanned(text, kinds, next, i + 1)
  {
    next := s;
    if s.cont != [] {
      next := FlushAll(text, s, kinds, i);
    }
    WordTaken(text, kinds, next, i);
    next := Moved(next, text[i]).(wordStart := if next.wordStart.None? then Some(next.offset) else next.wordStart);
  }

  method TakeSeparator(text: string, s: Scan, ghost kinds: seq<Kind>, i: nat) returns (next: Scan)
    requires i < |text| == |kinds| && kinds[i].Separator? && Scanned(text, kinds, s, i)
    ensures Scanned(text, kinds, next, i + 1)
  {
    next := FlushAll(text, s, kinds, i);
    SeparatorTaken(text, kinds, next, i);
    next := Moved(next, text[i]);
  }

  /** `tokenize`: one scan that switches rule at every change of script. */
  method Tokenize(text: string, alnum: char -> bool) returns (out: seq<Token>)
    ensures IsTokens(text, Spans(Kinds(text, alnum), 0), out)
  {
    ghost var kinds := Kinds(text, alnum);
    var s := Scan([], 0, None, [], 0);
    NothingScanned(text, kinds);
    for i := 0 to |text|
      invariant Scanned(text, kinds, s, i)
    {
      if IsScriptioContinua(text[i]) {
        s := TakeContinua(text, s, kinds, i);
      } else if alnum(text[i]) {
        s := TakeWord(text, s, kinds, i);
      } else {
        s := TakeSeparator(text, s, kinds, i);
      }
    }
    s := FlushAll(text, s, kinds, |text|);
    AllScanned(text, kinds, s);
    out := s.out;
  }

  // ----- What callers see ---------------------------------------------------------------------------------

  lemma CoveredBytes(text: string, spans: seq<Span>, out: seq<Token>, k: nat, i: nat)
    requires IsTokens(text, spans, out) && k < |out| && spans[k].a <= i < spans[k].b
    ensures i < |text| && out[k].offsetFrom <= Offset(text, i) < out[k].offsetTo
  {
    TokenOfSpan(text, spans, out, k);
    OffsetsIncrease(text, i, spans[k].b);
    if spans[k].a < i {
      OffsetsIncrease(text, spans[k].a, i);
    }
  }

  /** Every token is the slice of the source at its offsets, and its position is its index. */
  lemma TokensAreSlices(text: string, alnum: char -> bool, out: seq<Token>, k: nat)
    requires IsTokens(text, Spans(Kinds(text, alnum), 0), out) && k < |out|
    ensures out[k].position == k && out[k].text == ByteSlice(text, out[k].offsetFrom, out[k].offsetTo) != []
  {
    var spans := Spans(Kinds(text, alnum), 0);
    TokenOfSpan(text, spans, out, k);
    ByteSliceAt(text, spans[k].a, spans[k].b);
  }

  /** No word or continua character is left out. */
  lemma NothingIsLost(text: string, alnum: char -> bool, out: seq<Token>, i: nat) returns (k: nat)
    requires IsTokens(text, Spans(Kinds(text, alnum), 0), out)
    requires i < |text| && (alnum(text[i]) || IsScriptioContinua(text[i]))
    ensures k < |out| && out[k].offsetFrom <= Offset(text, i) < out[k].offsetTo
  {
    var spans := Spans(Kinds(text, alnum), 0);
    EveryCharacterIsCovered(Kinds(text, alnum), 0, i);
    k :| 0 <= k < |spans| && spans[k].a <= i < spans[k].b;
    CoveredBytes(text, spans, out, k, i);
  }

  /** Two words of two continua characters, with a separator in between. */
  lemma TwoRuns(kinds: seq<Kind>)
    requires kinds == [Continua, Continua, Separator, Continua, Continua]
    ensures Spans(kinds, 0) == [Span(0, 2), Span(3, 5)]
  {
    RunEndIs(kinds, Continua, 0, 2);
    RunEndIs(kinds, Continua, 3, 5);
    assert Bigrams(0, 2) == [Span(0, 2)] && Bigrams(3, 5) == [Span(3, 5)];
    assert Spans(kinds, 5) == [];
    assert Spans(kinds, 3) == [Span(3, 5)];
    assert RunEnd(kinds, 2) == 3 && Spans(kinds, 2) == Spans(kinds, 3);
  }

  lemma AcrossTexts(x: char, y: char, z: char, out: seq<Token>, phrase: seq<Token>)
    requires IsTokens([x, y, ' ', y, z], [Span(0, 2), Span(3, 5)], out)
    requires IsTokens([x, y, z], [Span(0, 2), Span(1, 3)], phrase)
    ensures PhraseAt(out, phrase, 0)
  {
    var text, sub := [x, y, ' ', y, z], [x, y, z];
    TokenOfSpan(text, [Span(0, 2), Span(3, 5)], out, 0);
    TokenOfSpan(text, [Span(0, 2), Span(3, 5)], out, 1);
    assert phrase[0].text == sub[0..2] && phrase[1].text == sub[1..3];
    assert text[0..2] == [x, y] && text[3..5] == [y, z] && sub[0..2] == [x, y] && sub[1..3] == [y, z];
  }

  lemma AcrossBytes(x: char, y: char, z: char, out: seq<Token>)
    requires IsTokens([x, y, ' ', y, z], [Span(0, 2), Span(3, 5)], out)
    ensures !CutsOut([x, y, ' ', y, z], out, 0, 1, [x, y, z])
  {
    MatchedBytes([x, y, ' ', y, z], [Span(0, 2), Span(3, 5)], out, 0, 1, [x, y, z]);
  }

  lemma AcrossSpans(alnum: char -> bool, x: char, y: char, z: char)
    requires IsScriptioContinua(x) && IsScriptioContinua(y) && IsScriptioContinua(z) && !alnum(' ')
    ensures Spans(Kinds([x, y, ' ', y, z], alnum), 0) == [Span(0, 2), Span(3, 5)]
    ensures Spans(Kinds([x, y, z], alnum), 0) == [Span(0, 2), Span(1, 3)]
  {
    TwoRuns(Kinds([x, y, ' ', y, z], alnum));
    AllContinua(Kinds([x, y, z], alnum));
    assert Bigrams(0, 3) == [Span(0, 2), Span(1, 3)];
  }

  /** A phrase can match across a separator: for continua characters `x`, `y`, `z` the text
      `xy yz` does not contain `xyz`, but its tokens do. */
  lemma PhraseAcrossSeparator(alnum: char -> bool, x: char, y: char, z: char, out: seq<Token>, phrase: seq<Token>)
    requires IsScriptioContinua(x) && IsScriptioContinua(y) && IsScriptioContinua(z) && !alnum(' ')
    requires IsTokens([x, y, ' ', y, z], Spans(Kinds([x, y, ' ', y, z], alnum), 0), out)
    requires IsTokens([x, y, z], Spans(Kinds([x, y, z], alnum), 0), phrase)
    ensures PhraseAt(out, phrase, 0) && !CutsOut([x, y, ' ', y, z], out, 0, 1, [x, y, z])
  {
    AcrossSpans(alnum, x, y, z);
    AcrossTexts(x, y, z, out, phrase);
    AcrossBytes(x, y, z, out);
  }
}
