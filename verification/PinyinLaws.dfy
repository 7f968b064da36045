/** What the terms of a text and the search of pinyin/pinyin.go come to for a caller: the terms are the
    Chinese runes and the whole words of the text, a text finds its own parts, and of several matches from
    one term the search meets the first in alias order. */
module PinyinLaws {
  import opened Sequences
  import opened PinyinMatch
  import opened PinyinText

  // ----- UTF-8 ---------------------------------------------------------------------------------

  predicate IsTail(b: Byte) {
    0x80 <= b < 0xC0
  }

  /** The number that the bytes of one rune stand for: what is left of the first byte without its length
      mark, then six bits from each of the others. */
  function RuneValue(w: Word): int
    requires 1 <= |w| <= 4
  {
    var b := seq(|w|, k requires 0 <= k < |w| => w[k] as int);
    if |b| == 1 then b[0]
    else if |b| == 2 then (b[0] - 0xC0) * 0x40 + b[1] - 0x80
    else if |b| == 3 then (b[0] - 0xE0) * 0x1000 + (b[1] - 0x80) * 0x40 + b[2] - 0x80
    else (b[0] - 0xF0) * 0x4_0000 + (b[1] - 0x80) * 0x1000 + (b[2] - 0x80) * 0x40 + b[3] - 0x80
  }

  lemma SixBits(n: nat)
    ensures n == n / 0x40 * 0x40 + n % 0x40
    ensures n / 0x1000 == n / 0x40 / 0x40 && n / 0x4_0000 == n / 0x1000 / 0x40
  {
  }

  /** A rune's bytes give the rune back, their first byte tells how many they are, and no fewer would do. */
  lemma EncodedRune(r: Rune)
    ensures
      var w := EncodeRune(r);
      && RuneValue(w) == r
      && !IsTail(w[0]) && (forall k: nat | 0 < k < |w| :: IsTail(w[k]))
      && |w| == (if w[0] < 0x80 then 1 else if w[0] < 0xE0 then 2 else if w[0] < 0xF0 then 3 else 4)
      && (|w| > 1 ==> r >= 0x80) && (|w| > 2 ==> r >= 0x800) && (|w| > 3 ==> r >= 0x1_0000)
  {
    SixBits(r);
    SixBits(r / 0x40);
    SixBits(r / 0x1000);
  }

  // ----- The terms of a text -------------------------------------------------------------------

  predicate IsTermRune(dict: Dict, r: Rune) {
    dict(r) != [] || IsCharOrNumber(r)
  }

  /** No word of letters and digits goes on across position `m`. */
  predicate Boundary(runes: seq<Rune>, m: nat)
    requires m <= |runes|
  {
    m == 0 || m == |runes| || !IsCharOrNumber(runes[m - 1]) || !IsCharOrNumber(runes[m])
  }

  lemma {:induction false} RunEndWithin(runes: seq<Rune>, j: nat, m: nat)
    requires 0 < j <= m <= |runes| && IsCharOrNumber(runes[j - 1]) && Boundary(runes, m)
    ensures RunEnd(runes, j) <= m
    decreases m - j
  {
    if j < m && IsCharOrNumber(runes[j]) {
      RunEndWithin(runes, j + 1, m);
    }
  }

  lemma StepWithin(dict: Dict, runes: seq<Rune>, i: nat, m: nat, next: nat)
    requires i < m <= |runes| && Boundary(runes, m)
    requires next == if dict(runes[i]) == [] && IsCharOrNumber(runes[i]) then RunEnd(runes, i + 1) else i + 1
    ensures next <= m
  {
    if dict(runes[i]) == [] && IsCharOrNumber(runes[i]) {
      RunEndWithin(runes, i + 1, m);
    }
  }

  /** Cutting a text at a boundary does not change the terms after it. */
  lemma {:induction false} SpansAfter(dict: Dict, runes: seq<Rune>, i: nat, m: nat) returns (n: nat)
    requires i <= m <= |runes| && Boundary(runes, m)
    ensures n <= |Spans(dict, runes, i)| && Spans(dict, runes, i)[n..] == Spans(dict, runes, m)
    decreases m - i
  {
    if i == m {
      return 0;
    }
    var next := SpansStep(dict, runes, i);
    StepWithin(dict, runes, i, m, next);
    n := SpansAfter(dict, runes, next, m);
    if IsTermRune(dict, runes[i]) {
      assert Spans(dict, runes, i)[n + 1..] == Spans(dict, runes, next)[n..];
      n := n + 1;
    }
  }

  /** A Chinese rune, or a word of letters and digits that cannot be made longer. */
  ghost predicate IsPiece(dict: Dict, runes: seq<Rune>, x: nat, y: nat) {
    && x < y <= |runes|
    && if dict(runes[x]) != [] then y == x + 1
       else (forall k: nat | x <= k < y :: IsCharOrNumber(runes[k])) && Boundary(runes, x) && Boundary(runes, y)
  }

  /** No letter or digit has a reading. */
  ghost predicate PlainWords(dict: Dict, runes: seq<Rune>) {
    forall k: nat | k < |runes| && IsCharOrNumber(runes[k]) :: dict(runes[k]) == []
  }

  lemma {:induction false} SpansArePieces(dict: Dict, runes: seq<Rune>, i: nat, k: nat)
    requires i <= |runes| && Boundary(runes, i) && PlainWords(dict, runes) && k < |Spans(dict, runes, i)|
    ensures IsPiece(dict, runes, Spans(dict, runes, i)[k].0, Spans(dict, runes, i)[k].1)
    decreases |runes| - i
  {
    var next := SpansStep(dict, runes, i);
    var rest := Spans(dict, runes, next);
    if !IsTermRune(dict, runes[i]) {
      SpansArePieces(dict, runes, next, k);
    } else if k > 0 {
      assert Spans(dict, runes, i)[k] == rest[k - 1];
      SpansArePieces(dict, runes, next, k - 1);
    }
  }

  lemma PieceIsSpan(dict: Dict, runes: seq<Rune>, x: nat, y: nat)
    requires PlainWords(dict, runes) && IsPiece(dict, runes, x, y)
    ensures (x, y) in Spans(dict, runes, 0)
  {
    var sp := Spans(dict, runes, 0);
    assert Boundary(runes, x);
    var n := SpansAfter(dict, runes, 0, x);
    var next := SpansStep(dict, runes, x);
    if dict(runes[x]) == [] {
      StepWithin(dict, runes, x, y, next);
      assert next == y;
    }
    assert sp[n..][0] == (x, y);
    assert sp[n] == (x, y);
  }

  /** The terms are exactly the Chinese runes and the whole words of the text. */
  lemma TermsAreThePieces(dict: Dict, runes: seq<Rune>, x: nat, y: nat)
    requires PlainWords(dict, runes)
    ensures (x, y) in Spans(dict, runes, 0) <==> IsPiece(dict, runes, x, y)
  {
    if (x, y) in Spans(dict, runes, 0) {
      var k: nat :| k < |Spans(dict, runes, 0)| && Spans(dict, runes, 0)[k] == (x, y);
      SpansArePieces(dict, runes, 0, k);
    }
    if IsPiece(dict, runes, x, y) {
      PieceIsSpan(dict, runes, x, y);
    }
  }

  // ----- A text finds its own parts ------------------------------------------------------------

  /** The small letter of a capital one. */
  function SmallLetter(r: Rune): Rune {
    if 'A' as int <= r <= 'Z' as int then r + ('a' as int - 'A' as int) else r
  }

  /** The two dictionaries agree on a rune: the first reading of a Chinese one is in lower case and among all
      its readings, and neither reads a letter, a digit or a rune the other does not read. */
  predicate Agree(readings: Dict, first: Dict, r: Rune) {
    if readings(r) == [] then first(r) == []
    else
      && !IsCharOrNumber(r) && first(r) != []
      && first(r)[0] != [] && first(r)[0] == ToLower(first(r)[0]) && first(r)[0] in readings(r)
  }

  /** `k` is how the keyword has the text's rune `r`: a letter in lower case. */
  predicate Spells(readings: Dict, first: Dict, r: Rune, k: Rune) {
    k == SmallLetter(r) && Agree(readings, first, r) && Agree(readings, first, k)
  }

  /** The keyword is the text's part from rune `a` on, with the letters in lower case. */
  ghost predicate IsPart(readings: Dict, first: Dict, text: seq<Rune>, a: nat, keyword: seq<Rune>) {
    && a + |keyword| <= |text|
    && forall m: nat | m < |keyword| :: Spells(readings, first, text[a + m], keyword[m])
  }

  lemma KeywordLast(first: Dict, runes: seq<Rune>, r: Rune)
    ensures KeywordBytes(first, runes + [r]) == KeywordBytes(first, runes) + KeywordBytes(first, [r])
    ensures KeywordBytes(first, [r])
         == if first(r) != [] then first(r)[0] else if IsCharOrNumber(r) then EncodeRune(r) else []
  {
    assert (runes + [r])[..|runes|] == runes && [r][..0] == [];
  }

  lemma {:induction false} KeywordAppend(first: Dict, a: seq<Rune>, b: seq<Rune>)
    ensures KeywordBytes(first, a + b) == KeywordBytes(first, a) + KeywordBytes(first, b)
  {
    if b == [] {
      assert a + b == a;
    } else {
      var (init, r) := (b[..|b| - 1], b[|b| - 1]);
      assert a + b == (a + init) + [r] && b == init + [r];
      KeywordAppend(first, a, init);
      KeywordLast(first, a + init, r);
      KeywordLast(first, init, r);
      Assoc(KeywordBytes(first, a), KeywordBytes(first, init), KeywordBytes(first, [r]));
    }
  }

  /** A letter or digit, and how the keyword has it. */
  predicate WordRune(first: Dict, r: Rune, k: Rune) {
    IsCharOrNumber(r) && k == SmallLetter(r) && first(k) == []
  }

  lemma WordByte(first: Dict, r: Rune, k: Rune)
    requires WordRune(first, r, k)
    ensures KeywordBytes(first, [k]) == ToLower(Encode([r])) && |Encode([r])| == 1
  {
    KeywordLast(first, [], k);
    EncodeOne(r);
    assert k == Lower(r);
  }

  lemma LowerAppend(a: Word, b: Word)
    ensures ToLower(a + b) == ToLower(a) + ToLower(b)
  {
  }

  lemma {:induction false} WordBytes(first: Dict, word: seq<Rune>, keyword: seq<Rune>)
    requires |keyword| == |word|
    requires forall m: nat | m < |word| :: WordRune(first, word[m], keyword[m])
    ensures KeywordBytes(first, keyword) == ToLower(Encode(word)) && |Encode(word)| == |word|
  {
    if word != [] {
      var n := |word| - 1;
      var w, r, c, k := word[..n], word[n], keyword[..n], keyword[n];
      assert word == w + [r] && keyword == c + [k];
      WordBytes(first, w, c);
      WordByte(first, r, k);
      EncodeAppend(w, [r]);
      KeywordLast(first, c, k);
      LowerAppend(Encode(w), Encode([r]));
    }
  }

  /** The keyword's runes for a word of the text are its letters in lower case. */
  lemma WordSpelt(readings: Dict, first: Dict, text: seq<Rune>, x: nat, y: nat, keyword: seq<Rune>)
    requires IsPart(readings, first, text, x, keyword) && x < y <= |text| && |keyword| == y - x
    requires forall k: nat | x <= k < y :: IsCharOrNumber(text[k])
    ensures KeywordBytes(first, keyword) == ToLower(Encode(text[x..y])) != []
  {
    var word := text[x..y];
    forall m: nat | m < |word|
      ensures WordRune(first, word[m], keyword[m])
    {
      assert Spells(readings, first, text[x + m], keyword[m]);
    }
    WordBytes(first, word, keyword);
  }

  lemma WordRead(strict: bool, t: Term, data: Word)
    requires data != [] && t.alias == [data]
    ensures ReadsWhole(strict, t, data)
  {
    assert t.alias[0] == data;
  }

  lemma ChineseRead(strict: bool, readings: Dict, first: Dict, r: Rune, t: Term)
    requires readings(r) != [] && Agree(readings, first, r) && t.alias == Aliases(strict, readings(r))
    ensures ReadsWhole(strict, t, KeywordBytes(first, [r]))
  {
    var data := first(r)[0];
    KeywordLast(first, [], r);
    var i: nat :| i < |readings(r)| && readings(r)[i] == data;
    assert AliasOf(strict, readings(r)[i], data);
    AliasesAre(strict, readings(r), data);
    var a: nat :| a < |t.alias| && t.alias[a] == data;
  }

  lemma PartCut(readings: Dict, first: Dict, text: seq<Rune>, a: nat, keyword: seq<Rune>, next: nat)
    returns (head: seq<Rune>, tail: seq<Rune>)
    requires IsPart(readings, first, text, a, keyword) && a <= next <= a + |keyword|
    ensures |head| == next - a && |head| + |tail| == |keyword|
    ensures IsPart(readings, first, text, a, head) && IsPart(readings, first, text, next, tail)
    ensures KeywordBytes(first, keyword) == KeywordBytes(first, head) + KeywordBytes(first, tail)
  {
    head, tail := keyword[..next - a], keyword[next - a..];
    assert keyword == head + tail;
    KeywordAppend(first, head, tail);
    forall k: nat | k < |tail| ensures Spells(readings, first, text[next + k], tail[k]) {
      assert Spells(readings, first, text[a + (next - a + k)], keyword[next - a + k]);
    }
  }

  /** The keyword's runes for a term of the text read that term. */
  lemma TermRead(strict: bool, readings: Dict, first: Dict, text: seq<Rune>, t: Term, x: nat, y: nat,
                 keyword: seq<Rune>)
    requires Renders(strict, readings, text, t, x, y)
    requires IsPart(readings, first, text, x, keyword) && |keyword| == y - x
    requires IsTermRune(readings, text[x])
    requires readings(text[x]) == [] ==> y == RunEnd(text, x + 1)
    ensures ReadsWhole(strict, t, KeywordBytes(first, keyword))
  {
    if readings(text[x]) == [] {
      WordSpelt(readings, first, text, x, y, keyword);
      WordRead(strict, t, KeywordBytes(first, keyword));
    } else {
      assert Spells(readings, first, text[x + 0], keyword[0]);
      assert keyword == [text[x]];
      ChineseRead(strict, readings, first, text[x], t);
    }
  }

  /** A skipped rune of the text adds nothing to the keyword. */
  lemma SkippedRead(readings: Dict, first: Dict, text: seq<Rune>, a: nat, keyword: seq<Rune>)
    requires |keyword| == 1 && IsPart(readings, first, text, a, keyword)
    requires !IsTermRune(readings, text[a])
    ensures KeywordBytes(first, keyword) == []
  {
    assert Spells(readings, first, text[a + 0], keyword[0]);
    assert keyword == [text[a]] == [] + [text[a]];
    KeywordLast(first, [], text[a]);
  }

  /** The word reads the term, be it the last one of the keyword or not. */
  predicate ReadsWhole(strict: bool, t: Term, word: Word) {
    Reads(strict, t, word, false) && Reads(strict, t, word, true)
  }

  /** The words read the terms from `n` on, one each. */
  ghost predicate ReadTerms(strict: bool, terms: seq<Term>, n: nat, words: seq<Word>) {
    n + |words| <= |terms|
    && forall k: nat | k < |words| :: ReadsWhole(strict, terms[n + k], words[k])
  }

  lemma ReadTermsCons(strict: bool, terms: seq<Term>, n: nat, word: Word, words: seq<Word>)
    requires n < |terms| && ReadTerms(strict, terms, n + 1, words)
    requires ReadsWhole(strict, terms[n], word)
    ensures ReadTerms(strict, terms, n, [word] + words) && Concat([word] + words) == word + Concat(words)
  {
    var all := [word] + words;
    assert all[1..] == words;
    forall k: nat | k < |all| ensures ReadsWhole(strict, terms[n + k], all[k]) {
      if k > 0 {
        assert ReadsWhole(strict, terms[n + 1 + (k - 1)], words[k - 1]);
      }
    }
  }

  /** The terms of the runes from `i` on are those from number `n` on. */
  ghost predicate TermsFrom(dict: Dict, runes: seq<Rune>, i: nat, n: nat) {
    && i <= |runes| && n <= |Spans(dict, runes, 0)|
    && Spans(dict, runes, 0)[n..] == Spans(dict, runes, i)
  }

  /** One step of the cutting, for a text whose terms from `i` on are those from number `n` on. */
  lemma TermStep(dict: Dict, runes: seq<Rune>, i: nat, n: nat) returns (next: nat)
    requires TermsFrom(dict, runes, i, n) && i < |runes|
    ensures i < next
    ensures next == if dict(runes[i]) == [] && IsCharOrNumber(runes[i]) then RunEnd(runes, i + 1) else i + 1
    ensures !IsTermRune(dict, runes[i]) ==> TermsFrom(dict, runes, next, n)
    ensures IsTermRune(dict, runes[i]) ==>
      TermsFrom(dict, runes, next, n + 1) && n < |Spans(dict, runes, 0)| && Spans(dict, runes, 0)[n] == (i, next)
  {
    var sp := Spans(dict, runes, 0);
    next := SpansStep(dict, runes, i);
    if IsTermRune(dict, runes[i]) {
      assert sp[n] == sp[n..][0] && sp[n + 1..] == sp[n..][1..];
    }
  }

  lemma TermOfSpan(strict: bool, dict: Dict, runes: seq<Rune>, terms: seq<Term>, n: nat, i: nat, j: nat)
    requires IsSentence(strict, dict, runes, terms)
    requires n < |Spans(dict, runes, 0)| && Spans(dict, runes, 0)[n] == (i, j)
    ensures n < |terms| && Renders(strict, dict, runes, terms[n], i, j)
  {
  }

  /** None of the runes from `i` to `j` is in a term. */
  ghost predicate NoTerm(dict: Dict, runes: seq<Rune>, i: nat, j: nat) {
    i <= j <= |runes| && forall x: nat | i <= x < j :: !IsTermRune(dict, runes[x])
  }

  /** The words read the terms from number `n` on and make up the keyword; there are none only if none of the
      runes from `a` to `b` is in a term. */
  ghost predicate AreWords(strict: bool, readings: Dict, first: Dict, text: seq<Rune>, terms: seq<Term>,
                           a: nat, b: nat, keyword: seq<Rune>, n: nat, words: seq<Word>)
  {
    && ReadTerms(strict, terms, n, words) && Concat(words) == KeywordBytes(first, keyword)
    && (words == [] ==> NoTerm(readings, text, a, b))
  }

  /** The keyword for the part from rune `a` to rune `b` splits into words that read the terms of those runes. */
  lemma {:induction false} PartReads(strict: bool, readings: Dict, first: Dict, text: seq<Rune>, terms: seq<Term>,
                                     a: nat, b: nat, keyword: seq<Rune>, n: nat)
    returns (words: seq<Word>)
    requires IsSentence(strict, readings, text, terms) && TermsFrom(readings, text, a, n)
    requires IsPart(readings, first, text, a, keyword) && a + |keyword| == b && Boundary(text, b)
    ensures AreWords(strict, readings, first, text, terms, a, b, keyword, n, words)
    decreases b - a
  {
    if a == b {
      return [];
    }
    var next := TermStep(readings, text, a, n);
    StepWithin(readings, text, a, b, next);
    var head, tail := PartCut(readings, first, text, a, keyword, next);
    if IsTermRune(readings, text[a]) {
      TermOfSpan(strict, readings, text, terms, n, a, next);
      TermRead(strict, readings, first, text, terms[n], a, next, head);
      words := PartReads(strict, readings, first, text, terms, next, b, tail, n + 1);
      ReadTermsCons(strict, terms, n, KeywordBytes(first, head), words);
      words := [KeywordBytes(first, head)] + words;
    } else {
      SkippedRead(readings, first, text, a, head);
      words := PartReads(strict, readings, first, text, terms, next, b, tail, n);
    }
  }

  /** The first term from rune `i` on starts no later than any term rune. */
  lemma {:induction false} FirstTermBy(dict: Dict, runes: seq<Rune>, i: nat, x: nat)
    requires i <= x < |runes| && IsTermRune(dict, runes[x])
    ensures Spans(dict, runes, i) != [] && i <= Spans(dict, runes, i)[0].0 <= x
    decreases x - i
  {
    var next := SpansStep(dict, runes, i);
    if !IsTermRune(dict, runes[i]) {
      FirstTermBy(dict, runes, next, x);
    }
  }

  lemma WordsMatch(strict: bool, readings: Dict, first: Dict, text: seq<Rune>, terms: seq<Term>, a: nat, b: nat,
                   keyword: seq<Rune>, n: nat, words: seq<Word>, x: nat)
    requires AreWords(strict, readings, first, text, terms, a, b, keyword, n, words)
    requires a <= x < b <= |text| && IsTermRune(readings, text[x])
    ensures MatchesTo(strict, terms, n, n + |words| - 1, KeywordBytes(first, keyword))
  {
    forall k: nat | k < |words| ensures Reads(strict, terms[n + k], words[k], k == |words| - 1) {
      assert ReadsWhole(strict, terms[n + k], words[k]);
    }
    assert Splits(strict, terms, n, n + |words| - 1, KeywordBytes(first, keyword), words);
  }

  lemma FirstOffset(strict: bool, readings: Dict, text: seq<Rune>, terms: seq<Term>, a: nat, n: nat, x: nat)
    requires IsSentence(strict, readings, text, terms) && TermsFrom(readings, text, a, n)
    requires a <= x < |text| && IsTermRune(readings, text[x])
    ensures n < |terms| && terms[n].offset <= |Encode(text[..x])|
  {
    var sp := Spans(readings, text, 0);
    FirstTermBy(readings, text, a, x);
    assert sp[n] == sp[n..][0];
    TermOfSpan(strict, readings, text, terms, n, sp[n].0, sp[n].1);
    EncodeLonger(text, sp[n].0, x);
  }

  /** The keyword splits into words for the terms of the part. */
  lemma PartWords(strict: bool, readings: Dict, first: Dict, text: seq<Rune>, terms: seq<Term>, a: nat, b: nat,
                  keyword: seq<Rune>)
    returns (n: nat, words: seq<Word>)
    requires IsSentence(strict, readings, text, terms) && IsPart(readings, first, text, a, keyword)
    requires a + |keyword| == b && Boundary(text, a) && Boundary(text, b)
    ensures TermsFrom(readings, text, a, n)
    ensures AreWords(strict, readings, first, text, terms, a, b, keyword, n, words)
  {
    n := SpansAfter(readings, text, 0, a);
    words := PartReads(strict, readings, first, text, terms, a, b, keyword, n);
  }

  /** Some match starts no later than at byte `bound`. */
  ghost predicate MatchesBy(strict: bool, terms: seq<Term>, data: Word, bound: nat) {
    exists n: nat, e: nat :: n < |terms| && MatchesTo(strict, terms, n, e, data) && terms[n].offset <= bound
  }

  lemma PartMatches(strict: bool, readings: Dict, first: Dict, text: seq<Rune>, terms: seq<Term>, a: nat, b: nat,
                    keyword: seq<Rune>, x: nat, n: nat, words: seq<Word>)
    requires IsSentence(strict, readings, text, terms) && TermsFrom(readings, text, a, n)
    requires AreWords(strict, readings, first, text, terms, a, b, keyword, n, words)
    requires a <= x < b <= |text| && IsTermRune(readings, text[x])
    ensures MatchesBy(strict, terms, KeywordBytes(first, keyword), |Encode(text[..x])|)
  {
    FirstOffset(strict, readings, text, terms, a, n, x);
    WordsMatch(strict, readings, first, text, terms, a, b, keyword, n, words, x);
  }

  lemma PartMatched(strict: bool, readings: Dict, first: Dict, text: seq<Rune>, terms: seq<Term>, a: nat, b: nat,
                    keyword: seq<Rune>, x: nat)
    requires IsSentence(strict, readings, text, terms) && IsPart(readings, first, text, a, keyword)
    requires a + |keyword| == b && Boundary(text, a) && Boundary(text, b)
    requires a <= x < b && IsTermRune(readings, text[x])
    ensures MatchesBy(strict, terms, KeywordBytes(first, keyword), |Encode(text[..x])|)
  {
    var n, words := PartWords(strict, readings, first, text, terms, a, b, keyword);
    PartMatches(strict, readings, first, text, terms, a, b, keyword, x, n, words);
  }

  /** A match is found where it starts or before. */
  lemma FoundBy(text: Word, terms: seq<Term>, strict: bool, data: Word, substr: Word, index: int, bound: nat)
    requires IsFound(text, terms, strict, data, substr, index) && InText(text, terms)
    requires MatchesBy(strict, terms, data, bound)
    ensures 0 <= index <= bound
  {
    var n: nat, e: nat :| n < |terms| && MatchesTo(strict, terms, n, e, data) && terms[n].offset <= bound;
    var i: nat, f: nat :| IsMatchAt(text, terms, strict, data, substr, index, i, f);
    TermsAhead(text, terms, i, n);
  }

  /** A text finds its own parts.  Whatever stands around it, a part that does not cut a word in two and has a
      term in it is found, for the keyword that is that part with its letters in lower case: the match starts no
      later than any term of the part. */
  lemma FindsItsParts(strict: bool, readings: Dict, first: Dict, text: seq<Rune>, a: nat, b: nat,
                      keyword: seq<Rune>, x: nat, substr: Word, index: int)
    requires IsContained(strict, readings, first, text, keyword, substr, index)
    requires IsPart(readings, first, text, a, keyword) && a + |keyword| == b
    requires Boundary(text, a) && Boundary(text, b)
    requires a <= x < b && IsTermRune(readings, text[x])
    ensures 0 <= index <= |Encode(text[..x])|
  {
    var terms :| IsSentence(strict, readings, text, terms)
      && IsFound(Encode(text), terms, strict, KeywordBytes(first, keyword), substr, index);
    PartMatched(strict, readings, first, text, terms, a, b, keyword, x);
    SentenceInText(strict, readings, text, terms);
    FoundBy(Encode(text), terms, strict, KeywordBytes(first, keyword), substr, index, |Encode(text[..x])|);
  }

  // ----- Capital letters -----------------------------------------------------------------------

  predicate IsCapital(b: int) {
    'A' as int <= b <= 'Z' as int
  }

  predicate NoCapital(w: Word) {
    forall k: nat | k < |w| :: !IsCapital(w[k])
  }

  lemma AliasSmall(strict: bool, readings: seq<Word>, w: Word)
    requires w in Aliases(strict, readings)
    ensures NoCapital(w)
  {
    AliasesAre(strict, readings, w);
    var i: nat :| i < |readings| && AliasOf(strict, readings[i], w);
    var data := ToLower(readings[i]);
    forall k: nat | k < |w| ensures !IsCapital(w[k]) {
      assert w[k] == data[k] == Lower(readings[i][k]);
    }
  }

  predicate TermSmall(t: Term) {
    forall k: nat | k < |t.alias| :: NoCapital(t.alias[k])
  }

  ghost predicate AllSmall(terms: seq<Term>) {
    forall n: nat | n < |terms| :: TermSmall(terms[n])
  }

  lemma SentenceSmall(strict: bool, dict: Dict, runes: seq<Rune>, terms: seq<Term>)
    requires IsSentence(strict, dict, runes, terms)
    ensures AllSmall(terms)
  {
    var sp := Spans(dict, runes, 0);
    forall n: nat | n < |terms| ensures TermSmall(terms[n]) {
      TermOfSpan(strict, dict, runes, terms, n, sp[n].0, sp[n].1);
      var t := terms[n];
      forall k: nat | k < |t.alias| ensures NoCapital(t.alias[k]) {
        if t.isChinese {
          AliasSmall(strict, dict(runes[sp[n].0]), t.alias[k]);
        }
      }
    }
  }

  lemma {:induction false} ConcatSmall(parts: seq<Word>)
    requires forall k: nat | k < |parts| :: NoCapital(parts[k])
    ensures NoCapital(Concat(parts))
  {
    if parts != [] {
      ConcatSmall(parts[1..]);
    }
  }

  lemma KeywordHas(first: Dict, keyword: seq<Rune>, m: nat)
    requires m < |keyword| && first(keyword[m]) == [] && IsCapital(keyword[m])
    ensures !NoCapital(KeywordBytes(first, keyword))
  {
    var a, r, b := keyword[..m], keyword[m], keyword[m + 1..];
    assert keyword == (a + [r]) + b;
    KeywordAppend(first, a + [r], b);
    KeywordLast(first, a, r);
    assert KeywordBytes(first, keyword)[|KeywordBytes(first, a)|] == r;
  }

  /** No match has a capital letter in it. */
  lemma MatchSmall(strict: bool, terms: seq<Term>, i: nat, e: nat, data: Word)
    requires AllSmall(terms) && MatchesTo(strict, terms, i, e, data)
    ensures NoCapital(data)
  {
    var parts :| Splits(strict, terms, i, e, data, parts);
    forall k: nat | k < |parts| ensures NoCapital(parts[k]) {
      var t := terms[i + k];
      assert TermSmall(t) && Reads(strict, t, parts[k], k == |parts| - 1);
      var a: nat :| a < |t.alias| && parts[k] <= t.alias[a];
      assert NoCapital(t.alias[a]);
    }
    ConcatSmall(parts);
  }

  /** A keyword with a capital letter in it is found nowhere, not even in a text that has it: words are put into
      lower case, keywords are not. */
  lemma CapitalsNotFound(strict: bool, readings: Dict, first: Dict, text: seq<Rune>, keyword: seq<Rune>, m: nat,
                         substr: Word, index: int)
    requires IsContained(strict, readings, first, text, keyword, substr, index)
    requires m < |keyword| && first(keyword[m]) == [] && IsCapital(keyword[m])
    ensures index == -1 && substr == []
  {
    var data := KeywordBytes(first, keyword);
    var terms :| IsSentence(strict, readings, text, terms)
      && IsFound(Encode(text), terms, strict, data, substr, index);
    KeywordHas(first, keyword, m);
    if index != -1 {
      var i: nat, e: nat :| IsMatchAt(Encode(text), terms, strict, data, substr, index, i, e);
      SentenceSmall(strict, readings, text, terms);
      MatchSmall(strict, terms, i, e, data);
    }
  }

  // ----- Which match is met first --------------------------------------------------------------

  /** A choice of an alias for each term from `i` on: every one but the last is a proper beginning of what is
      left of the keyword, and that is the last one or, in a lax match, a beginning of it. */
  ghost predicate IsChoice(strict: bool, terms: seq<Term>, i: nat, keyword: Word, c: seq<nat>)
    decreases |c|
  {
    && c != [] && i < |terms| && c[0] < |terms[i].alias|
    && var alias := terms[i].alias[c[0]];
       if |c| == 1 then keyword != [] && (if strict then keyword == alias else keyword <= alias)
       else alias != [] && alias < keyword && IsChoice(strict, terms, i + 1, keyword[|alias|..], c[1..])
  }

  /** Not after in the order of dictionaries. */
  predicate NotAfter(c: seq<nat>, d: seq<nat>) {
    c == [] || (d != [] && (c[0] < d[0] || (c[0] == d[0] && NotAfter(c[1..], d[1..]))))
  }

  /** `c` is the first choice whose first alias is number `a` or a later one. */
  ghost predicate IsFirstChoice(strict: bool, terms: seq<Term>, i: nat, keyword: Word, a: nat, c: seq<nat>) {
    && IsChoice(strict, terms, i, keyword, c) && c[0] >= a
    && forall d | IsChoice(strict, terms, i, keyword, d) && d[0] >= a :: NotAfter(c, d)
  }

  ghost predicate NoChoice(strict: bool, terms: seq<Term>, i: nat, keyword: Word, a: nat) {
    forall d | IsChoice(strict, terms, i, keyword, d) :: d[0] < a
  }

  /** What the search from alias `a` on comes to. */
  ghost predicate Searched(strict: bool, terms: seq<Term>, i: nat, keyword: Word, a: nat, r: int) {
    if r == -1 then NoChoice(strict, terms, i, keyword, a)
    else exists c :: IsFirstChoice(strict, terms, i, keyword, a, c) && r == i + |c| - 1
  }

  /** No choice starts with alias `a`. */
  ghost predicate Loses(strict: bool, terms: seq<Term>, i: nat, keyword: Word, a: nat) {
    forall d | IsChoice(strict, terms, i, keyword, d) :: d[0] != a
  }

  /** An alias that no choice starts with does not matter. */
  lemma SearchedNext(strict: bool, terms: seq<Term>, i: nat, keyword: Word, a: nat, r: int)
    requires Searched(strict, terms, i, keyword, a + 1, r)
    requires Loses(strict, terms, i, keyword, a)
    ensures Searched(strict, terms, i, keyword, a, r)
  {
    if r != -1 {
      var c :| IsFirstChoice(strict, terms, i, keyword, a + 1, c) && r == i + |c| - 1;
      assert IsFirstChoice(strict, terms, i, keyword, a, c);
    }
  }

  /** Where alias `a` is the whole keyword, or in a lax match more, the choice is that alias alone. */
  lemma SearchedLast(strict: bool, terms: seq<Term>, i: nat, keyword: Word, a: nat)
    requires i < |terms| && a < |terms[i].alias| && keyword != []
    requires if strict then keyword == terms[i].alias[a] else keyword <= terms[i].alias[a]
    ensures Searched(strict, terms, i, keyword, a, i)
  {
    assert IsFirstChoice(strict, terms, i, keyword, a, [a]);
  }

  /** Where alias `a` begins the keyword, the choice is that alias and the first choice for the rest. */
  lemma SearchedOn(strict: bool, terms: seq<Term>, i: nat, keyword: Word, a: nat, r: int)
    requires i < |terms| && a < |terms[i].alias|
    requires terms[i].alias[a] != [] && terms[i].alias[a] < keyword
    requires Searched(strict, terms, i + 1, keyword[|terms[i].alias[a]|..], 0, r)
    ensures if r != -1 then Searched(strict, terms, i, keyword, a, r) else Loses(strict, terms, i, keyword, a)
  {
    var rest := keyword[|terms[i].alias[a]|..];
    if r != -1 {
      var c :| IsFirstChoice(strict, terms, i + 1, rest, 0, c) && r == i + 1 + |c| - 1;
      var all := [a] + c;
      assert all[1..] == c;
      forall d | IsChoice(strict, terms, i, keyword, d) && d[0] >= a ensures NotAfter(all, d) {
        if d[0] == a {
          assert IsChoice(strict, terms, i + 1, rest, d[1..]);
        }
      }
      assert IsFirstChoice(strict, terms, i, keyword, a, all);
    } else {
      forall d | IsChoice(strict, terms, i, keyword, d) ensures d[0] != a {
        assert !IsChoice(strict, terms, i + 1, rest, d[1..]);
      }
    }
  }

  /** An alias that is neither the whole of what is left nor, with terms to come, its beginning. */
  lemma AliasLoses(strict: bool, terms: seq<Term>, i: nat, keyword: Word, a: nat)
    requires i < |terms| && a < |terms[i].alias|
    requires
      var alias := terms[i].alias[a];
      var size := MatchLen(alias, keyword);
      || size == 0 || (size < |keyword| && (size < |alias| || i + 1 == |terms|))
      || (size == |keyword| < |alias| && strict)
    ensures Loses(strict, terms, i, keyword, a)
  {
  }

  lemma {:induction false} TryAliasesFirst(strict: bool, terms: seq<Term>, i: nat, keyword: Word, a: nat)
    requires i < |terms| && a <= |terms[i].alias|
    ensures Searched(strict, terms, i, keyword, a, TryAliases(strict, terms, i, keyword, a))
    decreases |terms| - i, |terms[i].alias| - a
  {
    if a < |terms[i].alias| {
      TryAliasesFirst(strict, terms, i, keyword, a + 1);
      var next := TryAliases(strict, terms, i, keyword, a + 1);
      var alias := terms[i].alias[a];
      var size := MatchLen(alias, keyword);
      if size == 0 || (size < |keyword| && (size < |alias| || i + 1 == |terms|))
         || (size == |keyword| < |alias| && strict) {
        AliasLoses(strict, terms, i, keyword, a);
        SearchedNext(strict, terms, i, keyword, a, next);
      } else if size == |keyword| {
        SearchedLast(strict, terms, i, keyword, a);
      } else {
        var r := FindKeyword(strict, terms, i + 1, keyword[size..]);
        TryAliasesFirst(strict, terms, i + 1, keyword[size..], 0);
        SearchedOn(strict, terms, i, keyword, a, r);
        if r == -1 {
          SearchedNext(strict, terms, i, keyword, a, next);
        }
      }
    }
  }

  /** Of several matches from one term, findKeyword meets the one whose aliases come first in the order of
      dictionaries. */
  lemma FindKeywordFirst(strict: bool, terms: seq<Term>, i: nat, keyword: Word)
    requires i < |terms|
    ensures
      var r := FindKeyword(strict, terms, i, keyword);
      if r == -1 then forall d :: !IsChoice(strict, terms, i, keyword, d)
      else exists c ::
        && IsChoice(strict, terms, i, keyword, c) && r == i + |c| - 1
        && forall d | IsChoice(strict, terms, i, keyword, d) :: NotAfter(c, d)
  {
    var r := FindKeyword(strict, terms, i, keyword);
    TryAliasesFirst(strict, terms, i, keyword, 0);
    if r != -1 {
      var c :| IsFirstChoice(strict, terms, i, keyword, 0, c) && r == i + |c| - 1;
    }
  }
}
