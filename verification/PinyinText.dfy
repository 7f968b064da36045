/** How pinyin/pinyin.go cuts a text into terms.  A text is valid UTF-8, given by its runes; the
    dictionary of readings is a parameter. */
module PinyinText {
  import opened Sequences
  import opened PinyinMatch

  /** A Unicode scalar value. */
  type Rune = r: int | 0 <= r < 0xD800 || 0xE000 <= r < 0x11_0000

  /** The readings of a rune: none if it is not Chinese. */
  type Dict = Rune -> seq<Word>

  /** UTF-8. */
  function EncodeRune(r: Rune): (b: Word)
    ensures 1 <= |b| <= 4
    ensures r < 0x80 ==> b == [r]
  {
    if r < 0x80 then [r]
    else if r < 0x800 then [0xC0 + r / 0x40, 0x80 + r % 0x40]
    else if r < 0x1_0000 then [0xE0 + r / 0x1000, 0x80 + r / 0x40 % 0x40, 0x80 + r % 0x40]
    else [0xF0 + r / 0x4_0000, 0x80 + r / 0x1000 % 0x40, 0x80 + r / 0x40 % 0x40, 0x80 + r % 0x40]
  }

  function Encode(runes: seq<Rune>): Word {
    if runes == [] then [] else Encode(runes[..|runes| - 1]) + EncodeRune(runes[|runes| - 1])
  }

  predicate IsCharOrNumber(r: Rune) {
    ('a' as int <= r <= 'z' as int) || ('A' as int <= r <= 'Z' as int) || ('0' as int <= r <= '9' as int)
  }

  function Lower(b: Byte): Byte {
    if 'A' as int <= b <= 'Z' as int then b + 32 else b
  }

  function ToLower(w: Word): (r: Word)
    ensures |r| == |w| && forall k: nat | k < |w| :: r[k] == Lower(w[k])
  {
    seq(|w|, k requires 0 <= k < |w| => Lower(w[k]))
  }

  /** Where the run of letters and digits that `j` is in or after ends. */
  function RunEnd(runes: seq<Rune>, j: nat): (e: nat)
    requires j <= |runes|
    ensures j <= e <= |runes|
    ensures forall k: nat | j <= k < e :: IsCharOrNumber(runes[k])
    ensures e < |runes| ==> !IsCharOrNumber(runes[e])
    decreases |runes| - j
  {
    if j < |runes| && IsCharOrNumber(runes[j]) then RunEnd(runes, j + 1) else j
  }

  /** The rune ranges that become terms: a rune with readings by itself, and otherwise a whole run of
      letters and digits; other runes are skipped. */
  function Spans(dict: Dict, runes: seq<Rune>, i: nat): seq<(nat, nat)>
    requires i <= |runes|
    decreases |runes| - i
  {
    if i == |runes| then []
    else if dict(runes[i]) != [] then [(i, i + 1)] + Spans(dict, runes, i + 1)
    else if IsCharOrNumber(runes[i]) then
      var j := RunEnd(runes, i + 1);
      [(i, j)] + Spans(dict, runes, j)
    else Spans(dict, runes, i + 1)
  }

  /** The first span, if rune `i` starts one, and the spans after it. */
  lemma SpansStep(dict: Dict, runes: seq<Rune>, i: nat) returns (next: nat)
    requires i < |runes|
    ensures i < next <= |runes|
    ensures next == if dict(runes[i]) == [] && IsCharOrNumber(runes[i]) then RunEnd(runes, i + 1) else i + 1
    ensures
      var rest := Spans(dict, runes, next);
      if dict(runes[i]) != [] || IsCharOrNumber(runes[i]) then Spans(dict, runes, i) == [(i, next)] + rest
      else next == i + 1 && Spans(dict, runes, i) == rest
  {
    next := if dict(runes[i]) == [] && IsCharOrNumber(runes[i]) then RunEnd(runes, i + 1) else i + 1;
  }

  /** Spans that are not empty and follow one another. */
  ghost predicate Ordered(sp: seq<(nat, nat)>, lo: nat, hi: nat) {
    && (forall k: nat | k < |sp| :: lo <= sp[k].0 < sp[k].1 <= hi)
    && (forall k: nat | k + 1 < |sp| :: sp[k].1 <= sp[k + 1].0)
  }

  lemma {:induction false} SpansOrdered(dict: Dict, runes: seq<Rune>, i: nat)
    requires i <= |runes|
    ensures Ordered(Spans(dict, runes, i), i, |runes|)
    decreases |runes| - i
  {
    if i < |runes| {
      var next := SpansStep(dict, runes, i);
      SpansOrdered(dict, runes, next);
    }
  }

  /** Spans leave out only runes that have no reading and are neither letter nor digit. */
  lemma {:induction false} SpansCover(dict: Dict, runes: seq<Rune>, i: nat, x: nat) returns (k: nat)
    requires i <= x < |runes| && (dict(runes[x]) != [] || IsCharOrNumber(runes[x]))
    ensures k < |Spans(dict, runes, i)|
    ensures Spans(dict, runes, i)[k].0 <= x < Spans(dict, runes, i)[k].1
    decreases |runes| - i
  {
    var next := SpansStep(dict, runes, i);
    var sp, rest := Spans(dict, runes, i), Spans(dict, runes, next);
    if x < next {
      return 0;
    }
    k := SpansCover(dict, runes, next, x);
    if sp != rest {
      assert sp[k + 1] == rest[k];
      k := k + 1;
    }
  }

  // ----- Bytes of rune ranges ----------------------------------------------------------------

  lemma {:induction false} EncodeAppend(a: seq<Rune>, b: seq<Rune>)
    ensures Encode(a + b) == Encode(a) + Encode(b)
  {
    if b == [] {
      assert a + b == a;
    } else {
      var n := |b| - 1;
      assert (a + b)[..|a + b| - 1] == a + b[..n] && (a + b)[|a + b| - 1] == b[n];
      EncodeAppend(a, b[..n]);
      Assoc(Encode(a), Encode(b[..n]), EncodeRune(b[n]));
    }
  }

  /** A range of runes is, byte for byte, the slice between the encoded lengths before it. */
  lemma EncodeSlice(runes: seq<Rune>, i: nat, j: nat)
    requires i <= j <= |runes|
    ensures
      var at := |Encode(runes[..i])|;
      var size := |Encode(runes[i..j])|;
      && at + size == |Encode(runes[..j])| <= |Encode(runes)|
      && Encode(runes)[at..at + size] == Encode(runes[i..j])
  {
    assert runes[..i] + runes[i..j] == runes[..j];
    assert runes[..j] + runes[j..] == runes;
    EncodeAppend(runes[..i], runes[i..j]);
    EncodeAppend(runes[..j], runes[j..]);
  }

  lemma EncodeLonger(runes: seq<Rune>, i: nat, j: nat)
    requires i <= j <= |runes|
    ensures |Encode(runes[..i])| <= |Encode(runes[..j])|
  {
    EncodeSlice(runes, i, j);
  }

  // ----- Terms -------------------------------------------------------------------------------

  /** The initials of pinyin, 23 of them. */
  const INITIALS: seq<string> := [
    "b", "p", "m", "f", "d", "t", "n", "l", "g", "k", "h", "j", "q", "x", "r", "zh", "ch", "sh", "z", "c", "s", "w", "y"
  ]

  function BytesOf(s: string): Word {
    seq(|s|, k requires 0 <= k < |s| => if s[k] as int < 128 then s[k] as int else 0)
  }

  predicate IsInitial(w: Word) {
    exists k: nat :: k < |INITIALS| && w == BytesOf(INITIALS[k])
  }

  /** What a reading may be matched by: itself in lower case and, unless the match is strict, each initial
      it begins with. */
  predicate AliasOf(strict: bool, reading: Word, w: Word) {
    w == ToLower(reading) || (!strict && IsInitial(w) && w <= ToLower(reading))
  }

  predicate IsAlias(strict: bool, readings: seq<Word>, w: Word) {
    exists k: nat :: k < |readings| && AliasOf(strict, readings[k], w)
  }

  /** The initials among the first `c` that `data` begins with. */
  function InitialsOf(data: Word, c: nat): seq<Word>
    requires c <= |INITIALS|
  {
    if c == 0 then []
    else
      var cc := BytesOf(INITIALS[c - 1]);
      InitialsOf(data, c - 1) + (if cc <= data then [cc] else [])
  }

  /** The aliases of one reading, and of several, in the order the matcher tries them. */
  function ReadingAliases(strict: bool, reading: Word): seq<Word> {
    var data := ToLower(reading);
    [data] + (if strict then [] else InitialsOf(data, |INITIALS|))
  }

  function Aliases(strict: bool, readings: seq<Word>): seq<Word> {
    if readings == [] then []
    else Aliases(strict, readings[..|readings| - 1]) + ReadingAliases(strict, readings[|readings| - 1])
  }

  lemma {:induction false} InitialsAre(data: Word, c: nat, w: Word)
    requires c <= |INITIALS|
    ensures w in InitialsOf(data, c) <==> w <= data && exists k: nat :: k < c && w == BytesOf(INITIALS[k])
  {
    if c > 0 {
      InitialsAre(data, c - 1, w);
    }
  }

  /** As a set, the aliases are what the readings may be matched by. */
  lemma {:induction false} AliasesAre(strict: bool, readings: seq<Word>, w: Word)
    ensures w in Aliases(strict, readings) <==> IsAlias(strict, readings, w)
  {
    if readings != [] {
      var n := |readings| - 1;
      AliasesAre(strict, readings[..n], w);
      InitialsAre(ToLower(readings[n]), |INITIALS|, w);
      assert IsAlias(strict, readings, w) <==> IsAlias(strict, readings[..n], w) || AliasOf(strict, readings[n], w) by {
        if k: nat :| k < n && AliasOf(strict, readings[..n][k], w) {
          assert AliasOf(strict, readings[k], w);
        }
        if k: nat :| k < |readings| && AliasOf(strict, readings[k], w) {
          assert k < n ==> AliasOf(strict, readings[..n][k], w);
        }
      }
    }
  }

  method AliasesOf(strict: bool, reading: Word) returns (words: seq<Word>)
    ensures words == ReadingAliases(strict, reading)
  {
    var data := ToLower(reading);
    words := [data];
    if !strict {
      for c := 0 to |INITIALS|
        invariant words == [data] + InitialsOf(data, c)
      {
        var cc := BytesOf(INITIALS[c]);
        if cc <= data {
          words := words + [cc];
        }
      }
    }
  }

  method MakePinyinTerm(r: Rune, readings: seq<Word>, strict: bool, offset: nat) returns (t: Term)
    ensures t == Term(offset, EncodeRune(r), true, Aliases(strict, readings))
  {
    var words: seq<Word> := [];
    for k := 0 to |readings|
      invariant words == Aliases(strict, readings[..k])
    {
      assert readings[..k + 1][..k] == readings[..k];
      var more := AliasesOf(strict, readings[k]);
      words := words + more;
    }
    assert readings[..|readings|] == readings;
    t := Term(offset, EncodeRune(r), true, words);
  }

  /** Term `t` renders the runes from `i` to `j`: its offset and length are those of their bytes in the
      text, and its aliases are what they may be read as. */
  ghost predicate Renders(strict: bool, dict: Dict, runes: seq<Rune>, t: Term, i: nat, j: nat) {
    && i < j <= |runes|
    && t.offset == |Encode(runes[..i])|
    && t.raw == (if t.isChinese then Encode(runes[i..j]) else ToLower(Encode(runes[i..j])))
    && t.isChinese == (dict(runes[i]) != [])
    && (t.isChinese ==> j == i + 1 && t.alias == Aliases(strict, dict(runes[i])))
    && (!t.isChinese ==> t.alias == [t.raw])
  }

  ghost predicate RendersAll(strict: bool, dict: Dict, runes: seq<Rune>, terms: seq<Term>, sp: seq<(nat, nat)>) {
    |terms| == |sp| && forall k: nat | k < |sp| :: Renders(strict, dict, runes, terms[k], sp[k].0, sp[k].1)
  }

  /** The terms render the spans of the text, one by one. */
  ghost predicate IsSentence(strict: bool, dict: Dict, runes: seq<Rune>, terms: seq<Term>) {
    RendersAll(strict, dict, runes, terms, Spans(dict, runes, 0))
  }

  lemma EncodeOne(r: Rune)
    ensures Encode([r]) == EncodeRune(r)
  {
    assert [r][..0] == [];
  }

  lemma PinyinTermRenders(strict: bool, dict: Dict, runes: seq<Rune>, t: Term, i: nat)
    requires i < |runes| && dict(runes[i]) != []
    requires t.offset == |Encode(runes[..i])| && t.raw == EncodeRune(runes[i]) && t.isChinese
    requires t.alias == Aliases(strict, dict(runes[i]))
    ensures Renders(strict, dict, runes, t, i, i + 1)
  {
    assert runes[i..i + 1] == [runes[i]];
    EncodeOne(runes[i]);
  }

  /** The term for the run of letters and digits that starts at `i`. */
  method WordTerm(strict: bool, dict: Dict, runes: seq<Rune>, i: nat) returns (t: Term, j: nat)
    requires i < |runes| && dict(runes[i]) == [] && IsCharOrNumber(runes[i])
    ensures j == RunEnd(runes, i + 1) && Renders(strict, dict, runes, t, i, j)
  {
    j := i + 1;
    while j < |runes| && IsCharOrNumber(runes[j])
      invariant i < j <= |runes| && RunEnd(runes, i + 1) == RunEnd(runes, j)
    {
      j := j + 1;
    }
    var data := ToLower(Encode(runes[i..j]));
    t := Term(|Encode(runes[..i])|, data, false, [data]);
  }

  lemma RendersMore(strict: bool, dict: Dict, runes: seq<Rune>, terms: seq<Term>, sp: seq<(nat, nat)>,
                    t: Term, i: nat, j: nat)
    requires RendersAll(strict, dict, runes, terms, sp) && Renders(strict, dict, runes, t, i, j)
    ensures RendersAll(strict, dict, runes, terms + [t], sp + [(i, j)])
  {
  }

  /** The term that starts at rune `i`, if one does. */
  method NextTerm(strict: bool, dict: Dict, runes: seq<Rune>, i: nat) returns (t: Term, j: nat)
    requires i < |runes| && (dict(runes[i]) != [] || IsCharOrNumber(runes[i]))
    ensures Renders(strict, dict, runes, t, i, j)
    ensures j == if dict(runes[i]) == [] then RunEnd(runes, i + 1) else i + 1
  {
    var py := dict(runes[i]);
    if |py| > 0 {
      t := MakePinyinTerm(runes[i], py, strict, |Encode(runes[..i])|);
      PinyinTermRenders(strict, dict, runes, t, i);
      j := i + 1;
    } else {
      t, j := WordTerm(strict, dict, runes, i);
    }
  }

  method TextToSentence(strict: bool, dict: Dict, runes: seq<Rune>) returns (terms: seq<Term>)
    ensures IsSentence(strict, dict, runes, terms)
  {
    terms := [];
    var i: nat := 0;
    ghost var done: seq<(nat, nat)> := [];
    while i < |runes|
      invariant i <= |runes|
      invariant Spans(dict, runes, 0) == done + Spans(dict, runes, i)
      invariant RendersAll(strict, dict, runes, terms, done)
      decreases |runes| - i
    {
      ghost var next := SpansStep(dict, runes, i);
      if |dict(runes[i])| > 0 || IsCharOrNumber(runes[i]) {
        var t, j := NextTerm(strict, dict, runes, i);
        Assoc(done, [(i, j)], Spans(dict, runes, j));
        RendersMore(strict, dict, runes, terms, done, t, i, j);
        terms := terms + [t];
        done := done + [(i, j)];
        i := j;
      } else {
        i := i + 1;
      }
    }
  }

  /** A term's bytes are the slice of the text that it points at, but for letter case. */
  ghost predicate Exact(text: Word, t: Term) {
    && t.offset + |t.raw| <= |text|
    && (var slice := text[t.offset..t.offset + |t.raw|];
        t.raw == if t.isChinese then slice else ToLower(slice))
  }

  lemma TermInText(strict: bool, dict: Dict, runes: seq<Rune>, t: Term, i: nat, j: nat)
    requires Renders(strict, dict, runes, t, i, j)
    ensures t.offset + |t.raw| == |Encode(runes[..j])| && Exact(Encode(runes), t)
  {
    EncodeSlice(runes, i, j);
  }

  lemma TermsInText(strict: bool, dict: Dict, runes: seq<Rune>, terms: seq<Term>, sp: seq<(nat, nat)>)
    requires Ordered(sp, 0, |runes|) && RendersAll(strict, dict, runes, terms, sp)
    ensures InText(Encode(runes), terms)
  {
    forall k: nat | k < |terms| ensures terms[k].offset + |terms[k].raw| <= |Encode(runes)| {
      TermInText(strict, dict, runes, terms[k], sp[k].0, sp[k].1);
    }
    forall k: nat | k + 1 < |terms| ensures terms[k].offset + |terms[k].raw| <= terms[k + 1].offset {
      TermInText(strict, dict, runes, terms[k], sp[k].0, sp[k].1);
      EncodeLonger(runes, sp[k].1, sp[k + 1].0);
    }
  }

  /** On valid UTF-8 the terms lie in the text in order, without overlap, and each one's bytes are exactly
      the slice of the text it points at, but for letter case. */
  lemma SentenceInText(strict: bool, dict: Dict, runes: seq<Rune>, terms: seq<Term>)
    requires IsSentence(strict, dict, runes, terms)
    ensures InText(Encode(runes), terms) && forall k: nat | k < |terms| :: Exact(Encode(runes), terms[k])
  {
    SpansOrdered(dict, runes, 0);
    var sp := Spans(dict, runes, 0);
    TermsInText(strict, dict, runes, terms, sp);
    forall k: nat | k < |terms| ensures Exact(Encode(runes), terms[k]) {
      TermInText(strict, dict, runes, terms[k], sp[k].0, sp[k].1);
    }
  }

  /** The keyword as bytes: a rune's first reading, a letter or digit as it is, nothing for others. */
  function KeywordBytes(dict: Dict, runes: seq<Rune>): Word {
    if runes == [] then []
    else
      var r := runes[|runes| - 1];
      KeywordBytes(dict, runes[..|runes| - 1])
      + (if dict(r) != [] then dict(r)[0] else if IsCharOrNumber(r) then EncodeRune(r) else [])
  }

  method KeywordToBytes(dict: Dict, runes: seq<Rune>) returns (data: Word)
    ensures data == KeywordBytes(dict, runes)
  {
    data := [];
    for i := 0 to |runes|
      invariant data == KeywordBytes(dict, runes[..i])
    {
      assert runes[..i + 1][..i] == runes[..i];
      var py := dict(runes[i]);
      if |py| > 0 {
        data := data + py[0];
      } else if IsCharOrNumber(runes[i]) {
        data := data + EncodeRune(runes[i]);
      }
    }
    assert runes[..|runes|] == runes;
  }

  /** A text has one sentence. */
  lemma SentenceUnique(strict: bool, dict: Dict, runes: seq<Rune>, a: seq<Term>, b: seq<Term>)
    requires IsSentence(strict, dict, runes, a) && IsSentence(strict, dict, runes, b)
    ensures a == b
  {
    var sp := Spans(dict, runes, 0);
    forall k: nat | k < |sp| ensures a[k] == b[k] {
      assert Renders(strict, dict, runes, a[k], sp[k].0, sp[k].1);
      assert Renders(strict, dict, runes, b[k], sp[k].0, sp[k].1);
    }
  }

  /** What Contain promises. */
  ghost predicate IsContained(strict: bool, readings: Dict, first: Dict, text: seq<Rune>, keyword: seq<Rune>,
                              substr: Word, index: int)
  {
    exists terms ::
      && IsSentence(strict, readings, text, terms)
      && IsFound(Encode(text), terms, strict, KeywordBytes(first, keyword), substr, index)
  }

  /** It fixes the result. */
  lemma ContainedUnique(strict: bool, readings: Dict, first: Dict, text: seq<Rune>, keyword: seq<Rune>,
                        s: Word, i: int, t: Word, j: int)
    requires IsContained(strict, readings, first, text, keyword, s, i)
    requires IsContained(strict, readings, first, text, keyword, t, j)
    ensures s == t && i == j
  {
    var data := KeywordBytes(first, keyword);
    var a :| IsSentence(strict, readings, text, a) && IsFound(Encode(text), a, strict, data, s, i);
    var b :| IsSentence(strict, readings, text, b) && IsFound(Encode(text), b, strict, data, t, j);
    SentenceUnique(strict, readings, text, a, b);
    FoundUnique(Encode(text), a, strict, data, s, i, t, j);
  }

  /** Contain with `strict`, and without it FuzzyContain up to its fallback: `readings` gives all readings
      of a rune, `first` those used for the keyword. */
  method Contain(strict: bool, readings: Dict, first: Dict, text: seq<Rune>, keyword: seq<Rune>)
    returns (substr: Word, index: int)
    ensures IsContained(strict, readings, first, text, keyword, substr, index)
  {
    var terms := TextToSentence(strict, readings, text);
    SentenceInText(strict, readings, text, terms);
    var data := KeywordToBytes(first, keyword);
    substr, index := Find(Encode(text), terms, strict, data);
  }
}
