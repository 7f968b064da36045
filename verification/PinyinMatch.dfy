/** The backtracking matcher of pinyin/pinyin.go: whether a keyword splits into readings of
    consecutive terms. */
module PinyinMatch {
  type Byte = b: int | 0 <= b < 256
  type Word = seq<Byte>

  datatype Term = Term(offset: nat, raw: Word, isChinese: bool, alias: seq<Word>)

  /** Length of the common prefix. */
  function MatchLen(left: Word, right: Word): (n: nat)
    ensures n <= |left| && n <= |right| && left[..n] == right[..n]
    ensures forall k: nat | k < n :: left[k] == right[k]
    ensures n < |left| && n < |right| ==> left[n] != right[n]
  {
    if left == [] || right == [] || left[0] != right[0] then 0
    else
      var n := 1 + MatchLen(left[1..], right[1..]);
      assert left[..n] == [left[0]] + left[1..][..n - 1];
      assert right[..n] == [right[0]] + right[1..][..n - 1];
      assert forall k: nat | k < n :: left[..n][k] == right[..n][k];
      n
  }

  lemma MatchLenOf(left: Word, right: Word, n: nat)
    requires n <= |left| && n <= |right| && left[..n] == right[..n]
    requires n == |left| || n == |right| || left[n] != right[n]
    ensures MatchLen(left, right) == n
  {
    assert forall k: nat | k < n :: left[..n][k] == right[..n][k];
  }

  method MatchBytes(left: Word, right: Word) returns (length: nat)
    ensures length == MatchLen(left, right)
  {
    length := 0;
    while length < |left| && length < |right| && left[length] == right[length]
      invariant length <= |left| && length <= |right| && left[..length] == right[..length]
    {
      length := length + 1;
    }
    MatchLenOf(left, right, length);
  }

  /** The end index of a match from term `i` on, or -1. */
  function FindKeyword(strict: bool, terms: seq<Term>, i: nat, keyword: Word): int
    requires i < |terms|
    decreases |terms| - i, 1, 0
  {
    TryAliases(strict, terms, i, keyword, 0)
  }

  /** The loop over the aliases of term `i`, from alias `a` on. */
  function TryAliases(strict: bool, terms: seq<Term>, i: nat, keyword: Word, a: nat): int
    requires i < |terms| && a <= |terms[i].alias|
    decreases |terms| - i, 0, |terms[i].alias| - a
  {
    if a == |terms[i].alias| then -1
    else
      var alias := terms[i].alias[a];
      var size := MatchLen(alias, keyword);
      if size == 0 || (size < |keyword| && size < |alias|) then TryAliases(strict, terms, i, keyword, a + 1)
      else if size == |keyword| then
        if size < |alias| && strict then TryAliases(strict, terms, i, keyword, a + 1) else i
      else if i + 1 >= |terms| then TryAliases(strict, terms, i, keyword, a + 1)
      else
        var idx := FindKeyword(strict, terms, i + 1, keyword[size..]);
        if idx != -1 then idx else TryAliases(strict, terms, i, keyword, a + 1)
  }

  // ----- What a match is ---------------------------------------------------------------------

  function Concat(parts: seq<Word>): Word {
    if parts == [] then [] else parts[0] + Concat(parts[1..])
  }

  /** `part` reads term `t` in full, or when it is the last part of a lax match, up to a non-empty
      prefix. */
  predicate Reads(strict: bool, t: Term, part: Word, last: bool) {
    && part != []
    && exists k: nat :: k < |t.alias| && (if last && !strict then part <= t.alias[k] else part == t.alias[k])
  }

  /** The keyword splits into `parts`, which read the terms `i`, `i + 1`, ... `e` in turn. */
  ghost predicate Splits(strict: bool, terms: seq<Term>, i: nat, e: nat, keyword: Word, parts: seq<Word>) {
    && i <= e < |terms| && |parts| == e - i + 1
    && keyword == Concat(parts)
    && forall k: nat | k < |parts| :: Reads(strict, terms[i + k], parts[k], k == |parts| - 1)
  }

  ghost predicate MatchesTo(strict: bool, terms: seq<Term>, i: nat, e: nat, keyword: Word) {
    exists parts :: Splits(strict, terms, i, e, keyword, parts)
  }

  lemma SplitsCons(strict: bool, terms: seq<Term>, i: nat, e: nat, keyword: Word, part: Word, parts: seq<Word>)
    requires i + 1 < |terms| && Splits(strict, terms, i + 1, e, keyword, parts)
    requires Reads(strict, terms[i], part, false)
    ensures Splits(strict, terms, i, e, part + keyword, [part] + parts)
  {
    var all := [part] + parts;
    assert all[1..] == parts;
    forall k: nat | k < |all| ensures Reads(strict, terms[i + k], all[k], k == |all| - 1) {
      if k > 0 {
        assert Reads(strict, terms[i + 1 + (k - 1)], parts[k - 1], k - 1 == |parts| - 1);
      }
    }
  }

  lemma SplitsOne(strict: bool, terms: seq<Term>, i: nat, part: Word)
    requires i < |terms| && Reads(strict, terms[i], part, true)
    ensures Splits(strict, terms, i, i, part, [part])
  {
    assert Concat([part]) == part + Concat([]);
  }

  lemma SplitsSomething(strict: bool, terms: seq<Term>, i: nat, e: nat, keyword: Word, parts: seq<Word>)
    requires Splits(strict, terms, i, e, keyword, parts)
    ensures keyword != [] && terms != []
  {
    assert Reads(strict, terms[i + 0], parts[0], 0 == |parts| - 1);
    assert keyword == parts[0] + Concat(parts[1..]);
  }

  /** An index that the search returns ends a split. */
  lemma {:induction false} TryAliasesSound(strict: bool, terms: seq<Term>, i: nat, keyword: Word, a: nat)
    requires i < |terms| && a <= |terms[i].alias|
    requires TryAliases(strict, terms, i, keyword, a) != -1
    ensures
      var e := TryAliases(strict, terms, i, keyword, a);
      i <= e < |terms| && MatchesTo(strict, terms, i, e, keyword)
    decreases |terms| - i, |terms[i].alias| - a
  {
    var alias := terms[i].alias[a];
    var size := MatchLen(alias, keyword);
    if size == 0 || (size < |keyword| && size < |alias|) {
      TryAliasesSound(strict, terms, i, keyword, a + 1);
    } else if size == |keyword| {
      if size < |alias| && strict {
        TryAliasesSound(strict, terms, i, keyword, a + 1);
      } else {
        assert keyword == alias[..size] && keyword <= alias;
        SplitsOne(strict, terms, i, keyword);
      }
    } else if i + 1 >= |terms| {
      TryAliasesSound(strict, terms, i, keyword, a + 1);
    } else if FindKeyword(strict, terms, i + 1, keyword[size..]) != -1 {
      TryAliasesSound(strict, terms, i + 1, keyword[size..], 0);
      var e := FindKeyword(strict, terms, i + 1, keyword[size..]);
      var parts :| Splits(strict, terms, i + 1, e, keyword[size..], parts);
      assert alias == keyword[..size] && keyword == alias + keyword[size..];
      assert Reads(strict, terms[i], alias, false);
      SplitsCons(strict, terms, i, e, keyword[size..], alias, parts);
    } else {
      TryAliasesSound(strict, terms, i, keyword, a + 1);
    }
  }

  /** A split that starts with alias `k` is not missed by a search that still has alias `k` ahead. */
  lemma {:induction false} TryAliasesComplete(strict: bool, terms: seq<Term>, i: nat, keyword: Word, a: nat,
                                              e: nat, parts: seq<Word>, k: nat)
    requires Splits(strict, terms, i, e, keyword, parts)
    requires a <= k < |terms[i].alias|
    requires if |parts| == 1 && !strict then parts[0] <= terms[i].alias[k] else parts[0] == terms[i].alias[k]
    ensures TryAliases(strict, terms, i, keyword, a) != -1
    decreases |terms| - i, k - a
  {
    if a < k {
      TryAliasesComplete(strict, terms, i, keyword, a + 1, e, parts, k);
      AliasSkippedOrHit(strict, terms, i, keyword, a);
    } else {
      var alias := terms[i].alias[k];
      assert Reads(strict, terms[i + 0], parts[0], |parts| == 1);
      if |parts| == 1 {
        assert keyword == parts[0] + Concat([]) == parts[0];
        MatchLenOf(alias, keyword, |keyword|);
      } else {
        var rest := Concat(parts[1..]);
        assert keyword == alias + rest && keyword[|alias|..] == rest;
        MatchLenOf(alias, keyword, |alias|);
        SplitsTail(strict, terms, i, e, keyword, parts);
        var m: nat :| m < |terms[i + 1].alias|
          && if |parts| == 2 && !strict then parts[1] <= terms[i + 1].alias[m] else parts[1] == terms[i + 1].alias[m];
        assert rest != [] by {
          assert rest == parts[1] + Concat(parts[2..]) by {
            assert parts[1..][1..] == parts[2..];
          }
        }
        TryAliasesComplete(strict, terms, i + 1, rest, 0, e, parts[1..], m);
      }
    }
  }

  /** One alias that does not match only moves the search to the next. */
  lemma AliasSkippedOrHit(strict: bool, terms: seq<Term>, i: nat, keyword: Word, a: nat)
    requires i < |terms| && a < |terms[i].alias|
    ensures TryAliases(strict, terms, i, keyword, a + 1) != -1 ==> TryAliases(strict, terms, i, keyword, a) != -1
  {
  }

  lemma SplitsTail(strict: bool, terms: seq<Term>, i: nat, e: nat, keyword: Word, parts: seq<Word>)
    requires Splits(strict, terms, i, e, keyword, parts) && |parts| > 1
    ensures Splits(strict, terms, i + 1, e, Concat(parts[1..]), parts[1..])
    ensures Reads(strict, terms[i + 1], parts[1], |parts| == 2)
  {
    forall k: nat | k < |parts[1..]|
      ensures Reads(strict, terms[i + 1 + k], parts[1..][k], k == |parts[1..]| - 1)
    {
      assert Reads(strict, terms[i + (k + 1)], parts[k + 1], k + 1 == |parts| - 1);
    }
    assert Reads(strict, terms[i + 1], parts[1], 1 == |parts| - 1);
  }

  /** findKeyword is sound and complete: it returns the end of a split of the keyword over terms from
      `i` on, and -1 exactly when there is none. */
  lemma FindKeywordExact(strict: bool, terms: seq<Term>, i: nat, keyword: Word)
    requires i < |terms|
    ensures
      var r := FindKeyword(strict, terms, i, keyword);
      if r == -1 then forall e: nat :: !MatchesTo(strict, terms, i, e, keyword)
      else i <= r < |terms| && MatchesTo(strict, terms, i, r, keyword)
  {
    var r := FindKeyword(strict, terms, i, keyword);
    if r != -1 {
      TryAliasesSound(strict, terms, i, keyword, 0);
    } else {
      forall e: nat, parts | Splits(strict, terms, i, e, keyword, parts) ensures false {
        assert Reads(strict, terms[i + 0], parts[0], 0 == |parts| - 1);
        var k: nat :| k < |terms[i].alias|
          && if |parts| == 1 && !strict then parts[0] <= terms[i].alias[k] else parts[0] == terms[i].alias[k];
        TryAliasesComplete(strict, terms, i, keyword, 0, e, parts, k);
      }
    }
  }

  // ----- The found substring -----------------------------------------------------------------

  /** Terms lie in the text in order and do not overlap. */
  ghost predicate InText(text: Word, terms: seq<Term>) {
    && (forall k: nat | k < |terms| :: terms[k].offset + |terms[k].raw| <= |text|)
    && (forall k: nat | k + 1 < |terms| :: terms[k].offset + |terms[k].raw| <= terms[k + 1].offset)
  }

  lemma {:induction false} TermsAhead(text: Word, terms: seq<Term>, i: nat, j: nat)
    requires InText(text, terms) && i <= j < |terms|
    ensures terms[i].offset <= terms[j].offset
    decreases j
  {
    if i < j {
      TermsAhead(text, terms, i, j - 1);
    }
  }

  /** The leftmost start that matches, and the raw text from that term to the end of the last one of the
      match the search meets first, gaps included; or nothing when no start matches. */
  ghost predicate IsFound(text: Word, terms: seq<Term>, strict: bool, keyword: Word, substr: Word, index: int) {
    if index == -1 then substr == [] && forall i: nat, e: nat :: !MatchesTo(strict, terms, i, e, keyword)
    else exists i: nat, e: nat :: IsMatchAt(text, terms, strict, keyword, substr, index, i, e)
  }

  ghost predicate IsMatchAt(text: Word, terms: seq<Term>, strict: bool, keyword: Word, substr: Word, index: int,
                            i: nat, e: nat)
  {
    && i <= e < |terms| && e == FindKeyword(strict, terms, i, keyword) && MatchesTo(strict, terms, i, e, keyword)
    && (forall j: nat, f: nat | j < i :: !MatchesTo(strict, terms, j, f, keyword))
    && index == terms[i].offset <= terms[e].offset + |terms[e].raw| <= |text|
    && substr == text[index..terms[e].offset + |terms[e].raw|]
  }

  /** That fixes the result: the search is for the leftmost start, and from there for its first match. */
  lemma FoundUnique(text: Word, terms: seq<Term>, strict: bool, keyword: Word, s: Word, i: int, t: Word, j: int)
    requires IsFound(text, terms, strict, keyword, s, i) && IsFound(text, terms, strict, keyword, t, j)
    ensures s == t && i == j
  {
    if i != -1 && j != -1 {
      var a: nat, e: nat :| IsMatchAt(text, terms, strict, keyword, s, i, a, e);
      var b: nat, f: nat :| IsMatchAt(text, terms, strict, keyword, t, j, b, f);
      assert a == b;
    }
  }

  method Find(text: Word, terms: seq<Term>, strict: bool, keyword: Word) returns (substr: Word, index: int)
    requires InText(text, terms)
    ensures IsFound(text, terms, strict, keyword, substr, index)
  {
    if |keyword| == 0 || |terms| == 0 {
      forall i: nat, e: nat, parts | Splits(strict, terms, i, e, keyword, parts)
        ensures keyword != [] && terms != []
      {
        SplitsSomething(strict, terms, i, e, keyword, parts);
      }
      return [], -1;
    }
    for i := 0 to |terms|
      invariant forall j: nat, f: nat | j < i :: !MatchesTo(strict, terms, j, f, keyword)
    {
      FindKeywordExact(strict, terms, i, keyword);
      var termIdx := FindKeyword(strict, terms, i, keyword);
      if termIdx != -1 {
        substr := Slice(text, terms, i, termIdx);
        TermsAhead(text, terms, i, termIdx);
        index := terms[i].offset;
        assert IsMatchAt(text, terms, strict, keyword, substr, index, i, termIdx);
        return;
      }
    }
    forall i: nat, e: nat ensures !MatchesTo(strict, terms, i, e, keyword) {
    }
    return [], -1;
  }

  /** The loop that glues terms and gaps together. */
  method Slice(text: Word, terms: seq<Term>, i: nat, e: nat) returns (ret: Word)
    requires InText(text, terms) && i <= e < |terms|
    ensures terms[i].offset <= terms[e].offset
    ensures ret == text[terms[i].offset..terms[e].offset + |terms[e].raw|]
  {
    TermsAhead(text, terms, i, e);
    ret := [];
    for j := i to e + 1
      invariant terms[i].offset <= (if j <= e then terms[j].offset else terms[e].offset + |terms[e].raw|) <= |text|
      invariant ret == text[terms[i].offset..if j <= e then terms[j].offset else terms[e].offset + |terms[e].raw|]
    {
      var t := terms[j];
      var nextOffset := t.offset + |t.raw|;
      ret := ret + text[t.offset..nextOffset];
      assert ret == text[terms[i].offset..nextOffset];
      if j < e && nextOffset < terms[j + 1].offset {
        ret := ret + text[nextOffset..terms[j + 1].offset];
      }
    }
  }
}
