/**
  The trigger pattern read off its regular expression, the last statement of a file, and what
  splitting keeps of any text.
 */
module SplitterPattern {
  import opened Wrappers
  import opened Text
  import opened Splitter
  import opened SplitRoundTrip
  import Seqs

  // ----- CREATE\s+TRIGGER\b.*?\bEND\s*; -----

  predicate EitherCase(c: char, letter: char) {
    c == letter || c as int == letter as int - 32
  }

  /** The text from `i` on starts with the word, in letters of either case. */
  predicate Spells(s: string, i: nat, word: string) {
    i + |word| <= |s| && forall k :: 0 <= k < |word| ==> EitherCase(s[i + k], word[k])
  }

  predicate IsWord(c: char) {
    'a' <= c <= 'z' || 'A' <= c <= 'Z' || '0' <= c <= '9' || c == '_'
  }

  /** \b: a word character on exactly one side. */
  predicate Edge(s: string, i: nat) {
    (0 < i <= |s| && IsWord(s[i - 1])) != (i < |s| && IsWord(s[i]))
  }

  predicate Spaces(s: string, i: nat, j: nat) {
    i <= j <= |s| && forall k :: i <= k < j ==> IsSpace(s[k])
  }

  /** The two words with whitespace between them and an edge after them, from `i` to `j`. */
  predicate TwoSpelled(s: string, i: nat, a: string, b: string, j: nat) {
    && |b| <= j && Spells(s, i, a) && i + |a| < j - |b| && Spaces(s, i + |a|, j - |b|)
    && Spells(s, j - |b|, b) && Edge(s, j)
  }

  /** An edge, the word, any whitespace and a semicolon, from `d` to `e`. */
  predicate EndVia(s: string, d: nat, word: string, e: nat) {
    && Edge(s, d) && Spells(s, d, word) && d + |word| < e <= |s|
    && Spaces(s, d + |word|, e - 1) && s[e - 1] == ';'
  }

  /** Of the whole pattern: the header ends at `j`, the end starts at `d`. */
  predicate MatchVia(s: string, i: nat, a: string, b: string, word: string, j: nat, d: nat, e: nat) {
    TwoSpelled(s, i, a, b, j) && j <= d && EndVia(s, d, word, e)
  }

  ghost predicate Matches(s: string, i: nat, a: string, b: string, word: string, e: nat) {
    exists j: nat, d: nat :: MatchVia(s, i, a, b, word, j, d, e)
  }

  /** A lazy match: no shorter one starts at `i`. */
  ghost predicate LazyMatch(s: string, i: nat, a: string, b: string, word: string, e: nat) {
    Matches(s, i, a, b, word, e) && forall e2: nat :: Matches(s, i, a, b, word, e2) ==> e <= e2
  }

  /** What the regular expression matches at `i`. */
  ghost predicate Shortest(s: string, i: nat, e: nat) {
    LazyMatch(s, i, "create", "trigger", "end", e)
  }

  lemma WordAtIff(s: string, i: nat, word: string)
    requires forall k :: 0 <= k < |word| ==> 'a' <= word[k] <= 'z'
    ensures WordAt(s, i, word) <==> Spells(s, i, word)
  {
  }

  lemma WordCharIff(c: char)
    ensures WordChar(c) <==> IsWord(c)
  {
  }

  /** After a letter there is an edge exactly if no word character follows. */
  lemma EdgeAfter(s: string, i: nat)
    requires 0 < i <= |s| && IsWord(s[i - 1])
    ensures Edge(s, i) <==> !(i < |s| && WordChar(s[i]))
  {
  }

  lemma EdgeBefore(s: string, i: nat)
    requires i < |s| && IsWord(s[i])
    ensures Edge(s, i) <==> !(0 < i && WordChar(s[i - 1]))
  {
  }

  lemma {:induction false} SkipSpaceIs(s: string, i: nat, j: nat)
    requires Spaces(s, i, j) && (j < |s| ==> !IsSpace(s[j]))
    ensures SkipSpace(s, i) == j
    decreases j - i
  {
    if i < j { SkipSpaceIs(s, i + 1, j); }
  }

  predicate Letters(word: string) {
    word != "" && forall k :: 0 <= k < |word| ==> 'a' <= word[k] <= 'z'
  }

  lemma SpelledLetter(s: string, i: nat, word: string, k: nat)
    requires Spells(s, i, word) && Letters(word) && k < |word|
    ensures !IsSpace(s[i + k]) && IsWord(s[i + k]) && s[i + k] != ';'
  {
    assert EitherCase(s[i + k], word[k]);
  }

  lemma WordEndIff(s: string, t: nat, b: string)
    requires Letters(b)
    ensures WordEnd(s, t, b) == if Spells(s, t, b) && Edge(s, t + |b|) then Some(t + |b|) else None
  {
    WordAtIff(s, t, b);
    if Spells(s, t, b) {
      SpelledLetter(s, t, b, |b| - 1);
      EdgeAfter(s, t + |b|);
    }
  }

  /** The header of the pattern. */
  lemma TwoWordsIff(s: string, i: nat, a: string, b: string, j: nat)
    requires Letters(a) && Letters(b)
    ensures TwoWords(s, i, a, b) == Some(j) <==> TwoSpelled(s, i, a, b, j)
  {
    WordAtIff(s, i, a);
    if TwoSpelled(s, i, a, b, j) { SpelledIsFound(s, i, a, b, j); }
    if TwoWords(s, i, a, b) == Some(j) { WordEndIff(s, SkipSpace(s, i + |a|), b); }
  }

  lemma SpelledIsFound(s: string, i: nat, a: string, b: string, j: nat)
    requires Letters(a) && Letters(b) && TwoSpelled(s, i, a, b, j)
    ensures TwoWords(s, i, a, b) == Some(j)
  {
    var m, n := i + |a|, j - |b|;
    WordAtIff(s, i, a);
    SpelledLetter(s, n, b, 0);
    SkipSpaceIs(s, m, n);
    WordEndIff(s, n, b);
    assert m < n && IsSpace(s[m]);
    FoundAfterSpaces(s, i, a, b, m, n);
  }

  lemma FoundAfterSpaces(s: string, i: nat, a: string, b: string, m: nat, n: nat)
    requires a != "" && WordAt(s, i, a) && m == i + |a| && m < |s| && IsSpace(s[m]) && SkipSpace(s, m) == n
    ensures TwoWords(s, i, a, b) == WordEnd(s, n, b)
  {
  }

  lemma EndingIff(s: string, d: nat, word: string, e: nat)
    requires Letters(word)
    ensures Ending(s, d, word) == Some(e) <==> EndVia(s, d, word, e)
  {
    WordAtIff(s, d, word);
    if Spells(s, d, word) {
      SpelledLetter(s, d, word, 0);
      EdgeBefore(s, d);
      if EndVia(s, d, word, e) { SkipSpaceIs(s, d + |word|, e - 1); }
    }
  }

  /** A later end has its semicolon later: its word cannot start inside an earlier end. */
  lemma LaterEnd(s: string, d: nat, word: string, e: nat, d2: nat, e2: nat)
    requires Letters(word) && EndVia(s, d, word, e) && EndVia(s, d2, word, e2) && d < d2
    ensures e < e2
  {
    SpelledLetter(s, d2, word, 0);
    if d2 < d + |word| {
      SpelledLetter(s, d, word, d2 - 1 - d);
      EdgeBefore(s, d2);
      assert false;
    }
  }

  ghost predicate EndsAfter(s: string, j: nat, word: string, e: nat) {
    exists d: nat :: j <= d && EndVia(s, d, word, e)
  }

  ghost predicate FirstEndAt(s: string, j: nat, word: string, e: nat) {
    EndsAfter(s, j, word, e) && forall e2: nat :: EndsAfter(s, j, word, e2) ==> e <= e2
  }

  lemma NoEndHere(s: string, j: nat, word: string, e: nat)
    requires Letters(word) && Ending(s, j, word).None?
    ensures EndsAfter(s, j, word, e) <==> EndsAfter(s, j + 1, word, e)
  {
    if d: nat :| j <= d && EndVia(s, d, word, e) {
      if d == j {
        EndingIff(s, j, word, e);
        assert false;
      }
      assert j + 1 <= d && EndVia(s, d, word, e);
    }
    if d: nat :| j + 1 <= d && EndVia(s, d, word, e) { assert j <= d && EndVia(s, d, word, e); }
  }

  lemma FirstEnd(s: string, j: nat, word: string, first: nat)
    requires Letters(word) && Ending(s, j, word) == Some(first)
    ensures FirstEndAt(s, j, word, first)
  {
    EndingIff(s, j, word, first);
    forall e2: nat | EndsAfter(s, j, word, e2) ensures first <= e2 {
      var d: nat :| j <= d && EndVia(s, d, word, e2);
      if d > j { LaterEnd(s, j, word, first, d, e2); } else { EndingIff(s, j, word, e2); }
    }
  }

  lemma FirstEndNext(s: string, j: nat, word: string, e: nat)
    requires Letters(word) && Ending(s, j, word).None?
    ensures FirstEndAt(s, j, word, e) <==> FirstEndAt(s, j + 1, word, e)
  {
    NoEndHere(s, j, word, e);
    var next := j + 1;
    forall e2: nat ensures EndsAfter(s, j, word, e2) <==> EndsAfter(s, next, word, e2) { NoEndHere(s, j, word, e2); }
  }

  /** The end of the pattern: FindEnd stops at the first semicolon that ends one. */
  lemma {:induction false} FindEndIff(s: string, j: nat, word: string, e: nat)
    requires Letters(word)
    ensures FindEnd(s, j, word) == Some(e) <==> FirstEndAt(s, j, word, e)
    decreases |s| - j
  {
    if j < |s| {
      if Ending(s, j, word).Some? {
        FirstEnd(s, j, word, Ending(s, j, word).value);
      } else {
        FindEndIff(s, j + 1, word, e);
        FirstEndNext(s, j, word, e);
      }
    }
  }

  /** A match is the one header at `i` with an end after it. */
  lemma MatchesIff(s: string, i: nat, a: string, b: string, word: string, j: nat, e: nat)
    requires Letters(a) && Letters(b) && TwoWords(s, i, a, b) == Some(j)
    ensures Matches(s, i, a, b, word, e) <==> EndsAfter(s, j, word, e)
  {
    TwoWordsIff(s, i, a, b, j);
    if j2: nat, d: nat :| MatchVia(s, i, a, b, word, j2, d, e) { TwoWordsIff(s, i, a, b, j2); }
    if d: nat :| j <= d && EndVia(s, d, word, e) { assert MatchVia(s, i, a, b, word, j, d, e); }
  }

  lemma BlockIff(s: string, i: nat, a: string, b: string, word: string, e: nat)
    requires Letters(a) && Letters(b) && Letters(word)
    ensures Block(s, i, a, b, word) == Some(e) <==> LazyMatch(s, i, a, b, word, e)
  {
    var h := TwoWords(s, i, a, b);
    if h.Some? {
      FindEndIff(s, h.value, word, e);
      forall e2: nat ensures Matches(s, i, a, b, word, e2) <==> EndsAfter(s, h.value, word, e2) {
        MatchesIff(s, i, a, b, word, h.value, e2);
      }
    } else if j: nat, d: nat :| MatchVia(s, i, a, b, word, j, d, e) {
      TwoWordsIff(s, i, a, b, j);
    }
  }

  lemma Keywords()
    ensures Letters("create") && Letters("trigger") && Letters("end")
  {
  }

  /** The model's matcher finds exactly the lazy matches of the regular expression. */
  lemma MatchAtIff(s: string, i: nat, e: nat)
    ensures MatchAt(s, i) == Some(e) <==> Shortest(s, i, e)
  {
    Keywords();
    BlockIff(s, i, "create", "trigger", "end", e);
  }

  /** `good` tells where the pattern matches. */
  ghost predicate Means(find: Pattern, s: string, good: (nat, nat) -> bool) {
    forall i: nat, e: nat :: find(s, i) == Some(e) <==> good(i, e)
  }

  lemma {:induction false} LeftmostIff(find: Pattern, s: string, good: (nat, nat) -> bool, i: nat, b: nat, e: nat)
    requires Means(find, s, good) && forall m: nat, e2: nat :: good(m, e2) ==> m < e2 <= |s|
    ensures FirstMatch(find, s, i) == Some((b, e)) <==>
            i <= b && good(b, e) && forall m: nat, e2: nat :: i <= m < b ==> !good(m, e2)
    decreases |s| - i
  {
    assert find(s, b) == Some(e) <==> good(b, e);
    if i < |s| {
      if find(s, i).Some? {
        assert good(i, find(s, i).value);
      } else {
        LeftmostIff(find, s, good, i + 1, b, e);
        forall e2: nat ensures !good(i, e2) { assert find(s, i) == Some(e2) <==> good(i, e2); }
      }
    }
  }

  ghost function ShortestIn(s: string): (nat, nat) -> bool {
    (i: nat, e: nat) => Shortest(s, i, e)
  }

  lemma ShortestMeans(s: string)
    ensures Means(MatchAt, s, ShortestIn(s))
    ensures forall m: nat, e: nat :: ShortestIn(s)(m, e) ==> m < e <= |s|
  {
    forall i: nat, e: nat ensures MatchAt(s, i) == Some(e) <==> ShortestIn(s)(i, e) { MatchAtIff(s, i, e); }
  }

  /** The next block is the leftmost lazy match. */
  lemma FirstMatchIff(s: string, i: nat, b: nat, e: nat)
    ensures var good := ShortestIn(s);
      FirstMatch(MatchAt, s, i) == Some((b, e)) <==>
        i <= b && good(b, e) && forall m: nat, e2: nat :: i <= m < b ==> !good(m, e2)
  {
    ShortestMeans(s);
    LeftmostIff(MatchAt, s, ShortestIn(s), i, b, e);
  }
}
