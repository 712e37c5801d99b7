/**
  Splitting a migration file into statements: CREATE TRIGGER blocks are found by a
  regular expression and kept whole, everything else is split at semicolons.
 */
module Splitter {
  import opened Wrappers
  import opened Text

  // ----- the trigger pattern, case-insensitive over ASCII letters -----

  function Lower(c: char): char {
    if 'A' <= c <= 'Z' then c - 'A' + 'a' else c
  }

  /** \w */
  predicate WordChar(c: char) {
    'a' <= Lower(c) <= 'z' || '0' <= c <= '9' || c == '_'
  }

  predicate WordAt(s: string, i: nat, word: string) {
    i + |word| <= |s| && forall k :: 0 <= k < |word| ==> Lower(s[i + k]) == word[k]
  }

  function SkipSpace(s: string, i: nat): (r: nat)
    requires i <= |s|
    ensures i <= r <= |s| && (forall k :: i <= k < r ==> IsSpace(s[k])) && (r < |s| ==> !IsSpace(s[r]))
    decreases |s| - i
  {
    if i < |s| && IsSpace(s[i]) then SkipSpace(s, i + 1) else i
  }

  /** The word at `j`, ended by \b: where it ends. */
  function WordEnd(s: string, j: nat, word: string): (r: Option<nat>)
    ensures r.Some? ==> j <= r.value <= |s|
  {
    if !WordAt(s, j, word) || (j + |word| < |s| && WordChar(s[j + |word|])) then None else Some(j + |word|)
  }

  /** The words `a` and `b`, separated by whitespace and ended by \b, at position `i`: where they end. */
  function TwoWords(s: string, i: nat, a: string, b: string): (r: Option<nat>)
    requires a != ""
    ensures r.Some? ==> i < r.value <= |s|
  {
    if !WordAt(s, i, a) || i + |a| == |s| || !IsSpace(s[i + |a|]) then None
    else WordEnd(s, SkipSpace(s, i + |a|), b)
  }

  /** \b, the word `e`, \s*; at position `j`: where it ends. */
  function Ending(s: string, j: nat, e: string): (r: Option<nat>)
    ensures r.Some? ==> j < r.value <= |s| && s[r.value - 1] == ';'
  {
    if !WordAt(s, j, e) || (0 < j <= |s| && WordChar(s[j - 1])) then None
    else
      var k := SkipSpace(s, j + |e|);
      if k < |s| && s[k] == ';' then Some(k + 1) else None
  }

  /** The end of the first ending at or after `j`: the lazy part of the pattern. */
  function FindEnd(s: string, j: nat, e: string): (r: Option<nat>)
    ensures r.Some? ==> j < r.value <= |s| && s[r.value - 1] == ';'
    decreases |s| - j
  {
    if j >= |s| then None
    else if Ending(s, j, e).Some? then Ending(s, j, e)
    else FindEnd(s, j + 1, e)
  }

  function Block(s: string, i: nat, a: string, b: string, e: string): (r: Option<nat>)
    requires a != ""
    ensures r.Some? ==> i < r.value <= |s| && s[r.value - 1] == ';'
  {
    var h := TwoWords(s, i, a, b);
    if h.None? then None else FindEnd(s, h.value, e)
  }

  /** CREATE\s+TRIGGER\b */
  function Header(s: string, i: nat): Option<nat> {
    TwoWords(s, i, "create", "trigger")
  }

  /** CREATE\s+TRIGGER\b.*?\bEND\s*; */
  function MatchAt(s: string, i: nat): Option<nat> {
    Block(s, i, "create", "trigger", "end")
  }

  /** A pattern: where its match at a position ends, if it matches there. */
  type Pattern = (string, nat) -> Option<nat>

  predicate Hit(find: Pattern, s: string, i: nat) {
    find(s, i).Some? && i < find(s, i).value <= |s|
  }

  /** The leftmost match from `i` on: its start and end. */
  function FirstMatch(find: Pattern, s: string, i: nat): (r: Option<(nat, nat)>)
    ensures r.Some? ==> i <= r.value.0 < r.value.1 <= |s|
    decreases |s| - i
  {
    if i >= |s| then None
    else if Hit(find, s, i) then Some((i, find(s, i).value))
    else FirstMatch(find, s, i + 1)
  }

  // ----- splitting -----

  function Trimmed(s: string): seq<string> {
    if Strip(s) == "" then [] else [Strip(s)]
  }

  /** The trimmed, non-empty parts between semicolons; the current part has no semicolon before `i`. */
  function PiecesFrom(s: string, i: nat): seq<string>
    requires i <= |s|
    decreases |s|, |s| - i
  {
    if i == |s| then Trimmed(s)
    else if s[i] == ';' then Trimmed(s[..i]) + PiecesFrom(s[i + 1..], 0)
    else PiecesFrom(s, i + 1)
  }

  function Pieces(s: string): seq<string> {
    PiecesFrom(s, 0)
  }

  /** How to find blocks, to cut what lies between them, and to trim a block. */
  datatype Rules<T> = Rules(find: Pattern, cut: string -> seq<T>, trim: string -> T)

  const SQL_RULES: Rules<string> := Rules(MatchAt, Pieces, Strip)

  /** Every match is one statement; what lies between matches is cut. */
  function SplitFrom<T>(rules: Rules<T>, s: string, pos: nat): seq<T>
    requires pos <= |s|
    decreases |s| - pos
  {
    var m := FirstMatch(rules.find, s, pos);
    if m.None? then rules.cut(s[pos..])
    else rules.cut(s[pos..m.value.0]) + [rules.trim(s[m.value.0..m.value.1])] + SplitFrom(rules, s, m.value.1)
  }

  function Split(s: string): seq<string> {
    SplitFrom(SQL_RULES, s, 0)
  }

  /** str.split(";") followed by the filter of the comprehension. */
  method SplitAtSemicolons(s: string) returns (parts: seq<string>)
    ensures parts == PiecesFrom(s, 0)
  {
    parts := [];
    var rest, i := s, 0;
    while i < |rest|
      invariant 0 <= i <= |rest|
      invariant PiecesFrom(s, 0) == parts + PiecesFrom(rest, i)
      decreases |rest|, |rest| - i
    {
      if rest[i] == ';' {
        parts := parts + Trimmed(rest[..i]);
        rest, i := rest[i + 1..], 0;
      } else {
        i := i + 1;
      }
    }
    parts := parts + Trimmed(rest);
  }

  lemma Associative<T>(a: seq<T>, b: seq<T>, c: seq<T>, d: seq<T>)
    ensures a + (b + c + d) == a + b + c + d
  {
  }

  method SplitStatements(s: string) returns (statements: seq<string>)
    ensures statements == Split(s)
  {
    statements := [];
    var pos := 0;
    var m := FirstMatch(MatchAt, s, 0);
    while m.Some?
      invariant pos <= |s| && m == FirstMatch(MatchAt, s, pos)
      invariant Split(s) == statements + SplitFrom(SQL_RULES, s, pos)
      decreases |s| - pos
    {
      var before := SplitAtSemicolons(s[pos..m.value.0]);
      var block := Strip(s[m.value.0..m.value.1]);
      Associative(statements, before, [block], SplitFrom(SQL_RULES, s, m.value.1));
      statements := statements + before + [block];
      pos := m.value.1;
      m := FirstMatch(MatchAt, s, pos);
    }
    var tail := SplitAtSemicolons(s[pos..]);
    statements := statements + tail;
  }

  // ----- what a printed statement list looks like -----

  /** A plain statement has no semicolon and no trigger header. */
  ghost predicate Plain(s: string) {
    && s != "" && Strip(s) == s && ';' !in s
    && forall i :: 0 <= i < |s| ==> Header(s + ";", i).None?
  }

  /** A trigger statement is one match of the pattern: its first ending is its end. */
  predicate Trigger(s: string) {
    Strip(s) == s && MatchAt(s, 0) == Some(|s|)
  }

  predicate Filler(s: string) {
    forall i :: 0 <= i < |s| ==> s[i] == ';' || IsSpace(s[i])
  }

  /** A statement with what separates it from the next one: a plain one needs its semicolon. */
  datatype Printed = Printed(text: string, filler: string)

  ghost predicate ValidPrinted(p: Printed) {
    && Filler(p.filler)
    && (Trigger(p.text) || (Plain(p.text) && p.filler != "" && p.filler[0] == ';'))
  }

  function Print(ps: seq<Printed>): string {
    if ps == [] then "" else ps[0].text + ps[0].filler + Print(ps[1..])
  }

  function Texts(ps: seq<Printed>): seq<string> {
    if ps == [] then [] else [ps[0].text] + Texts(ps[1..])
  }
}
