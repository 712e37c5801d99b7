/** What splitting does with the end of a file, and what it keeps of any text whatever. */
module SplitContents {
  import opened Wrappers
  import opened Text
  import opened Splitter
  import opened SplitRoundTrip
  import opened SplitterPattern
  import Seqs

  // ----- the last statement needs no semicolon -----

  lemma {:induction false} PrintedThen(ps: seq<Printed>, z: string)
    requires forall i :: 0 <= i < |ps| ==> ValidPrinted(ps[i])
    ensures Split(Print(ps) + z) == Texts(ps) + Split(z)
  {
    if ps == [] {
      assert Print(ps) + z == z;
    } else {
      PrintedThen(ps[1..], z);
      OnePrinted(ps[0], Print(ps[1..]), z, Texts(ps[1..]));
    }
  }

  lemma OnePrinted(p: Printed, rest: string, z: string, texts: seq<string>)
    requires ValidPrinted(p) && Split(rest + z) == texts + Split(z)
    ensures Split(p.text + p.filler + rest + z) == [p.text] + texts + Split(z)
  {
    Seqs.Regroup(p.text + p.filler, rest, z);
    SplitPrinted(p, rest + z);
    Seqs.Regroup([p.text], texts, Split(z));
  }

  lemma {:induction false} RStripSpaces(s: string, spaces: string)
    requires AllSpace(spaces) && RStrip(s) == s
    ensures RStrip(s + spaces) == s
  {
    if spaces == "" {
      assert s + spaces == s;
    } else {
      var n := |spaces| - 1;
      assert (s + spaces)[..|s| + n] == s + spaces[..n];
      RStripSpaces(s, spaces[..n]);
    }
  }

  lemma {:induction false} NoSemicolonNoMatch(s: string, i: nat)
    requires ';' !in s
    ensures FirstMatch(MatchAt, s, i).None?
    decreases |s| - i
  {
    if i < |s| { NoSemicolonNoMatch(s, i + 1); }
  }

  /** A text without a semicolon is one statement, trimmed, or none. */
  lemma SplitLast(s: string)
    requires ';' !in s
    ensures Split(s) == if Strip(s) == "" then [] else [Strip(s)]
  {
    NoSemicolonNoMatch(s, 0);
    assert s[0..] == s;
    PiecesSkip(s, 0, |s|);
  }

  /** After any leading filler and any printed statements, a last statement may end the file without its semicolon. */
  lemma LastStatement(lead: string, ps: seq<Printed>, last: string, spaces: string)
    requires Filler(lead) && forall i :: 0 <= i < |ps| ==> ValidPrinted(ps[i])
    requires last != "" && Strip(last) == last && ';' !in last && AllSpace(spaces)
    ensures Split(lead + Print(ps) + last + spaces) == Texts(ps) + [last]
  {
    var z := last + spaces;
    Seqs.Regroup(lead + Print(ps), last, spaces);
    Seqs.Regroup(lead, Print(ps), z);
    SplitFiller(lead, Print(ps) + z);
    PrintedThen(ps, z);
    assert ';' !in spaces by { assert forall i :: 0 <= i < |spaces| ==> spaces[i] != ';'; }
    SplitLast(z);
    StripsTo(last, spaces);
  }

  lemma StripsTo(last: string, spaces: string)
    requires last != "" && Strip(last) == last && AllSpace(spaces)
    ensures Strip(last + spaces) == last
  {
    LStripFixed(last);
    assert (last + spaces)[0] == last[0];
    assert LStrip(last + spaces) == last + spaces;
    RStripSpaces(last, spaces);
  }

  /** A trimmed text starts with a character that is not whitespace. */
  lemma LStripFixed(s: string)
    requires s != "" && Strip(s) == s
    ensures !IsSpace(s[0]) && RStrip(s) == s
  {
    assert |LStrip(s)| == |s|;
    assert LStrip(s) == s;
  }

  // ----- no text is lost or invented -----

  predicate Separator(c: char) {
    c == ';' || IsSpace(c)
  }

  /** The text without its whitespace and semicolons. */
  function Core(s: string): string {
    if s == "" then "" else (if Separator(s[0]) then "" else [s[0]]) + Core(s[1..])
  }

  function Cores(parts: seq<string>): string {
    if parts == [] then "" else Core(parts[0]) + Cores(parts[1..])
  }

  lemma {:induction false} CoreConcat(a: string, b: string)
    ensures Core(a + b) == Core(a) + Core(b)
  {
    if a == "" {
      assert a + b == b;
    } else {
      assert (a + b)[1..] == a[1..] + b;
      CoreConcat(a[1..], b);
      Seqs.Regroup(if Separator(a[0]) then "" else [a[0]], Core(a[1..]), Core(b));
    }
  }

  lemma {:induction false} CoresConcat(a: seq<string>, b: seq<string>)
    ensures Cores(a + b) == Cores(a) + Cores(b)
  {
    if a == [] {
      assert a + b == b;
    } else {
      assert (a + b)[1..] == a[1..] + b;
      CoresConcat(a[1..], b);
      Seqs.Regroup(Core(a[0]), Cores(a[1..]), Cores(b));
    }
  }

  lemma CoreLast(s: string)
    requires s != "" && Separator(s[|s| - 1])
    ensures Core(s[..|s| - 1]) == Core(s)
  {
    var init, last := s[..|s| - 1], s[|s| - 1..];
    assert s == init + last;
    CoreConcat(init, last);
    assert last[1..] == "";
  }

  lemma {:induction false} RStripCore(s: string)
    ensures Core(RStrip(s)) == Core(s)
  {
    if s != "" && IsSpace(s[|s| - 1]) {
      CoreLast(s);
      RStripCore(s[..|s| - 1]);
    }
  }

  lemma {:induction false} LStripCore(s: string)
    ensures Core(LStrip(s)) == Core(s)
  {
    if s != "" && IsSpace(s[0]) { LStripCore(s[1..]); }
  }

  lemma TrimmedCore(s: string)
    ensures Cores(Trimmed(s)) == Core(s)
  {
    LStripCore(s);
    RStripCore(LStrip(s));
    if Trimmed(s) != [] { assert Trimmed(s)[1..] == []; }
  }

  lemma {:induction false} PiecesCore(s: string, i: nat)
    requires i <= |s|
    ensures Cores(PiecesFrom(s, i)) == Core(s)
    decreases |s|, |s| - i
  {
    if i == |s| {
      TrimmedCore(s);
    } else if s[i] == ';' {
      var before, rest := s[..i], s[i + 1..];
      PiecesCore(rest, 0);
      TrimmedCore(before);
      CoresConcat(Trimmed(before), PiecesFrom(rest, 0));
      assert s == before + [';'] + rest;
      CoreConcat(before + [';'], rest);
      CoreLast(before + [';']);
      assert (before + [';'])[..|before|] == before;
    } else {
      PiecesCore(s, i + 1);
    }
  }

  lemma BlockCore(block: string)
    ensures Cores([Strip(block)]) == Core(block)
  {
    LStripCore(block);
    RStripCore(LStrip(block));
    assert [Strip(block)][1..] == [];
  }

  lemma CoresOfThree(a: seq<string>, b: seq<string>, c: seq<string>)
    ensures Cores(a + b + c) == Cores(a) + Cores(b) + Cores(c)
  {
    CoresConcat(a, b);
    CoresConcat(a + b, c);
  }

  lemma CoreOfThree(a: string, b: string, c: string)
    ensures Core(a + b + c) == Core(a) + Core(b) + Core(c)
  {
    CoreConcat(a, b);
    CoreConcat(a + b, c);
  }

  /** Cutting and trimming keep the core of a part. */
  ghost predicate KeepsCore(rules: Rules<string>, w: string) {
    Cores(rules.cut(w)) == Core(w) && Cores([rules.trim(w)]) == Core(w)
  }

  lemma {:induction false} SplitFromCore(rules: Rules<string>, s: string, pos: nat)
    requires pos <= |s| && forall w: string :: KeepsCore(rules, w)
    ensures Cores(SplitFrom(rules, s, pos)) == Core(s[pos..])
    decreases |s| - pos
  {
    var m := FirstMatch(rules.find, s, pos);
    if m.None? {
      assert KeepsCore(rules, s[pos..]);
    } else {
      var (b, e) := m.value;
      var before, block := s[pos..b], s[b..e];
      SplitFromCore(rules, s, e);
      assert KeepsCore(rules, before) && KeepsCore(rules, block);
      assert s[pos..] == before + block + s[e..];
      CoreAtMatch(rules, before, block, s[e..], SplitFrom(rules, s, e));
    }
  }

  lemma CoreAtMatch(rules: Rules<string>, before: string, block: string, rest: string, parts: seq<string>)
    requires KeepsCore(rules, before) && KeepsCore(rules, block) && Cores(parts) == Core(rest)
    ensures Cores(rules.cut(before) + [rules.trim(block)] + parts) == Core(before + block + rest)
  {
    CoresOfThree(rules.cut(before), [rules.trim(block)], parts);
    CoreOfThree(before, block, rest);
  }

  /** Of any text, splitting keeps everything but whitespace and semicolons, in order. */
  lemma SplitKeepsText(s: string)
    ensures Cores(Split(s)) == Core(s)
  {
    forall w: string ensures KeepsCore(SQL_RULES, w) {
      PiecesCore(w, 0);
      BlockCore(w);
    }
    SplitFromCore(SQL_RULES, s, 0);
    assert s[0..] == s;
  }

  // ----- what any statement looks like -----

  /** A statement of a file: trimmed, and either free of semicolons or one match of the trigger pattern. */
  predicate Statement(t: string) {
    t != "" && Strip(t) == t && (';' !in t || Trigger(t))
  }

  predicate Statements(parts: seq<string>) {
    forall i :: 0 <= i < |parts| ==> Statement(parts[i])
  }

  lemma {:induction false} StripMember(s: string, c: char)
    ensures c in RStrip(s) ==> c in s
    ensures c in LStrip(s) ==> c in s
  {
  }

  lemma {:induction false} LStripStops(s: string)
    requires s != "" && !IsSpace(s[0])
    ensures LStrip(s) == s
  {
  }

  lemma StripTwice(s: string)
    ensures Strip(Strip(s)) == Strip(s)
  {
    var l := LStrip(s);
    var r := RStrip(l);
    if r != "" {
      assert r[0] == l[0];
      LStripStops(r);
    }
  }

  lemma StrippedStatement(s: string)
    requires ';' !in s && Strip(s) != ""
    ensures Statement(Strip(s))
  {
    StripTwice(s);
    StripMember(s, ';');
    StripMember(LStrip(s), ';');
  }

  lemma TrimmedStatements(s: string)
    requires ';' !in s
    ensures Statements(Trimmed(s))
  {
    if Strip(s) != "" {
      StrippedStatement(s);
      OneStatement(Strip(s));
    }
  }

  lemma OneStatement(t: string)
    requires Statement(t)
    ensures Statements([t])
  {
  }

  lemma {:induction false} PiecesStatements(s: string, i: nat)
    requires i <= |s| && ';' !in s[..i]
    ensures Statements(PiecesFrom(s, i))
    decreases |s|, |s| - i
  {
    if i == |s| {
      assert s[..i] == s;
      TrimmedStatements(s);
    } else if s[i] == ';' {
      TrimmedStatements(s[..i]);
      PiecesStatements(s[i + 1..], 0);
    } else {
      assert s[..i + 1] == s[..i] + [s[i]];
      PiecesStatements(s, i + 1);
    }
  }

  /** A match inside a text is a match of its own part of the text. */
  lemma ViaAlone(s: string, b: nat, e: nat, x: string, y: string, word: string, j: nat, d: nat, e2: nat)
    requires b <= e <= |s| && b <= j && j <= d && b <= e2 <= e && x != "" && word != ""
    ensures MatchVia(s, b, x, y, word, j, d, e2) <==> MatchVia(s[b..e], 0, x, y, word, j - b, d - b, e2 - b)
  {
  }

  lemma MatchesAlone(s: string, b: nat, e: nat, x: string, y: string, word: string, e2: nat)
    requires b <= e <= |s| && b <= e2 <= e && x != "" && word != ""
    ensures Matches(s, b, x, y, word, e2) <==> Matches(s[b..e], 0, x, y, word, e2 - b)
  {
    if Matches(s, b, x, y, word, e2) { MatchesInside(s, b, e, x, y, word, e2); }
    if Matches(s[b..e], 0, x, y, word, e2 - b) { MatchesOutside(s, b, e, x, y, word, e2); }
  }

  lemma MatchesInside(s: string, b: nat, e: nat, x: string, y: string, word: string, e2: nat)
    requires b <= e <= |s| && b <= e2 <= e && x != "" && word != "" && Matches(s, b, x, y, word, e2)
    ensures Matches(s[b..e], 0, x, y, word, e2 - b)
  {
    var j: nat, d: nat :| MatchVia(s, b, x, y, word, j, d, e2);
    ViaAlone(s, b, e, x, y, word, j, d, e2);
  }

  lemma MatchesOutside(s: string, b: nat, e: nat, x: string, y: string, word: string, e2: nat)
    requires b <= e <= |s| && b <= e2 <= e && x != "" && word != "" && Matches(s[b..e], 0, x, y, word, e2 - b)
    ensures Matches(s, b, x, y, word, e2)
  {
    var part, end := s[b..e], e2 - b;
    var j: nat, d: nat :| MatchVia(part, 0, x, y, word, j, d, end);
    ViaBack(s, b, e, x, y, word, j, d, e2, part, end);
  }

  lemma ViaBack(s: string, b: nat, e: nat, x: string, y: string, word: string, j: nat, d: nat, e2: nat, part: string,
                end: nat)
    requires b <= e <= |s| && b <= e2 <= e && x != "" && word != "" && part == s[b..e] && end == e2 - b
    requires MatchVia(part, 0, x, y, word, j, d, end)
    ensures MatchVia(s, b, x, y, word, j + b, d + b, e2)
  {
    var jb, db := j + b, d + b;
    assert jb - b == j && db - b == d;
    ViaAlone(s, b, e, x, y, word, jb, db, e2);
  }

  /** A lazy match inside a text is a lazy match of its own part of the text. */
  lemma LazyAlone(s: string, b: nat, e: nat, x: string, y: string, word: string, part: string, n: nat)
    requires b <= e <= |s| && x != "" && word != "" && LazyMatch(s, b, x, y, word, e)
    requires part == s[b..e] && n == e - b
    ensures LazyMatch(part, 0, x, y, word, n)
  {
    MatchesAlone(s, b, e, x, y, word, e);
    forall e2: nat | Matches(part, 0, x, y, word, e2) ensures n <= e2 {
      if e2 < n { MatchesAlone(s, b, e, x, y, word, e2 + b); }
    }
  }

  lemma BlockEnds(s: string, i: nat, x: string, y: string, word: string)
    requires Letters(x) && Block(s, i, x, y, word).Some?
    ensures !IsSpace(s[i]) && s[Block(s, i, x, y, word).value - 1] == ';'
  {
    WordAtIff(s, i, x);
    SpelledLetter(s, i, x, 0);
  }

  lemma StripFixed(s: string)
    requires s != "" && !IsSpace(s[0]) && !IsSpace(s[|s| - 1])
    ensures Strip(s) == s
  {
  }

  lemma MatchAlone(s: string, b: nat, e: nat, part: string, n: nat)
    requires MatchAt(s, b) == Some(e) && e <= |s| && b <= e && part == s[b..e] && n == e - b
    ensures MatchAt(part, 0) == Some(n)
  {
    MatchAtIff(s, b, e);
    LazyAlone(s, b, e, "create", "trigger", "end", part, n);
    MatchAtIff(part, 0, n);
  }

  lemma BlockIsStatement(s: string, b: nat, e: nat)
    requires MatchAt(s, b) == Some(e)
    ensures b < e <= |s| && Statement(Strip(s[b..e]))
  {
    Keywords();
    BlockEnds(s, b, "create", "trigger", "end");
    var part := s[b..e];
    MatchAlone(s, b, e, part, |part|);
    StripFixed(part);
  }

  ghost predicate CutsStatements(rules: Rules<string>, w: string) {
    Statements(rules.cut(w))
  }

  ghost predicate TrimsStatement(rules: Rules<string>, s: string, b: nat, e: nat) {
    b < e <= |s| && rules.find(s, b) == Some(e) ==> Statement(rules.trim(s[b..e]))
  }

  lemma {:induction false} FirstMatchFinds(find: Pattern, s: string, i: nat)
    ensures FirstMatch(find, s, i).Some? ==>
              find(s, FirstMatch(find, s, i).value.0) == Some(FirstMatch(find, s, i).value.1)
    decreases |s| - i
  {
    if i < |s| { FirstMatchFinds(find, s, i + 1); }
  }

  lemma {:induction false} SplitFromStatements(rules: Rules<string>, s: string, pos: nat)
    requires pos <= |s|
    requires forall w: string :: CutsStatements(rules, w)
    requires forall b: nat, e: nat :: TrimsStatement(rules, s, b, e)
    ensures Statements(SplitFrom(rules, s, pos))
    decreases |s| - pos
  {
    FirstMatchFinds(rules.find, s, pos);
    var m := FirstMatch(rules.find, s, pos);
    if m.None? {
      assert CutsStatements(rules, s[pos..]);
    } else {
      var (b, e) := m.value;
      assert CutsStatements(rules, s[pos..b]) && TrimsStatement(rules, s, b, e);
      SplitFromStatements(rules, s, e);
    }
  }

  /** Of any text, every statement is trimmed, not empty, and one trigger block or free of semicolons. */
  lemma SplitsIntoStatements(s: string)
    ensures Statements(Split(s))
  {
    forall w: string ensures CutsStatements(SQL_RULES, w) { PiecesStatements(w, 0); }
    forall b: nat, e: nat ensures TrimsStatement(SQL_RULES, s, b, e) {
      if b < e <= |s| && MatchAt(s, b) == Some(e) { BlockIsStatement(s, b, e); }
    }
    SplitFromStatements(SQL_RULES, s, 0);
  }
}
