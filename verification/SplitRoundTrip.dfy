/** Printing a list of statements and splitting the result gives the list back. */
module SplitRoundTrip {
  import opened Wrappers
  import opened Text
  import Seqs
  import opened Splitter

  function Shift(o: Option<nat>, n: nat): Option<nat> {
    if o.None? then None else Some(o.value + n)
  }

  function ShiftPair(o: Option<(nat, nat)>, n: nat): Option<(nat, nat)> {
    if o.None? then None else Some((o.value.0 + n, o.value.1 + n))
  }

  /** A word boundary follows `x`, as it does the start of the text. */
  predicate Boundary(x: string) {
    x == "" || !WordChar(x[|x| - 1])
  }

  // ----- matching does not look back, except for the word boundary -----

  lemma {:induction false} SkipSpaceShift(x: string, y: string, i: nat)
    requires i <= |y|
    ensures SkipSpace(x + y, |x| + i) == |x| + SkipSpace(y, i)
    decreases |y| - i
  {
    if i < |y| && IsSpace(y[i]) {
      assert (x + y)[|x| + i] == y[i];
      SkipSpaceShift(x, y, i + 1);
    }
  }

  lemma WordAtShift(x: string, y: string, i: nat, word: string)
    ensures WordAt(x + y, |x| + i, word) == WordAt(y, i, word)
  {
    assert forall j :: 0 <= j < |y| ==> y[j] == (x + y)[|x| + j];
    if i + |word| <= |y| {
      forall k | 0 <= k < |word| ensures (Lower((x + y)[|x| + i + k]) == word[k]) == (Lower(y[i + k]) == word[k]) {
        assert y[i + k] == (x + y)[|x| + (i + k)];
      }
    }
  }

  lemma WordEndShift(x: string, y: string, j: nat, word: string)
    ensures WordEnd(x + y, |x| + j, word) == Shift(WordEnd(y, j, word), |x|)
  {
    WordAtShift(x, y, j, word);
    if j + |word| < |y| { assert (x + y)[|x| + (j + |word|)] == y[j + |word|]; }
  }

  lemma TwoWordsShift(x: string, y: string, i: nat, a: string, b: string)
    requires a != ""
    ensures TwoWords(x + y, |x| + i, a, b) == Shift(TwoWords(y, i, a, b), |x|)
  {
    WordAtShift(x, y, i, a);
    if WordAt(y, i, a) && i + |a| < |y| {
      assert (x + y)[|x| + (i + |a|)] == y[i + |a|];
      SkipSpaceShift(x, y, i + |a|);
      WordEndShift(x, y, SkipSpace(y, i + |a|), b);
    }
  }

  lemma EndingShift(x: string, y: string, j: nat, e: string)
    requires Boundary(x)
    ensures Ending(x + y, |x| + j, e) == Shift(Ending(y, j, e), |x|)
  {
    WordAtShift(x, y, j, e);
    if WordAt(y, j, e) { SkipSpaceShift(x, y, j + |e|); }
  }

  lemma {:induction false} FindEndShift(x: string, y: string, j: nat, e: string)
    requires Boundary(x)
    ensures FindEnd(x + y, |x| + j, e) == Shift(FindEnd(y, j, e), |x|)
    decreases |y| - j
  {
    if j < |y| {
      EndingShift(x, y, j, e);
      FindEndShift(x, y, j + 1, e);
    }
  }

  lemma BlockShift(x: string, y: string, i: nat, a: string, b: string, e: string)
    requires Boundary(x) && a != ""
    ensures Block(x + y, |x| + i, a, b, e) == Shift(Block(y, i, a, b, e), |x|)
  {
    TwoWordsShift(x, y, i, a, b);
    if TwoWords(y, i, a, b).Some? { FindEndShift(x, y, TwoWords(y, i, a, b).value, e); }
  }

  lemma SlicesAfter(x: string, y: string, b: nat, e: nat)
    requires b <= e <= |y|
    ensures (x + y)[|x| + b..|x| + e] == y[b..e]
    ensures (x + y)[0..|x| + b] == x + y[0..b]
    ensures (x + y)[|x| + b..] == y[b..]
  {
  }

  /** After `x`, the pattern matches in `x + y` where it matches in `y`. */
  ghost predicate Shifts(find: Pattern, x: string, y: string) {
    forall i: nat :: find(x + y, |x| + i) == Shift(find(y, i), |x|)
  }

  lemma {:induction false} FirstMatchShift(find: Pattern, x: string, y: string, i: nat)
    requires Shifts(find, x, y)
    ensures FirstMatch(find, x + y, |x| + i) == ShiftPair(FirstMatch(find, y, i), |x|)
    decreases |y| - i
  {
    if i < |y| {
      assert find(x + y, |x| + i) == Shift(find(y, i), |x|);
      FirstMatchShift(find, x, y, i + 1);
    }
  }

  lemma {:induction false} SplitShift<T>(rules: Rules<T>, x: string, y: string, pos: nat)
    requires Shifts(rules.find, x, y) && pos <= |y|
    ensures SplitFrom(rules, x + y, |x| + pos) == SplitFrom(rules, y, pos)
    decreases |y| - pos
  {
    FirstMatchShift(rules.find, x, y, pos);
    var m := FirstMatch(rules.find, y, pos);
    SlicesAfter(x, y, pos, |y|);
    if m.Some? {
      SlicesAfter(x, y, pos, m.value.0);
      SlicesAfter(x, y, m.value.0, m.value.1);
      SplitShift(rules, x, y, m.value.1);
    }
  }

  // ----- matching does not look past a semicolon -----

  lemma {:induction false} SkipSpaceLocal(u: string, y: string, i: nat)
    requires i <= |u|
    ensures SkipSpace(u + ";" + y, i) == SkipSpace(u + ";", i) <= |u|
    decreases |u| - i
  {
    assert (u + ";" + y)[i] == (u + ";")[i];
    if i < |u| && IsSpace(u[i]) { SkipSpaceLocal(u, y, i + 1); }
  }

  lemma WordAtLocal(u: string, y: string, i: nat, word: string)
    requires i <= |u| && word != "" && ';' !in word
    ensures WordAt(u + ";" + y, i, word) == WordAt(u + ";", i, word)
    ensures WordAt(u + ";", i, word) ==> i + |word| <= |u|
  {
    var s, a := u + ";" + y, u + ";";
    assert forall k :: 0 <= k < |a| ==> s[k] == a[k];
    assert s[|u|] == ';';
    if i + |word| > |u| && i + |word| <= |s| {
      assert Lower(s[i + (|u| - i)]) != word[|u| - i];
    }
  }

  lemma WordEndLocal(u: string, y: string, j: nat, word: string)
    requires j <= |u| && word != "" && ';' !in word
    ensures WordEnd(u + ";" + y, j, word) == WordEnd(u + ";", j, word)
    ensures WordEnd(u + ";", j, word).Some? ==> WordEnd(u + ";", j, word).value <= |u|
  {
    WordAtLocal(u, y, j, word);
    if j + |word| <= |u| { assert (u + ";" + y)[j + |word|] == (u + ";")[j + |word|]; }
  }

  lemma TwoWordsLocal(u: string, y: string, i: nat, a: string, b: string)
    requires i <= |u| && a != "" && b != "" && ';' !in a && ';' !in b
    ensures TwoWords(u + ";" + y, i, a, b) == TwoWords(u + ";", i, a, b)
    ensures TwoWords(u + ";", i, a, b).Some? ==> TwoWords(u + ";", i, a, b).value <= |u|
  {
    var t := u + ";";
    WordAtLocal(u, y, i, a);
    if WordAt(t, i, a) {
      assert (t + y)[i + |a|] == t[i + |a|];
      SkipSpaceLocal(u, y, i + |a|);
      WordEndLocal(u, y, SkipSpace(t, i + |a|), b);
    }
  }

  lemma EndingLocal(u: string, y: string, j: nat, e: string)
    requires j <= |u| && e != "" && ';' !in e
    ensures Ending(u + ";" + y, j, e) == Ending(u + ";", j, e)
  {
    var s, t := u + ";" + y, u + ";";
    assert forall k :: 0 <= k < |t| ==> s[k] == t[k];
    WordAtLocal(u, y, j, e);
    if WordAt(t, j, e) { SkipSpaceLocal(u, y, j + |e|); }
  }

  lemma {:induction false} FindEndLocal(u: string, y: string, j: nat, e: string)
    requires FindEnd(u + ";", j, e).Some? && e != "" && ';' !in e
    ensures FindEnd(u + ";" + y, j, e) == FindEnd(u + ";", j, e)
    decreases |u| + 1 - j
  {
    EndingLocal(u, y, j, e);
    if Ending(u + ";", j, e).None? { FindEndLocal(u, y, j + 1, e); }
  }

  lemma BlockLocal(u: string, y: string, i: nat, a: string, b: string, e: string)
    requires i <= |u| && a != "" && b != "" && e != "" && ';' !in a && ';' !in b && ';' !in e
    requires Block(u + ";", i, a, b, e).Some?
    ensures Block(u + ";" + y, i, a, b, e) == Block(u + ";", i, a, b, e)
  {
    TwoWordsLocal(u, y, i, a, b);
    FindEndLocal(u, y, TwoWords(u + ";", i, a, b).value, e);
  }

  lemma {:induction false} FirstMatchSkip(find: Pattern, s: string, p: nat, q: nat)
    requires p <= q <= |s| && forall i :: p <= i < q ==> !Hit(find, s, i)
    ensures FirstMatch(find, s, p) == FirstMatch(find, s, q)
    decreases q - p
  {
    if p < q { FirstMatchSkip(find, s, p + 1, q); }
  }

  // ----- pieces -----

  lemma {:induction false} PiecesSkip(s: string, i: nat, n: nat)
    requires i <= n <= |s| && forall k :: i <= k < n ==> s[k] != ';'
    ensures PiecesFrom(s, i) == PiecesFrom(s, n)
    decreases n - i
  {
    if i < n { PiecesSkip(s, i + 1, n); }
  }

  lemma TrimmedSpace(c: char, s: string)
    requires IsSpace(c)
    ensures Trimmed([c] + s) == Trimmed(s)
  {
    assert ([c] + s)[1..] == s;
  }

  lemma PiecesAtSemicolon(s: string, i: nat, piece: string, rest: string)
    requires i < |s| && s[i] == ';' && s[..i] == piece && s[i + 1..] == rest
    ensures PiecesFrom(s, i) == Trimmed(piece) + PiecesFrom(rest, 0)
  {
  }

  lemma Behind<T>(c: T, s: seq<T>, i: nat)
    requires i < |s|
    ensures ([c] + s)[..i + 1] == [c] + s[..i] && ([c] + s)[i + 2..] == s[i + 1..]
  {
  }

  /** A leading space makes no difference to the pieces. */
  lemma {:induction false} PiecesFiller(c: char, s: string, i: nat)
    requires IsSpace(c) && i <= |s|
    ensures PiecesFrom([c] + s, i + 1) == PiecesFrom(s, i)
    decreases |s| - i
  {
    var cs := [c] + s;
    if i == |s| {
      TrimmedSpace(c, s);
    } else if s[i] == ';' {
      Behind(c, s, i);
      TrimmedSpace(c, s[..i]);
      PiecesAtSemicolon(cs, i + 1, [c] + s[..i], s[i + 1..]);
    } else {
      PiecesFiller(c, s, i + 1);
    }
  }

  lemma PiecesFillerChar(c: char, s: string)
    requires c == ';' || IsSpace(c)
    ensures PiecesFrom([c] + s, 0) == PiecesFrom(s, 0)
  {
    var cs := [c] + s;
    if c == ';' {
      assert cs[..0] == "" && cs[1..] == s;
      assert Trimmed("") == [];
    } else {
      PiecesFiller(c, s, 0);
    }
  }

  lemma PiecesPlain(p: string, z: string)
    requires p != "" && Strip(p) == p && ';' !in p
    ensures PiecesFrom(p + ";" + z, 0) == [p] + PiecesFrom(z, 0)
  {
    var s := p + ";" + z;
    assert forall k :: 0 <= k < |p| ==> s[k] == p[k] && p[k] in p;
    PiecesSkip(s, 0, |p|);
    assert s[..|p|] == p && s[|p| + 1..] == z;
  }

  // ----- one printed item at a time -----

  /** The head is cut off as `parts` in front of `w`. */
  ghost predicate CutsAs<T>(rules: Rules<T>, head: string, parts: seq<T>, w: string) {
    rules.cut(head + w) == parts + rules.cut(w)
  }

  lemma HeadMatch(find: Pattern, head: string, z: string)
    requires Shifts(find, head, z) && (forall i :: 0 <= i < |head| ==> !Hit(find, head + z, i))
    ensures FirstMatch(find, head + z, 0) == ShiftPair(FirstMatch(find, z, 0), |head|)
  {
    FirstMatchSkip(find, head + z, 0, |head|);
    FirstMatchShift(find, head, z, 0);
  }

  /** A head that starts no match and is cut into `parts` contributes exactly these. */
  lemma SplitHead<T>(rules: Rules<T>, head: string, z: string, parts: seq<T>)
    requires Shifts(rules.find, head, z) && (forall i :: 0 <= i < |head| ==> !Hit(rules.find, head + z, i))
    requires forall w: string :: CutsAs(rules, head, parts, w)
    ensures SplitFrom(rules, head + z, 0) == parts + SplitFrom(rules, z, 0)
  {
    HeadMatch(rules.find, head, z);
    var m := FirstMatch(rules.find, z, 0);
    if m.None? {
      assert (head + z)[0..] == head + z && z[0..] == z;
      assert CutsAs(rules, head, parts, z);
    } else {
      SplitHeadSome(rules, head, z, parts, m.value.0, m.value.1);
    }
  }

  lemma SplitUnfold<T>(rules: Rules<T>, s: string, b: nat, e: nat, before: string, block: string,
                       cut: seq<T>, trimmed: T, rest: seq<T>)
    requires b < e <= |s| && FirstMatch(rules.find, s, 0) == Some((b, e))
    requires before == s[0..b] && block == s[b..e]
    requires rules.cut(before) == cut && rules.trim(block) == trimmed && SplitFrom(rules, s, e) == rest
    ensures SplitFrom(rules, s, 0) == cut + [trimmed] + rest
  {
  }

  lemma InFront<T>(parts: seq<T>, a: seq<T>, b: seq<T>, c: seq<T>, inner: seq<T>, whole: seq<T>)
    requires inner == a + b + c && whole == parts + a + b + c
    ensures whole == parts + inner
  {
  }

  /** The parts of the text that starts with the head, as the split takes them. */
  lemma SplitTail<T>(rules: Rules<T>, s: string, b: nat, e: nat, head: string, before: string, block: string,
                     parts: seq<T>, rest: seq<T>)
    requires b < e <= |s| && FirstMatch(rules.find, s, 0) == Some((b, e))
    requires head + before == s[0..b] && block == s[b..e] && SplitFrom(rules, s, e) == rest
    requires CutsAs(rules, head, parts, before)
    ensures SplitFrom(rules, s, 0) == parts + rules.cut(before) + [rules.trim(block)] + rest
  {
    SplitUnfold(rules, s, b, e, head + before, block, parts + rules.cut(before), rules.trim(block), rest);
  }

  /** After a head that is cut into `parts`, the first match is the first match of the rest. */
  lemma SplitHeadSome<T>(rules: Rules<T>, head: string, z: string, parts: seq<T>, b: nat, e: nat)
    requires Shifts(rules.find, head, z) && b < e <= |z|
    requires FirstMatch(rules.find, z, 0) == Some((b, e))
    requires FirstMatch(rules.find, head + z, 0) == Some((|head| + b, |head| + e))
    requires CutsAs(rules, head, parts, z[0..b])
    ensures SplitFrom(rules, head + z, 0) == parts + SplitFrom(rules, z, 0)
  {
    var before, block := z[0..b], z[b..e];
    var cut, trimmed, rest := rules.cut(before), rules.trim(block), SplitFrom(rules, z, e);
    SplitUnfold(rules, z, b, e, before, block, cut, trimmed, rest);
    var s := head + z;
    HeadSlices(rules, head, z, b, e, s);
    SplitTail(rules, s, |head| + b, |head| + e, head, before, block, parts, rest);
    InFront(parts, cut, [trimmed], rest, SplitFrom(rules, z, 0), SplitFrom(rules, s, 0));
  }

  lemma HeadSlices<T>(rules: Rules<T>, head: string, z: string, b: nat, e: nat, s: string)
    requires Shifts(rules.find, head, z) && b < e <= |z| && s == head + z
    ensures s[0..|head| + b] == head + z[0..b] && s[|head| + b..|head| + e] == z[b..e]
    ensures SplitFrom(rules, s, |head| + e) == SplitFrom(rules, z, e)
  {
    SlicesAfter(head, z, b, e);
    SplitShift(rules, head, z, e);
  }

  /** A match at the very start is the first statement. */
  lemma SplitMatch<T>(rules: Rules<T>, t: string, z: string)
    requires Shifts(rules.find, t, z) && t != "" && rules.find(t + z, 0) == Some(|t|) && rules.cut("") == []
    ensures SplitFrom(rules, t + z, 0) == [rules.trim(t)] + SplitFrom(rules, z, 0)
  {
    var s := t + z;
    assert FirstMatch(rules.find, s, 0) == Some((0, |t|));
    assert s[0..0] == "" && s[0..|t|] == t;
    SplitShift(rules, t, z, 0);
    assert [] + [rules.trim(t)] == [rules.trim(t)];
  }

  lemma ShiftsAfter(x: string, y: string)
    requires Boundary(x)
    ensures Shifts(MatchAt, x, y)
  {
    forall i: nat ensures MatchAt(x + y, |x| + i) == Shift(MatchAt(y, i), |x|) {
      BlockShift(x, y, i, "create", "trigger", "end");
    }
  }

  /** A trigger can only start at a letter C. */
  lemma NoHeaderAt(s: string, i: nat)
    requires i < |s| && Lower(s[i]) != 'c'
    ensures !Hit(MatchAt, s, i)
  {
    var word := "create";
    assert Lower(s[i + 0]) != word[0];
    assert !WordAt(s, i, word);
  }

  /** A head that is cut into nothing contributes nothing. */
  lemma SplitNothing<T>(rules: Rules<T>, head: string, z: string)
    requires Shifts(rules.find, head, z) && (forall i :: 0 <= i < |head| ==> !Hit(rules.find, head + z, i))
    requires forall w: string :: CutsAs(rules, head, [], w)
    ensures SplitFrom(rules, head + z, 0) == SplitFrom(rules, z, 0)
  {
    SplitHead(rules, head, z, []);
  }

  lemma FillerCuts(head: string)
    requires |head| == 1 && Filler(head)
    ensures forall w: string :: CutsAs(SQL_RULES, head, [], w)
  {
    assert head == [head[0]];
    forall w: string ensures CutsAs(SQL_RULES, head, [], w) {
      PiecesFillerChar(head[0], w);
      assert [] + Pieces(w) == Pieces(w);
    }
  }

  lemma FillerShifts(head: string, z: string)
    requires |head| == 1 && Filler(head)
    ensures Shifts(SQL_RULES.find, head, z)
  {
    ShiftsAfter(head, z);
  }

  lemma FillerNoMatch(head: string, z: string)
    requires |head| == 1 && Filler(head)
    ensures forall i :: 0 <= i < |head| ==> !Hit(SQL_RULES.find, head + z, i)
  {
    forall i | 0 <= i < |head| ensures !Hit(SQL_RULES.find, head + z, i) {
      NoHeaderAt(head + z, i);
    }
  }

  lemma SplitFillerChar(head: string, z: string)
    requires |head| == 1 && Filler(head)
    ensures Split(head + z) == Split(z)
  {
    FillerShifts(head, z);
    FillerNoMatch(head, z);
    FillerCuts(head);
    SplitNothing(SQL_RULES, head, z);
  }

  lemma {:induction false} SplitFiller(f: string, z: string)
    requires Filler(f)
    ensures Split(f + z) == Split(z)
  {
    if f == "" {
      assert f + z == z;
    } else {
      assert f + z == [f[0]] + (f[1..] + z);
      SplitFillerChar([f[0]], f[1..] + z);
      SplitFiller(f[1..], z);
    }
  }

  lemma PlainNoMatch(p: string, z: string, i: nat)
    requires Plain(p) && i <= |p|
    ensures !Hit(MatchAt, p + ";" + z, i)
  {
    if i == |p| {
      NoHeaderAt(p + ";" + z, i);
    } else {
      TwoWordsLocal(p, z, i, "create", "trigger");
      assert Header(p + ";", i).None?;
    }
  }

  lemma SplitPlain(p: string, z: string)
    requires Plain(p)
    ensures Split(p + ";" + z) == [p] + Split(z)
  {
    var head := p + ";";
    forall i | 0 <= i < |head| ensures !Hit(MatchAt, head + z, i) { PlainNoMatch(p, z, i); }
    ShiftsAfter(head, z);
    forall w: string ensures CutsAs(SQL_RULES, head, [p], w) { PiecesPlain(p, w); }
    SplitHead(SQL_RULES, head, z, [p]);
  }

  lemma TriggerMatches(t: string, z: string)
    requires Trigger(t)
    ensures t != "" && Boundary(t) && MatchAt(t + z, 0) == Some(|t|)
  {
    var u := t[..|t| - 1];
    assert t == u + ";";
    BlockLocal(u, z, 0, "create", "trigger", "end");
  }

  lemma SplitTrigger(t: string, z: string)
    requires Trigger(t)
    ensures Split(t + z) == [t] + Split(z)
  {
    TriggerMatches(t, z);
    ShiftsAfter(t, z);
    assert Pieces("") == [];
    SplitMatch(SQL_RULES, t, z);
  }

  lemma SplitPrinted(p: Printed, rest: string)
    requires ValidPrinted(p)
    ensures Split(p.text + p.filler + rest) == [p.text] + Split(rest)
  {
    if Trigger(p.text) {
      SplitTrigger(p.text, p.filler + rest);
      SplitFiller(p.filler, rest);
      Seqs.Regroup(p.text, p.filler, rest);
    } else {
      var f := p.filler[1..];
      SplitPlain(p.text, f + rest);
      SplitFiller(f, rest);
      assert p.filler == ";" + f;
      Seqs.Regroup(p.text, ";", f);
      Seqs.Regroup(p.text + ";", f, rest);
    }
  }

  /** Splitting undoes printing, for every list of plain and trigger statements. */
  lemma {:induction false} RoundTrip(ps: seq<Printed>)
    requires forall i :: 0 <= i < |ps| ==> ValidPrinted(ps[i])
    ensures Split(Print(ps)) == Texts(ps)
  {
    if ps == [] {
      assert PiecesFrom("", 0) == [];
    } else {
      SplitPrinted(ps[0], Print(ps[1..]));
      RoundTrip(ps[1..]);
    }
  }
}
