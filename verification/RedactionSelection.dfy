/** Which findings are redacted, told by their fields, and what becomes of every line of a text. */
module RedactionSelection {
  import opened Wrappers
  import opened Redaction
  import opened RedactionOrder
  import Seqs

  // ----- which findings count -----

  /** The finding is redacted, on line number `n`: it is of high confidence and not allowed. */
  predicate CountsOn(f: Finding, n: int) {
    f.high && !f.allowlisted && f.line == n
  }

  /** The findings of a line are taken one by one, in the order of the list. */
  lemma GroupByFields(a: seq<Finding>, f: Finding, n: int)
    ensures Group(a + [f], n) == Group(a, n) + if CountsOn(f, n) then [f] else []
  {
    Seqs.FilterSplit(Redactable(), a, [f]);
    var kept := Seqs.Filter(Redactable(), [f]);
    Seqs.FilterSplit(Seqs.WithKey(LineOf(), n), Seqs.Filter(Redactable(), a), kept);
    if kept != [] { assert kept == [f] && kept[1..] == []; }
  }

  lemma {:induction false} GroupMember(findings: seq<Finding>, n: int, f: Finding)
    ensures f in Group(findings, n) <==> f in findings && CountsOn(f, n)
  {
    if findings != [] {
      var init, last := findings[..|findings| - 1], findings[|findings| - 1];
      assert findings == init + [last];
      GroupMember(init, n, f);
      GroupByFields(init, last, n);
    }
  }

  lemma {:induction false} GroupConcat(a: seq<Finding>, b: seq<Finding>, n: int)
    ensures Group(a + b, n) == Group(a, n) + Group(b, n)
  {
    Seqs.FilterSplit(Redactable(), a, b);
    Seqs.FilterSplit(Seqs.WithKey(LineOf(), n), Seqs.Filter(Redactable(), a), Seqs.Filter(Redactable(), b));
  }

  /** A finding of low confidence, or an allowed one, makes no difference to the text. */
  lemma UncountedDropped(text: string, a: seq<Finding>, f: Finding, b: seq<Finding>)
    requires !f.high || f.allowlisted
    ensures Redact(text, a + [f] + b) == Redact(text, a + b)
  {
    var lines := SplitLines(text);
    forall n: int ensures Group(a + [f] + b, n) == Group(a + b, n) {
      GroupConcat(a + [f], b, n);
      GroupConcat(a, b, n);
      GroupByFields(a, f, n);
      assert Group(a, n) + [] == Group(a, n);
    }
    assert RedactLines(lines, a + [f] + b) == RedactLines(lines, a + b);
  }

  // ----- labels -----

  /** Python's order: the first difference decides, and a proper prefix comes first. */
  predicate DiffersAt(a: string, b: string, k: nat) {
    k < |b| && k <= |a| && a[..k] == b[..k] && (k < |a| ==> a[k] < b[k])
  }

  ghost predicate Precedes(a: string, b: string) {
    exists k: nat :: DiffersAt(a, b, k)
  }

  lemma {:induction false} LexLeIff(a: string, b: string)
    ensures LexLe(a, b) <==> a == b || Precedes(a, b)
  {
    if a == "" {
      if b != "" { assert DiffersAt(a, b, 0); }
    } else if b != "" {
      var s, t := a[1..], b[1..];
      assert a == [a[0]] + s && b == [b[0]] + t;
      LexLeIff(s, t);
      if a[0] < b[0] { assert DiffersAt(a, b, 0); }
      if k: nat :| DiffersAt(s, t, k) && a[0] == b[0] {
        assert a[..k + 1] == [a[0]] + s[..k] && b[..k + 1] == [b[0]] + t[..k];
        assert DiffersAt(a, b, k + 1);
      }
      if k: nat :| DiffersAt(a, b, k) && k > 0 {
        assert a[..k][0] == b[..k][0] && a[..k][1..] == s[..k - 1] && b[..k][1..] == t[..k - 1];
        assert DiffersAt(s, t, k - 1);
      }
    }
  }

  lemma {:induction false} JoinPlusConcat(a: seq<string>, b: seq<string>)
    requires a != [] && b != []
    ensures JoinPlus(a + b) == JoinPlus(a) + "+" + JoinPlus(b)
  {
    if |a| == 1 {
      assert (a + b)[1..] == b;
    } else {
      assert (a + b)[1..] == a[1..] + b;
      JoinPlusConcat(a[1..], b);
      var rest := JoinPlus(a[1..]);
      assert a[0] + "+" + (rest + "+" + JoinPlus(b)) == a[0] + "+" + rest + "+" + JoinPlus(b);
    }
  }

  /** The names of the counted findings of the line that have no span, each once, in order. */
  ghost predicate Labelled(names: seq<string>, findings: seq<Finding>, n: int) {
    && (forall x :: x in names <==> exists f :: f in findings && CountsOn(f, n) && f.span.None? && f.plugin == x)
    && (forall i, j :: 0 <= i < j < |names| ==> Precedes(names[i], names[j]))
  }

  /** Sorted and without repetition, names are in strict order. */
  lemma SortedNames(xs: seq<string>)
    ensures var names := Seqs.Sort(LexLe, Distinct(xs));
      && (forall x :: x in names <==> x in xs)
      && (forall i, j :: 0 <= i < j < |names| ==> Precedes(names[i], names[j]))
  {
    var once := Distinct(xs);
    var names := Seqs.Sort(LexLe, once);
    LexLeOrders();
    Seqs.SortSorts(LexLe, once);
    Seqs.SortPermutes(LexLe, once);
    Seqs.SameMembers(names, once);
    forall i, j | 0 <= i < j < |names| ensures Precedes(names[i], names[j]) {
      LexLeIff(names[i], names[j]);
      StillDistinct(once, names, i, j);
    }
  }

  lemma Absent<T>(s: seq<T>, x: T)
    requires forall m :: 0 <= m < |s| ==> s[m] != x
    ensures x !in s
  {
  }

  lemma StillDistinct(a: seq<string>, b: seq<string>, i: nat, j: nat)
    requires multiset(a) == multiset(b) && i < j < |b|
    requires forall k, l :: 0 <= k < l < |a| ==> a[k] != a[l]
    ensures b[i] != b[j]
  {
    if b[i] == b[j] {
      var x, rest := b[i], Seqs.Without(b, j);
      assert rest[i] == x && x in rest;
      assert x in multiset(a);
      var k := Seqs.Place(x, a);
      Seqs.WithoutPermutes(a, b, k, j);
      var others := Seqs.Without(a, k);
      Seqs.SameMembers(others, rest);
      Absent(others, x);
      assert false;
    }
  }

  lemma LabelsAre(findings: seq<Finding>, n: int) returns (names: seq<string>)
    ensures Labelled(names, findings, n)
    ensures Labels(Seqs.Filter(Unspanned(), Group(findings, n))) == JoinPlus(names)
  {
    var group := Group(findings, n);
    var unspanned := Seqs.Filter(Unspanned(), group);
    names := Seqs.Sort(LexLe, Distinct(Plugins(unspanned)));
    SortedNames(Plugins(unspanned));
    forall x ensures x in names <==> exists f :: f in findings && CountsOn(f, n) && f.span.None? && f.plugin == x {
      if x in names {
        var i := Seqs.Place(x, Plugins(unspanned));
        assert unspanned[i] in unspanned;
        GroupMember(findings, n, unspanned[i]);
      }
      if f :| f in findings && CountsOn(f, n) && f.span.None? && f.plugin == x {
        GroupMember(findings, n, f);
        var i := Seqs.Place(f, group);
        Seqs.FilterKeeps(Unspanned(), group, i);
        var k := Seqs.Place(f, unspanned);
        assert Plugins(unspanned)[k] == x;
      }
    }
  }

  // ----- one line -----

  /** The line without the end that the redaction recognises. */
  predicate Ends(line: string, body: string, ending: string) {
    && line == body + ending
    && (|| ending == "\r\n"
        || (ending == "\n" && (body == "" || body[|body| - 1] != '\r'))
        || (ending == "" && (body == "" || body[|body| - 1] != '\n')))
  }

  /** The last one or two characters of a line. */
  lemma LastTwo(line: string)
    ensures |line| >= 1 ==> line[|line| - 1..] == [line[|line| - 1]]
    ensures |line| >= 2 ==> line[|line| - 2..] == [line[|line| - 2], line[|line| - 1]]
  {
  }

  lemma EndingIs(line: string)
    ensures var n := |line|;
      Ending(line) ==
        if n >= 1 && line[n - 1] == '\n' then (if n >= 2 && line[n - 2] == '\r' then "\r\n" else "\n") else ""
  {
    LastTwo(line);
  }

  lemma EndsIsEnding(line: string, body: string, ending: string)
    requires Ends(line, body, ending)
    ensures ending == Ending(line) && body == Body(line)
  {
    EndingIs(line);
    assert body == line[..|body|];
    if ending == "\r\n" {
      assert line[|line| - 2] == '\r' && line[|line| - 1] == '\n';
    } else if ending == "\n" {
      assert line[|line| - 1] == '\n';
    }
  }

  lemma EndingEnds(line: string)
    ensures Ends(line, Body(line), Ending(line))
  {
    EndingIs(line);
  }

  lemma EndsIff(line: string, body: string, ending: string)
    ensures Ends(line, body, ending) <==> body == Body(line) && ending == Ending(line)
  {
    EndingEnds(line);
    if Ends(line, body, ending) { EndsIsEnding(line, body, ending); }
  }

  /** The place in the text that is nearest to an offset. */
  predicate Nearest(p: int, offset: int, low: int, high: int) {
    low <= p <= high && (offset < low ==> p == low) && (offset > high ==> p == high)
    && (low <= offset <= high ==> p == offset)
  }

  /** The text with a mark in place of the span, as far as the span lies in it. */
  ghost predicate Replaces(out: string, body: string, span: (int, int), mark: string) {
    exists p, q :: Nearest(p, span.0, 0, |body|) && Nearest(q, span.1, p, |body|)
                   && out == body[..p] + mark + body[q..]
  }

  /** Some counted finding of the line has no span: the whole line is replaced. */
  ghost predicate Replaced(line: string, n: int, findings: seq<Finding>, out: string) {
    exists body, ending, names :: Ends(line, body, ending) && Labelled(names, findings, n)
                                  && out == "[REDACTED:" + JoinPlus(names) + "]" + ending
  }

  /** One finding with a span counts on the line: the span is replaced. */
  ghost predicate Spliced(line: string, f: Finding, out: string)
    requires f.span.Some?
  {
    exists body, ending, middle :: Ends(line, body, ending) && out == middle + ending
                                   && Replaces(middle, body, f.span.value, "[REDACTED:" + f.plugin + "]")
  }

  /** What becomes of line number `n`, by the fields of the findings. */
  ghost predicate LineTold(line: string, n: int, findings: seq<Finding>, out: string) {
    && ((forall f :: f in findings ==> !CountsOn(f, n)) ==> out == line)
    && ((exists f :: f in findings && CountsOn(f, n) && f.span.None?) ==> Replaced(line, n, findings, out))
    && (forall i :: 0 <= i < |findings| && Alone(findings, n, i) && findings[i].span.Some? ==>
          Spliced(line, findings[i], out))
  }

  /** Of the list, only finding number `i` counts on the line. */
  ghost predicate Alone(findings: seq<Finding>, n: int, i: int)
    requires 0 <= i < |findings|
  {
    CountsOn(findings[i], n) && forall j :: 0 <= j < |findings| && j != i ==> !CountsOn(findings[j], n)
  }

  lemma {:induction false} NobodyCounts(findings: seq<Finding>, n: int)
    requires forall j :: 0 <= j < |findings| ==> !CountsOn(findings[j], n)
    ensures Group(findings, n) == []
  {
    if Group(findings, n) != [] {
      var f := Group(findings, n)[0];
      GroupMember(findings, n, f);
    }
  }

  lemma AloneIsGroup(findings: seq<Finding>, n: int, i: nat)
    requires i < |findings| && Alone(findings, n, i)
    ensures Group(findings, n) == [findings[i]]
  {
    var a, f, b := findings[..i], findings[i], findings[i + 1..];
    assert findings == a + [f] + b;
    forall j | 0 <= j < |b| ensures !CountsOn(b[j], n) { assert b[j] == findings[i + 1 + j]; }
    NobodyCounts(a, n);
    NobodyCounts(b, n);
    GroupConcat(a + [f], b, n);
    GroupByFields(a, f, n);
  }

  lemma OneSpan(body: string, f: Finding)
    requires f.span.Some?
    ensures Replaces(RedactBody(body, [f]), body, f.span.value, "[REDACTED:" + f.plugin + "]")
  {
    NotWholeLine([f]);
    var s := Spans([f])[0];
    assert Seqs.Sort(RightmostFirst(), Spans([f])) == [s] by { assert Spans([f]) == [s]; assert Spans([f])[1..] == []; }
    assert [s][1..] == [];
    var p := Clamp(0, s.start, |body|);
    var q := Clamp(p, s.end, |body|);
    assert Nearest(p, s.start, 0, |body|) && Nearest(q, s.end, p, |body|);
    assert SpliceAll(body, [s]) == Splice(body, s);
  }

  lemma LineIsTold(line: string, n: int, findings: seq<Finding>)
    ensures LineTold(line, n, findings, RedactLine(line, Group(findings, n)))
  {
    var group, out := Group(findings, n), RedactLine(line, Group(findings, n));
    var body, ending := Body(line), Ending(line);
    EndsIff(line, body, ending);
    if forall f :: f in findings ==> !CountsOn(f, n) {
      NobodyCounts(findings, n);
    }
    if f :| f in findings && CountsOn(f, n) && f.span.None? {
      GroupMember(findings, n, f);
      var k := Seqs.Place(f, group);
      Seqs.FilterKeeps(Unspanned(), group, k);
      var names := LabelsAre(findings, n);
      assert Ends(line, body, ending) && Labelled(names, findings, n)
             && out == "[REDACTED:" + JoinPlus(names) + "]" + ending;
    }
    forall i | 0 <= i < |findings| && Alone(findings, n, i) && findings[i].span.Some?
      ensures Spliced(line, findings[i], out)
    {
      AloneIsGroup(findings, n, i);
      OneSpan(body, findings[i]);
    }
  }

  /** Cutting a text into lines loses nothing. */
  lemma {:induction false} LinesKeepText(text: string)
    ensures Concat(SplitLines(text)) == text
  {
    if text != "" { LinesKeepText(text[LineEnd(text)..]); }
  }

  ghost predicate LinesTold(lines: seq<string>, findings: seq<Finding>, outs: seq<string>) {
    |outs| == |lines| && forall i :: 0 <= i < |lines| ==> LineTold(lines[i], i + 1, findings, outs[i])
  }

  lemma RedactLinesTold(lines: seq<string>, findings: seq<Finding>)
    ensures LinesTold(lines, findings, RedactLines(lines, findings))
  {
    forall i | 0 <= i < |lines| ensures LineTold(lines[i], i + 1, findings, RedactLines(lines, findings)[i]) {
      LineIsTold(lines[i], i + 1, findings);
    }
  }

  /** The text comes out line by line, each as the fields of the findings say. */
  lemma RedactedByFields(text: string, findings: seq<Finding>)
    ensures exists outs :: LinesTold(SplitLines(text), findings, outs) && Redact(text, findings) == Concat(outs)
    ensures Concat(SplitLines(text)) == text
  {
    LinesKeepText(text);
    RedactLinesTold(SplitLines(text), findings);
  }
}
