/** What redaction does to the lines of a text, and how many lines are left. */
module RedactionLines {
  import opened Redaction
  import opened Substitution
  import Seqs

  // ----- lines -----

  predicate NoBreak(s: string) {
    forall i :: 0 <= i < |s| ==> !IsBreak(s[i])
  }

  predicate Terminated(line: string) {
    line != "" && IsBreak(line[|line| - 1])
  }

  /** A line without the break that ends it. */
  function Content(line: string): (r: string)
    ensures r <= line && (!Terminated(line) ==> r == line)
  {
    if !Terminated(line) then line
    else if |line| >= 2 && line[|line| - 2] == '\r' && line[|line| - 1] == '\n' then line[..|line| - 2]
    else line[..|line| - 1]
  }

  predicate OneLine(line: string) {
    line != "" && NoBreak(Content(line))
  }

  /** A carriage return and a newline on two sides of a seam would be one break. */
  predicate Seam(x: string, y: string) {
    x != "" && y != "" && x[|x| - 1] == '\r' && y[0] == '\n'
  }

  predicate Lines(lines: seq<string>) {
    && (forall i :: 0 <= i < |lines| ==> OneLine(lines[i]))
    && (forall i :: 0 <= i < |lines| - 1 ==> !Seam(lines[i], lines[i + 1]))
  }

  predicate AllTerminated(lines: seq<string>) {
    forall i :: 0 <= i < |lines| - 1 ==> Terminated(lines[i])
  }

  lemma {:induction false} LineEndTerminated(x: string, y: string)
    requires OneLine(x) && Terminated(x) && !Seam(x, y)
    ensures LineEnd(x + y) == |x|
  {
    var s := x + y;
    assert s[0] == x[0];
    if |x| == 1 {
      assert y != "" ==> s[1] == y[0];
    } else if x[0] == '\r' && x[1] == '\n' && |x| == 2 {
      assert s[1] == x[1];
    } else {
      assert Content(x)[0] == x[0];
      assert s[1..] == x[1..] + y;
      assert Content(x[1..]) == Content(x)[1..];
      LineEndTerminated(x[1..], y);
    }
  }

  lemma {:induction false} LineEndUnterminated(x: string, y: string)
    requires NoBreak(x) && y != ""
    ensures LineEnd(x + y) == |x| + LineEnd(y)
  {
    if x == "" {
      assert x + y == y;
    } else {
      assert (x + y)[0] == x[0] && (x + y)[1..] == x[1..] + y;
      LineEndUnterminated(x[1..], y);
    }
  }

  lemma {:induction false} LineEndAll(x: string)
    requires x != "" && NoBreak(x)
    ensures LineEnd(x) == |x|
  {
    if |x| > 1 { LineEndAll(x[1..]); }
  }

  lemma LineCons(c: char, t: string, rest: string)
    requires !IsBreak(c) && OneLine(t)
    ensures OneLine([c] + t) && (Terminated([c] + t) <==> Terminated(t))
    ensures Seam([c] + t, rest) <==> Seam(t, rest)
  {
    assert Content([c] + t) == [c] + Content(t);
  }

  lemma BreakFirst(s: string)
    requires s != "" && IsBreak(s[0])
    ensures OneLine(s[..LineEnd(s)])
    ensures LineEnd(s) < |s| ==> Terminated(s[..LineEnd(s)]) && !Seam(s[..LineEnd(s)], s[LineEnd(s)..])
  {
    assert Content(s[..LineEnd(s)]) == "";
  }

  lemma {:induction false} FirstLine(s: string)
    requires s != ""
    ensures OneLine(s[..LineEnd(s)])
    ensures LineEnd(s) < |s| ==> Terminated(s[..LineEnd(s)]) && !Seam(s[..LineEnd(s)], s[LineEnd(s)..])
  {
    if IsBreak(s[0]) {
      BreakFirst(s);
    } else if |s| > 1 {
      var t, n := s[1..], LineEnd(s[1..]);
      FirstLine(t);
      LineCons(s[0], t[..n], t[n..]);
      assert s[..n + 1] == [s[0]] + t[..n] && s[n + 1..] == t[n..];
    }
  }

  lemma LinesCons(x: string, lines: seq<string>)
    requires OneLine(x) && Lines(lines) && AllTerminated(lines)
    requires lines != [] ==> Terminated(x) && !Seam(x, lines[0])
    ensures Lines([x] + lines) && AllTerminated([x] + lines)
  {
    var all := [x] + lines;
    forall i | 0 <= i < |all| - 1 ensures Terminated(all[i]) && !Seam(all[i], all[i + 1]) {
      if i > 0 { assert !Seam(lines[i - 1], lines[i]) && Terminated(lines[i - 1]); }
    }
  }

  lemma {:induction false} SplitGivesLines(s: string)
    ensures Lines(SplitLines(s)) && AllTerminated(SplitLines(s))
  {
    if s != "" {
      FirstLine(s);
      var rest := s[LineEnd(s)..];
      SplitGivesLines(rest);
      if rest != "" { assert SplitLines(rest)[0] == rest[..LineEnd(rest)]; }
      LinesCons(s[..LineEnd(s)], SplitLines(rest));
    }
  }

  /** How many lines end in a break; the last one always counts. */
  function Ended(lines: seq<string>): (n: nat)
    ensures n <= |lines|
    ensures n == |lines| <==> AllTerminated(lines)
  {
    if |lines| <= 1 then |lines|
    else
      assert forall i :: 0 <= i < |lines| - 1 ==> lines[i + 1] == lines[1..][i];
      (if Terminated(lines[0]) then 1 else 0) + Ended(lines[1..])
  }

  /** Joined lines come apart again where a break ends them; a line without one runs into the next. */
  lemma {:induction false} SplitConcat(lines: seq<string>)
    requires Lines(lines)
    ensures |SplitLines(Concat(lines))| == Ended(lines)
    ensures AllTerminated(lines) ==> SplitLines(Concat(lines)) == lines
  {
    if |lines| == 1 {
      OneLineAlone(lines[0]);
      assert Concat(lines) == lines[0];
    } else if |lines| > 1 {
      var x, rest := lines[0], lines[1..];
      assert forall i :: 0 <= i < |rest| ==> rest[i] == lines[i + 1];
      SplitConcat(rest);
      var y := Concat(rest);
      assert y != "" && y[0] == rest[0][0];
      if Terminated(x) {
        assert !Seam(lines[0], lines[1]);
        TerminatedFirst(x, y);
      } else {
        UnterminatedFirst(x, y);
      }
    }
  }

  lemma OneLineAlone(x: string)
    requires OneLine(x)
    ensures SplitLines(x) == [x]
  {
    assert x + "" == x;
    if Terminated(x) { LineEndTerminated(x, ""); } else { LineEndAll(x); }
    assert x[..|x|] == x && x[|x|..] == "";
  }

  lemma TerminatedFirst(x: string, y: string)
    requires OneLine(x) && Terminated(x) && !Seam(x, y)
    ensures SplitLines(x + y) == [x] + SplitLines(y)
  {
    LineEndTerminated(x, y);
    assert (x + y)[..|x|] == x && (x + y)[|x|..] == y;
  }

  lemma SplitStep(s: string, n: nat, rest: string)
    requires s != "" && LineEnd(s) == n && s[n..] == rest
    ensures |SplitLines(s)| == 1 + |SplitLines(rest)|
  {
  }

  lemma UnterminatedFirst(x: string, y: string)
    requires NoBreak(x) && y != ""
    ensures |SplitLines(x + y)| == |SplitLines(y)|
  {
    LineEndUnterminated(x, y);
    var n, rest := LineEnd(y), y[LineEnd(y)..];
    assert (x + y)[|x| + n..] == rest;
    SplitStep(x + y, |x| + n, rest);
    SplitStep(y, n, rest);
  }

  // ----- one redacted line -----

  predicate NewlineOrNone(line: string) {
    Terminated(line) ==> line[|line| - 1] == '\n'
  }

  predicate CleanNames(group: seq<Finding>) {
    forall i :: 0 <= i < |group| ==> NoBreak(group[i].plugin)
  }

  /**
    What the plugins report: no break in their names; and on a line that ends in a break other
    than a newline, which the redaction takes for text, disjoint spans in front of that break.
   */
  predicate WellPlaced(line: string, group: seq<Finding>) {
    && CleanNames(group)
    && (AllSpanned(group) && !NewlineOrNone(line) ==>
          InRange(Spans(group), |Content(line)|) && Disjoint(Spans(group)))
  }

  /** A whole-line redaction of this line loses its break. */
  predicate LosesBreak(line: string, group: seq<Finding>) {
    WholeLine(group) && Terminated(line) && line[|line| - 1] != '\n'
  }

  lemma NoBreakConcat(a: string, b: string)
    requires NoBreak(a) && NoBreak(b)
    ensures NoBreak(a + b)
  {
  }

  lemma MarkNoBreak(plugin: string)
    requires NoBreak(plugin)
    ensures NoBreak(Mark(plugin))
  {
    NoBreakConcat("[REDACTED:", plugin);
    NoBreakConcat("[REDACTED:" + plugin, "]");
  }

  lemma {:induction false} JoinPlusNoBreak(names: seq<string>)
    requires forall i :: 0 <= i < |names| ==> NoBreak(names[i])
    ensures NoBreak(JoinPlus(names))
  {
    if |names| > 1 {
      JoinPlusNoBreak(names[1..]);
      NoBreakConcat(names[0], "+");
      NoBreakConcat(names[0] + "+", JoinPlus(names[1..]));
    }
  }

  lemma LabelsNoBreak(group: seq<Finding>)
    requires forall i :: 0 <= i < |group| ==> NoBreak(group[i].plugin)
    ensures NoBreak(Labels(group))
  {
    var names := Distinct(Plugins(group));
    var sorted := Seqs.Sort(LexLe, names);
    Seqs.SortPermutes(LexLe, names);
    Seqs.SameMembers(sorted, names);
    forall i | 0 <= i < |sorted| ensures NoBreak(sorted[i]) {
      assert sorted[i] in names && sorted[i] in Plugins(group);
    }
    JoinPlusNoBreak(sorted);
  }

  predicate CleanMarks(spans: seq<Span>) {
    forall i :: 0 <= i < |spans| ==> spans[i].placeholder != "" && NoBreak(spans[i].placeholder)
  }

  lemma SpliceInContent(content: string, tail: string, s: Span)
    requires 0 <= s.start <= s.end <= |content|
    ensures Splice(content + tail, s) == Splice(content, s) + tail
  {
    assert (content + tail)[..s.start] == content[..s.start];
    assert (content + tail)[s.end..] == content[s.end..] + tail;
  }

  lemma SpliceNoBreak(content: string, s: Span)
    requires NoBreak(content) && NoBreak(s.placeholder)
    ensures NoBreak(Splice(content, s))
  {
    var start := Clamp(0, s.start, |content|);
    NoBreakConcat(content[..start], s.placeholder);
    NoBreakConcat(content[..start] + s.placeholder, content[Clamp(start, s.end, |content|)..]);
  }

  /** Splicing inside the content leaves what follows it alone and brings no break in. */
  lemma {:induction false} SpliceAllInContent(content: string, tail: string, spans: seq<Span>)
    requires NoBreak(content) && CleanMarks(spans)
    requires InRange(spans, |content|) && Disjoint(spans) && Descending(spans)
    ensures SpliceAll(content + tail, spans) == SpliceAll(content, spans) + tail
    ensures NoBreak(SpliceAll(content, spans))
    ensures spans != [] || content != "" ==> SpliceAll(content, spans) != ""
    decreases |spans|
  {
    if spans != [] {
      SpliceInContent(content, tail, spans[0]);
      SpliceNoBreak(content, spans[0]);
      SpliceOne(content, spans);
      assert forall i :: 0 <= i < |spans[1..]| ==> spans[1..][i] == spans[i + 1];
      SpliceAllInContent(Splice(content, spans[0]), tail, spans[1..]);
    }
  }

  /** What is left of a line: new content without breaks in front of the old break, or of none. */
  predicate Becomes(line: string, group: seq<Finding>, redacted: string, content: string) {
    && content != "" && NoBreak(content)
    && redacted == content + if LosesBreak(line, group) then "" else line[|Content(line)|..]
  }

  lemma SortedMarks(group: seq<Finding>)
    requires AllSpanned(group) && forall i :: 0 <= i < |group| ==> NoBreak(group[i].plugin)
    ensures CleanMarks(Seqs.Sort(RightmostFirst(), Spans(group)))
  {
    var spans := Spans(group);
    var sorted := Seqs.Sort(RightmostFirst(), spans);
    SortedSpans(spans);
    Seqs.SameMembers(sorted, spans);
    forall i | 0 <= i < |sorted| ensures sorted[i].placeholder != "" && NoBreak(sorted[i].placeholder) {
      assert sorted[i] in spans;
      var j := Seqs.Place(sorted[i], spans);
      MarkNoBreak(group[j].plugin);
    }
  }

  lemma SortedSplices(content: string, tail: string, group: seq<Finding>) returns (spliced: string)
    requires AllSpanned(group) && group != [] && NoBreak(content)
    requires forall i :: 0 <= i < |group| ==> NoBreak(group[i].plugin)
    requires InRange(Spans(group), |content|) && Disjoint(Spans(group))
    ensures spliced != "" && NoBreak(spliced)
    ensures RedactBody(content + tail, group) == spliced + tail
  {
    NotWholeLine(group);
    var spans := Spans(group);
    var sorted := Seqs.Sort(RightmostFirst(), spans);
    SortedSpans(spans);
    DisjointPermutes(sorted, spans);
    InRangePermutes(sorted, spans, |content|);
    SortedMarks(group);
    SpliceAllInContent(content, tail, sorted);
    spliced := SpliceAll(content, sorted);
  }

  /** Splicing brings no break into a text without one, wherever the spans lie. */
  lemma {:induction false} SpliceAllNoBreak(body: string, spans: seq<Span>)
    requires NoBreak(body) && CleanMarks(spans)
    ensures NoBreak(SpliceAll(body, spans))
    ensures spans != [] || body != "" ==> SpliceAll(body, spans) != ""
    decreases |spans|
  {
    if spans != [] {
      SpliceNoBreak(body, spans[0]);
      assert Splice(body, spans[0]) != "";
      assert forall i :: 0 <= i < |spans[1..]| ==> spans[1..][i] == spans[i + 1];
      SpliceAllNoBreak(Splice(body, spans[0]), spans[1..]);
    }
  }

  lemma PlainLine(line: string, group: seq<Finding>) returns (content: string)
    requires OneLine(line) && group != [] && AllSpanned(group) && NewlineOrNone(line) && CleanNames(group)
    ensures Becomes(line, group, RedactLine(line, group), content)
  {
    NotWholeLine(group);
    EndingCases(line);
    assert Body(line) == Content(line);
    SortedMarks(group);
    SpliceAllNoBreak(Body(line), Seqs.Sort(RightmostFirst(), Spans(group)));
    content := RedactBody(Body(line), group);
  }

  lemma SpannedLine(line: string, group: seq<Finding>) returns (content: string)
    requires OneLine(line) && group != [] && AllSpanned(group) && WellPlaced(line, group) && !NewlineOrNone(line)
    ensures Becomes(line, group, RedactLine(line, group), content)
  {
    NotWholeLine(group);
    var tail := TailAndEnding(line);
    content := SortedSplices(Content(line), tail, group);
    Seqs.Regroup(content, tail, Ending(line));
  }

  lemma EndingCases(line: string)
    requires line != ""
    ensures line[|line| - 1] != '\n' ==> Ending(line) == ""
    ensures line[|line| - 1] == '\n' ==> Ending(line) == line[|Content(line)|..]
  {
    var n := |line|;
    assert line[n - 1..] == [line[n - 1]];
    if n >= 2 { assert line[n - 2..] == [line[n - 2], line[n - 1]]; }
  }

  /** A break that the redaction does not recognise counts as part of the body. */
  lemma TailAndEnding(line: string) returns (tail: string)
    requires line != ""
    ensures Body(line) == Content(line) + tail
    ensures tail + Ending(line) == line[|Content(line)|..]
  {
    EndingCases(line);
    if line[|line| - 1] == '\n' {
      tail := "";
    } else {
      tail := line[|Content(line)|..];
    }
    PrefixParts(line, Content(line), Body(line), Ending(line), tail);
  }

  lemma PrefixParts<T>(s: seq<T>, content: seq<T>, body: seq<T>, ending: seq<T>, tail: seq<T>)
    requires content <= s && s == body + ending
    requires (tail == [] && ending == s[|content|..]) || (ending == [] && tail == s[|content|..])
    ensures body == content + tail && tail + ending == s[|content|..]
  {
  }

  lemma UnspannedLine(line: string, group: seq<Finding>) returns (content: string)
    requires OneLine(line) && !AllSpanned(group) && WellPlaced(line, group)
    ensures Becomes(line, group, RedactLine(line, group), content)
  {
    NotWholeLine(group);
    var unspanned := Seqs.Filter(Unspanned(), group);
    forall i | 0 <= i < |unspanned| ensures NoBreak(unspanned[i].plugin) {
      assert unspanned[i] in group;
    }
    LabelsNoBreak(unspanned);
    MarkNoBreak(Labels(unspanned));
    content := Mark(Labels(unspanned));
    EndingIsBreak(line);
    assert LosesBreak(line, group) ==> content + "" == content;
  }

  lemma EndingIsBreak(line: string)
    requires line != ""
    ensures Ending(line) == if Terminated(line) && line[|line| - 1] != '\n' then "" else line[|Content(line)|..]
  {
    EndingCases(line);
  }

  lemma BecomesLine(line: string, group: seq<Finding>, redacted: string, content: string)
    requires OneLine(line) && Becomes(line, group, redacted, content)
    ensures LineBecame(line, group, redacted)
  {
    if LosesBreak(line, group) || !Terminated(line) {
      assert redacted == content;
    } else {
      assert Content(redacted) == content;
    }
  }

  /** What redaction makes of a line is one line; it ends in a break exactly when the old one did and kept it. */
  predicate LineBecame(line: string, group: seq<Finding>, redacted: string) {
    && line != "" && OneLine(redacted)
    && (Terminated(redacted) <==> Terminated(line) && !LosesBreak(line, group))
    && (Terminated(redacted) ==> redacted[|redacted| - 1] == line[|line| - 1])
    && (redacted[0] == line[0] || !IsBreak(redacted[0]))
  }

  lemma RedactedLine(line: string, group: seq<Finding>)
    requires OneLine(line) && WellPlaced(line, group)
    ensures LineBecame(line, group, RedactLine(line, group))
  {
    if group != [] {
      var content;
      if AllSpanned(group) && NewlineOrNone(line) {
        content := PlainLine(line, group);
      } else if AllSpanned(group) {
        content := SpannedLine(line, group);
      } else {
        content := UnspannedLine(line, group);
      }
      BecomesLine(line, group, RedactLine(line, group), content);
    }
  }

  lemma NoNewSeam(x: string, g: seq<Finding>, xNext: string, y: string, h: seq<Finding>, yNext: string)
    requires x != "" && y != "" && LineBecame(x, g, xNext) && LineBecame(y, h, yNext) && !Seam(x, y)
    ensures !Seam(xNext, yNext)
  {
  }

  // ----- the text -----

  predicate AllWellPlaced(lines: seq<string>, findings: seq<Finding>) {
    forall i :: 0 <= i < |lines| ==> WellPlaced(lines[i], Group(findings, i + 1))
  }

  lemma RedactGivesLines(lines: seq<string>, findings: seq<Finding>)
    requires Lines(lines) && AllTerminated(lines) && AllWellPlaced(lines, findings)
    ensures Lines(RedactLines(lines, findings))
    ensures forall i :: 0 <= i < |lines| - 1 ==>
      (Terminated(RedactLines(lines, findings)[i]) <==> !LosesBreak(lines[i], Group(findings, i + 1)))
  {
    var redacted := RedactLines(lines, findings);
    forall i | 0 <= i < |lines| ensures LineBecame(lines[i], Group(findings, i + 1), redacted[i]) {
      RedactedLine(lines[i], Group(findings, i + 1));
    }
    BecameLines(lines, redacted, findings);
  }

  lemma BecameLines(lines: seq<string>, redacted: seq<string>, findings: seq<Finding>)
    requires Lines(lines) && AllTerminated(lines) && |redacted| == |lines|
    requires forall i :: 0 <= i < |lines| ==> LineBecame(lines[i], Group(findings, i + 1), redacted[i])
    ensures Lines(redacted)
    ensures forall i :: 0 <= i < |lines| - 1 ==>
      (Terminated(redacted[i]) <==> !LosesBreak(lines[i], Group(findings, i + 1)))
  {
    forall i | 0 <= i < |lines| - 1 ensures !Seam(redacted[i], redacted[i + 1]) {
      assert OneLine(lines[i]) && OneLine(lines[i + 1]) && !Seam(lines[i], lines[i + 1]);
      NoNewSeam(lines[i], Group(findings, i + 1), redacted[i], lines[i + 1], Group(findings, i + 2), redacted[i + 1]);
    }
  }

  predicate NoneLost(lines: seq<string>, findings: seq<Finding>) {
    forall i :: 0 <= i < |lines| - 1 ==> !LosesBreak(lines[i], Group(findings, i + 1))
  }

  /**
    The text keeps its number of lines exactly when no whole-line redaction falls on a line,
    other than the last, whose break does not end in a newline; then its lines are the redacted
    lines, one by one.
   */
  lemma LineCountKeptIff(text: string, findings: seq<Finding>)
    requires AllWellPlaced(SplitLines(text), findings)
    ensures |SplitLines(Redact(text, findings))| == |SplitLines(text)| <==> NoneLost(SplitLines(text), findings)
    ensures NoneLost(SplitLines(text), findings) ==>
      SplitLines(Redact(text, findings)) == RedactLines(SplitLines(text), findings)
    ensures |SplitLines(Redact(text, findings))| <= |SplitLines(text)|
  {
    var lines := SplitLines(text);
    SplitGivesLines(text);
    RedactGivesLines(lines, findings);
    SplitConcat(RedactLines(lines, findings));
    assert AllTerminated(RedactLines(lines, findings)) <==> NoneLost(lines, findings);
  }

  /** A break at position `i` is a newline or a carriage return in front of one. */
  predicate NewlineAt(text: string, i: nat)
    requires i < |text|
  {
    IsBreak(text[i]) ==> text[i] == '\n' || (text[i] == '\r' && i + 1 < |text| && text[i + 1] == '\n')
  }

  predicate NewlineBreaks(text: string) {
    forall i :: 0 <= i < |text| ==> NewlineAt(text, i)
  }

  lemma FirstLineNewline(text: string)
    requires text != "" && NewlineBreaks(text)
    ensures NewlineOrNone(text[..LineEnd(text)]) && NewlineBreaks(text[LineEnd(text)..])
  {
    var n := LineEnd(text);
    FirstLine(text);
    var first, rest := text[..n], text[n..];
    forall i | 0 <= i < |rest| ensures NewlineAt(rest, i) {
      assert NewlineAt(text, n + i);
    }
    assert NewlineAt(text, n - 1);
    assert first[n - 1] == text[n - 1] && (n < |text| ==> rest[0] == text[n]);
  }

  lemma {:induction false} NewlinesOnly(text: string)
    requires NewlineBreaks(text)
    ensures forall i :: 0 <= i < |SplitLines(text)| ==> NewlineOrNone(SplitLines(text)[i])
  {
    if text != "" {
      FirstLineNewline(text);
      NewlinesOnly(text[LineEnd(text)..]);
    }
  }

  /** In a text whose breaks all end in a newline, the number of lines is kept, wherever the spans lie. */
  lemma NewlineTextsKeepLines(text: string, findings: seq<Finding>)
    requires NewlineBreaks(text) && CleanNames(findings)
    ensures SplitLines(Redact(text, findings)) == RedactLines(SplitLines(text), findings)
  {
    NewlinesOnly(text);
    forall i | 0 <= i < |SplitLines(text)| ensures WellPlaced(SplitLines(text)[i], Group(findings, i + 1)) {
      GroupNames(findings, i + 1);
    }
    NothingToLose(SplitLines(text), findings);
    LineCountKeptIff(text, findings);
  }

  lemma GroupNames(findings: seq<Finding>, n: int)
    requires CleanNames(findings)
    ensures CleanNames(Group(findings, n))
  {
    var group := Group(findings, n);
    forall i | 0 <= i < |group| ensures NoBreak(group[i].plugin) {
      assert group[i] in findings;
    }
  }

  lemma NothingToLose(lines: seq<string>, findings: seq<Finding>)
    requires forall i :: 0 <= i < |lines| ==> NewlineOrNone(lines[i])
    ensures NoneLost(lines, findings)
  {
    forall i | 0 <= i < |lines| - 1 ensures !LosesBreak(lines[i], Group(findings, i + 1)) {
      assert NewlineOrNone(lines[i]);
    }
  }
}
