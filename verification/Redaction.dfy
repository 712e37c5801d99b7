/** Redaction of high-confidence secret findings, line by line. */
module Redaction {
  import opened Wrappers
  import Seqs

  // ----- str.splitlines(keepends=True) -----

  /** The characters that end a line for Python's splitlines. */
  predicate IsBreak(c: char) {
    || '\n' <= c <= '\r' || '\U{1c}' <= c <= '\U{1e}'
    || c == '\U{85}' || c == '\U{2028}' || c == '\U{2029}'
  }

  /** Where the first line ends, its break included. */
  function LineEnd(s: string): (r: nat)
    requires s != ""
    ensures 0 < r <= |s|
  {
    if IsBreak(s[0]) then (if s[0] == '\r' && |s| > 1 && s[1] == '\n' then 2 else 1)
    else if |s| == 1 then 1
    else 1 + LineEnd(s[1..])
  }

  function SplitLines(s: string): seq<string> {
    if s == "" then [] else [s[..LineEnd(s)]] + SplitLines(s[LineEnd(s)..])
  }

  /** "".join */
  function Concat(parts: seq<string>): string {
    if parts == [] then "" else parts[0] + Concat(parts[1..])
  }

  /** What the redaction recognises as the end of a line. */
  function Ending(line: string): (r: string)
    ensures |r| <= |line| && line[|line| - |r|..] == r
  {
    if |line| >= 2 && line[|line| - 2..] == "\r\n" then "\r\n"
    else if |line| >= 1 && line[|line| - 1..] == "\n" then "\n"
    else ""
  }

  function Body(line: string): (r: string)
    ensures line == r + Ending(line)
  {
    line[..|line| - |Ending(line)|]
  }

  // ----- findings -----

  datatype Finding = Finding(plugin: string, line: int, high: bool, span: Option<(int, int)>, allowlisted: bool)

  function Redactable(): Finding -> bool {
    (f: Finding) => f.high && !f.allowlisted
  }

  function LineOf(): Finding -> int {
    (f: Finding) => f.line
  }

  /** The findings that apply to line number `n`. */
  function Group(findings: seq<Finding>, n: int): seq<Finding> {
    Seqs.Filter(Seqs.WithKey(LineOf(), n), Seqs.Filter(Redactable(), findings))
  }

  function Unspanned(): Finding -> bool {
    (f: Finding) => f.span.None?
  }

  /** Offsets in a line, with the placeholder to put there. */
  datatype Span = Span(start: int, end: int, placeholder: string)

  predicate AllSpanned(group: seq<Finding>) {
    forall i :: 0 <= i < |group| ==> group[i].span.Some?
  }

  function Spans(group: seq<Finding>): (r: seq<Span>)
    requires AllSpanned(group)
    ensures |r| == |group|
    ensures forall i :: 0 <= i < |r| ==>
              r[i] == Span(group[i].span.value.0, group[i].span.value.1, Mark(group[i].plugin))
  {
    seq(|group|, (i: int) requires 0 <= i < |group| =>
      Span(group[i].span.value.0, group[i].span.value.1, Mark(group[i].plugin)))
  }

  // ----- labels: "+".join(sorted({...})) -----

  /** Python's order on strings. */
  predicate LexLe(a: string, b: string) {
    a == "" || (b != "" && (a[0] < b[0] || (a[0] == b[0] && LexLe(a[1..], b[1..]))))
  }

  function Distinct(xs: seq<string>): (r: seq<string>)
    ensures forall x :: x in r <==> x in xs
    ensures forall i, j :: 0 <= i < j < |r| ==> r[i] != r[j]
  {
    if xs == [] then []
    else if xs[0] in xs[1..] then Distinct(xs[1..])
    else [xs[0]] + Distinct(xs[1..])
  }

  function Plugins(group: seq<Finding>): (r: seq<string>)
    ensures |r| == |group| && forall i :: 0 <= i < |r| ==> r[i] == group[i].plugin
  {
    seq(|group|, (i: int) requires 0 <= i < |group| => group[i].plugin)
  }

  function JoinPlus(labels: seq<string>): string {
    if labels == [] then "" else if |labels| == 1 then labels[0] else labels[0] + "+" + JoinPlus(labels[1..])
  }

  function Labels(unspanned: seq<Finding>): string {
    JoinPlus(Seqs.Sort(LexLe, Distinct(Plugins(unspanned))))
  }

  function Mark(plugin: string): (r: string)
    ensures r != ""
  {
    "[REDACTED:" + plugin + "]"
  }

  // ----- one line -----

  function Clamp(low: int, x: int, high: int): int {
    if x < low then low else if x > high then high else x
  }

  /** body[:start] + placeholder + body[end:], with the offsets clamped. */
  function Splice(body: string, s: Span): string {
    var start := Clamp(0, s.start, |body|);
    var end := Clamp(start, s.end, |body|);
    body[..start] + s.placeholder + body[end..]
  }

  function SpliceAll(body: string, spans: seq<Span>): string
    decreases |spans|
  {
    if spans == [] then body else SpliceAll(Splice(body, spans[0]), spans[1..])
  }

  function RightmostFirst(): (Span, Span) -> bool {
    (a: Span, b: Span) => a.start >= b.start
  }

  predicate WholeLine(group: seq<Finding>) {
    Seqs.Filter(Unspanned(), group) != []
  }

  lemma NotWholeLine(group: seq<Finding>)
    ensures WholeLine(group) <==> !AllSpanned(group)
  {
    forall i | 0 <= i < |group| && group[i].span.None? ensures WholeLine(group) {
      Seqs.FilterKeeps(Unspanned(), group, i);
    }
    if WholeLine(group) {
      assert Seqs.Filter(Unspanned(), group)[0] in group;
    }
  }

  function RedactBody(body: string, group: seq<Finding>): string {
    NotWholeLine(group);
    if WholeLine(group) then Mark(Labels(Seqs.Filter(Unspanned(), group)))
    else SpliceAll(body, Seqs.Sort(RightmostFirst(), Spans(group)))
  }

  /** A line without findings is left alone. */
  function RedactLine(line: string, group: seq<Finding>): string {
    if group == [] then line else RedactBody(Body(line), group) + Ending(line)
  }

  // ----- the whole text -----

  function RedactLines(lines: seq<string>, findings: seq<Finding>): (r: seq<string>)
    ensures |r| == |lines|
    ensures forall i :: 0 <= i < |lines| ==> r[i] == RedactLine(lines[i], Group(findings, i + 1))
  {
    seq(|lines|, (i: int) requires 0 <= i < |lines| => RedactLine(lines[i], Group(findings, i + 1)))
  }

  function Redact(text: string, findings: seq<Finding>): string {
    Concat(RedactLines(SplitLines(text), findings))
  }

  method RedactOne(line: string, group: seq<Finding>) returns (r: string)
    requires group != []
    ensures r == RedactLine(line, group)
  {
    var ending, body := Ending(line), Body(line);
    var unspanned := Seqs.Filter(Unspanned(), group);
    NotWholeLine(group);
    if unspanned != [] {
      body := Mark(Labels(unspanned));
    } else {
      var spans := Seqs.Sort(RightmostFirst(), Spans(group));
      var k := 0;
      while k < |spans|
        invariant 0 <= k <= |spans|
        invariant SpliceAll(body, spans[k..]) == SpliceAll(Body(line), spans)
      {
        var start := Clamp(0, spans[k].start, |body|);
        var end := Clamp(start, spans[k].end, |body|);
        assert spans[k..][1..] == spans[k + 1..];
        body := body[..start] + spans[k].placeholder + body[end..];
        k := k + 1;
      }
    }
    r := body + ending;
  }

  /** findings_by_line, with its keys in the order in which they were first set. */
  method GroupByLine(todo: seq<Finding>) returns (groups: map<int, seq<Finding>>, keys: seq<int>)
    ensures Seqs.Grouped(LineOf(), groups, todo) && Seqs.Lists(keys, groups.Keys)
  {
    groups, keys := map[], [];
    var k := 0;
    while k < |todo|
      invariant 0 <= k <= |todo|
      invariant Seqs.Grouped(LineOf(), groups, todo[..k]) && Seqs.Lists(keys, groups.Keys)
    {
      var n := todo[k].line;
      Seqs.GroupedNext(LineOf(), groups, todo, k);
      Seqs.ListsNext(keys, groups.Keys, n);
      if n !in groups {
        keys := keys + [n];
      }
      groups := Seqs.Adding(LineOf(), groups, todo[k]);
      k := k + 1;
    }
    Seqs.TakeAll(todo);
  }

  lemma AllReplaced(lines: seq<string>, original: seq<string>, findings: seq<Finding>,
                    groups: map<int, seq<Finding>>, keys: seq<int>)
    requires Seqs.Grouped(LineOf(), groups, Seqs.Filter(Redactable(), findings))
    requires Seqs.Lists(keys, groups.Keys)
    requires Seqs.Replaced(lines, original, RedactLines(original, findings), keys)
    ensures lines == RedactLines(original, findings)
  {
    forall i | 0 <= i < |lines| ensures lines[i] == RedactLine(original[i], Group(findings, i + 1)) {
      assert Seqs.At(groups, i + 1) == Group(findings, i + 1);
      if i + 1 !in keys {
        assert i + 1 !in groups.Keys;
      }
    }
  }

  method RedactAt(lines: seq<string>, index: nat, ghost original: seq<string>, ghost findings: seq<Finding>,
                  groups: map<int, seq<Finding>>, ghost keys: seq<int>, ghost k: nat) returns (next: seq<string>)
    requires index < |lines| && k < |keys| && keys[k] == index + 1 && Seqs.Lists(keys, groups.Keys)
    requires Seqs.Grouped(LineOf(), groups, Seqs.Filter(Redactable(), findings))
    requires Seqs.Replaced(lines, original, RedactLines(original, findings), keys[..k])
    ensures next == lines[index := RedactLines(original, findings)[index]]
  {
    assert keys[k] in groups.Keys;
    assert Seqs.At(groups, index + 1) == Group(findings, index + 1);
    var line := RedactOne(lines[index], groups[index + 1]);
    next := lines[index := line];
  }

  method RedactHighConfidenceSpans(text: string, findings: seq<Finding>) returns (r: string)
    ensures r == Redact(text, findings)
  {
    var original := SplitLines(text);
    ghost var image := RedactLines(original, findings);
    var lines := original;
    var groups, keys := GroupByLine(Seqs.Filter(Redactable(), findings));
    var k := 0;
    while k < |keys|
      invariant 0 <= k <= |keys| && Seqs.Replaced(lines, original, image, keys[..k])
    {
      var index := keys[k] - 1;
      ghost var before := lines;
      if 0 <= index < |lines| {
        lines := RedactAt(lines, index, original, findings, groups, keys, k);
      }
      Seqs.ReplacedNext(before, original, image, keys, k, lines);
      k := k + 1;
    }
    Seqs.TakeAll(keys);
    AllReplaced(lines, original, findings, groups, keys);
    r := Concat(lines);
  }
}
