/**
  Spans that start at the same place.  The one that is listed last is spliced last and so
  comes first in the line; when the order in which they are listed can be seen, and when not.
 */
module RedactionTies {
  import opened Redaction
  import opened Substitution
  import opened RedactionOrder
  import Seqs

  // ----- spans that start together -----

  function Length(s: Span): int {
    s.end - s.start
  }

  /** Two spans that start together can be spliced in either order, whatever the line says. */
  predicate Interchangeable(a: Span, b: Span) {
    && a.placeholder == b.placeholder
    && (a == b || (Length(a) >= |a.placeholder| && Length(b) >= |b.placeholder|))
  }

  predicate Agreeable(spans: seq<Span>) {
    forall i, j :: 0 <= i < |spans| && 0 <= j < |spans| && spans[i].start == spans[j].start ==>
      Interchangeable(spans[i], spans[j])
  }

  predicate Placed(s: Span, body: string) {
    0 <= s.start <= s.end && s.start <= |body|
  }

  function Drop(s: string, n: nat): string {
    if n <= |s| then s[n..] else ""
  }

  lemma SpliceDrops(body: string, s: Span)
    requires Placed(s, body)
    ensures Splice(body, s) == body[..s.start] + (s.placeholder + Drop(body[s.start..], Length(s)))
    ensures |Splice(body, s)| >= s.start
    ensures Splice(body, s)[..s.start] == body[..s.start]
    ensures Splice(body, s)[s.start..] == s.placeholder + Drop(body[s.start..], Length(s))
  {
    var p, end := s.start, Clamp(s.start, s.end, |body|);
    assert body[end..] == Drop(body[p..], Length(s));
    assert Splice(body, s) == body[..p] + (s.placeholder + body[end..]);
  }

  lemma SpliceTied(body: string, a: Span, b: Span)
    requires Placed(a, body) && Placed(b, body) && a.start == b.start
    ensures Splice(Splice(body, a), b) ==
            body[..a.start] + (b.placeholder + Drop(a.placeholder + Drop(body[a.start..], Length(a)), Length(b)))
  {
    SpliceDrops(body, a);
    SpliceDrops(Splice(body, a), b);
  }

  /** A span at least as long as the placeholder before it takes that placeholder and more. */
  lemma DropPast(m: string, z: string, x: nat, y: nat)
    requires y >= |m|
    ensures Drop(m + Drop(z, x), y) == Drop(z, x + y - |m|)
  {
    var rest := Drop(z, x);
    if y <= |m + rest| { assert (m + rest)[y..] == rest[y - |m|..]; }
  }

  lemma LongTied(body: string, a: Span, b: Span)
    requires Placed(a, body) && Placed(b, body) && a.start == b.start && a.placeholder == b.placeholder
    requires Length(b) >= |b.placeholder|
    ensures Splice(Splice(body, a), b) ==
            body[..a.start] + (b.placeholder + Drop(body[a.start..], Length(a) + Length(b) - |b.placeholder|))
  {
    SpliceTied(body, a, b);
    DropPast(a.placeholder, body[a.start..], Length(a), Length(b));
  }

  lemma Commute(body: string, a: Span, b: Span)
    requires Placed(a, body) && Placed(b, body) && a.start == b.start && Interchangeable(a, b)
    ensures Splice(Splice(body, a), b) == Splice(Splice(body, b), a)
  {
    if a != b {
      LongTied(body, a, b);
      LongTied(body, b, a);
    }
  }

  lemma SpliceFirst(body: string, e: Span, rest: seq<Span>)
    ensures SpliceAll(body, [e] + rest) == SpliceAll(Splice(body, e), rest)
  {
    assert ([e] + rest)[1..] == rest;
  }

  /** A span can be spliced before the interchangeable ones that precede it. */
  lemma {:induction false} MoveFront(body: string, ahead: seq<Span>, e: Span, rest: seq<Span>)
    requires Placed(e, body)
    requires forall k :: 0 <= k < |ahead| ==>
               ahead[k].start == e.start && Placed(ahead[k], body) && Interchangeable(ahead[k], e)
    ensures SpliceAll(body, ahead + [e] + rest) == SpliceAll(body, [e] + (ahead + rest))
    decreases |ahead|
  {
    if ahead == [] {
      assert ahead + [e] + rest == [e] + rest && ahead + rest == rest;
    } else {
      var h, more := ahead[0], ahead[1..];
      assert ahead + [e] + rest == [h] + (more + [e] + rest) && ahead + rest == [h] + (more + rest);
      SpliceFirst(body, h, more + [e] + rest);
      SpliceDrops(body, h);
      MoveFront(Splice(body, h), more, e, rest);
      SpliceFirst(Splice(body, h), e, more + rest);
      Commute(body, h, e);
      SpliceFirst(body, e, [h] + (more + rest));
      SpliceFirst(Splice(body, e), h, more + rest);
    }
  }

  /** The spans left to splice can be placed in the line, and those that start together are interchangeable. */
  predicate Ready(spans: seq<Span>, body: string) {
    Descending(spans) && Agreeable(spans) && forall k :: 0 <= k < |spans| ==> Placed(spans[k], body)
  }

  lemma ReadyNext(body: string, spans: seq<Span>)
    requires Ready(spans, body) && spans != []
    ensures Ready(spans[1..], Splice(body, spans[0]))
  {
    SpliceDrops(body, spans[0]);
  }

  lemma WithoutReady(x: seq<Span>, body: string, i: nat)
    requires Ready(x, body) && i < |x|
    ensures Ready(Seqs.Without(x, i), body)
  {
  }

  /** Two sorted orders of agreeable spans splice to the same. */
  lemma {:induction false} SortedSplices(body: string, x: seq<Span>, y: seq<Span>)
    requires multiset(x) == multiset(y) && Ready(x, body) && Ready(y, body)
    ensures SpliceAll(body, x) == SpliceAll(body, y)
    decreases |x|
  {
    Seqs.SameMembers(x, y);
    if x != [] {
      var e := x[0];
      assert e in y;
      var i := Seqs.Place(e, y);
      forall k | 0 <= k < i ensures y[k].start == e.start && Interchangeable(y[k], e) {
        assert y[k] in x;
      }
      Seqs.WithoutAt(y, i);
      MoveFront(body, y[..i], e, y[i + 1..]);
      Seqs.WithoutPermutes(x, y, 0, i);
      assert Seqs.Without(x, 0) == x[1..] && Seqs.Without(y, i) == y[..i] + y[i + 1..];
      FrontReady(body, y, i);
      ReadyNext(body, x);
      SortedSplices(Splice(body, e), x[1..], Seqs.Without(y, i));
      SpliceFirst(body, e, Seqs.Without(y, i));
    }
  }

  lemma FrontReady(body: string, y: seq<Span>, i: nat)
    requires Ready(y, body) && i < |y| && forall k :: 0 <= k < |y| ==> y[k].start <= y[i].start
    ensures Ready(Seqs.Without(y, i), Splice(body, y[i]))
  {
    SpliceDrops(body, y[i]);
    WithoutReady(y, body, i);
  }

  predicate Bracketless(plugin: string) {
    ']' !in plugin
  }

  /** Placeholders of different plugins differ within both. */
  lemma {:induction false} MarksDiffer(p: string, q: string) returns (i: nat)
    requires Bracketless(p) && Bracketless(q) && p != q
    ensures i <= |p| && i <= |q| && (p + "]")[i] != (q + "]")[i]
    decreases |p|
  {
    if p == "" || q == "" || p[0] != q[0] {
      i := 0;
      if p == "" { assert q[0] in q; } else if q == "" { assert p[0] in p; }
    } else {
      assert p == [p[0]] + p[1..] && q == [q[0]] + q[1..];
      assert forall c :: c in p[1..] ==> c in p;
      assert forall c :: c in q[1..] ==> c in q;
      var k := MarksDiffer(p[1..], q[1..]);
      i := k + 1;
      assert (p + "]")[i] == (p[1..] + "]")[k] && (q + "]")[i] == (q[1..] + "]")[k];
    }
  }

  lemma MarkTail(plugin: string, i: nat)
    requires i <= |plugin|
    ensures |Mark(plugin)| == 11 + |plugin| && Mark(plugin)[10 + i] == (plugin + "]")[i]
  {
    assert |"[REDACTED:"| == 10;
    assert Mark(plugin) == "[REDACTED:" + (plugin + "]");
  }

  lemma SpansOfTwo(f: Finding, g: Finding)
    requires f.span.Some? && g.span.Some?
    ensures AllSpanned([f, g]) && Spans([f, g]) == [SpanOf(f), SpanOf(g)]
  {
  }

  function SpanOf(f: Finding): Span
    requires f.span.Some?
  {
    Span(f.span.value.0, f.span.value.1, Mark(f.plugin))
  }

  lemma SpliceTwo(body: string, a: Span, b: Span)
    ensures SpliceAll(body, [a, b]) == Splice(Splice(body, a), b)
  {
    assert [a, b][1..] == [b] && [b][1..] == [];
    assert SpliceAll(Splice(body, a), [b]) == SpliceAll(Splice(Splice(body, a), b), []);
  }

  lemma SortTwo(a: Span, b: Span)
    requires a.start == b.start
    ensures Seqs.Sort(RightmostFirst(), [a, b]) == [a, b]
  {
    var le := RightmostFirst();
    assert Seqs.Sort(le, [b]) == Seqs.Insert(le, b, []);
    assert [a, b][1..] == [b];
  }

  /** What two findings that start together leave, in the order in which they are listed. */
  lemma RedactTied(body: string, f: Finding, g: Finding)
    requires f.span.Some? && g.span.Some? && f.span.value.0 == g.span.value.0
    requires Placed(SpanOf(f), body) && Placed(SpanOf(g), body)
    ensures var a, b := SpanOf(f), SpanOf(g);
      RedactBody(body, [f, g]) ==
        body[..a.start] + (b.placeholder + Drop(a.placeholder + Drop(body[a.start..], Length(a)), Length(b)))
  {
    NotWholeLine([f, g]);
    SpansOfTwo(f, g);
    SortTwo(SpanOf(f), SpanOf(g));
    SpliceTwo(body, SpanOf(f), SpanOf(g));
    SpliceTied(body, SpanOf(f), SpanOf(g));
  }

  lemma DifferAfter<T>(head: seq<T>, x: seq<T>, y: seq<T>, i: nat)
    requires i < |x| && i < |y| && x[i] != y[i]
    ensures head + x != head + y
  {
    assert (head + x)[|head| + i] == x[i] && (head + y)[|head| + i] == y[i];
  }

  /** Two findings of different plugins that start together give different lines in the two orders. */
  lemma SameStartOrderMatters(body: string, f: Finding, g: Finding)
    requires f.span.Some? && g.span.Some? && f.span.value.0 == g.span.value.0
    requires Placed(SpanOf(f), body) && Placed(SpanOf(g), body)
    requires Bracketless(f.plugin) && Bracketless(g.plugin) && f.plugin != g.plugin
    ensures RedactBody(body, [f, g]) != RedactBody(body, [g, f])
  {
    RedactTied(body, f, g);
    RedactTied(body, g, f);
    var i := MarksDiffer(f.plugin, g.plugin);
    MarkTail(f.plugin, i);
    MarkTail(g.plugin, i);
    var p, m, n := f.span.value.0, Mark(f.plugin), Mark(g.plugin);
    DifferAfter(body[..p], n + Drop(m + Drop(body[p..], Length(SpanOf(f))), Length(SpanOf(g))),
                m + Drop(n + Drop(body[p..], Length(SpanOf(g))), Length(SpanOf(f))), 10 + i);
  }

  /** In a blank line, the last character of a placeholder survives only if the shorter span comes last. */
  lemma ShorterLast(m: string, z: string, c: nat, d: nat)
    requires m != "" && m[|m| - 1] != ' ' && c < d <= |z| && c < |m|
    requires forall k :: 0 <= k < |z| ==> z[k] == ' '
    ensures var k := |m| - 1 - c;
      var last, first := Drop(m + Drop(z, d), c), Drop(m + Drop(z, c), d);
      k < |last| && k < |first| && last[k] != first[k]
  {
    var k := |m| - 1 - c;
    assert Drop(m + Drop(z, d), c)[k] == m[|m| - 1];
    assert Drop(m + Drop(z, c), d)[k] == (m + Drop(z, c))[d + k] == ' ';
  }

  lemma BlankLineDiffers(n: nat, f: Finding, g: Finding)
    requires f.span.Some? && g.span.Some? && f.span.value.0 == g.span.value.0 && f.plugin == g.plugin
    requires InRange([SpanOf(f), SpanOf(g)], n)
    requires Length(SpanOf(f)) < Length(SpanOf(g)) && Length(SpanOf(f)) < |Mark(f.plugin)|
    ensures var body := seq(n, _ => ' '); RedactBody(body, [f, g]) != RedactBody(body, [g, f])
  {
    var body := seq(n, _ => ' ');
    var a, b := SpanOf(f), SpanOf(g);
    assert [a, b][0] == a && [a, b][1] == b;
    RedactTied(body, f, g);
    RedactTied(body, g, f);
    MarkTail(f.plugin, |f.plugin|);
    var p, m := a.start, Mark(f.plugin);
    ShorterLast(m, body[p..], Length(a), Length(b));
    var first, last := Drop(m + Drop(body[p..], Length(a)), Length(b)), Drop(m + Drop(body[p..], Length(b)), Length(a));
    DifferAfter(m, first, last, |m| - 1 - Length(a));
    Prepend(body[..p], m + first, m + last);
  }

  lemma Prepend<T>(head: seq<T>, x: seq<T>, y: seq<T>)
    requires x != y
    ensures head + x != head + y
  {
    assert (head + x)[|head|..] == x && (head + y)[|head|..] == y;
  }

  /** For every text of length `n` and any of the findings, the order in which they are listed makes no difference. */
  ghost predicate OrderImmaterial(n: nat, group: seq<Finding>) {
    forall body: string, a: seq<Finding>, b: seq<Finding> ::
      |body| == n && multiset(a) <= multiset(group) && multiset(a) == multiset(b) ==>
        RedactBody(body, a) == RedactBody(body, b)
  }

  lemma SomeSpanned(group: seq<Finding>, a: seq<Finding>, n: nat)
    requires AllSpanned(group) && InRange(Spans(group), n) && Agreeable(Spans(group))
    requires multiset(a) <= multiset(group)
    ensures AllSpanned(a) && InRange(Spans(a), n) && Agreeable(Spans(a))
  {
    forall f | f in a ensures f in group { assert f in multiset(a); }
    forall i | 0 <= i < |a| ensures a[i].span.Some? { assert a[i] in group; }
    forall i | 0 <= i < |a| ensures Spans(a)[i] in Spans(group) {
      var k := Seqs.Place(a[i], group);
      assert Spans(group)[k] == Spans(a)[i];
    }
  }

  lemma AgreeablePermutes(x: seq<Span>, y: seq<Span>)
    requires multiset(x) == multiset(y) && Agreeable(y)
    ensures Agreeable(x)
  {
    Seqs.SameMembers(x, y);
    forall i, j | 0 <= i < |x| && 0 <= j < |x| && x[i].start == x[j].start ensures Interchangeable(x[i], x[j]) {
      var k := Seqs.Place(x[i], y);
      var l := Seqs.Place(x[j], y);
    }
  }

  lemma SortedReady(body: string, spans: seq<Span>)
    requires InRange(spans, |body|) && Agreeable(spans)
    ensures Ready(Seqs.Sort(RightmostFirst(), spans), body)
    ensures multiset(Seqs.Sort(RightmostFirst(), spans)) == multiset(spans)
  {
    SortedSpans(spans);
    InRangePermutes(Seqs.Sort(RightmostFirst(), spans), spans, |body|);
    AgreeablePermutes(Seqs.Sort(RightmostFirst(), spans), spans);
  }

  lemma AgreeableAnyOrder(body: string, a: seq<Finding>, b: seq<Finding>)
    requires multiset(a) == multiset(b) && AllSpanned(a) && InRange(Spans(a), |body|) && Agreeable(Spans(a))
    ensures RedactBody(body, a) == RedactBody(body, b)
  {
    AllSpannedPermutes(a, b);
    NotWholeLine(a);
    NotWholeLine(b);
    SpansPermute(a, b);
    InRangePermutes(Spans(b), Spans(a), |body|);
    AgreeablePermutes(Spans(b), Spans(a));
    SortedReady(body, Spans(a));
    SortedReady(body, Spans(b));
    SortedSplices(body, Seqs.Sort(RightmostFirst(), Spans(a)), Seqs.Sort(RightmostFirst(), Spans(b)));
  }

  lemma TwoOf<T>(s: seq<T>, i: nat, j: nat)
    requires i < |s| && j < |s| && i != j
    ensures multiset([s[i], s[j]]) <= multiset(s)
  {
    Seqs.WithoutAt(s, i);
    var k := if j < i then j else j - 1;
    Seqs.WithoutAt(Seqs.Without(s, i), k);
    assert multiset([s[i], s[j]]) == multiset{s[i]} + multiset{s[j]};
  }

  /** Two findings in conflict show it on some text of the line. */
  lemma ConflictShows(n: nat, f: Finding, g: Finding) returns (body: string)
    requires f.span.Some? && g.span.Some? && InRange([SpanOf(f), SpanOf(g)], n)
    requires f.span.value.0 == g.span.value.0 && Bracketless(f.plugin) && Bracketless(g.plugin)
    requires !Interchangeable(SpanOf(f), SpanOf(g))
    ensures |body| == n && RedactBody(body, [f, g]) != RedactBody(body, [g, f])
  {
    body := seq(n, _ => ' ');
    assert [SpanOf(f), SpanOf(g)][0] == SpanOf(f) && [SpanOf(f), SpanOf(g)][1] == SpanOf(g);
    if f.plugin != g.plugin {
      SameStartOrderMatters(body, f, g);
    } else if Length(SpanOf(f)) < Length(SpanOf(g)) {
      BlankLineDiffers(n, f, g);
    } else {
      assert InRange([SpanOf(g), SpanOf(f)], n);
      BlankLineDiffers(n, g, f);
    }
  }

  lemma ConflictMatters(n: nat, group: seq<Finding>, i: nat, j: nat)
    requires AllSpanned(group) && InRange(Spans(group), n) && i < |group| && j < |group|
    requires forall f :: f in group ==> Bracketless(f.plugin)
    requires Spans(group)[i].start == Spans(group)[j].start && !Interchangeable(Spans(group)[i], Spans(group)[j])
    ensures !OrderImmaterial(n, group)
  {
    var f, g := group[i], group[j];
    assert f in group && g in group;
    var body := ConflictShows(n, f, g);
    TwoOf(group, i, j);
    assert multiset([f, g]) == multiset([g, f]);
  }

  /** The order in which the findings of a line are listed is immaterial if and only if no two of them conflict. */
  lemma OrderImmaterialIff(n: nat, group: seq<Finding>)
    requires AllSpanned(group) && InRange(Spans(group), n)
    requires forall f :: f in group ==> Bracketless(f.plugin)
    ensures OrderImmaterial(n, group) <==> Agreeable(Spans(group))
  {
    if Agreeable(Spans(group)) {
      forall body: string, a: seq<Finding>, b: seq<Finding> |
        |body| == n && multiset(a) <= multiset(group) && multiset(a) == multiset(b)
        ensures RedactBody(body, a) == RedactBody(body, b)
      {
        SomeSpanned(group, a, n);
        AgreeableAnyOrder(body, a, b);
      }
    } else {
      var i, j :| 0 <= i < |group| && 0 <= j < |group| && Spans(group)[i].start == Spans(group)[j].start
                  && !Interchangeable(Spans(group)[i], Spans(group)[j]);
      ConflictMatters(n, group, i, j);
    }
  }

  /** Two spans of one plugin that start together need not be equal: both as long as the placeholder will do. */
  lemma LongTiesAgree(body: string, f: Finding, g: Finding)
    requires f.span.Some? && g.span.Some? && f.span.value.0 == g.span.value.0 && f.plugin == g.plugin
    requires InRange([SpanOf(f), SpanOf(g)], |body|)
    requires Length(SpanOf(f)) >= |Mark(f.plugin)| && Length(SpanOf(g)) >= |Mark(f.plugin)|
    ensures RedactBody(body, [f, g]) == RedactBody(body, [g, f])
  {
    SpansOfTwo(f, g);
    assert multiset([f, g]) == multiset([g, f]);
    AgreeableAnyOrder(body, [f, g], [g, f]);
  }

  lemma SortBehind(l: Span, a: Span, b: Span)
    requires a.start == b.start > l.start
    ensures Seqs.Sort(RightmostFirst(), [l, l, a, b]) == [a, b, l, l]
  {
    var le := RightmostFirst();
    SortTwo(a, b);
    assert [l, a, b][1..] == [a, b] && [l, l, a, b][1..] == [l, a, b];
    assert [a, b][1..] == [b] && [a, b, l][1..] == [b, l] && [b, l][1..] == [l] && [b][1..] == [];
    assert Seqs.Insert(le, l, [b]) == [b, l];
    assert Seqs.Insert(le, l, [a, b]) == [a, b, l];
    assert Seqs.Insert(le, l, [b, l]) == [b, l, l];
    assert Seqs.Insert(le, l, [a, b, l]) == [a, b, l, l];
  }

  /** What is left when a span at the start of the line is spliced twice over text that a tie put at its end. */
  lemma SpliceTwice(head: string, tie: string, z: string, l: Span)
    requires l.start == 0 && l.end == |head| && l.end >= |l.placeholder| + |tie|
    ensures Splice(Splice(head + (tie + z), l), l) == l.placeholder + Drop(z, l.end - |l.placeholder| - |tie|)
  {
    var x, m := head + (tie + z), l.placeholder;
    SpliceDrops(x, l);
    assert x[0..] == x && x[..0] == "" && Drop(x, |head|) == tie + z;
    assert Splice(x, l) == m + (tie + z);
    var y := m + (tie + z);
    SpliceDrops(y, l);
    assert y[0..] == y && y[..0] == "";
    assert y == (m + tie) + z;
    assert Drop((m + tie) + z, l.end) == Drop(z, l.end - |m| - |tie|);
  }

  lemma SpliceFour(body: string, a: Span, b: Span, c: Span, d: Span)
    ensures SpliceAll(body, [a, b, c, d]) == Splice(Splice(Splice(Splice(body, a), b), c), d)
  {
    assert [a, b, c, d] == [a] + [b, c, d] && [b, c, d] == [b] + [c, d];
    SpliceFirst(body, a, [b, c, d]);
    SpliceFirst(Splice(body, a), b, [c, d]);
    SpliceTwo(Splice(Splice(body, a), b), c, d);
  }

  /** Two empty spans that tie only put their placeholders. */
  lemma EmptyTie(body: string, a: Span, b: Span)
    requires 0 <= a.start == a.end == b.start == b.end <= |body|
    ensures Splice(Splice(body, a), b) == body[..a.start] + ((b.placeholder + a.placeholder) + body[a.start..])
  {
    var z := body[a.start..];
    SpliceTied(body, a, b);
    assert Drop(z, 0) == z && Drop(a.placeholder + z, 0) == a.placeholder + z;
    Seqs.Regroup(b.placeholder, a.placeholder, z);
  }

  lemma RedactEaten(body: string, l: Finding, f: Finding, g: Finding)
    requires l.span.Some? && f.span.Some? && g.span.Some?
    requires var p := l.span.value.1;
      l.span.value.0 == 0 && f.span.value == g.span.value == (p, p)
      && |Mark(l.plugin)| + |Mark(f.plugin)| + |Mark(g.plugin)| <= p <= |body|
    ensures var p := l.span.value.1;
      RedactBody(body, [l, l, f, g]) ==
        Mark(l.plugin) + Drop(body[p..], p - |Mark(l.plugin)| - |Mark(f.plugin)| - |Mark(g.plugin)|)
  {
    var p, group := l.span.value.1, [l, l, f, g];
    var s, a, b := SpanOf(l), SpanOf(f), SpanOf(g);
    NotWholeLine(group);
    assert Spans(group) == [s, s, a, b];
    SortBehind(s, a, b);
    SpliceFour(body, a, b, s, s);
    EmptyTie(body, a, b);
    SpliceTwice(body[..p], b.placeholder + a.placeholder, body[p..], s);
  }

  /**
    A conflict need not show while other findings stand: a long finding that is listed twice takes
    both placeholders of a tie to its right, so that the line comes out the same in both orders.
   */
  lemma EatenConflict(body: string, l: Finding, f: Finding, g: Finding)
    requires l.span.Some? && f.span.Some? && g.span.Some?
    requires var p := l.span.value.1;
      l.span.value.0 == 0 && f.span.value == g.span.value == (p, p)
      && |Mark(l.plugin)| + |Mark(f.plugin)| + |Mark(g.plugin)| <= p <= |body|
    ensures RedactBody(body, [l, l, f, g]) == RedactBody(body, [l, l, g, f])
  {
    RedactEaten(body, l, f, g);
    RedactEaten(body, l, g, f);
  }

  // ----- one text: where two findings tie, the one that is listed last comes first -----

  function From(p: int): Span -> bool {
    (s: Span) => s.start >= p
  }

  function Below(p: int): Span -> bool {
    (s: Span) => s.start < p
  }

  predicate AllFrom(spans: seq<Span>, p: int) {
    forall s :: s in spans ==> s.start >= p
  }

  lemma InsertCons(x: Span, h: Span, rest: seq<Span>)
    ensures Seqs.Insert(RightmostFirst(), x, [h] + rest) ==
            if x.start >= h.start then [x] + ([h] + rest) else [h] + Seqs.Insert(RightmostFirst(), x, rest)
  {
    assert ([h] + rest)[1..] == rest;
  }

  lemma {:induction false} InsertAbove(x: Span, above: seq<Span>, rest: seq<Span>)
    requires rest != [] && x.start >= rest[0].start
    ensures Seqs.Insert(RightmostFirst(), x, above + rest) == Seqs.Insert(RightmostFirst(), x, above) + rest
    decreases |above|
  {
    if above == [] {
      assert above + rest == rest;
    } else {
      var h, t := above[0], above[1..];
      assert above == [h] + t;
      InsertCons(x, h, t);
      InsertCons(x, h, t + rest);
      Seqs.Regroup([h], t, rest);
      if x.start >= h.start {
        Seqs.Regroup([x], above, rest);
      } else {
        InsertAbove(x, t, rest);
        Seqs.Regroup([h], Seqs.Insert(RightmostFirst(), x, t), rest);
      }
    }
  }

  lemma {:induction false} InsertBehind(x: Span, above: seq<Span>, rest: seq<Span>)
    requires AllFrom(above, x.start + 1)
    ensures Seqs.Insert(RightmostFirst(), x, above + rest) == above + Seqs.Insert(RightmostFirst(), x, rest)
    decreases |above|
  {
    if above == [] {
      assert above + rest == rest;
    } else {
      var h, t := above[0], above[1..];
      assert above == [h] + t;
      InsertCons(x, h, t + rest);
      Seqs.Regroup([h], t, rest);
      InsertBehind(x, t, rest);
      Seqs.Regroup([h], t, Seqs.Insert(RightmostFirst(), x, rest));
    }
  }

  function SortedFrom(x: seq<Span>, p: int): (r: seq<Span>)
    ensures AllFrom(r, p)
  {
    var above := Seqs.Filter(From(p), x);
    Seqs.SortPermutes(RightmostFirst(), above);
    Seqs.SameMembers(Seqs.Sort(RightmostFirst(), above), above);
    Seqs.Sort(RightmostFirst(), above)
  }

  function SortedBelow(x: seq<Span>, p: int): seq<Span> {
    Seqs.Sort(RightmostFirst(), Seqs.Filter(Below(p), x))
  }

  lemma SortCons(h: Span, s: seq<Span>)
    ensures Seqs.Sort(RightmostFirst(), [h] + s) == Seqs.Insert(RightmostFirst(), h, Seqs.Sort(RightmostFirst(), s))
  {
    assert ([h] + s)[1..] == s;
  }

  lemma AroundCons(h: Span, t: seq<Span>, e: Span)
    ensures var x, p, le := [h] + t, e.start, RightmostFirst();
      SortedFrom(x, p) + ([e] + SortedBelow(x, p)) == Seqs.Insert(le, h, SortedFrom(t, p) + ([e] + SortedBelow(t, p)))
  {
    var x, p := [h] + t, e.start;
    assert x[1..] == t;
    if h.start >= p {
      InsertAbove(h, SortedFrom(t, p), [e] + SortedBelow(t, p));
      SortCons(h, Seqs.Filter(From(p), t));
      assert Seqs.Filter(Below(p), x) == Seqs.Filter(Below(p), t);
      assert Seqs.Filter(From(p), x) == [h] + Seqs.Filter(From(p), t);
    } else {
      InsertBehind(h, SortedFrom(t, p), [e] + SortedBelow(t, p));
      InsertCons(h, e, SortedBelow(t, p));
      SortCons(h, Seqs.Filter(Below(p), t));
      assert Seqs.Filter(From(p), x) == Seqs.Filter(From(p), t);
      assert Seqs.Filter(Below(p), x) == [h] + Seqs.Filter(Below(p), t);
    }
  }

  /** The last span of the list comes after all that start at its place or behind, and before the others. */
  lemma {:induction false} SortLast(x: seq<Span>, e: Span)
    ensures Seqs.Sort(RightmostFirst(), x + [e]) == SortedFrom(x, e.start) + ([e] + SortedBelow(x, e.start))
  {
    if x == [] {
      assert x + [e] == [e] && [e][1..] == [];
      assert Seqs.Sort(RightmostFirst(), [e]) == [e];
    } else {
      SortLast(x[1..], e);
      AroundCons(x[0], x[1..], e);
      assert x == [x[0]] + x[1..] && x + [e] == [x[0]] + (x[1..] + [e]);
      SortCons(x[0], x[1..] + [e]);
    }
  }

  lemma {:induction false} SpliceAllSplit(body: string, a: seq<Span>, b: seq<Span>)
    ensures SpliceAll(body, a + b) == SpliceAll(SpliceAll(body, a), b)
    decreases |a|
  {
    if a == [] {
      assert a + b == b;
    } else {
      assert a + b == [a[0]] + (a[1..] + b);
      SpliceFirst(body, a[0], a[1..] + b);
      SpliceAllSplit(Splice(body, a[0]), a[1..], b);
    }
  }

  lemma {:induction false} KeepsFront(body: string, spans: seq<Span>, p: nat)
    requires p <= |body| && AllFrom(spans, p)
    ensures |SpliceAll(body, spans)| >= p && SpliceAll(body, spans)[..p] == body[..p]
    decreases |spans|
  {
    if spans != [] {
      assert Splice(body, spans[0])[..p] == body[..p];
      KeepsFront(Splice(body, spans[0]), spans[1..], p);
    }
  }

  /** Disjoint spans that end in the front of a text leave the rest alone. */
  lemma {:induction false} SpliceFront(front: string, rest: string, spans: seq<Span>)
    requires Descending(spans) && Disjoint(spans) && InRange(spans, |front|)
    ensures SpliceAll(front + rest, spans) == SpliceAll(front, spans) + rest
    decreases |spans|
  {
    if spans != [] {
      var s, more := spans[0], spans[1..];
      assert front[..s.start] + s.placeholder + front[s.end..] == Splice(front, s);
      assert (front + rest)[s.end..] == front[s.end..] + rest;
      assert Splice(front + rest, s) == Splice(front, s) + rest;
      forall k | 0 <= k < |more| ensures 0 <= more[k].start <= more[k].end <= s.start {
        assert more[k] == spans[k + 1];
      }
      SpliceFront(Splice(front, s), rest, more);
    }
  }

  /** A span that is spliced after those behind it, and before the disjoint ones in front of it. */
  lemma OnTop(body: string, above: seq<Span>, e: Span, below: seq<Span>)
    requires 0 <= e.start <= |body| && AllFrom(above, e.start)
    requires Descending(below) && Disjoint(below) && InRange(below, e.start)
    ensures SpliceAll(body[..e.start], below) + e.placeholder <= SpliceAll(body, above + ([e] + below))
  {
    var p := e.start;
    SpliceAllSplit(body, above, [e] + below);
    KeepsFront(body, above, p);
    SpliceFirst(SpliceAll(body, above), e, below);
    var tail := SpliceAfter(body[..p], SpliceAll(body, above), e);
    SpliceFront(body[..p], e.placeholder + tail, below);
    Seqs.Regroup(SpliceAll(body[..p], below), e.placeholder, tail);
  }

  lemma SpliceAfter(front: string, y: string, e: Span) returns (tail: string)
    requires e.start == |front| <= |y| && y[..|front|] == front
    ensures Splice(y, e) == front + (e.placeholder + tail)
  {
    tail := y[Clamp(e.start, e.end, |y|)..];
    Seqs.Regroup(front, e.placeholder, tail);
  }

  /** The span `e` that is listed last comes right after the redacted text before its start. */
  lemma LastOnTop(body: string, x: seq<Span>, e: Span)
    requires 0 <= e.start <= |body|
    requires var left := Seqs.Filter(Below(e.start), x); Disjoint(left) && InRange(left, e.start)
    ensures SpliceAll(body[..e.start], SortedBelow(x, e.start)) + e.placeholder
              <= SpliceAll(body, Seqs.Sort(RightmostFirst(), x + [e]))
  {
    var left := Seqs.Filter(Below(e.start), x);
    SortLast(x, e);
    SortedSpans(left);
    DisjointPermutes(SortedBelow(x, e.start), left);
    InRangePermutes(SortedBelow(x, e.start), left, e.start);
    OnTop(body, SortedFrom(x, e.start), e, SortedBelow(x, e.start));
  }

  /** Spans that start apart do not overlap. */
  predicate DisjointOrTied(spans: seq<Span>) {
    forall i, j :: 0 <= i < |spans| && 0 <= j < |spans| && spans[i].start < spans[j].start ==>
      spans[i].end <= spans[j].start
  }

  predicate Tied(spans: seq<Span>, i: int, j: int) {
    0 <= i < |spans| && 0 <= j < |spans| && i != j && spans[i].start == spans[j].start
  }

  /** No tie lies to the left of the span `i`. */
  ghost predicate LeftmostTied(spans: seq<Span>, i: int) {
    0 <= i < |spans| && forall k, l :: Tied(spans, k, l) ==> spans[k].start >= spans[i].start
  }

  lemma LeftmostTie(spans: seq<Span>, n: nat, i0: nat, j0: nat) returns (i: nat, j: nat)
    requires InRange(spans, n) && Tied(spans, i0, j0)
    ensures Tied(spans, i, j) && LeftmostTied(spans, i)
    decreases if i0 < |spans| then spans[i0].start else 0
  {
    if k, l :| Tied(spans, k, l) && spans[k].start < spans[i0].start {
      i, j := LeftmostTie(spans, n, k, l);
    } else {
      i, j := i0, j0;
    }
  }

  predicate ApartBelow(spans: seq<Span>, p: int) {
    && (forall k :: 0 <= k < |spans| && spans[k].start < p ==> 0 <= spans[k].start <= spans[k].end <= p)
    && (forall k, l :: 0 <= k < |spans| && 0 <= l < |spans| && k != l && spans[k].start < p ==>
          spans[k].start != spans[l].start)
  }

  lemma HeadApart(spans: seq<Span>, p: int, x: Span)
    requires DisjointOrTied(spans) && ApartBelow(spans, p) && spans != [] && spans[0].start < p && x in spans[1..]
    ensures x.start != spans[0].start
    ensures x.start < spans[0].start ==> x.end <= spans[0].start
    ensures spans[0].start < x.start ==> spans[0].end <= x.start
  {
    var l := Seqs.Place(x, spans[1..]);
    assert spans[l + 1] == x;
  }

  lemma {:induction false} LeftOf(spans: seq<Span>, p: int)
    requires DisjointOrTied(spans) && ApartBelow(spans, p)
    ensures Disjoint(Seqs.Filter(Below(p), spans))
  {
    if spans != [] {
      var h, t := spans[0], spans[1..];
      TailApart(spans, p);
      LeftOf(t, p);
      var rest := Seqs.Filter(Below(p), t);
      if h.start < p {
        forall k | 0 <= k < |rest|
          ensures rest[k].start != h.start
          ensures rest[k].start < h.start ==> rest[k].end <= h.start
          ensures h.start < rest[k].start ==> h.end <= rest[k].start
        {
          HeadApart(spans, p, rest[k]);
        }
        ConsDisjoint(h, rest);
      }
    }
  }

  lemma TailApart(spans: seq<Span>, p: int)
    requires DisjointOrTied(spans) && ApartBelow(spans, p) && spans != []
    ensures DisjointOrTied(spans[1..]) && ApartBelow(spans[1..], p)
  {
    forall k | 0 <= k < |spans[1..]| ensures spans[1..][k] == spans[k + 1] {
    }
  }

  lemma ConsDisjoint(h: Span, rest: seq<Span>)
    requires Disjoint(rest)
    requires forall k :: 0 <= k < |rest| ==>
               && rest[k].start != h.start
               && (rest[k].start < h.start ==> rest[k].end <= h.start)
               && (h.start < rest[k].start ==> h.end <= rest[k].start)
    ensures Disjoint([h] + rest)
  {
  }

  lemma LeftInRange(spans: seq<Span>, p: nat)
    requires ApartBelow(spans, p)
    ensures InRange(Seqs.Filter(Below(p), spans), p)
  {
    var left := Seqs.Filter(Below(p), spans);
    forall k | 0 <= k < |left| ensures 0 <= left[k].start <= left[k].end <= p {
      assert left[k] in spans;
    }
  }

  /** The spans to the left of the leftmost tie, whatever the order. */
  lemma LeftOfTie(spans: seq<Span>, n: nat, i: nat, x: seq<Span>)
    requires InRange(spans, n) && DisjointOrTied(spans) && LeftmostTied(spans, i)
    requires multiset(x + [spans[i]]) == multiset(spans)
    ensures var p := spans[i].start;
      var left, all := Seqs.Filter(Below(p), x), Seqs.Filter(Below(p), spans);
      Disjoint(left) && InRange(left, p) && Disjoint(all) && multiset(left) == multiset(all)
  {
    var p := spans[i].start;
    var left, all := Seqs.Filter(Below(p), x), Seqs.Filter(Below(p), spans);
    Seqs.FilterSplit(Below(p), x, [spans[i]]);
    assert Seqs.Filter(Below(p), [spans[i]]) == [];
    assert left + [] == left;
    Seqs.FilterPermutes(Below(p), x + [spans[i]], spans);
    assert ApartBelow(spans, p) by {
      forall k, l | 0 <= k < |spans| && 0 <= l < |spans| && k != l && spans[k].start < p
        ensures spans[k].start != spans[l].start
      {
        assert !Tied(spans, k, l);
      }
    }
    LeftOf(spans, p);
    LeftInRange(spans, p);
    DisjointPermutes(left, all);
    InRangePermutes(left, all, p);
  }

  lemma SortDisjoint(a: seq<Span>, b: seq<Span>)
    requires multiset(a) == multiset(b) && Disjoint(a)
    ensures Seqs.Sort(RightmostFirst(), a) == Seqs.Sort(RightmostFirst(), b)
  {
    var le := RightmostFirst();
    SortedSpans(a);
    DisjointPermutes(Seqs.Sort(le, a), a);
    RightmostFirstOrders();
    SortPermutedBy(le, a, b);
  }

  lemma RightmostFirstOrders()
    ensures Seqs.TotalPreorder(RightmostFirst())
  {
  }

  /** Listing one or the other finding of the leftmost tie last gives different lines. */
  lemma TieShows(body: string, group: seq<Finding>, i: nat, j: nat, x: seq<Finding>, y: seq<Finding>)
    requires AllSpanned(group) && InRange(Spans(group), |body|) && DisjointOrTied(Spans(group))
    requires Tied(Spans(group), i, j) && group[i].plugin != group[j].plugin
    requires LeftmostTied(Spans(group), i)
    requires Bracketless(group[i].plugin) && Bracketless(group[j].plugin)
    requires multiset(x + [group[i]]) == multiset(group) && multiset(y + [group[j]]) == multiset(group)
    ensures RedactBody(body, x + [group[i]]) != RedactBody(body, y + [group[j]])
  {
    var u := TieOnTop(body, group, i, x);
    var w := TieOnTop(body, group, j, y);
    var k := MarksDiffer(group[i].plugin, group[j].plugin);
    MarkTail(group[i].plugin, k);
    MarkTail(group[j].plugin, k);
    PrefixesDiffer(u, Mark(group[i].plugin), RedactBody(body, x + [group[i]]),
                   Mark(group[j].plugin), RedactBody(body, y + [group[j]]), 10 + k);
  }

  lemma PrefixesDiffer<T>(u: seq<T>, m: seq<T>, a: seq<T>, n: seq<T>, b: seq<T>, k: nat)
    requires u + m <= a && u + n <= b && k < |m| && k < |n| && m[k] != n[k]
    ensures a != b
  {
    assert a[|u| + k] == (u + m)[|u| + k] == m[k];
    assert b[|u| + k] == (u + n)[|u| + k] == n[k];
  }

  lemma TieOnTop(body: string, group: seq<Finding>, i: nat, x: seq<Finding>) returns (left: string)
    requires AllSpanned(group) && InRange(Spans(group), |body|) && DisjointOrTied(Spans(group))
    requires LeftmostTied(Spans(group), i)
    requires multiset(x + [group[i]]) == multiset(group)
    ensures var p := Spans(group)[i].start;
      0 <= p <= |body| &&
      left == SpliceAll(body[..p], SortedBelow(Spans(group), p))
    ensures left + Mark(group[i].plugin) <= RedactBody(body, x + [group[i]])
  {
    var spans, b := Spans(group), x + [group[i]];
    var p := spans[i].start;
    AllSpannedPermutes(group, b);
    assert AllSpanned(x) by {
      forall k | 0 <= k < |x| ensures x[k].span.Some? { assert x[k] == b[k]; }
    }
    assert Spans(b) == Spans(x) + [spans[i]];
    SpansPermute(b, group);
    LeftOfTie(spans, |body|, i, Spans(x));
    SortDisjoint(Seqs.Filter(Below(p), Spans(x)), Seqs.Filter(Below(p), spans));
    LastOnTop(body, Spans(x), spans[i]);
    NotWholeLine(b);
    left := SpliceAll(body[..p], SortedBelow(spans, p));
  }

  /** A plugin reports at most one finding at a place. */
  ghost predicate OnePerPlace(group: seq<Finding>)
    requires AllSpanned(group)
  {
    forall i, j :: Tied(Spans(group), i, j) ==> group[i].plugin != group[j].plugin
  }

  function MovedLast(group: seq<Finding>, i: nat): (r: seq<Finding>)
    requires i < |group|
    ensures multiset(r) == multiset(group)
  {
    Seqs.WithoutAt(group, i);
    Seqs.Without(group, i) + [group[i]]
  }

  lemma TieMatters(body: string, group: seq<Finding>, i0: int, j0: int) returns (a: seq<Finding>, b: seq<Finding>)
    requires AllSpanned(group) && InRange(Spans(group), |body|) && DisjointOrTied(Spans(group)) && OnePerPlace(group)
    requires forall f :: f in group ==> Bracketless(f.plugin)
    requires Tied(Spans(group), i0, j0)
    ensures multiset(a) == multiset(b) == multiset(group) && RedactBody(body, a) != RedactBody(body, b)
  {
    var i, j := LeftmostTie(Spans(group), |body|, i0, j0);
    a, b := MovedLast(group, i), MovedLast(group, j);
    assert group[i] in group && group[j] in group;
    TieShows(body, group, i, j, Seqs.Without(group, i), Seqs.Without(group, j));
  }

  lemma NoTieNoMatter(body: string, group: seq<Finding>, b: seq<Finding>)
    requires AllSpanned(group) && multiset(b) == multiset(group) && forall i, j :: !Tied(Spans(group), i, j)
    ensures RedactBody(body, b) == RedactBody(body, group)
  {
    forall i, j | 0 <= i < |group| && 0 <= j < |group| && Spans(group)[i].start == Spans(group)[j].start
      ensures Spans(group)[i] == Spans(group)[j]
    {
      assert !Tied(Spans(group), i, j);
    }
    AllSpannedPermutes(group, b);
    SpannedAnyOrder(body, group, b);
  }

  /** For one given text: every order redacts alike if and only if no two findings start together. */
  lemma ThisTextAnyOrderIff(body: string, group: seq<Finding>)
    requires AllSpanned(group) && InRange(Spans(group), |body|) && DisjointOrTied(Spans(group)) && OnePerPlace(group)
    requires forall f :: f in group ==> Bracketless(f.plugin)
    ensures (forall b :: multiset(b) == multiset(group) ==> RedactBody(body, b) == RedactBody(body, group)) <==>
            (forall i, j :: !Tied(Spans(group), i, j))
  {
    if i, j :| Tied(Spans(group), i, j) {
      var a, b := TieMatters(body, group, i, j);
      assert multiset(a) == multiset(group) && multiset(b) == multiset(group);
    } else {
      forall b | multiset(b) == multiset(group) ensures RedactBody(body, b) == RedactBody(body, group) {
        NoTieNoMatter(body, group, b);
      }
    }
  }
}
