/**
  What is left of the text that the findings of a line cover.  The redaction is followed on
  positions instead of characters, so that every character of the result has its origin.
 */
module RedactionCover {
  import opened Redaction
  import opened Substitution
  import opened RedactionOrder
  import opened RedactionTies
  import Seqs

  // ----- the splices, followed on positions -----

  /** The origins of a placeholder's characters: none of the line. */
  function Nowhere(n: nat): seq<int> {
    seq(n, _ => -1)
  }

  function Identity(n: nat): seq<int> {
    seq(n, i => i)
  }

  function Trace(t: seq<int>, s: Span): seq<int> {
    var start := Clamp(0, s.start, |t|);
    var end := Clamp(start, s.end, |t|);
    t[..start] + Nowhere(|s.placeholder|) + t[end..]
  }

  function TraceAll(t: seq<int>, spans: seq<Span>): seq<int>
    decreases |spans|
  {
    if spans == [] then t else TraceAll(Trace(t, spans[0]), spans[1..])
  }

  /** Every character of `text` with an origin is the character of `body` there. */
  predicate Explains(body: string, text: string, t: seq<int>) {
    |t| == |text| && forall k :: 0 <= k < |t| && t[k] >= 0 ==> t[k] < |body| && text[k] == body[t[k]]
  }

  lemma TraceExplains(body: string, text: string, t: seq<int>, s: Span)
    requires Explains(body, text, t)
    ensures Explains(body, Splice(text, s), Trace(t, s))
  {
  }

  /** The positions that the loop leaves say where each character of its result comes from. */
  lemma {:induction false} TraceAllExplains(body: string, text: string, t: seq<int>, spans: seq<Span>)
    requires Explains(body, text, t)
    ensures Explains(body, SpliceAll(text, spans), TraceAll(t, spans))
    decreases |spans|
  {
    if spans != [] {
      TraceExplains(body, text, t, spans[0]);
      TraceAllExplains(body, Splice(text, spans[0]), Trace(t, spans[0]), spans[1..]);
    }
  }

  // ----- when covered characters go -----

  /** `inner` starts in `outer`, ends before it, and is shorter than its placeholder. */
  predicate Leaks(outer: Span, inner: Span) {
    outer.start <= inner.start && inner.end < outer.end && Length(inner) < |inner.placeholder|
  }

  predicate LeakFree(spans: seq<Span>) {
    forall i, j :: 0 <= i < |spans| && 0 <= j < |spans| ==> !Leaks(spans[i], spans[j])
  }

  /** Every span of `done` that ends by position `x` is at least as long as its placeholder. */
  predicate LongBefore(done: seq<Span>, x: int) {
    forall i :: 0 <= i < |done| && done[i].end <= x ==> Length(done[i]) >= |done[i].placeholder|
  }

  predicate CoveredBy(done: seq<Span>, x: int) {
    exists i :: 0 <= i < |done| && Covers(done[i], x)
  }

  /** After the spans `done`, all at `p` or behind: the front is untouched, and nothing has been pushed to the right. */
  ghost predicate Followed(t: seq<int>, done: seq<Span>, p: nat) {
    && p <= |t| && (forall k :: 0 <= k < p ==> t[k] == k)
    && (forall k :: p <= k < |t| && t[k] >= 0 ==> t[k] >= p)
    && (forall k :: 0 <= k < |t| && t[k] >= 0 && LongBefore(done, t[k]) ==> k <= t[k])
    && (forall k :: 0 <= k < |t| ==> !CoveredBy(done, t[k]))
  }

  lemma StartFollowed(n: nat)
    ensures Followed(Identity(n), [], n)
  {
  }

  lemma LongBeforeInit(done: seq<Span>, s: Span, x: int)
    requires LongBefore(done + [s], x)
    ensures LongBefore(done, x) && (s.end <= x ==> Length(s) >= |s.placeholder|)
  {
    assert (done + [s])[|done|] == s;
    forall i | 0 <= i < |done| && done[i].end <= x ensures Length(done[i]) >= |done[i].placeholder| {
      assert (done + [s])[i] == done[i];
    }
  }

  /** A character behind a span is none that the span covers, if it contains no leak. */
  lemma NotCovered(t: seq<int>, done: seq<Span>, p: nat, s: Span, k: nat)
    requires Followed(t, done, p) && 0 <= s.start <= p && k < |t| && t[k] >= 0 && s.end <= k
    requires forall i :: 0 <= i < |done| ==> s.start <= done[i].start && !Leaks(s, done[i])
    ensures t[k] >= s.end
  {
    if t[k] < s.end { assert LongBefore(done, t[k]); }
  }

  lemma TraceAt(t: seq<int>, s: Span, k: nat)
    requires 0 <= s.start <= s.end && s.start <= |t| && k < |Trace(t, s)|
    ensures var m := |s.placeholder|;
      if k < s.start then Trace(t, s)[k] == t[k]
      else if k < s.start + m then Trace(t, s)[k] == -1
      else s.end + (k - s.start - m) < |t| && Trace(t, s)[k] == t[s.end + (k - s.start - m)]
  {
  }

  lemma FollowedNext(t: seq<int>, done: seq<Span>, p: nat, s: Span)
    requires Followed(t, done, p) && 0 <= s.start <= s.end && s.start <= p
    requires forall i :: 0 <= i < |done| ==> 0 <= s.start <= done[i].start && !Leaks(s, done[i])
    ensures Followed(Trace(t, s), done + [s], s.start)
  {
    var next, more, m := Trace(t, s), done + [s], |s.placeholder|;
    forall k | 0 <= k < |next|
      ensures k < s.start ==> next[k] == k
      ensures next[k] >= 0 && k >= s.start ==> next[k] >= s.start
      ensures next[k] >= 0 && LongBefore(more, next[k]) ==> k <= next[k]
      ensures !CoveredBy(more, next[k])
    {
      TraceAt(t, s, k);
      TracedAt(t, done, p, s, k);
    }
  }

  lemma TracedAt(t: seq<int>, done: seq<Span>, p: nat, s: Span, k: nat)
    requires Followed(t, done, p) && 0 <= s.start <= s.end && s.start <= p && k < |Trace(t, s)|
    requires forall i :: 0 <= i < |done| ==> s.start <= done[i].start && !Leaks(s, done[i])
    ensures var x, more := Trace(t, s)[k], done + [s];
      && (k < s.start ==> x == k) && (x >= 0 && k >= s.start ==> x >= s.start)
      && (x >= 0 && LongBefore(more, x) ==> k <= x) && !CoveredBy(more, x)
  {
    TraceAt(t, s, k);
    var x, m := Trace(t, s)[k], |s.placeholder|;
    CoveredSplit(done, s, x);
    if k < s.start {
      assert !CoveredBy(done, t[k]);
    } else if k < s.start + m {
      NothingCovered(done, s);
    } else {
      var j := s.end + (k - s.start - m);
      assert !CoveredBy(done, t[j]);
      if x >= 0 {
        NotCovered(t, done, p, s, j);
        if LongBefore(done + [s], x) { LongBeforeInit(done, s, x); }
      } else {
        NothingCovered(done, s);
      }
    }
  }

  lemma CoveredSplit(done: seq<Span>, s: Span, x: int)
    ensures CoveredBy(done + [s], x) <==> CoveredBy(done, x) || Covers(s, x)
  {
    var more := done + [s];
    assert more[|done|] == s;
    if i :| 0 <= i < |done| && Covers(done[i], x) { assert more[i] == done[i]; }
    if i :| 0 <= i < |more| && Covers(more[i], x) { assert i < |done| ==> more[i] == done[i]; }
  }

  lemma NothingCovered(done: seq<Span>, s: Span)
    requires 0 <= s.start && forall i :: 0 <= i < |done| ==> s.start <= done[i].start
    ensures !CoveredBy(done, -1) && !Covers(s, -1)
  {
  }

  lemma {:induction false} FollowAll(t: seq<int>, done: seq<Span>, p: nat, spans: seq<Span>, n: nat) returns (q: nat)
    requires Followed(t, done, p) && Descending(done + spans) && LeakFree(done + spans) && InRange(spans, n)
    requires forall i :: 0 <= i < |spans| ==> spans[i].start <= p
    ensures Followed(TraceAll(t, spans), done + spans, q)
    decreases |spans|
  {
    if spans == [] {
      assert done + spans == done;
      q := p;
    } else {
      var s, more := spans[0], spans[1..];
      assert (done + spans)[|done|] == s;
      forall i | 0 <= i < |done| ensures s.start <= done[i].start && !Leaks(s, done[i]) {
        assert (done + spans)[i] == done[i];
      }
      FollowedNext(t, done, p, s);
      assert done + [s] + more == done + spans;
      forall i | 0 <= i < |more| ensures more[i].start <= s.start {
        assert (done + spans)[|done| + 1 + i] == more[i];
      }
      q := FollowAll(Trace(t, s), done + [s], s.start, more, n);
    }
  }

  /** The positions of the characters that a group of findings leaves. */
  function Left(n: nat, group: seq<Finding>): seq<int>
    requires AllSpanned(group)
  {
    TraceAll(Identity(n), Seqs.Sort(RightmostFirst(), Spans(group)))
  }

  /** No character that a finding covers is left. */
  predicate Erased(n: nat, group: seq<Finding>)
    requires AllSpanned(group)
  {
    forall k :: 0 <= k < |Left(n, group)| ==> !CoveredBy(Spans(group), Left(n, group)[k])
  }

  /** The positions are those of the redacted text: each character of it comes from there, or from a placeholder. */
  lemma LeftExplains(body: string, group: seq<Finding>)
    requires AllSpanned(group)
    ensures Explains(body, RedactBody(body, group), Left(|body|, group))
  {
    NotWholeLine(group);
    TraceAllExplains(body, body, Identity(|body|), Seqs.Sort(RightmostFirst(), Spans(group)));
  }

  lemma SortedCovers(spans: seq<Span>, x: int)
    ensures CoveredBy(Seqs.Sort(RightmostFirst(), spans), x) <==> CoveredBy(spans, x)
  {
    var sorted := Seqs.Sort(RightmostFirst(), spans);
    SortedSpans(spans);
    Seqs.SameMembers(sorted, spans);
    if i :| 0 <= i < |sorted| && Covers(sorted[i], x) {
      assert sorted[i] in spans;
      var j := Seqs.Place(sorted[i], spans);
    }
    if i :| 0 <= i < |spans| && Covers(spans[i], x) {
      assert spans[i] in sorted;
      var j := Seqs.Place(spans[i], sorted);
    }
  }

  lemma SortedLeakFree(spans: seq<Span>)
    requires LeakFree(spans)
    ensures LeakFree(Seqs.Sort(RightmostFirst(), spans))
  {
    var sorted := Seqs.Sort(RightmostFirst(), spans);
    SortedSpans(spans);
    Seqs.SameMembers(sorted, spans);
    forall i, j | 0 <= i < |sorted| && 0 <= j < |sorted| ensures !Leaks(sorted[i], sorted[j]) {
      assert sorted[i] in spans && sorted[j] in spans;
      var k := Seqs.Place(sorted[i], spans);
      var l := Seqs.Place(sorted[j], spans);
    }
  }

  /** Without a leak, overlapping spans or not, nothing that a finding covers is left. */
  lemma LeakFreeErases(n: nat, group: seq<Finding>)
    requires AllSpanned(group) && InRange(Spans(group), n) && LeakFree(Spans(group))
    ensures Erased(n, group)
  {
    var sorted := Seqs.Sort(RightmostFirst(), Spans(group));
    SortedSpans(Spans(group));
    SortedLeakFree(Spans(group));
    InRangePermutes(sorted, Spans(group), n);
    StartFollowed(n);
    assert [] + sorted == sorted;
    var q := FollowAll(Identity(n), [], n, sorted, n);
    forall k | 0 <= k < |Left(n, group)| ensures !CoveredBy(Spans(group), Left(n, group)[k]) {
      SortedCovers(Spans(group), Left(n, group)[k]);
    }
  }

  lemma SortInner(inner: Span, outer: Span)
    requires outer.start <= inner.start
    ensures Seqs.Sort(RightmostFirst(), [inner, outer]) == [inner, outer]
  {
    var le := RightmostFirst();
    assert Seqs.Sort(le, [outer]) == Seqs.Insert(le, outer, []);
    assert [inner, outer][1..] == [outer];
  }

  lemma TraceTwo(t: seq<int>, a: Span, b: Span)
    ensures TraceAll(t, [a, b]) == Trace(Trace(t, a), b)
  {
    assert [a, b][1..] == [b] && [b][1..] == [];
    assert TraceAll(Trace(t, a), [b]) == TraceAll(Trace(Trace(t, a), b), []);
  }

  /** A leak lets the last character that the outer span covers through. */
  lemma LeakTraced(n: nat, inner: Span, outer: Span) returns (k: nat)
    requires InRange([inner, outer], n) && Leaks(outer, inner)
    ensures var t := Trace(Trace(Identity(n), inner), outer);
      k < |t| && t[k] == outer.end - 1 && Covers(outer, outer.end - 1)
  {
    assert [inner, outer][0] == inner && [inner, outer][1] == outer;
    var t, m := Trace(Identity(n), inner), |inner.placeholder|;
    var j := outer.end - 1 + m - Length(inner);
    assert j < |t| && t[j] == outer.end - 1;
    k := outer.start + |outer.placeholder| + (j - outer.end);
    assert Trace(t, outer)[k] == t[j];
  }

  lemma LeakShows(n: nat, inner: Finding, outer: Finding)
    requires inner.span.Some? && outer.span.Some? && InRange([SpanOf(inner), SpanOf(outer)], n)
    requires Leaks(SpanOf(outer), SpanOf(inner))
    ensures AllSpanned([inner, outer]) && !Erased(n, [inner, outer])
  {
    var group := [inner, outer];
    SpansOfTwo(inner, outer);
    SortInner(SpanOf(inner), SpanOf(outer));
    TraceTwo(Identity(n), SpanOf(inner), SpanOf(outer));
    var k := LeakTraced(n, SpanOf(inner), SpanOf(outer));
    assert Covers(Spans(group)[1], Left(n, group)[k]);
  }

  lemma SelectionSpans(group: seq<Finding>, a: seq<Finding>, n: nat)
    requires AllSpanned(group) && InRange(Spans(group), n) && multiset(a) <= multiset(group)
    ensures AllSpanned(a) && InRange(Spans(a), n)
    ensures LeakFree(Spans(group)) ==> LeakFree(Spans(a))
  {
    forall f | f in a ensures f in group { assert f in multiset(a); }
    forall i | 0 <= i < |a| ensures a[i].span.Some? { assert a[i] in group; }
    forall i | 0 <= i < |a| ensures Spans(a)[i] in Spans(group) {
      var k := Seqs.Place(a[i], group);
      assert Spans(group)[k] == Spans(a)[i];
    }
    if LeakFree(Spans(group)) {
      forall i, j | 0 <= i < |a| && 0 <= j < |a| ensures !Leaks(Spans(a)[i], Spans(a)[j]) {
        var k := Seqs.Place(Spans(a)[i], Spans(group));
        var l := Seqs.Place(Spans(a)[j], Spans(group));
      }
    }
  }

  /** Whichever of the findings are redacted, nothing that they cover is left. */
  ghost predicate AlwaysErased(n: nat, group: seq<Finding>) {
    forall a: seq<Finding> :: multiset(a) <= multiset(group) && AllSpanned(a) ==> Erased(n, a)
  }

  /**
    In every selection of the findings every covered character goes, if and only if no finding starts in
    another one that ends later and is shorter than its own placeholder.
   */
  lemma ErasedIff(n: nat, group: seq<Finding>)
    requires AllSpanned(group) && InRange(Spans(group), n)
    ensures AlwaysErased(n, group) <==> LeakFree(Spans(group))
  {
    if LeakFree(Spans(group)) {
      forall a: seq<Finding> | multiset(a) <= multiset(group) && AllSpanned(a) ensures Erased(n, a) {
        SelectionSpans(group, a, n);
        LeakFreeErases(n, a);
      }
    } else {
      var i, j :| 0 <= i < |group| && 0 <= j < |group| && Leaks(Spans(group)[i], Spans(group)[j]);
      var outer, inner := group[i], group[j];
      TwoOf(group, j, i);
      assert [SpanOf(inner), SpanOf(outer)][0] == SpanOf(inner) && [SpanOf(inner), SpanOf(outer)][1] == SpanOf(outer);
      LeakShows(n, inner, outer);
      assert multiset([inner, outer]) <= multiset(group);
    }
  }
}
