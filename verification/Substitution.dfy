/**
  Splicing the spans of a line from right to left is replacing them all at once, and
  the order in which the findings are listed makes no difference.
 */
module Substitution {
  import opened Redaction
  import Seqs

  // ----- the reference: every position on its own -----

  predicate StartsAt(s: Span, p: int) {
    s.start == p
  }

  predicate Covers(s: Span, p: int) {
    s.start <= p < s.end
  }

  /** The placeholder that starts at position `p`, if any. */
  function MarkAt(spans: seq<Span>, p: int): string {
    if spans == [] then ""
    else if StartsAt(spans[0], p) then spans[0].placeholder
    else MarkAt(spans[1..], p)
  }

  predicate Covered(spans: seq<Span>, p: int) {
    exists i :: 0 <= i < |spans| && Covers(spans[i], p)
  }

  function KeptAt(body: string, spans: seq<Span>, p: nat): string {
    if p >= |body| || Covered(spans, p) then "" else [body[p]]
  }

  /** From position `p` on: placeholders where spans start, and every character outside all spans. */
  function Sub(body: string, spans: seq<Span>, p: nat): string
    decreases |body| + 1 - p
  {
    if p > |body| then "" else MarkAt(spans, p) + KeptAt(body, spans, p) + Sub(body, spans, p + 1)
  }

  predicate InRange(spans: seq<Span>, n: nat) {
    forall i :: 0 <= i < |spans| ==> 0 <= spans[i].start <= spans[i].end <= n
  }

  /** Different starts, and none reaches past the start of a later one. */
  predicate Disjoint(spans: seq<Span>) {
    && (forall i, j :: 0 <= i < |spans| && 0 <= j < |spans| && i != j ==> spans[i].start != spans[j].start)
    && (forall i, j :: 0 <= i < |spans| && 0 <= j < |spans| && spans[i].start < spans[j].start ==>
          spans[i].end <= spans[j].start)
  }

  predicate Descending(spans: seq<Span>) {
    forall i, j :: 0 <= i < j < |spans| ==> spans[i].start >= spans[j].start
  }

  // ----- Sub, position by position -----

  lemma {:induction false} NoMarkAt(spans: seq<Span>, p: int)
    requires forall i :: 0 <= i < |spans| ==> !StartsAt(spans[i], p)
    ensures MarkAt(spans, p) == ""
  {
    if spans != [] { NoMarkAt(spans[1..], p); }
  }

  lemma SubStep(body: string, spans: seq<Span>, p: nat, mark: string, kept: string, rest: string)
    requires p <= |body| && MarkAt(spans, p) == mark && KeptAt(body, spans, p) == kept
    requires Sub(body, spans, p + 1) == rest
    ensures Sub(body, spans, p) == mark + kept + rest
  {
  }

  lemma MarkOnly(body: string, spans: seq<Span>, p: nat, mark: string, rest: string)
    requires p <= |body| && MarkAt(spans, p) == mark && KeptAt(body, spans, p) == ""
    requires Sub(body, spans, p + 1) == rest
    ensures Sub(body, spans, p) == mark + rest
  {
    SubStep(body, spans, p, mark, "", rest);
    NothingBetween(mark, rest);
  }

  lemma NothingBetween<T>(a: seq<T>, b: seq<T>)
    ensures a + [] + b == a + b
  {
  }

  lemma MarkAndTail(body: string, spans: seq<Span>, p: nat, mark: string)
    requires p < |body| && MarkAt(spans, p) == mark && KeptAt(body, spans, p) == [body[p]]
    requires Sub(body, spans, p + 1) == body[p + 1..]
    ensures Sub(body, spans, p) == mark + body[p..]
  {
    SubStep(body, spans, p, mark, [body[p]], body[p + 1..]);
    TailStep(mark, body, p);
  }

  lemma TailStep<T>(mark: seq<T>, s: seq<T>, p: nat)
    requires p < |s|
    ensures mark + [s[p]] + s[p + 1..] == mark + s[p..]
  {
    assert s[p..] == [s[p]] + s[p + 1..];
  }

  /** Where no span starts and none covers, the text is kept. */
  lemma {:induction false} SubTail(body: string, spans: seq<Span>, p: nat)
    requires p <= |body| && forall i :: 0 <= i < |spans| ==> spans[i].start < p && spans[i].end <= p
    ensures Sub(body, spans, p) == body[p..]
    decreases |body| - p
  {
    NoMarkAt(spans, p);
    if p == |body| {
      MarkOnly(body, spans, p, "", "");
    } else {
      SubTail(body, spans, p + 1);
      MarkAndTail(body, spans, p, "");
    }
  }

  /** Where no span starts and one covers, the text is dropped. */
  lemma {:induction false} SubCovered(body: string, spans: seq<Span>, p: nat, e: nat, c: nat)
    requires p <= e <= |body| && c < |spans| && spans[c].start < p && e <= spans[c].end
    requires forall i :: 0 <= i < |spans| ==> spans[i].start < p
    ensures Sub(body, spans, p) == Sub(body, spans, e)
    decreases e - p
  {
    if p < e {
      NoMarkAt(spans, p);
      assert Covers(spans[c], p);
      SubCovered(body, spans, p + 1, e, c);
      MarkOnly(body, spans, p, "", Sub(body, spans, e));
    }
  }

  predicate SameCell(b1: string, s1: seq<Span>, b2: string, s2: seq<Span>, p: nat) {
    MarkAt(s1, p) == MarkAt(s2, p) && KeptAt(b1, s1, p) == KeptAt(b2, s2, p)
  }

  lemma {:induction false} SubSameUpTo(b1: string, s1: seq<Span>, b2: string, s2: seq<Span>, p: nat, q: nat)
    requires p <= q <= |b1| && q <= |b2|
    requires forall i: nat :: p <= i < q ==> SameCell(b1, s1, b2, s2, i)
    requires Sub(b1, s1, q) == Sub(b2, s2, q)
    ensures Sub(b1, s1, p) == Sub(b2, s2, p)
    decreases q - p
  {
    if p < q {
      SubSameUpTo(b1, s1, b2, s2, p + 1, q);
      assert SameCell(b1, s1, b2, s2, p);
      SubStep(b1, s1, p, MarkAt(s1, p), KeptAt(b1, s1, p), Sub(b1, s1, p + 1));
      SubStep(b2, s2, p, MarkAt(s1, p), KeptAt(b1, s1, p), Sub(b1, s1, p + 1));
    }
  }

  // ----- one splice -----

  /** Splicing the rightmost span leaves the cells before it as they were. */
  lemma CellBefore(body: string, spans: seq<Span>, p: nat)
    requires spans != [] && InRange(spans, |body|) && Disjoint(spans) && p < spans[0].start
    ensures SameCell(Splice(body, spans[0]), spans[1..], body, spans, p)
  {
    var rest := spans[1..];
    assert forall i :: 0 <= i < |rest| ==> rest[i] == spans[i + 1];
    if Covered(spans, p) {
      var i :| 0 <= i < |spans| && Covers(spans[i], p);
      assert Covers(rest[i - 1], p);
    }
  }

  /** The other spans start before the first one and end at or before its start. */
  predicate FirstIsLast(spans: seq<Span>) {
    && spans != []
    && forall i :: 1 <= i < |spans| ==> spans[i].start < spans[0].start && spans[i].end <= spans[0].start
  }

  lemma WideSpan(body: string, spans: seq<Span>, p: nat, e: nat)
    requires FirstIsLast(spans) && spans[0].start == p < spans[0].end == e <= |body|
    ensures Sub(body, spans, p) == spans[0].placeholder + body[e..]
  {
    assert Covers(spans[0], p);
    SubCovered(body, spans, p + 1, e, 0);
    SubTail(body, spans, e);
    MarkOnly(body, spans, p, spans[0].placeholder, body[e..]);
  }

  lemma EmptySpan(body: string, spans: seq<Span>, p: nat)
    requires FirstIsLast(spans) && spans[0].start == spans[0].end == p < |body|
    ensures Sub(body, spans, p) == spans[0].placeholder + body[p..]
  {
    assert !Covered(spans, p);
    SubTail(body, spans, p + 1);
    MarkAndTail(body, spans, p, spans[0].placeholder);
  }

  lemma SpanAtEnd(body: string, spans: seq<Span>)
    requires FirstIsLast(spans) && spans[0].start == |body|
    ensures Sub(body, spans, |body|) == spans[0].placeholder
  {
    MarkOnly(body, spans, |body|, spans[0].placeholder, "");
  }

  lemma SpanAndTail(body: string, spans: seq<Span>, p: nat, e: nat)
    requires FirstIsLast(spans) && spans[0].start == p <= spans[0].end == e <= |body|
    ensures Sub(body, spans, p) == spans[0].placeholder + body[e..]
  {
    if p < e {
      WideSpan(body, spans, p, e);
    } else if p < |body| {
      EmptySpan(body, spans, p);
    } else {
      SpanAtEnd(body, spans);
    }
  }

  lemma Three<T>(a: seq<T>, b: seq<T>, c: seq<T>)
    ensures (a + b + c)[|a|..] == b + c
  {
  }

  lemma SpliceOne(body: string, spans: seq<Span>)
    requires spans != [] && InRange(spans, |body|) && Disjoint(spans) && Descending(spans)
    ensures Sub(Splice(body, spans[0]), spans[1..], 0) == Sub(body, spans, 0)
    ensures InRange(spans[1..], |Splice(body, spans[0])|) && Disjoint(spans[1..]) && Descending(spans[1..])
  {
    var a, rest, spliced := spans[0], spans[1..], Splice(body, spans[0]);
    assert forall i :: 0 <= i < |rest| ==> rest[i] == spans[i + 1];
    Three(body[..a.start], a.placeholder, body[a.end..]);
    SpanAndTail(body, spans, a.start, a.end);
    SubTail(spliced, rest, a.start);
    forall p: nat | 0 <= p < a.start ensures SameCell(spliced, rest, body, spans, p) {
      CellBefore(body, spans, p);
    }
    SubSameUpTo(spliced, rest, body, spans, 0, a.start);
  }

  lemma {:induction false} SpliceAllIsSub(body: string, spans: seq<Span>)
    requires InRange(spans, |body|) && Disjoint(spans) && Descending(spans)
    ensures SpliceAll(body, spans) == Sub(body, spans, 0)
    decreases |spans|
  {
    if spans == [] {
      SubTail(body, spans, 0);
    } else {
      SpliceOne(body, spans);
      SpliceAllIsSub(Splice(body, spans[0]), spans[1..]);
    }
  }

  // ----- the order of the list -----

  lemma SortedSpans(spans: seq<Span>)
    ensures Descending(Seqs.Sort(RightmostFirst(), spans))
    ensures multiset(Seqs.Sort(RightmostFirst(), spans)) == multiset(spans)
  {
    var le := RightmostFirst();
    Seqs.SortSorts(le, spans);
    Seqs.SortPermutes(le, spans);
    var sorted := Seqs.Sort(le, spans);
    forall i, j | 0 <= i < j < |sorted| ensures sorted[i].start >= sorted[j].start {
      assert le(sorted[i], sorted[j]);
    }
  }

  /** Two places of a sequence hold what two places of a permutation of it hold. */
  lemma TwoPlaces<T>(a: seq<T>, b: seq<T>, i: nat, j: nat) returns (k: nat, l: nat)
    requires multiset(a) == multiset(b) && i < |a| && j < |a| && i != j
    ensures k < |b| && l < |b| && k != l && b[k] == a[i] && b[l] == a[j]
  {
    Seqs.SameMembers(a, b);
    k := Seqs.Place(a[i], b);
    var fewer, others := Seqs.Without(a, i), Seqs.Without(b, k);
    Seqs.WithoutPermutes(a, b, i, k);
    Seqs.SameMembers(fewer, others);
    assert fewer[if j < i then j else j - 1] == a[j];
    var m := Seqs.Place(a[j], others);
    l := if m < k then m else m + 1;
  }

  lemma DisjointPermutes(a: seq<Span>, b: seq<Span>)
    requires multiset(a) == multiset(b) && Disjoint(b)
    ensures Disjoint(a)
  {
    forall i, j | 0 <= i < |a| && 0 <= j < |a| && i != j
      ensures a[i].start != a[j].start && (a[i].start < a[j].start ==> a[i].end <= a[j].start)
    {
      var k, l := TwoPlaces(a, b, i, j);
    }
  }

  lemma InRangePermutes(a: seq<Span>, b: seq<Span>, n: nat)
    requires multiset(a) == multiset(b) && InRange(b, n)
    ensures InRange(a, n)
  {
    Seqs.SameMembers(a, b);
    forall i | 0 <= i < |a| ensures 0 <= a[i].start <= a[i].end <= n {
      assert a[i] in b;
    }
  }

  lemma {:induction false} MarkAtMember(spans: seq<Span>, p: int, i: nat)
    requires Disjoint(spans) && i < |spans| && StartsAt(spans[i], p)
    ensures MarkAt(spans, p) == spans[i].placeholder
  {
    if i > 0 {
      assert !StartsAt(spans[0], p);
      assert forall k :: 0 <= k < |spans[1..]| ==> spans[1..][k] == spans[k + 1];
      MarkAtMember(spans[1..], p, i - 1);
    }
  }

  lemma CellPermutes(body: string, a: seq<Span>, b: seq<Span>, p: nat)
    requires multiset(a) == multiset(b) && Disjoint(a) && Disjoint(b)
    ensures SameCell(body, a, body, b, p)
  {
    Seqs.SameMembers(a, b);
    if i :| 0 <= i < |a| && StartsAt(a[i], p) {
      assert a[i] in b;
      var j :| 0 <= j < |b| && b[j] == a[i];
      MarkAtMember(a, p, i);
      MarkAtMember(b, p, j);
    } else {
      NoMarkAt(a, p);
      forall j | 0 <= j < |b| ensures !StartsAt(b[j], p) { assert b[j] in a; }
      NoMarkAt(b, p);
    }
    CoveredPermutes(a, b, p);
    CoveredPermutes(b, a, p);
  }

  lemma CoveredPermutes(a: seq<Span>, b: seq<Span>, p: int)
    requires forall x :: x in a ==> x in b
    ensures Covered(a, p) ==> Covered(b, p)
  {
    if i :| 0 <= i < |a| && Covers(a[i], p) {
      assert a[i] in b;
      var j :| 0 <= j < |b| && b[j] == a[i];
      assert Covers(b[j], p);
    }
  }

  lemma {:induction false} SubPermutes(body: string, a: seq<Span>, b: seq<Span>, p: nat)
    requires multiset(a) == multiset(b) && Disjoint(a) && Disjoint(b)
    ensures Sub(body, a, p) == Sub(body, b, p)
    decreases |body| + 1 - p
  {
    if p <= |body| {
      CellPermutes(body, a, b, p);
      SubPermutes(body, a, b, p + 1);
    }
  }

  /**
    For disjoint spans within the line, whatever their order, the right-to-left loop replaces
    every span by its placeholder and keeps every other character.
   */
  lemma RedactionIsSubstitution(body: string, group: seq<Finding>)
    requires AllSpanned(group) && InRange(Spans(group), |body|) && Disjoint(Spans(group))
    ensures RedactBody(body, group) == Sub(body, Spans(group), 0)
  {
    NotWholeLine(group);
    var spans := Spans(group);
    var sorted := Seqs.Sort(RightmostFirst(), spans);
    SortedSpans(spans);
    DisjointPermutes(sorted, spans);
    InRangePermutes(sorted, spans, |body|);
    SpliceAllIsSub(body, sorted);
    SubPermutes(body, sorted, spans, 0);
  }
}
