/** The order in which the findings are listed does not matter when no two different spans tie. */
module RedactionOrder {
  import opened Redaction
  import opened Substitution
  import Seqs

  /** Findings that start at the same place of an all-spanned line are the same. */
  ghost predicate Unambiguous(group: seq<Finding>) {
    AllSpanned(group) ==> Seqs.Untied(RightmostFirst(), Spans(group))
  }

  lemma {:induction false} SpansPermute(a: seq<Finding>, b: seq<Finding>)
    requires multiset(a) == multiset(b) && AllSpanned(a) && AllSpanned(b)
    ensures multiset(Spans(a)) == multiset(Spans(b))
  {
    Seqs.SameMembers(a, b);
    if a != [] {
      assert a[0] in b;
      var i := Seqs.Place(a[0], b);
      Seqs.WithoutPermutes(a, b, 0, i);
      SpansPermute(Seqs.Without(a, 0), Seqs.Without(b, i));
      SpansWithout(a, 0);
      SpansWithout(b, i);
    }
  }

  lemma SpansWithout(a: seq<Finding>, i: nat)
    requires i < |a| && AllSpanned(a)
    ensures AllSpanned(Seqs.Without(a, i))
    ensures multiset(Spans(a)) == multiset(Spans(Seqs.Without(a, i))) + multiset{Spans(a)[i]}
  {
    assert Spans(Seqs.Without(a, i)) == Seqs.Without(Spans(a), i);
    Seqs.WithoutAt(Spans(a), i);
  }

  lemma {:induction false} LexLeTotal(a: string, b: string)
    ensures LexLe(a, b) || LexLe(b, a)
    ensures LexLe(a, b) && LexLe(b, a) ==> a == b
  {
    if a != "" && b != "" && a[0] == b[0] {
      LexLeTotal(a[1..], b[1..]);
      assert a == [a[0]] + a[1..] && b == [b[0]] + b[1..];
    }
  }

  lemma {:induction false} LexLeTransitive(a: string, b: string, c: string)
    requires LexLe(a, b) && LexLe(b, c)
    ensures LexLe(a, c)
  {
    if a != "" && a[0] == b[0] == c[0] { LexLeTransitive(a[1..], b[1..], c[1..]); }
  }

  lemma LexLeOrders()
    ensures Seqs.TotalPreorder(LexLe)
  {
    forall a: string, b: string ensures LexLe(a, b) || LexLe(b, a) {
      LexLeTotal(a, b);
    }
    forall a: string, b: string, c: string | LexLe(a, b) && LexLe(b, c) ensures LexLe(a, c) {
      LexLeTransitive(a, b, c);
    }
  }

  lemma LexUntied(s: seq<string>)
    ensures Seqs.Untied(LexLe, s)
  {
    forall i, j | 0 <= i < |s| && 0 <= j < |s| && LexLe(s[i], s[j]) && LexLe(s[j], s[i]) ensures s[i] == s[j] {
      LexLeTotal(s[i], s[j]);
    }
  }

  lemma SameSets(a: seq<string>, b: seq<string>)
    requires forall x :: x in a <==> x in b
    requires forall i, j :: 0 <= i < j < |a| ==> a[i] != a[j]
    requires forall i, j :: 0 <= i < j < |b| ==> b[i] != b[j]
    ensures multiset(a) == multiset(b)
  {
    forall x ensures multiset(a)[x] == multiset(b)[x] {
      OnceEach(a, x);
      OnceEach(b, x);
    }
  }

  lemma {:induction false} OnceEach(a: seq<string>, x: string)
    requires forall i, j :: 0 <= i < j < |a| ==> a[i] != a[j]
    ensures multiset(a)[x] == if x in a then 1 else 0
  {
    if a != [] {
      OnceEach(a[1..], x);
      assert a == [a[0]] + a[1..];
    }
  }

  lemma PluginsOf(a: seq<Finding>, b: seq<Finding>, x: string)
    requires (forall f :: f in a ==> f in b) && x in Plugins(a)
    ensures x in Plugins(b)
  {
    var i := Seqs.Place(x, Plugins(a));
    assert a[i] in b;
    var j := Seqs.Place(a[i], b);
    assert Plugins(b)[j] == x;
  }

  lemma DistinctPermutes(a: seq<Finding>, b: seq<Finding>)
    requires multiset(a) == multiset(b)
    ensures multiset(Distinct(Plugins(a))) == multiset(Distinct(Plugins(b)))
  {
    Seqs.SameMembers(a, b);
    forall x ensures x in Plugins(a) <==> x in Plugins(b) {
      if x in Plugins(a) { PluginsOf(a, b, x); }
      if x in Plugins(b) { PluginsOf(b, a, x); }
    }
    SameSets(Distinct(Plugins(a)), Distinct(Plugins(b)));
  }

  lemma SortPermuted(p: seq<string>, q: seq<string>)
    requires multiset(p) == multiset(q)
    ensures Seqs.Sort(LexLe, p) == Seqs.Sort(LexLe, q)
  {
    LexLeOrders();
    LexUntied(Seqs.Sort(LexLe, p));
    SortPermutedBy(LexLe, p, q);
  }

  lemma SortPermutedBy<T(!new)>(le: (T, T) -> bool, p: seq<T>, q: seq<T>)
    requires multiset(p) == multiset(q) && Seqs.TotalPreorder(le) && Seqs.Untied(le, Seqs.Sort(le, p))
    ensures Seqs.Sort(le, p) == Seqs.Sort(le, q)
  {
    Seqs.SortPermutes(le, p);
    Seqs.SortPermutes(le, q);
    Seqs.SortSorts(le, p);
    Seqs.SortSorts(le, q);
    Seqs.SortedUnique(le, Seqs.Sort(le, p), Seqs.Sort(le, q));
  }

  lemma LabelsPermute(a: seq<Finding>, b: seq<Finding>)
    requires multiset(a) == multiset(b)
    ensures Labels(a) == Labels(b)
  {
    DistinctPermutes(a, b);
    SortPermuted(Distinct(Plugins(a)), Distinct(Plugins(b)));
  }

  lemma UntiedPermutes(a: seq<Span>, b: seq<Span>)
    requires multiset(a) == multiset(b) && Seqs.Untied(RightmostFirst(), b)
    ensures Seqs.Untied(RightmostFirst(), a)
  {
    var le := RightmostFirst();
    Seqs.SameMembers(a, b);
    forall i, j | 0 <= i < |a| && 0 <= j < |a| && le(a[i], a[j]) && le(a[j], a[i]) ensures a[i] == a[j] {
      var k := Seqs.Place(a[i], b);
      var l := Seqs.Place(a[j], b);
    }
  }

  lemma SpannedAnyOrder(body: string, a: seq<Finding>, b: seq<Finding>)
    requires multiset(a) == multiset(b) && AllSpanned(a) && AllSpanned(b) && Unambiguous(a)
    ensures RedactBody(body, a) == RedactBody(body, b)
  {
    NotWholeLine(a);
    NotWholeLine(b);
    var le := RightmostFirst();
    SpansPermute(a, b);
    SortedSpans(Spans(a));
    UntiedPermutes(Seqs.Sort(le, Spans(a)), Spans(a));
    SortPermutedBy(le, Spans(a), Spans(b));
  }

  lemma AllSpannedPermutes(a: seq<Finding>, b: seq<Finding>)
    requires multiset(a) == multiset(b) && AllSpanned(a)
    ensures AllSpanned(b)
  {
    Seqs.SameMembers(a, b);
    forall i | 0 <= i < |b| ensures b[i].span.Some? {
      assert b[i] in a;
    }
  }

  lemma UnspannedAnyOrder(body: string, a: seq<Finding>, b: seq<Finding>)
    requires multiset(a) == multiset(b) && !AllSpanned(a) && !AllSpanned(b)
    ensures RedactBody(body, a) == RedactBody(body, b)
  {
    NotWholeLine(a);
    NotWholeLine(b);
    Seqs.FilterPermutes(Unspanned(), a, b);
    LabelsPermute(Seqs.Filter(Unspanned(), a), Seqs.Filter(Unspanned(), b));
  }

  lemma LineAnyOrder(line: string, a: seq<Finding>, b: seq<Finding>)
    requires multiset(a) == multiset(b) && Unambiguous(a)
    ensures RedactLine(line, a) == RedactLine(line, b)
  {
    Seqs.SameMembers(a, b);
    if a != [] {
      if AllSpanned(a) {
        AllSpannedPermutes(a, b);
        SpannedAnyOrder(Body(line), a, b);
      } else {
        if AllSpanned(b) { AllSpannedPermutes(b, a); }
        UnspannedAnyOrder(Body(line), a, b);
      }
    }
  }

  lemma GroupPermutes(a: seq<Finding>, b: seq<Finding>, n: int)
    requires multiset(a) == multiset(b)
    ensures multiset(Group(a, n)) == multiset(Group(b, n))
  {
    Seqs.FilterPermutes(Redactable(), a, b);
    Seqs.FilterPermutes(Seqs.WithKey(LineOf(), n), Seqs.Filter(Redactable(), a), Seqs.Filter(Redactable(), b));
  }

  lemma SameElements<T>(a: seq<T>, b: seq<T>)
    requires |a| == |b| && forall i :: 0 <= i < |a| ==> a[i] == b[i]
    ensures a == b
  {
  }

  /** Two groups that redact every line to the same. */
  ghost predicate SameRedaction(a: seq<Finding>, b: seq<Finding>) {
    forall line :: RedactLine(line, a) == RedactLine(line, b)
  }

  lemma GroupAnyOrder(a: seq<Finding>, b: seq<Finding>)
    requires multiset(a) == multiset(b) && Unambiguous(a)
    ensures SameRedaction(a, b)
  {
    forall line ensures RedactLine(line, a) == RedactLine(line, b) {
      LineAnyOrder(line, a, b);
    }
  }

  lemma SameText(text: string, findings: seq<Finding>, listed: seq<Finding>)
    requires forall n :: 1 <= n <= |SplitLines(text)| ==> SameRedaction(Group(findings, n), Group(listed, n))
    ensures Redact(text, findings) == Redact(text, listed)
  {
    var lines := SplitLines(text);
    var a, b := RedactLines(lines, findings), RedactLines(lines, listed);
    forall i | 0 <= i < |lines| ensures a[i] == b[i] {
      assert SameRedaction(Group(findings, i + 1), Group(listed, i + 1));
    }
    SameElements(a, b);
  }

  /** When no two different spans of a line start at the same place, the order of the findings does not matter. */
  lemma AnyOrder(text: string, findings: seq<Finding>, listed: seq<Finding>)
    requires multiset(findings) == multiset(listed)
    requires forall n :: 1 <= n <= |SplitLines(text)| ==> Unambiguous(Group(findings, n))
    ensures Redact(text, findings) == Redact(text, listed)
  {
    forall n | 1 <= n <= |SplitLines(text)| ensures SameRedaction(Group(findings, n), Group(listed, n)) {
      GroupPermutes(findings, listed, n);
      GroupAnyOrder(Group(findings, n), Group(listed, n));
    }
    SameText(text, findings, listed);
  }
}
