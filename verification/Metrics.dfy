/** nDCG is at most one by a rearrangement argument; every averaged figure lies between zero and one. */
module Metrics {
  import opened Evaluation
  import Seqs

  /** Positive and strictly decreasing, as 1 / log2(rank + 1) is. */
  ghost predicate Decreasing(w: Discount) {
    && (forall i: nat :: w(i) > 0.0)
    && (forall i: nat, j: nat :: i < j ==> w(i) > w(j))
  }

  predicate NonNegative(js: seq<Judgment>) {
    forall i :: 0 <= i < |js| ==> js[i].grade >= 0
  }

  predicate Distinct(ranked: seq<string>) {
    forall i, j :: 0 <= i < j < |ranked| ==> ranked[i] != ranked[j]
  }

  // ----- sums over grades -----

  /** The entry at `i`, or zero past the end. */
  function Entry(a: seq<int>, i: nat): int {
    if i < |a| then a[i] else 0
  }

  /** The first `n` entries. */
  function Prefix(a: seq<int>, n: nat): int {
    if n == 0 then 0 else Prefix(a, n - 1) + Entry(a, n - 1)
  }

  /** What a number exceeds the threshold by. */
  function Excess(t: int, g: int): int {
    if g > t then g - t else 0
  }

  function ExcessSum(t: int, a: seq<int>): (r: int)
    ensures r >= 0
  {
    if a == [] then 0 else ExcessSum(t, a[..|a| - 1]) + Excess(t, a[|a| - 1])
  }

  lemma {:induction false} ExcessSplit(t: int, a: seq<int>, b: seq<int>)
    ensures ExcessSum(t, a + b) == ExcessSum(t, a) + ExcessSum(t, b)
  {
    if b == [] {
      assert a + b == a;
    } else {
      assert (a + b)[|a + b| - 1] == b[|b| - 1] && (a + b)[..|a + b| - 1] == a + b[..|b| - 1];
      ExcessSplit(t, a, b[..|b| - 1]);
    }
  }

  lemma ExcessWithout(t: int, a: seq<int>, i: nat)
    requires i < |a|
    ensures ExcessSum(t, a) == ExcessSum(t, Seqs.Without(a, i)) + Excess(t, a[i])
  {
    Seqs.WithoutAt(a, i);
    ExcessSplit(t, a[..i] + [a[i]], a[i + 1..]);
    ExcessSplit(t, a[..i], [a[i]]);
    ExcessSplit(t, a[..i], a[i + 1..]);
    assert [a[i]][..0] == [];
    assert ExcessSum(t, []) == 0;
  }

  lemma {:induction false} ExcessPermutes(t: int, a: seq<int>, b: seq<int>)
    requires multiset(a) == multiset(b)
    ensures ExcessSum(t, a) == ExcessSum(t, b)
    decreases |a|
  {
    Seqs.SameMembers(a, b);
    if a != [] {
      var i := Seqs.Place(a[0], b);
      Seqs.WithoutPermutes(a, b, 0, i);
      ExcessWithout(t, a, 0);
      ExcessWithout(t, b, i);
      ExcessPermutes(t, Seqs.Without(a, 0), Seqs.Without(b, i));
    }
  }

  /** A sum is at most `n` times a threshold, plus what exceeds it. */
  lemma {:induction false} PrefixBelow(t: int, a: seq<int>, n: nat)
    requires t >= 0 && n <= |a|
    ensures Prefix(a, n) <= n * t + ExcessSum(t, a)
    decreases |a|
  {
    if a != [] {
      var init := a[..|a| - 1];
      if n == |a| {
        PrefixBelow(t, init, n - 1);
        PrefixSame(a, init, n - 1);
      } else {
        PrefixBelow(t, init, n);
        PrefixSame(a, init, n);
      }
    }
  }

  lemma {:induction false} PrefixSame(a: seq<int>, b: seq<int>, n: nat)
    requires forall i: nat :: i < n ==> Entry(a, i) == Entry(b, i)
    ensures Prefix(a, n) == Prefix(b, n)
  {
    if n > 0 { PrefixSame(a, b, n - 1); }
  }

  predicate Descending(a: seq<int>) {
    forall i, j :: 0 <= i < j < |a| ==> a[i] >= a[j]
  }

  /** In a descending list, its own entry `n` is the threshold at which this is an equality. */
  lemma {:induction false} ExcessOfSorted(t: int, a: seq<int>, n: nat)
    requires Descending(a) && n <= |a| && t >= 0
    requires n < |a| ==> a[n] <= t
    requires n > 0 ==> a[n - 1] >= t
    ensures n * t + ExcessSum(t, a) == Prefix(a, n)
    decreases |a|
  {
    if a != [] {
      var init := a[..|a| - 1];
      if n == |a| {
        if n > 1 { assert init[n - 2] >= a[n - 1]; }
        ExcessOfSorted(t, init, n - 1);
        PrefixSame(a, init, n - 1);
        assert n * t == (n - 1) * t + t;
      } else {
        assert a[|a| - 1] <= a[n] || n == |a| - 1;
        ExcessOfSorted(t, init, n);
        PrefixSame(a, init, n);
      }
    }
  }

  // ----- the ranked grades against all grades -----

  lemma {:induction false} Unjudged(js: seq<Judgment>, path: string)
    ensures GradeOf(js, path) != 0 ==> exists i :: 0 <= i < |js| && js[i].path == path
  {
    if js != [] && js[|js| - 1].path != path { Unjudged(js[..|js| - 1], path); }
  }

  /** Removing the judgment of a path leaves the grades of the other paths. */
  lemma {:induction false} GradeWithout(js: seq<Judgment>, i: nat, path: string)
    requires i < |js| && js[i].path != path
    ensures GradeOf(js[..i] + js[i + 1..], path) == GradeOf(js, path)
    decreases |js|
  {
    var rest := js[..i] + js[i + 1..];
    if i == |js| - 1 {
      assert rest == js[..i];
    } else {
      var init := js[..|js| - 1];
      assert rest[|rest| - 1] == js[|js| - 1];
      assert rest[..|rest| - 1] == init[..i] + init[i + 1..];
      GradeWithout(init, i, path);
    }
  }

  /** The last judgment of a path gives its grade. */
  lemma {:induction false} LastJudgment(js: seq<Judgment>, path: string) returns (i: nat)
    requires exists k :: 0 <= k < |js| && js[k].path == path
    ensures i < |js| && js[i].path == path && js[i].grade == GradeOf(js, path)
    ensures forall m :: i < m < |js| ==> js[m].path != path
  {
    i := |js| - 1;
    if js[i].path != path {
      var k :| 0 <= k < |js| && js[k].path == path;
      var init := js[..i];
      assert init[k].path == path;
      i := LastJudgment(init, path);
      assert forall m :: i < m < |init| ==> init[m] == js[m];
    }
  }

  lemma GradesWithout(js: seq<Judgment>, i: nat)
    requires i < |js|
    ensures Grades(js[..i] + js[i + 1..]) == Grades(js)[..i] + Grades(js)[i + 1..]
  {
  }

  lemma {:induction false} SameGrades(js: seq<Judgment>, rest: seq<Judgment>, ranked: seq<string>)
    requires forall i :: 0 <= i < |ranked| ==> GradeOf(js, ranked[i]) == GradeOf(rest, ranked[i])
    ensures ActualGrades(js, ranked) == ActualGrades(rest, ranked)
  {
  }

  lemma ActualInit(js: seq<Judgment>, ranked: seq<string>)
    requires ranked != []
    ensures ActualGrades(js, ranked)[..|ranked| - 1] == ActualGrades(js, ranked[..|ranked| - 1])
  {
  }

  /** Distinct ranked paths collect no more excess than there is in all judgments. */
  lemma {:induction false} RankedExcess(t: int, js: seq<Judgment>, ranked: seq<string>)
    requires t >= 0 && NonNegative(js) && Distinct(ranked)
    ensures ExcessSum(t, ActualGrades(js, ranked)) <= ExcessSum(t, Grades(js))
    decreases |ranked|
  {
    if ranked != [] {
      var n := |ranked| - 1;
      var path, init := ranked[n], ranked[..n];
      ActualInit(js, ranked);
      Unjudged(js, path);
      if exists i :: 0 <= i < |js| && js[i].path == path {
        var i := LastJudgment(js, path);
        var rest := js[..i] + js[i + 1..];
        forall k | 0 <= k < n ensures GradeOf(js, init[k]) == GradeOf(rest, init[k]) {
          GradeWithout(js, i, init[k]);
        }
        SameGrades(js, rest, init);
        RankedExcess(t, rest, init);
        GradesWithout(js, i);
        ExcessWithout(t, Grades(js), i);
      } else {
        RankedExcess(t, js, init);
      }
    }
  }

  lemma SortedGrades(js: seq<Judgment>)
    ensures Descending(Seqs.Sort(AtLeast(), Grades(js)))
    ensures multiset(Seqs.Sort(AtLeast(), Grades(js))) == multiset(Grades(js))
    ensures |Seqs.Sort(AtLeast(), Grades(js))| == |js|
    ensures NonNegative(js) ==> forall i :: 0 <= i < |js| ==> Seqs.Sort(AtLeast(), Grades(js))[i] >= 0
  {
    var le := AtLeast();
    Seqs.SortSorts(le, Grades(js));
    Seqs.SortPermutes(le, Grades(js));
    var sorted := Seqs.Sort(le, Grades(js));
    Seqs.SameMembers(sorted, Grades(js));
    forall i, j | 0 <= i < j < |sorted| ensures sorted[i] >= sorted[j] {
      assert le(sorted[i], sorted[j]);
    }
    forall i | 0 <= i < |sorted| && NonNegative(js) ensures sorted[i] >= 0 {
      assert sorted[i] in Grades(js);
    }
  }

  /** Whatever the threshold, the first `n` ranked grades stay below it and its excess in all judgments. */
  lemma RankedBelow(js: seq<Judgment>, ranked: seq<string>, n: nat, t: nat)
    requires NonNegative(js) && Distinct(ranked)
    ensures Prefix(ActualGrades(js, ranked), n) <= n * t + ExcessSum(t, Grades(js))
  {
    var first := Seqs.Take(ranked, n);
    var all, some := ActualGrades(js, ranked), ActualGrades(js, first);
    RankedExcess(t, js, first);
    PrefixBelow(t, some, |first|);
    PrefixSame(all, some, |first|);
    PrefixPast(all, n, |first|);
    TimesGrows(|first|, n, t);
  }

  lemma SortedExcess(js: seq<Judgment>, n: nat) returns (t: nat)
    requires NonNegative(js) && n > 0
    ensures n * t + ExcessSum(t, Grades(js)) == Prefix(Seqs.Sort(AtLeast(), Grades(js)), n)
  {
    var sorted := Seqs.Sort(AtLeast(), Grades(js));
    SortedGrades(js);
    if n <= |sorted| {
      t := sorted[n - 1];
      ExcessOfSorted(t, sorted, n);
    } else {
      t := 0;
      ExcessOfSorted(t, sorted, |sorted|);
      PrefixPast(sorted, n, |sorted|);
    }
    ExcessPermutes(t, Grades(js), sorted);
  }

  /** The first `n` ranked grades sum to at most the `n` highest grades. */
  lemma PrefixDominates(js: seq<Judgment>, ranked: seq<string>, n: nat)
    requires NonNegative(js) && Distinct(ranked)
    ensures Prefix(ActualGrades(js, ranked), n) <= Prefix(Seqs.Sort(AtLeast(), Grades(js)), n)
  {
    if n > 0 {
      var t := SortedExcess(js, n);
      RankedBelow(js, ranked, n, t);
    }
  }

  lemma TimesGrows(a: nat, b: nat, t: nat)
    requires a <= b
    ensures a * t <= b * t
  {
  }

  lemma {:induction false} PrefixPast(a: seq<int>, n: nat, m: nat)
    requires m <= n && (m < n ==> |a| <= m)
    ensures Prefix(a, n) == Prefix(a, m)
    decreases n - m
  {
    if m < n { PrefixPast(a, n - 1, m); }
  }

  // ----- weighted sums -----

  /** The weighted sum of the first `n` entries. */
  function Weighted(w: Discount, a: seq<int>, n: nat): real {
    if n == 0 then 0.0 else Weighted(w, a, n - 1) + w(n - 1) * Entry(a, n - 1) as real
  }

  lemma {:induction false} DcgIsWeighted(w: Discount, a: seq<int>, n: nat)
    requires n <= |a|
    ensures Dcg(w, a[..n]) == Weighted(w, a, n)
  {
    if n > 0 {
      assert a[..n][..n - 1] == a[..n - 1];
      DcgIsWeighted(w, a, n - 1);
    }
  }

  lemma {:induction false} WeightedPast(w: Discount, a: seq<int>, n: nat, m: nat)
    requires m <= n && |a| <= m
    ensures Weighted(w, a, n) == Weighted(w, a, m)
    decreases n - m
  {
    if m < n {
      WeightedPast(w, a, n - 1, m);
      assert w(n - 1) * 0.0 == 0.0;
    }
  }

  lemma DcgTop(w: Discount, a: seq<int>, n: nat)
    requires |a| <= n
    ensures Dcg(w, a) == Weighted(w, a, n)
  {
    DcgIsWeighted(w, a, |a|);
    assert a[..|a|] == a;
    WeightedPast(w, a, n, |a|);
  }

  /** By how much the first `n` entries of `b` exceed those of `a`. */
  function Lead(a: seq<int>, b: seq<int>, n: nat): int {
    Prefix(b, n) - Prefix(a, n)
  }

  ghost predicate Leads(a: seq<int>, b: seq<int>, n: nat) {
    forall i: nat :: i <= n ==> Lead(a, b, i) >= 0
  }

  /** What the weighted sum of `b` gains over that of `a`, beyond the last weight times the lead. */
  function Surplus(w: Discount, a: seq<int>, b: seq<int>, n: nat): real
    requires n > 0
  {
    Weighted(w, b, n) - Weighted(w, a, n) - w(n - 1) * Lead(a, b, n) as real
  }

  lemma SurplusStep(w: Discount, a: seq<int>, b: seq<int>, n: nat)
    requires n > 0
    ensures Surplus(w, a, b, n + 1) == Surplus(w, a, b, n) + (w(n - 1) - w(n)) * Lead(a, b, n) as real
  {
    var x, y := Entry(b, n) as real, Entry(a, n) as real;
    var d := Lead(a, b, n) as real;
    assert Lead(a, b, n + 1) as real == d + (x - y);
    assert w(n) * (d + (x - y)) == w(n) * d + (w(n) * x - w(n) * y);
  }

  lemma SurplusStart(w: Discount, a: seq<int>, b: seq<int>)
    ensures Surplus(w, a, b, 1) == 0.0
  {
    assert Prefix(a, 1) == Entry(a, 0) && Prefix(b, 1) == Entry(b, 0);
    var x, y := Entry(b, 0) as real, Entry(a, 0) as real;
    assert Weighted(w, a, 1) == w(0) * y && Weighted(w, b, 1) == w(0) * x;
    assert w(0) * (x - y) == w(0) * x - w(0) * y;
    assert Lead(a, b, 1) as real == x - y;
  }

  lemma ProductNonNegative(x: real, y: real)
    requires x >= 0.0 && y >= 0.0
    ensures x * y >= 0.0
    ensures x > 0.0 && x * y == 0.0 ==> y == 0.0
  {
  }

  /** If `b` leads everywhere, the surplus is not negative, and zero only without any lead before `n`. */
  lemma {:induction false} SurplusLeads(w: Discount, a: seq<int>, b: seq<int>, n: nat)
    requires Decreasing(w) && n > 0 && Leads(a, b, n)
    ensures Surplus(w, a, b, n) >= 0.0
    ensures Surplus(w, a, b, n) == 0.0 ==> forall i: nat :: i < n ==> Lead(a, b, i) == 0
  {
    if n == 1 {
      SurplusStart(w, a, b);
    } else {
      SurplusLeads(w, a, b, n - 1);
      SurplusStep(w, a, b, n - 1);
      ProductNonNegative(w(n - 2) - w(n - 1), Lead(a, b, n - 1) as real);
    }
  }

  /** A list that leads everywhere has the higher weighted sum; the sums are equal only for equal entries. */
  lemma LeadsWeighted(w: Discount, a: seq<int>, b: seq<int>, n: nat)
    requires Decreasing(w) && n > 0 && Leads(a, b, n)
    ensures Weighted(w, a, n) <= Weighted(w, b, n)
    ensures Weighted(w, a, n) == Weighted(w, b, n) <==> forall i: nat :: i < n ==> Entry(a, i) == Entry(b, i)
  {
    SurplusLeads(w, a, b, n);
    ProductNonNegative(w(n - 1), Lead(a, b, n) as real);
    if Weighted(w, a, n) == Weighted(w, b, n) {
      assert forall i: nat :: i <= n ==> Lead(a, b, i) == 0;
      forall i: nat | i < n ensures Entry(a, i) == Entry(b, i) {
        assert Lead(a, b, i + 1) == Lead(a, b, i) + Entry(b, i) - Entry(a, i);
      }
    }
    if forall i: nat :: i < n ==> Entry(a, i) == Entry(b, i) { WeightedSame(w, a, b, n); }
  }

  lemma {:induction false} WeightedSame(w: Discount, a: seq<int>, b: seq<int>, n: nat)
    requires forall i: nat :: i < n ==> Entry(a, i) == Entry(b, i)
    ensures Weighted(w, a, n) == Weighted(w, b, n)
  {
    if n > 0 { WeightedSame(w, a, b, n - 1); }
  }

  // ----- nDCG@10 -----

  predicate Fair(q: Question, ranked: seq<string>) {
    NonNegative(q.judgments) && Distinct(ranked)
  }

  /** The grades of the first ten ranked paths. */
  function Ranked10(q: Question, ranked: seq<string>): seq<int> {
    ActualGrades(q.judgments, Seqs.Take(ranked, 10))
  }

  lemma IdealLeads(q: Question, ranked: seq<string>)
    requires Fair(q, ranked)
    ensures Leads(Ranked10(q, ranked), IdealGrades(q.judgments), 10)
  {
    var js, top := q.judgments, Seqs.Take(ranked, 10);
    var sorted := Seqs.Sort(AtLeast(), Grades(js));
    forall i: nat | i <= 10 ensures Lead(Ranked10(q, ranked), IdealGrades(js), i) >= 0 {
      PrefixDominates(js, top, i);
      PrefixSame(IdealGrades(js), sorted, i);
    }
  }

  lemma {:induction false} WeightedAtLeastFirst(w: Discount, a: seq<int>, n: nat)
    requires Decreasing(w) && n > 0 && forall i :: 0 <= i < |a| ==> a[i] >= 0
    ensures Weighted(w, a, n) >= w(0) * Entry(a, 0) as real >= 0.0
  {
    ProductNonNegative(w(n - 1), Entry(a, n - 1) as real);
    if n > 1 { WeightedAtLeastFirst(w, a, n - 1); }
  }

  lemma IdealNonNegative(js: seq<Judgment>)
    requires NonNegative(js)
    ensures forall i :: 0 <= i < |IdealGrades(js)| ==> IdealGrades(js)[i] >= 0
  {
    SortedGrades(js);
  }

  lemma HighestGradePositive(q: Question)
    requires NonNegative(q.judgments) && Answerable(q)
    ensures Entry(IdealGrades(q.judgments), 0) > 0
  {
    var js := q.judgments;
    var sorted := Seqs.Sort(AtLeast(), Grades(js));
    var p :| p in Relevant(js);
    var i :| 0 <= i < |js| && js[i].grade > 0 && js[i].path == p;
    SortedGrades(js);
    Seqs.SameMembers(sorted, Grades(js));
    assert Grades(js)[i] in sorted;
    var k :| 0 <= k < |sorted| && sorted[k] == Grades(js)[i];
    assert sorted[0] >= sorted[k];
  }

  /** An answerable question has a positive ideal. */
  lemma IdealPositive(w: Discount, q: Question)
    requires Decreasing(w) && NonNegative(q.judgments) && Answerable(q)
    ensures Dcg(w, IdealGrades(q.judgments)) > 0.0
  {
    var ideal := IdealGrades(q.judgments);
    HighestGradePositive(q);
    IdealNonNegative(q.judgments);
    DcgTop(w, ideal, 10);
    WeightedAtLeastFirst(w, ideal, 10);
    ProductNonNegative(w(0), Entry(ideal, 0) as real);
  }

  lemma {:induction false} GradeNonNegative(js: seq<Judgment>, path: string)
    requires NonNegative(js)
    ensures GradeOf(js, path) >= 0
  {
    if js != [] && js[|js| - 1].path != path { GradeNonNegative(js[..|js| - 1], path); }
  }

  lemma Cancel(x: real, y: real)
    requires y != 0.0
    ensures x / y * y == x
  {
  }

  lemma FactorNonNegative(a: real, y: real)
    requires y > 0.0 && a * y >= 0.0
    ensures a >= 0.0
  {
    if a < 0.0 { ProductNonNegative(-a, y); }
  }

  lemma QuotientBounds(x: real, y: real)
    requires 0.0 <= x <= y && y > 0.0
    ensures 0.0 <= x / y <= 1.0 && (x / y == 1.0 <==> x == y)
  {
    var z := x / y;
    Cancel(x, y);
    assert (1.0 - z) * y == y - x;
    FactorNonNegative(z, y);
    FactorNonNegative(1.0 - z, y);
  }

  /** nDCG@10 lies in [0, 1] for distinct ranked paths and non-negative grades. */
  lemma NdcgInRange(w: Discount, q: Question, ranked: seq<string>)
    requires Decreasing(w) && Fair(q, ranked)
    ensures 0.0 <= Ndcg(w, q, ranked) <= 1.0
  {
    NdcgParts(w, q, ranked);
    if Dcg(w, IdealGrades(q.judgments)) > 0.0 {
      QuotientBounds(Dcg(w, Ranked10(q, ranked)), Dcg(w, IdealGrades(q.judgments)));
    }
  }

  lemma NdcgParts(w: Discount, q: Question, ranked: seq<string>)
    requires Decreasing(w) && Fair(q, ranked)
    ensures 0.0 <= Dcg(w, Ranked10(q, ranked)) <= Dcg(w, IdealGrades(q.judgments))
    ensures Dcg(w, Ranked10(q, ranked)) == Dcg(w, IdealGrades(q.judgments)) <==>
      forall i: nat :: i < 10 ==> Entry(Ranked10(q, ranked), i) == Entry(IdealGrades(q.judgments), i)
  {
    var actual, ideal := Ranked10(q, ranked), IdealGrades(q.judgments);
    IdealLeads(q, ranked);
    LeadsWeighted(w, actual, ideal, 10);
    DcgTop(w, actual, 10);
    DcgTop(w, ideal, 10);
    forall i | 0 <= i < |actual| ensures actual[i] >= 0 {
      GradeNonNegative(q.judgments, Seqs.Take(ranked, 10)[i]);
    }
    WeightedAtLeastFirst(w, actual, 10);
  }

  /** For an answerable question it is 1 exactly when the grades come in the ideal order, down to rank ten. */
  lemma NdcgIsOneIff(w: Discount, q: Question, ranked: seq<string>)
    requires Decreasing(w) && Fair(q, ranked) && Answerable(q)
    ensures Ndcg(w, q, ranked) == 1.0 <==>
      forall i: nat :: i < 10 ==> Entry(Ranked10(q, ranked), i) == Entry(IdealGrades(q.judgments), i)
  {
    IdealPositive(w, q);
    NdcgParts(w, q, ranked);
    QuotientBounds(Dcg(w, Ranked10(q, ranked)), Dcg(w, IdealGrades(q.judgments)));
  }

  /** Distinct ranked paths are needed: a path that comes twice counts twice. */
  lemma RepeatsExceedOne(w: Discount, text: string, path: string)
    requires Decreasing(w)
    ensures Ndcg(w, Question(text, [Judgment(path, 1)]), [path, path]) > 1.0
  {
    var js := [Judgment(path, 1)];
    assert GradeOf(js, path) == 1;
    assert ActualGrades(js, [path, path]) == [1, 1] && Seqs.Take([path, path], 10) == [path, path];
    assert Grades(js) == [1];
    assert [1][1..] == [] && Seqs.Sort(AtLeast(), [1]) == Seqs.Insert(AtLeast(), 1, []);
    assert IdealGrades(js) == [1];
    DcgOfOnes(w);
    AboveOne(w(0) + w(1), w(0));
  }

  lemma DcgOfOnes(w: Discount)
    ensures Dcg(w, [1]) == w(0) && Dcg(w, [1, 1]) == w(0) + w(1)
  {
    assert [1][..0] == [] && [1, 1][..1] == [1];
    assert w(0) * 1.0 == w(0) && w(1) * 1.0 == w(1);
  }

  lemma AboveOne(x: real, y: real)
    requires x > y > 0.0
    ensures x / y > 1.0
  {
    Cancel(x, y);
    assert (x / y - 1.0) * y == x - y;
    FactorNonNegative(x / y - 1.0, y);
    assert x / y != 1.0;
  }

  // ----- the other figures -----

  lemma TakeBound(ranked: seq<string>, k: nat)
    ensures |ToSet(Seqs.Take(ranked, k))| <= k
  {
    SetBound(Seqs.Take(ranked, k));
  }

  lemma {:induction false} SetBound(s: seq<string>)
    ensures |ToSet(s)| <= |s|
  {
    if s != [] {
      SetBound(s[1..]);
      assert ToSet(s) == ToSet(s[1..]) + {s[0]};
    }
  }

  lemma SubsetBound<T>(a: set<T>, b: set<T>)
    requires a <= b
    ensures |a| <= |b|
  {
    assert b == a + (b - a);
  }

  lemma HitsBound(ranked: seq<string>, relevant: set<string>, k: nat)
    ensures Hits(ranked, relevant, k) <= k && Hits(ranked, relevant, k) <= |relevant|
  {
    var top := ToSet(Seqs.Take(ranked, k));
    TakeBound(ranked, k);
    SubsetBound(top * relevant, top);
    SubsetBound(top * relevant, relevant);
  }

  lemma RateInRange(q: Question, ranked: seq<string>, k: nat)
    requires Answerable(q) && k > 0
    ensures 0.0 <= Recall(q, ranked, k) <= 1.0
    ensures 0.0 <= Precision(q, ranked, k) <= 1.0
  {
    var relevant := Relevant(q.judgments);
    HitsBound(ranked, relevant, k);
    QuotientBounds(Hits(ranked, relevant, k) as real, |relevant| as real);
    QuotientBounds(Hits(ranked, relevant, k) as real, k as real);
  }

  /** The first relevant path from `i` on is at `j`. */
  predicate FirstAt(ranked: seq<string>, relevant: set<string>, i: nat, j: nat) {
    i <= j < |ranked| && ranked[j] in relevant && forall m :: i <= m < j ==> ranked[m] !in relevant
  }

  lemma ReciprocalBounds(n: nat)
    requires n > 0
    ensures 0.0 < 1.0 / n as real <= 1.0
  {
    QuotientBounds(1.0, n as real);
    Cancel(1.0, n as real);
  }

  /** The reciprocal rank is that of the first relevant path. */
  lemma {:induction false} RankOfFirst(ranked: seq<string>, relevant: set<string>, i: nat, j: nat)
    requires FirstAt(ranked, relevant, i, j)
    ensures ReciprocalRankFrom(ranked, relevant, i) == 1.0 / (j + 1) as real
    decreases j - i
  {
    if i < j { RankOfFirst(ranked, relevant, i + 1, j); }
  }

  /** It is zero exactly when no relevant path is ranked, and never above one. */
  lemma {:induction false} RankInRange(ranked: seq<string>, relevant: set<string>, i: nat)
    ensures ReciprocalRankFrom(ranked, relevant, i) == 0.0 <==>
      forall j :: i <= j < |ranked| ==> ranked[j] !in relevant
    ensures 0.0 <= ReciprocalRankFrom(ranked, relevant, i) <= 1.0
    decreases |ranked| - i
  {
    if i < |ranked| {
      ReciprocalBounds(i + 1);
      RankInRange(ranked, relevant, i + 1);
    }
  }

  predicate InUnit(values: seq<real>) {
    forall i :: 0 <= i < |values| ==> 0.0 <= values[i] <= 1.0
  }

  lemma {:induction false} SumInRange(values: seq<real>)
    requires InUnit(values)
    ensures 0.0 <= Sum(values) <= |values| as real
  {
    if values != [] { SumInRange(values[..|values| - 1]); }
  }

  lemma AverageInRange(values: seq<real>)
    requires InUnit(values)
    ensures 0.0 <= Average(values) <= 1.0
  {
    SumInRange(values);
    if values != [] { QuotientBounds(Sum(values), |values| as real); }
  }

  lemma {:induction false} CollectInRange(value: Valuation, figure: Figure, corpus: seq<Question>)
    requires forall i :: 0 <= i < |corpus| && Answerable(corpus[i]) ==> 0.0 <= value(figure, corpus[i]) <= 1.0
    ensures InUnit(Collect(value, figure, corpus))
  {
    if corpus != [] { CollectInRange(value, figure, corpus[..|corpus| - 1]); }
  }

  /** Every figure of the report lies between zero and one. */
  lemma ReportInRange(w: Discount, corpus: seq<Question>, search: Search, figure: Figure)
    requires Decreasing(w)
    requires forall i :: 0 <= i < |corpus| ==> Fair(corpus[i], search(corpus[i].text))
    requires figure.RecallAt? || figure.PrecisionAt? ==> figure.k > 0
    ensures 0.0 <= Mean(Values(w, search), figure, corpus) <= 1.0
    ensures 0.0 <= Evaluate(w, corpus, search).falsePositiveRate <= 1.0
  {
    var value := Values(w, search);
    forall i | 0 <= i < |corpus| && Answerable(corpus[i]) ensures 0.0 <= value(figure, corpus[i]) <= 1.0 {
      FigureInRange(w, search, figure, corpus[i]);
    }
    CollectInRange(value, figure, corpus);
    AverageInRange(Collect(value, figure, corpus));
    if Unanswerable(corpus) > 0 {
      QuotientBounds(FalsePositives(corpus, search) as real, Unanswerable(corpus) as real);
    }
  }

  lemma FigureInRange(w: Discount, search: Search, figure: Figure, q: Question)
    requires Decreasing(w) && Fair(q, search(q.text)) && Answerable(q)
    requires figure.RecallAt? || figure.PrecisionAt? ==> figure.k > 0
    ensures 0.0 <= Value(w, search, figure, q) <= 1.0
  {
    match figure
    case RecallAt(k) => RateInRange(q, search(q.text), k);
    case PrecisionAt(k) => RateInRange(q, search(q.text), k);
    case FirstRank => RankInRange(search(q.text), Relevant(q.judgments), 0);
    case Gain => NdcgInRange(w, q, search(q.text));
  }

  /** What the search returns is fit for the evaluation: with one path per note, no path comes twice. */
  lemma SearchIsDistinct(reranked: seq<int>, noteOf: map<int, int>, paths: map<int, string>)
    requires forall a, b :: a in paths && b in paths && paths[a] == paths[b] ==> a == b
    ensures Distinct(RankedPaths(reranked, noteOf, paths))
  {
    NotesExist(reranked, noteOf, paths);
    var ids := Seqs.FirstTimes(Notes(reranked, noteOf, paths));
    forall i, j | 0 <= i < j < |ids| ensures PathsOf(ids, paths)[i] != PathsOf(ids, paths)[j] {
      assert ids[i] != ids[j];
    }
  }
}
