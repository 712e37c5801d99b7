/** The figures of the evaluation, told by what one more rank, one more value or one more question adds. */
module EvaluationFigures {
  import opened Evaluation
  import Seqs

  // ----- recall and precision -----

  /** Some judgment gives the path a grade above zero. */
  predicate Judged(q: Question, path: string) {
    exists i :: 0 <= i < |q.judgments| && q.judgments[i].path == path && q.judgments[i].grade > 0
  }

  /** At rank `k`, counted from 0, a relevant path shows for the first time. */
  predicate NewAt(q: Question, ranked: seq<string>, k: nat) {
    k < |ranked| && Judged(q, ranked[k]) && ranked[k] !in ranked[..k]
  }

  function One(b: bool): real {
    if b then 1.0 else 0.0
  }

  lemma ToSetNext(s: seq<string>, p: string)
    ensures ToSet(s + [p]) == ToSet(s) + {p}
    ensures p in ToSet(s) <==> p in s
  {
  }

  lemma OverlapNext(before: set<string>, p: string, relevant: set<string>)
    ensures |(before + {p}) * relevant| == |before * relevant| + if p in relevant && p !in before then 1 else 0
  {
    if p in relevant && p !in before {
      assert (before + {p}) * relevant == before * relevant + {p};
    } else {
      assert (before + {p}) * relevant == before * relevant;
    }
  }

  lemma HitsNext(ranked: seq<string>, relevant: set<string>, k: nat)
    ensures Hits(ranked, relevant, k + 1) == Hits(ranked, relevant, k) +
            if k < |ranked| && ranked[k] in relevant && ranked[k] !in ranked[..k] then 1 else 0
  {
    if k < |ranked| {
      assert ranked[..k + 1] == ranked[..k] + [ranked[k]];
      ToSetNext(ranked[..k], ranked[k]);
      OverlapNext(ToSet(ranked[..k]), ranked[k], relevant);
    } else {
      assert ranked[..|ranked|] == ranked;
    }
  }

  lemma NothingHit(ranked: seq<string>, relevant: set<string>)
    ensures Hits(ranked, relevant, 0) == 0
  {
    assert ToSet(Seqs.Take(ranked, 0)) * relevant == {};
  }

  lemma Quotient(total: real, n: nat)
    requires n > 0
    ensures (total / n as real) * n as real == total
  {
  }

  lemma RelevantIsJudged(q: Question, p: string)
    ensures p in Relevant(q.judgments) <==> Judged(q, p)
  {
  }

  /** How many relevant paths the first `k` ranks show, repetitions not counting. */
  function Shown(q: Question, ranked: seq<string>, k: nat): nat {
    if k == 0 then 0 else Shown(q, ranked, k - 1) + if NewAt(q, ranked, k - 1) then 1 else 0
  }

  lemma NewHit(q: Question, ranked: seq<string>, relevant: set<string>, k: nat)
    requires relevant == Relevant(q.judgments)
    ensures Hits(ranked, relevant, k + 1) == Hits(ranked, relevant, k) + if NewAt(q, ranked, k) then 1 else 0
  {
    HitsNext(ranked, relevant, k);
    if k < |ranked| { RelevantIsJudged(q, ranked[k]); }
  }

  lemma {:induction false} HitsAreShown(q: Question, ranked: seq<string>, k: nat)
    ensures Hits(ranked, Relevant(q.judgments), k) == Shown(q, ranked, k)
  {
    if k == 0 {
      NothingHit(ranked, Relevant(q.judgments));
    } else {
      HitsAreShown(q, ranked, k - 1);
      NewHit(q, ranked, Relevant(q.judgments), k - 1);
    }
  }

  /** Judgment `i` is the first one of its path with a grade above zero. */
  predicate FirstFor(js: seq<Judgment>, i: nat)
    requires i < |js|
  {
    js[i].grade > 0 && forall m :: 0 <= m < i ==> !(js[m].grade > 0 && js[m].path == js[i].path)
  }

  /** How many paths have a grade above zero. */
  function RelevantCount(js: seq<Judgment>): nat {
    if js == [] then 0 else RelevantCount(js[..|js| - 1]) + if FirstFor(js, |js| - 1) then 1 else 0
  }

  lemma RelevantNext(init: seq<Judgment>, last: Judgment)
    ensures Relevant(init + [last]) == Relevant(init) + if last.grade > 0 then {last.path} else {}
  {
    var js := init + [last];
    assert js[|init|] == last && forall i :: 0 <= i < |init| ==> js[i] == init[i];
    forall p | p in Relevant(init) ensures p in Relevant(js) {
      var i :| 0 <= i < |init| && init[i].grade > 0 && init[i].path == p;
      assert js[i].path == p;
    }
    forall p | p in Relevant(js) ensures p in Relevant(init) || (last.grade > 0 && p == last.path) {
      var i :| 0 <= i < |js| && js[i].grade > 0 && js[i].path == p;
      assert i < |init| ==> init[i].path == p;
    }
  }

  lemma FirstIsNew(init: seq<Judgment>, last: Judgment)
    ensures FirstFor(init + [last], |init|) <==> last.grade > 0 && last.path !in Relevant(init)
  {
    var js := init + [last];
    assert js[|init|] == last && forall i :: 0 <= i < |init| ==> js[i] == init[i];
  }

  lemma AddOne(a: set<string>, x: string)
    ensures |a + {x}| == |a| + if x in a then 0 else 1
  {
    if x in a { assert a + {x} == a; }
  }

  lemma {:induction false} RelevantSize(js: seq<Judgment>)
    ensures |Relevant(js)| == RelevantCount(js)
  {
    if js != [] {
      var init, last := js[..|js| - 1], js[|js| - 1];
      assert js == init + [last];
      RelevantSize(init);
      RelevantNext(init, last);
      FirstIsNew(init, last);
      if last.grade > 0 {
        AddOne(Relevant(init), last.path);
      } else {
        assert Relevant(init) + {} == Relevant(init);
      }
    }
  }

  /** Recall and precision: the relevant paths shown, as a share of all relevant paths and of the ranks. */
  lemma RatesCount(q: Question, ranked: seq<string>, k: nat)
    ensures var n := RelevantCount(q.judgments);
      Recall(q, ranked, k) == if n == 0 then 0.0 else Shown(q, ranked, k) as real / n as real
    ensures Precision(q, ranked, k) == if k == 0 then 0.0 else Shown(q, ranked, k) as real / k as real
  {
    HitsAreShown(q, ranked, k);
    RelevantSize(q.judgments);
  }

  // ----- gain -----

  function Later(w: Discount, n: nat): Discount {
    (i: nat) => w(n + i)
  }

  /** The gain of a list is that of its first part and that of the rest, discounted from where it starts. */
  lemma {:induction false} DcgSplit(w: Discount, a: seq<int>, b: seq<int>)
    ensures Dcg(w, a + b) == Dcg(w, a) + Dcg(Later(w, |a|), b)
  {
    if b == [] {
      assert a + b == a;
    } else {
      var n := |b| - 1;
      assert (a + b)[..|a| + n] == a + b[..n];
      DcgSplit(w, a, b[..n]);
    }
  }

  lemma DcgOfTwo(w: Discount, x: int, y: int)
    ensures Dcg(w, [x]) == w(0) * x as real
    ensures Dcg(w, [x, y]) == w(0) * x as real + w(1) * y as real
  {
    assert [x][..0] == [] && [x, y][..1] == [x];
  }

  lemma SwapIn(w: Discount, a: seq<int>, x: int, y: int, b: seq<int>)
    ensures Dcg(w, a + [x, y] + b) ==
            Dcg(w, a) + w(|a|) * x as real + w(|a| + 1) * y as real + Dcg(Later(w, |a| + 2), b)
  {
    DcgSplit(w, a + [x, y], b);
    DcgSplit(w, a, [x, y]);
    DcgOfTwo(Later(w, |a|), x, y);
  }

  /** Exchanging two neighbours changes the gain by the difference of their grades, times that of their discounts. */
  lemma ExchangeNeighbours(w: Discount, a: seq<int>, x: int, y: int, b: seq<int>)
    ensures Dcg(w, a + [x, y] + b) - Dcg(w, a + [y, x] + b)
         == (w(|a|) - w(|a| + 1)) * (x as real - y as real)
  {
    SwapIn(w, a, x, y, b);
    SwapIn(w, a, y, x, b);
    Difference(w(|a|), w(|a| + 1), x as real, y as real);
  }

  lemma Difference(u: real, v: real, x: real, y: real)
    ensures (u * x + v * y) - (u * y + v * x) == (u - v) * (x - y)
  {
  }

  // ----- averages -----

  /** One more value changes an average by its share. */
  lemma AverageNext(a: seq<real>, x: real)
    ensures Average(a + [x]) * (|a| + 1) as real == Average(a) * |a| as real + x
  {
    assert (a + [x])[..|a|] == a;
    Quotient(Sum(a + [x]), |a| + 1);
    if a != [] { Quotient(Sum(a), |a|); }
  }

  /** `before` is the average of n values, `after` that of these and `x`. */
  ghost predicate Averaged(after: real, before: real, n: nat, x: real) {
    exists values :: |values| == n && AveragesOf(values, x, before, after)
  }

  ghost predicate AveragesOf(values: seq<real>, x: real, before: real, after: real) {
    before == Average(values) && after == Average(values + [x])
  }

  // ----- the report, question by question -----

  lemma {:induction false} CollectCount(value: Valuation, figure: Figure, corpus: seq<Question>)
    ensures |Collect(value, figure, corpus)| == |corpus| - Unanswerable(corpus)
  {
    if corpus != [] { CollectCount(value, figure, corpus[..|corpus| - 1]); }
  }

  lemma CollectLast(value: Valuation, figure: Figure, corpus: seq<Question>, q: Question)
    ensures Collect(value, figure, corpus + [q]) ==
            Collect(value, figure, corpus) + if Answerable(q) then [value(figure, q)] else []
  {
    assert (corpus + [q])[..|corpus|] == corpus;
  }

  /** What one more question does to an average over the answerable ones. */
  lemma MeanNext(value: Valuation, figure: Figure, corpus: seq<Question>, q: Question)
    ensures Answerable(q) ==>
              Averaged(Mean(value, figure, corpus + [q]), Mean(value, figure, corpus),
                       |corpus| - Unanswerable(corpus), value(figure, q))
    ensures !Answerable(q) ==> Mean(value, figure, corpus + [q]) == Mean(value, figure, corpus)
  {
    var values := Collect(value, figure, corpus);
    CollectLast(value, figure, corpus, q);
    CollectCount(value, figure, corpus);
    if Answerable(q) {
      assert AveragesOf(values, value(figure, q), Mean(value, figure, corpus), Mean(value, figure, corpus + [q]));
    } else {
      assert values + [] == values;
    }
  }

  /** What one more question with relevant paths does to a report; `value` gives the figures of the question. */
  ghost predicate Extended(before: Report, after: Report, value: Valuation, q: Question) {
    var n := before.answerable;
    && before.recall.Keys == after.recall.Keys == before.precision.Keys == after.precision.Keys == {3, 5, 10}
    && after.answerable == n + 1 && after.falsePositiveRate == before.falsePositiveRate
    && (forall k | k in {3, 5, 10} :: Averaged(after.recall[k], before.recall[k], n, value(RecallAt(k), q))
                                      && Averaged(after.precision[k], before.precision[k], n, value(PrecisionAt(k), q)))
    && Averaged(after.mrr, before.mrr, n, value(FirstRank, q))
    && Averaged(after.ndcg, before.ndcg, n, value(Figure.Gain, q))
  }

  /** The figures of a question are those of its ranked list. */
  lemma RatesAre(w: Discount, search: Search, q: Question, k: nat)
    ensures Values(w, search)(RecallAt(k), q) == Recall(q, search(q.text), k)
    ensures Values(w, search)(PrecisionAt(k), q) == Precision(q, search(q.text), k)
  {
  }

  lemma GainsAre(w: Discount, search: Search, q: Question)
    ensures Values(w, search)(FirstRank, q) == ReciprocalRank(q, search(q.text))
    ensures Values(w, search)(Figure.Gain, q) == Ndcg(w, q, search(q.text))
  {
  }

  /** What one more question without relevant paths does: only the false positive rate can change. */
  ghost predicate Counted(before: Report, after: Report, ranked: seq<string>) {
    && after == before.(questions := after.questions, falsePositiveRate := after.falsePositiveRate)
    && before.answerable <= before.questions
    && Averaged(after.falsePositiveRate, before.falsePositiveRate, before.questions - before.answerable,
                One(ranked != []))
  }

  lemma CutoffExtends(w: Discount, corpus: seq<Question>, q: Question, search: Search, value: Valuation, k: nat)
    requires k in {3, 5, 10} && Answerable(q) && value == Values(w, search)
    ensures var before, after := Evaluate(w, corpus, search), Evaluate(w, corpus + [q], search);
      && Averaged(after.recall[k], before.recall[k], before.answerable, value(RecallAt(k), q))
      && Averaged(after.precision[k], before.precision[k], before.answerable, value(PrecisionAt(k), q))
  {
    MeanNext(value, RecallAt(k), corpus, q);
    MeanNext(value, PrecisionAt(k), corpus, q);
  }

  lemma MeansStay(value: Valuation, corpus: seq<Question>, q: Question, recall: bool)
    requires !Answerable(q)
    ensures Means(value, corpus + [q], recall) == Means(value, corpus, recall)
  {
    var before, after := Means(value, corpus, recall), Means(value, corpus + [q], recall);
    forall k | k in {3, 5, 10} ensures after[k] == before[k] {
      MeanNext(value, if recall then RecallAt(k) else PrecisionAt(k), corpus, q);
    }
  }

  lemma CutoffStays(w: Discount, corpus: seq<Question>, q: Question, search: Search)
    requires !Answerable(q)
    ensures var before, after := Evaluate(w, corpus, search), Evaluate(w, corpus + [q], search);
      after.recall == before.recall && after.precision == before.precision
  {
    MeansStay(Values(w, search), corpus, q, true);
    MeansStay(Values(w, search), corpus, q, false);
  }

  function Rate(corpus: seq<Question>, search: Search): real {
    if Unanswerable(corpus) == 0 then 0.0 else FalsePositives(corpus, search) as real / Unanswerable(corpus) as real
  }

  /** For every unanswerable question, whether something is returned. */
  function Returned(corpus: seq<Question>, search: Search): seq<real> {
    if corpus == [] then []
    else
      var q := corpus[|corpus| - 1];
      Returned(corpus[..|corpus| - 1], search) + if Answerable(q) then [] else [One(search(q.text) != [])]
  }

  lemma {:induction false} ReturnedSum(corpus: seq<Question>, search: Search)
    ensures |Returned(corpus, search)| == Unanswerable(corpus)
    ensures Sum(Returned(corpus, search)) == FalsePositives(corpus, search) as real
  {
    if corpus != [] {
      var init, q := corpus[..|corpus| - 1], corpus[|corpus| - 1];
      ReturnedSum(init, search);
      var before := Returned(init, search);
      if Answerable(q) {
        assert before + [] == before;
      } else {
        assert (before + [One(search(q.text) != [])])[..|before|] == before;
      }
    }
  }

  lemma RateIsAverage(corpus: seq<Question>, search: Search)
    ensures Rate(corpus, search) == Average(Returned(corpus, search))
  {
    ReturnedSum(corpus, search);
  }

  lemma RateNext(corpus: seq<Question>, q: Question, search: Search)
    ensures Unanswerable(corpus + [q]) == Unanswerable(corpus) + if Answerable(q) then 0 else 1
    ensures Answerable(q) ==> Rate(corpus + [q], search) == Rate(corpus, search)
    ensures !Answerable(q) ==>
              Averaged(Rate(corpus + [q], search), Rate(corpus, search), Unanswerable(corpus),
                       One(search(q.text) != []))
  {
    assert (corpus + [q])[..|corpus|] == corpus;
    var values, x := Returned(corpus, search), One(search(q.text) != []);
    ReturnedSum(corpus, search);
    RateIsAverage(corpus, search);
    RateIsAverage(corpus + [q], search);
    if Answerable(q) {
      assert values + [] == values;
    } else {
      assert AveragesOf(values, x, Rate(corpus, search), Rate(corpus + [q], search));
    }
  }

  lemma ExtendedNext(w: Discount, corpus: seq<Question>, q: Question, search: Search, value: Valuation)
    requires Answerable(q) && value == Values(w, search)
    ensures Extended(Evaluate(w, corpus, search), Evaluate(w, corpus + [q], search), value, q)
  {
    var before, after := Evaluate(w, corpus, search), Evaluate(w, corpus + [q], search);
    forall k | k in {3, 5, 10}
      ensures Averaged(after.recall[k], before.recall[k], before.answerable, value(RecallAt(k), q))
      ensures Averaged(after.precision[k], before.precision[k], before.answerable, value(PrecisionAt(k), q))
    {
      CutoffExtends(w, corpus, q, search, value, k);
    }
    MeanNext(value, FirstRank, corpus, q);
    MeanNext(value, Figure.Gain, corpus, q);
    RateNext(corpus, q, search);
  }

  lemma CountedNext(w: Discount, corpus: seq<Question>, q: Question, search: Search)
    requires !Answerable(q)
    ensures Counted(Evaluate(w, corpus, search), Evaluate(w, corpus + [q], search), search(q.text))
  {
    CutoffStays(w, corpus, q, search);
    MeanNext(Values(w, search), FirstRank, corpus, q);
    MeanNext(Values(w, search), Figure.Gain, corpus, q);
    RateNext(corpus, q, search);
  }

  /** A report is built up from nothing, one question at a time. */
  lemma OneMoreQuestion(w: Discount, corpus: seq<Question>, q: Question, search: Search)
    ensures var before, after := Evaluate(w, corpus, search), Evaluate(w, corpus + [q], search);
      && after.questions == before.questions + 1
      && if exists p :: Judged(q, p) then Extended(before, after, Values(w, search), q)
         else Counted(before, after, search(q.text))
  {
    forall p { RelevantIsJudged(q, p); }
    if Answerable(q) {
      var p :| p in Relevant(q.judgments);
      ExtendedNext(w, corpus, q, search, Values(w, search));
    } else {
      CountedNext(w, corpus, q, search);
    }
  }

  /** Without questions every figure is zero. */
  lemma NoQuestions(w: Discount, search: Search)
    ensures Evaluate(w, [], search) == Report(map[3 := 0.0, 5 := 0.0, 10 := 0.0], map[3 := 0.0, 5 := 0.0, 10 := 0.0],
                                              0.0, 0.0, 0, 0, 0.0)
  {
    var r := Evaluate(w, [], search);
    assert r.recall == map[3 := 0.0, 5 := 0.0, 10 := 0.0];
    assert r.precision == map[3 := 0.0, 5 := 0.0, 10 := 0.0];
  }

  // ----- the ranked paths of a search -----

  /** The chunk has a row, and so has its note. */
  predicate Shows(noteOf: map<int, int>, paths: map<int, string>, chunk: int, note: int) {
    chunk in noteOf && noteOf[chunk] == note && note in paths
  }

  lemma {:induction false} NotesConcat(a: seq<int>, b: seq<int>, noteOf: map<int, int>, paths: map<int, string>)
    ensures Notes(a + b, noteOf, paths) == Notes(a, noteOf, paths) + Notes(b, noteOf, paths)
  {
    if b == [] {
      assert a + b == a;
    } else {
      var n := |b| - 1;
      assert (a + b)[..|a| + n] == a + b[..n];
      NotesConcat(a, b[..n], noteOf, paths);
    }
  }

  lemma {:induction false} NotesMember(reranked: seq<int>, noteOf: map<int, int>, paths: map<int, string>, note: int)
    ensures note in Notes(reranked, noteOf, paths) <==>
            exists i :: 0 <= i < |reranked| && Shows(noteOf, paths, reranked[i], note)
  {
    if reranked != [] {
      var init, last := reranked[..|reranked| - 1], reranked[|reranked| - 1];
      NotesMember(init, noteOf, paths, note);
      if i :| 0 <= i < |init| && Shows(noteOf, paths, init[i], note) { assert Shows(noteOf, paths, reranked[i], note); }
    }
  }

  /** Some of the chunks show note `a`, and none of them note `b`. */
  predicate Sooner(chunks: seq<int>, noteOf: map<int, int>, paths: map<int, string>, a: int, b: int) {
    && (exists i :: 0 <= i < |chunks| && Shows(noteOf, paths, chunks[i], a))
    && (forall i :: 0 <= i < |chunks| ==> !Shows(noteOf, paths, chunks[i], b))
  }

  lemma SoonerFirst(reranked: seq<int>, noteOf: map<int, int>, paths: map<int, string>, n: nat, a: int, b: int)
    requires n <= |reranked| && Sooner(reranked[..n], noteOf, paths, a, b) && b in Notes(reranked, noteOf, paths)
    ensures Seqs.Before(Seqs.FirstTimes(Notes(reranked, noteOf, paths)), a, b)
  {
    var notes, first := Notes(reranked, noteOf, paths), Notes(reranked[..n], noteOf, paths);
    NotesMember(reranked[..n], noteOf, paths, a);
    NotesMember(reranked[..n], noteOf, paths, b);
    assert reranked == reranked[..n] + reranked[n..];
    NotesConcat(reranked[..n], reranked[n..], noteOf, paths);
    assert notes[..|first|] == first;
    Seqs.FirstTimesInOrder(notes, |first|, a, b);
  }

  /**
    The search answers the paths of exactly the notes that some ranked chunk shows, each note once, a note
    whose first chunk ranks higher first.
   */
  lemma SearchAnswers(reranked: seq<int>, noteOf: map<int, int>, paths: map<int, string>) returns (ids: seq<int>)
    ensures AllIn(ids, paths) && RankedPaths(reranked, noteOf, paths) == PathsOf(ids, paths)
    ensures forall note :: note in ids <==> exists i :: 0 <= i < |reranked| && Shows(noteOf, paths, reranked[i], note)
    ensures forall i, j :: 0 <= i < j < |ids| ==> ids[i] != ids[j]
    ensures forall a, b, n :: 0 <= n <= |reranked| && Sooner(reranked[..n], noteOf, paths, a, b) && b in ids ==>
              Seqs.Before(ids, a, b)
  {
    ids := Seqs.FirstTimes(Notes(reranked, noteOf, paths));
    NotesExist(reranked, noteOf, paths);
    forall note ensures note in ids <==> exists i :: 0 <= i < |reranked| && Shows(noteOf, paths, reranked[i], note) {
      NotesMember(reranked, noteOf, paths, note);
    }
    forall a, b, n | 0 <= n <= |reranked| && Sooner(reranked[..n], noteOf, paths, a, b) && b in ids
      ensures Seqs.Before(ids, a, b)
    {
      SoonerFirst(reranked, noteOf, paths, n, a, b);
    }
  }
}
