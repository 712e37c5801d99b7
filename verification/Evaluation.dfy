/** The retrieval evaluation harness, and the ranked paths that the search feeds to it. */
module Evaluation {
  import Seqs

  datatype Judgment = Judgment(path: string, grade: int)

  datatype Question = Question(text: string, judgments: seq<Judgment>)

  /** By rank, counted from 0: the reciprocal of the base-2 logarithm of rank + 2. */
  type Discount = nat -> real

  /** A ranked list of paths for each query text. */
  type Search = string -> seq<string>

  const CUTOFFS: seq<nat> := [3, 5, 10]

  // ----- one question -----

  function Relevant(js: seq<Judgment>): (r: set<string>)
    ensures forall p :: p in r <==> exists i :: 0 <= i < |js| && js[i].grade > 0 && js[i].path == p
  {
    set i | 0 <= i < |js| && js[i].grade > 0 :: js[i].path
  }

  predicate Answerable(q: Question) {
    Relevant(q.judgments) != {}
  }

  function ToSet(s: seq<string>): set<string> {
    set p | p in s
  }

  function Hits(ranked: seq<string>, relevant: set<string>, k: nat): nat {
    |ToSet(Seqs.Take(ranked, k)) * relevant|
  }

  function Recall(q: Question, ranked: seq<string>, k: nat): real {
    var relevant := Relevant(q.judgments);
    if relevant == {} then 0.0 else Hits(ranked, relevant, k) as real / |relevant| as real
  }

  function Precision(q: Question, ranked: seq<string>, k: nat): real {
    if k == 0 then 0.0 else Hits(ranked, Relevant(q.judgments), k) as real / k as real
  }

  /** The reciprocal rank of the first relevant path from index `i` on. */
  function ReciprocalRankFrom(ranked: seq<string>, relevant: set<string>, i: nat): real
    decreases |ranked| - i
  {
    if i >= |ranked| then 0.0
    else if ranked[i] in relevant then 1.0 / (i + 1) as real
    else ReciprocalRankFrom(ranked, relevant, i + 1)
  }

  function ReciprocalRank(q: Question, ranked: seq<string>): real {
    ReciprocalRankFrom(ranked, Relevant(q.judgments), 0)
  }

  /** grade_by_path.get(path, 0): the last judgment of a path counts. */
  function GradeOf(js: seq<Judgment>, path: string): int {
    if js == [] then 0
    else if js[|js| - 1].path == path then js[|js| - 1].grade
    else GradeOf(js[..|js| - 1], path)
  }

  function Grades(js: seq<Judgment>): (r: seq<int>)
    ensures |r| == |js| && forall i :: 0 <= i < |r| ==> r[i] == js[i].grade
  {
    seq(|js|, (i: int) requires 0 <= i < |js| => js[i].grade)
  }

  function Dcg(w: Discount, grades: seq<int>): real {
    if grades == [] then 0.0
    else Dcg(w, grades[..|grades| - 1]) + w(|grades| - 1) * grades[|grades| - 1] as real
  }

  function AtLeast(): (int, int) -> bool {
    (a: int, b: int) => a >= b
  }

  function ActualGrades(js: seq<Judgment>, ranked: seq<string>): (r: seq<int>)
    ensures |r| == |ranked| && forall i :: 0 <= i < |r| ==> r[i] == GradeOf(js, ranked[i])
  {
    seq(|ranked|, (i: int) requires 0 <= i < |ranked| => GradeOf(js, ranked[i]))
  }

  function IdealGrades(js: seq<Judgment>): seq<int> {
    Seqs.Take(Seqs.Sort(AtLeast(), Grades(js)), 10)
  }

  function Ndcg(w: Discount, q: Question, ranked: seq<string>): real {
    var ideal := Dcg(w, IdealGrades(q.judgments));
    if ideal > 0.0 then Dcg(w, ActualGrades(q.judgments, Seqs.Take(ranked, 10))) / ideal else 0.0
  }

  // ----- the report -----

  datatype Report = Report(recall: map<nat, real>, precision: map<nat, real>, mrr: real, ndcg: real,
                           questions: nat, answerable: nat, falsePositiveRate: real)

  function Sum(values: seq<real>): real {
    if values == [] then 0.0 else Sum(values[..|values| - 1]) + values[|values| - 1]
  }

  function Average(values: seq<real>): real {
    if values == [] then 0.0 else Sum(values) / |values| as real
  }

  /** The four figures of a question. */
  datatype Figure = RecallAt(k: nat) | PrecisionAt(k: nat) | FirstRank | Gain

  function Value(w: Discount, search: Search, figure: Figure, q: Question): real {
    var ranked := search(q.text);
    match figure
    case RecallAt(k) => Recall(q, ranked, k)
    case PrecisionAt(k) => Precision(q, ranked, k)
    case FirstRank => ReciprocalRank(q, ranked)
    case Gain => Ndcg(w, q, ranked)
  }

  type Valuation = (Figure, Question) -> real

  function Values(w: Discount, search: Search): Valuation {
    (figure, q) => Value(w, search, figure, q)
  }

  /** A figure of every answerable question, in order. */
  function Collect(value: Valuation, figure: Figure, corpus: seq<Question>): seq<real> {
    if corpus == [] then []
    else
      var q := corpus[|corpus| - 1];
      Collect(value, figure, corpus[..|corpus| - 1]) + if Answerable(q) then [value(figure, q)] else []
  }

  function Unanswerable(corpus: seq<Question>): (n: nat)
    ensures n <= |corpus|
  {
    if corpus == [] then 0
    else Unanswerable(corpus[..|corpus| - 1]) + if Answerable(corpus[|corpus| - 1]) then 0 else 1
  }

  /** Unanswerable questions for which something is returned. */
  function FalsePositives(corpus: seq<Question>, search: Search): (n: nat)
    ensures n <= Unanswerable(corpus)
  {
    if corpus == [] then 0
    else
      var q := corpus[|corpus| - 1];
      FalsePositives(corpus[..|corpus| - 1], search) + if !Answerable(q) && search(q.text) != [] then 1 else 0
  }

  function Mean(value: Valuation, figure: Figure, corpus: seq<Question>): real {
    Average(Collect(value, figure, corpus))
  }

  /** The mean recall or precision by cutoff. */
  function Means(value: Valuation, corpus: seq<Question>, recall: bool): (r: map<nat, real>)
    ensures r.Keys == {3, 5, 10}
  {
    map k: nat | k in {3, 5, 10} :: Mean(value, if recall then RecallAt(k) else PrecisionAt(k), corpus)
  }

  function Evaluate(w: Discount, corpus: seq<Question>, search: Search): Report {
    Report(
      Means(Values(w, search), corpus, true), Means(Values(w, search), corpus, false),
      Mean(Values(w, search), FirstRank, corpus),
      Mean(Values(w, search), Gain, corpus),
      |corpus|, |corpus| - Unanswerable(corpus),
      if Unanswerable(corpus) == 0 then 0.0 else FalsePositives(corpus, search) as real / Unanswerable(corpus) as real)
  }

  method FirstRelevant(ranked: seq<string>, relevant: set<string>) returns (rr: real)
    ensures rr == ReciprocalRankFrom(ranked, relevant, 0)
  {
    rr := 0.0;
    var i := 0;
    while i < |ranked|
      invariant 0 <= i <= |ranked| && rr == 0.0
      invariant ReciprocalRankFrom(ranked, relevant, i) == ReciprocalRankFrom(ranked, relevant, 0)
    {
      if ranked[i] in relevant {
        return 1.0 / (i + 1) as real;
      }
      i := i + 1;
    }
  }

  type Lists = map<nat, seq<real>>

  predicate ByCutoff(lists: Lists) {
    lists.Keys == {3, 5, 10}
  }

  /** `lists` holds, for every cutoff, the recalls or the precisions of the answerable questions. */
  predicate Holds(lists: Lists, value: Valuation, corpus: seq<Question>, recall: bool) {
    && ByCutoff(lists)
    && (forall k | k in {3, 5, 10} ::
          lists[k] == Collect(value, if recall then RecallAt(k) else PrecisionAt(k), corpus))
  }

  function Rates(value: Valuation, q: Question, recall: bool): (r: map<nat, real>)
    ensures r.Keys == {3, 5, 10}
  {
    map k: nat | k in {3, 5, 10} :: value(if recall then RecallAt(k) else PrecisionAt(k), q)
  }

  /** The lists of the first `j` cutoffs have grown by their rates. */
  predicate Grown(lists: Lists, more: Lists, rates: map<nat, real>, j: nat) {
    && ByCutoff(lists) && ByCutoff(more) && rates.Keys == {3, 5, 10}
    && more[3] == lists[3] + (if j > 0 then [rates[3]] else [])
    && more[5] == lists[5] + (if j > 1 then [rates[5]] else [])
    && more[10] == lists[10] + (if j > 2 then [rates[10]] else [])
  }

  lemma GrownNext(lists: Lists, more: Lists, rates: map<nat, real>, j: nat)
    requires j < 3 && Grown(lists, more, rates, j)
    ensures Grown(lists, more[CUTOFFS[j] := more[CUTOFFS[j]] + [rates[CUTOFFS[j]]]], rates, j + 1)
  {
    assert CUTOFFS[0] == 3 && CUTOFFS[1] == 5 && CUTOFFS[2] == 10;
    assert lists[CUTOFFS[j]] + [] == lists[CUTOFFS[j]];
  }

  /** The loop over the cutoffs, for one answerable question. */
  method AddRates(recalls: Lists, precisions: Lists, w: Discount, search: Search, q: Question, ranked: seq<string>)
    returns (recallsNext: Lists, precisionsNext: Lists)
    requires ByCutoff(recalls) && ByCutoff(precisions) && Answerable(q) && ranked == search(q.text)
    ensures Grown(recalls, recallsNext, Rates(Values(w, search), q, true), 3)
    ensures Grown(precisions, precisionsNext, Rates(Values(w, search), q, false), 3)
  {
    recallsNext, precisionsNext := recalls, precisions;
    ghost var rs, ps := Rates(Values(w, search), q, true), Rates(Values(w, search), q, false);
    var j := 0;
    while j < 3
      invariant 0 <= j <= 3 && Grown(recalls, recallsNext, rs, j) && Grown(precisions, precisionsNext, ps, j)
    {
      var k := CUTOFFS[j];
      GrownNext(recalls, recallsNext, rs, j);
      GrownNext(precisions, precisionsNext, ps, j);
      var recall, precision := OneRate(w, search, q, ranked, k);
      recallsNext := recallsNext[k := recallsNext[k] + [recall]];
      precisionsNext := precisionsNext[k := precisionsNext[k] + [precision]];
      j := j + 1;
    }
  }

  method OneRate(w: Discount, search: Search, q: Question, ranked: seq<string>, k: nat)
    returns (recall: real, precision: real)
    requires Answerable(q) && k in {3, 5, 10} && ranked == search(q.text)
    ensures recall == Rates(Values(w, search), q, true)[k] && precision == Rates(Values(w, search), q, false)[k]
  {
    var relevant := Relevant(q.judgments);
    var hits := Hits(ranked, relevant, k);
    recall, precision := hits as real / |relevant| as real, hits as real / k as real;
  }

  /** One more question of the corpus. */
  lemma CollectNext(value: Valuation, corpus: seq<Question>, i: nat, figure: Figure)
    requires i < |corpus|
    ensures Collect(value, figure, corpus[..i + 1])
         == Collect(value, figure, corpus[..i])
          + if Answerable(corpus[i]) then [value(figure, corpus[i])] else []
  {
    assert corpus[..i + 1][..i] == corpus[..i];
  }

  lemma CountNext(search: Search, corpus: seq<Question>, i: nat)
    requires i < |corpus|
    ensures Unanswerable(corpus[..i + 1]) == Unanswerable(corpus[..i]) + if Answerable(corpus[i]) then 0 else 1
    ensures FalsePositives(corpus[..i + 1], search) == FalsePositives(corpus[..i], search)
      + if !Answerable(corpus[i]) && search(corpus[i].text) != [] then 1 else 0
  {
    assert corpus[..i + 1][..i] == corpus[..i];
  }

  lemma HoldsNext(lists: Lists, more: Lists, value: Valuation, corpus: seq<Question>, i: nat, recall: bool)
    requires i < |corpus| && Holds(lists, value, corpus[..i], recall)
    requires if Answerable(corpus[i]) then Grown(lists, more, Rates(value, corpus[i], recall), 3)
             else more == lists
    ensures Holds(more, value, corpus[..i + 1], recall)
  {
    forall k | k in {3, 5, 10}
      ensures more[k] == Collect(value, if recall then RecallAt(k) else PrecisionAt(k), corpus[..i + 1])
    {
      CollectNext(value, corpus, i, if recall then RecallAt(k) else PrecisionAt(k));
    }
  }

  /** The accumulators of the loop after `i` questions. */
  datatype Totals = Totals(recalls: Lists, precisions: Lists, ranks: seq<real>, gains: seq<real>,
                           unanswerable: nat, falsePositives: nat)

  predicate Accumulated(t: Totals, value: Valuation, search: Search, corpus: seq<Question>) {
    && Holds(t.recalls, value, corpus, true)
    && Holds(t.precisions, value, corpus, false)
    && t.ranks == Collect(value, FirstRank, corpus)
    && t.gains == Collect(value, Gain, corpus)
    && t.unanswerable == Unanswerable(corpus)
    && t.falsePositives == FalsePositives(corpus, search)
  }

  /** `r` is `t` after one more question. */
  predicate OneMore(t: Totals, r: Totals, value: Valuation, search: Search, q: Question) {
    if Answerable(q) then
      && Grown(t.recalls, r.recalls, Rates(value, q, true), 3)
      && Grown(t.precisions, r.precisions, Rates(value, q, false), 3)
      && r.ranks == t.ranks + [value(FirstRank, q)]
      && r.gains == t.gains + [value(Gain, q)]
      && r.unanswerable == t.unanswerable && r.falsePositives == t.falsePositives
    else
      r == t.(unanswerable := t.unanswerable + 1,
              falsePositives := t.falsePositives + if search(q.text) != [] then 1 else 0)
  }

  lemma AccumulatedNext(t: Totals, r: Totals, value: Valuation, search: Search, corpus: seq<Question>, i: nat)
    requires i < |corpus| && Accumulated(t, value, search, corpus[..i]) && OneMore(t, r, value, search, corpus[i])
    ensures Accumulated(r, value, search, corpus[..i + 1])
  {
    RatesNext(t, r, value, search, corpus, i);
    CountNext(search, corpus, i);
    CollectNext(value, corpus, i, FirstRank);
    CollectNext(value, corpus, i, Gain);
    assert t.ranks + [] == t.ranks && t.gains + [] == t.gains;
  }

  lemma RatesNext(t: Totals, r: Totals, value: Valuation, search: Search, corpus: seq<Question>, i: nat)
    requires i < |corpus| && Accumulated(t, value, search, corpus[..i]) && OneMore(t, r, value, search, corpus[i])
    ensures Holds(r.recalls, value, corpus[..i + 1], true) && Holds(r.precisions, value, corpus[..i + 1], false)
  {
    HoldsNext(t.recalls, r.recalls, value, corpus, i, true);
    HoldsNext(t.precisions, r.precisions, value, corpus, i, false);
  }

  /** The body of the loop over the corpus. */
  method AddQuestion(t: Totals, w: Discount, search: Search, q: Question) returns (r: Totals)
    requires ByCutoff(t.recalls) && ByCutoff(t.precisions)
    ensures OneMore(t, r, Values(w, search), search, q)
  {
    var ranked := search(q.text);
    r := t;
    if Relevant(q.judgments) == {} {
      r := r.(unanswerable := r.unanswerable + 1);
      if ranked != [] {
        r := r.(falsePositives := r.falsePositives + 1);
      }
    } else {
      var recalls, precisions := AddRates(t.recalls, t.precisions, w, search, q, ranked);
      var rr, gain := OneGain(w, search, q, ranked);
      r := r.(recalls := recalls, precisions := precisions, ranks := r.ranks + [rr], gains := r.gains + [gain]);
    }
  }

  method OneGain(w: Discount, search: Search, q: Question, ranked: seq<string>) returns (rr: real, gain: real)
    requires ranked == search(q.text)
    ensures rr == Values(w, search)(FirstRank, q) && gain == Values(w, search)(Gain, q)
  {
    rr := FirstRelevant(ranked, Relevant(q.judgments));
    gain := Ndcg(w, q, ranked);
  }

  function Averages(lists: Lists): map<nat, real>
    requires ByCutoff(lists)
  {
    map k: nat | k in {3, 5, 10} :: Average(lists[k])
  }

  lemma MeansOf(lists: Lists, value: Valuation, corpus: seq<Question>, recall: bool)
    requires Holds(lists, value, corpus, recall)
    ensures Averages(lists) == Means(value, corpus, recall)
  {
    var a, b := Averages(lists), Means(value, corpus, recall);
    forall k | k in {3, 5, 10} ensures a[k] == b[k] {}
  }

  lemma NothingAccumulated(none: Lists, value: Valuation, search: Search)
    requires none == map[3 := [], 5 := [], 10 := []]
    ensures Accumulated(Totals(none, none, [], [], 0, 0), value, search, [])
  {
  }

  method RunEvaluation(w: Discount, corpus: seq<Question>, search: Search) returns (report: Report)
    ensures report == Evaluate(w, corpus, search)
  {
    var none: Lists := map[3 := [], 5 := [], 10 := []];
    var t := Totals(none, none, [], [], 0, 0);
    ghost var value := Values(w, search);
    NothingAccumulated(none, value, search);
    var i := 0;
    while i < |corpus|
      invariant 0 <= i <= |corpus| && Accumulated(t, value, search, corpus[..i])
    {
      var next := AddQuestion(t, w, search, corpus[i]);
      AccumulatedNext(t, next, value, search, corpus, i);
      t := next;
      i := i + 1;
    }
    Seqs.TakeAll(corpus);
    report := Summarize(t, w, search, corpus);
  }

  method Summarize(t: Totals, ghost w: Discount, ghost search: Search, corpus: seq<Question>) returns (report: Report)
    requires Accumulated(t, Values(w, search), search, corpus)
    ensures report == Evaluate(w, corpus, search)
  {
    MeansOf(t.recalls, Values(w, search), corpus, true);
    MeansOf(t.precisions, Values(w, search), corpus, false);
    report := Report(
      Averages(t.recalls), Averages(t.precisions),
      Average(t.ranks), Average(t.gains),
      |corpus|, |corpus| - t.unanswerable,
      if t.unanswerable == 0 then 0.0 else t.falsePositives as real / t.unanswerable as real);
  }

  // ----- the ranked paths of a search -----

  /** The notes of the ranked chunks: of those whose chunk row and note row exist. */
  function Notes(reranked: seq<int>, noteOf: map<int, int>, paths: map<int, string>): seq<int> {
    if reranked == [] then []
    else
      var c := reranked[|reranked| - 1];
      Notes(reranked[..|reranked| - 1], noteOf, paths)
        + if c in noteOf && noteOf[c] in paths then [noteOf[c]] else []
  }

  predicate AllIn(ids: seq<int>, paths: map<int, string>) {
    forall i :: 0 <= i < |ids| ==> ids[i] in paths
  }

  function PathsOf(ids: seq<int>, paths: map<int, string>): (r: seq<string>)
    requires AllIn(ids, paths)
    ensures |r| == |ids| && forall i :: 0 <= i < |r| ==> r[i] == paths[ids[i]]
  {
    seq(|ids|, (i: int) requires 0 <= i < |ids| => paths[ids[i]])
  }

  lemma {:induction false} NotesExist(reranked: seq<int>, noteOf: map<int, int>, paths: map<int, string>)
    ensures AllIn(Notes(reranked, noteOf, paths), paths)
    ensures AllIn(Seqs.FirstTimes(Notes(reranked, noteOf, paths)), paths)
  {
    var notes := Notes(reranked, noteOf, paths);
    if reranked != [] { NotesExist(reranked[..|reranked| - 1], noteOf, paths); }
    forall i | 0 <= i < |Seqs.FirstTimes(notes)| ensures Seqs.FirstTimes(notes)[i] in paths {
      assert Seqs.FirstTimes(notes)[i] in Seqs.FirstTimes(notes);
    }
  }

  function RankedPaths(reranked: seq<int>, noteOf: map<int, int>, paths: map<int, string>): seq<string> {
    NotesExist(reranked, noteOf, paths);
    PathsOf(Seqs.FirstTimes(Notes(reranked, noteOf, paths)), paths)
  }

  lemma RankedPathsNext(reranked: seq<int>, i: nat, noteOf: map<int, int>, paths: map<int, string>)
    requires i < |reranked|
    ensures var c, ids := reranked[i], Notes(reranked[..i], noteOf, paths);
      RankedPaths(reranked[..i + 1], noteOf, paths) == RankedPaths(reranked[..i], noteOf, paths)
        + if c in noteOf && noteOf[c] in paths && noteOf[c] !in ids then [paths[noteOf[c]]] else []
  {
    assert reranked[..i + 1][..i] == reranked[..i];
    var before, after := Notes(reranked[..i], noteOf, paths), Notes(reranked[..i + 1], noteOf, paths);
    NotesExist(reranked[..i], noteOf, paths);
    NotesExist(reranked[..i + 1], noteOf, paths);
    if after != before { assert after[..|after| - 1] == before; }
  }

  /** The paths and the notes that the loop has come to. */
  ghost predicate SoFar(reranked: seq<int>, noteOf: map<int, int>, notes: map<int, string>, answered: seq<string>,
                        seen: set<int>)
  {
    answered == RankedPaths(reranked, noteOf, notes) && seen == NoteSet(Notes(reranked, noteOf, notes))
  }

  function NoteSet(ids: seq<int>): set<int> {
    set x | x in ids
  }

  lemma NoteSetNext(ids: seq<int>, x: int)
    ensures NoteSet(ids + [x]) == NoteSet(ids) + {x}
    ensures x in NoteSet(ids) <==> x in ids
  {
  }

  lemma NothingNew(reranked: seq<int>, i: nat, noteOf: map<int, int>, notes: map<int, string>, answered: seq<string>,
                   seen: set<int>)
    requires i < |reranked| && SoFar(reranked[..i], noteOf, notes, answered, seen)
    requires var c := reranked[i]; c !in noteOf || noteOf[c] in seen || noteOf[c] !in notes
    ensures SoFar(reranked[..i + 1], noteOf, notes, answered, seen)
  {
    var c, ids := reranked[i], Notes(reranked[..i], noteOf, notes);
    assert reranked[..i + 1][..i] == reranked[..i];
    RankedPathsNext(reranked, i, noteOf, notes);
    if c in noteOf && noteOf[c] in notes { NoteSetNext(ids, noteOf[c]); }
    assert answered + [] == answered && ids + [] == ids;
  }

  lemma OneMorePath(reranked: seq<int>, i: nat, noteOf: map<int, int>, notes: map<int, string>, answered: seq<string>,
                    seen: set<int>)
    requires i < |reranked| && SoFar(reranked[..i], noteOf, notes, answered, seen)
    requires var c := reranked[i]; c in noteOf && noteOf[c] !in seen && noteOf[c] in notes
    ensures var note := noteOf[reranked[i]];
      SoFar(reranked[..i + 1], noteOf, notes, answered + [notes[note]], seen + {note})
  {
    var note, ids := noteOf[reranked[i]], Notes(reranked[..i], noteOf, notes);
    assert reranked[..i + 1][..i] == reranked[..i];
    RankedPathsNext(reranked, i, noteOf, notes);
    NoteSetNext(ids, note);
  }

  method SearchRankedNotePaths(reranked: seq<int>, noteOf: map<int, int>, notes: map<int, string>)
    returns (paths: seq<string>)
    ensures paths == RankedPaths(reranked, noteOf, notes)
  {
    paths := [];
    var seen: set<int> := {};
    var i := 0;
    while i < |reranked|
      invariant 0 <= i <= |reranked| && SoFar(reranked[..i], noteOf, notes, paths, seen)
    {
      var c := reranked[i];
      if c in noteOf && noteOf[c] !in seen && noteOf[c] in notes {
        OneMorePath(reranked, i, noteOf, notes, paths, seen);
        seen := seen + {noteOf[c]};
        paths := paths + [notes[noteOf[c]]];
      } else {
        NothingNew(reranked, i, noteOf, notes, paths, seen);
      }
      i := i + 1;
    }
    Seqs.TakeAll(reranked);
  }
}
