/** What a scan answers: the best score of every pair, and a row for exactly the pairs that reach the threshold. */
module DuplicateResults {
  import opened Wrappers
  import opened Duplicates
  import opened DuplicateScan

  // ----- scores -----

  /** `best` is the greatest of the answered scores, and missing exactly if there is none. */
  ghost predicate IsBest(best: Option<real>, scores: set<real>) {
    && (best.None? <==> scores == {})
    && (best.Some? ==> best.value in scores && forall x :: x in scores ==> x <= best.value)
  }

  lemma BestAdds(best: Option<real>, scores: set<real>, x: real)
    requires IsBest(best, scores)
    ensures IsBest(Best(best, x), scores + {x})
  {
  }

  ghost function LexicalOf(t: Pairs, key: Pair): Option<real> {
    if key in t.signals then t.signals[key].lexical else None
  }

  ghost function SemanticOf(t: Pairs, key: Pair): Option<real> {
    if key in t.signals then t.signals[key].semantic else None
  }

  /** The scores that the LSH answers for one note give the pair. */
  ghost function AnswerScores(noteId: nat, hits: seq<(nat, real)>, key: Pair): set<real> {
    set k | 0 <= k < |hits| && hits[k].0 != noteId && PairKey(noteId, hits[k].0) == key :: hits[k].1
  }

  ghost function LexicalScores(lexical: seq<(nat, seq<(nat, real)>)>, key: Pair): set<real> {
    set a, x | 0 <= a < |lexical| && x in AnswerScores(lexical[a].0, lexical[a].1, key) :: x
  }

  /** The scores that one answer of Qdrant gives the pair. */
  ghost function HitScores(known: set<nat>, noteId: nat, hits: seq<(nat, Option<real>)>, key: Pair): set<real> {
    set k | 0 <= k < |hits| && Counts(known, noteId, hits[k]) && PairKey(noteId, hits[k].0) == key :: hits[k].1.value
  }

  ghost function QueryScores(known: set<nat>, query: Query, key: Pair): set<real> {
    if query.Hits? then HitScores(known, query.noteId, query.hits, key) else {}
  }

  ghost function SemanticScores(known: set<nat>, queries: seq<Query>, key: Pair): set<real> {
    set n, x | 0 <= n < |queries| && x in QueryScores(known, queries[n], key) :: x
  }

  lemma AnswerScoresLast(noteId: nat, hits: seq<(nat, real)>, key: Pair)
    requires hits != []
    ensures var init, last := hits[..|hits| - 1], hits[|hits| - 1];
      AnswerScores(noteId, hits, key) == AnswerScores(noteId, init, key) +
        if last.0 != noteId && PairKey(noteId, last.0) == key then {last.1} else {}
  {
    var init, last := hits[..|hits| - 1], hits[|hits| - 1];
    assert forall k :: 0 <= k < |init| ==> init[k] == hits[k];
    assert hits[|init|] == last;
    forall x ensures x in AnswerScores(noteId, hits, key) <==>
      x in AnswerScores(noteId, init, key) || (last.0 != noteId && PairKey(noteId, last.0) == key && x == last.1)
    {
      if k :| 0 <= k < |init| && init[k].0 != noteId && PairKey(noteId, init[k].0) == key && x == init[k].1 {
        assert hits[k].1 == x;
      }
    }
  }

  lemma {:induction false} LexicalHitsBest(t: Pairs, noteId: nat, hits: seq<(nat, real)>, key: Pair, scores: set<real>)
    requires IsBest(LexicalOf(t, key), scores)
    ensures IsBest(LexicalOf(LexicalHits(t, noteId, hits), key), scores + AnswerScores(noteId, hits, key))
  {
    if hits == [] {
      assert scores + AnswerScores(noteId, hits, key) == scores;
    } else {
      var init := hits[..|hits| - 1];
      var (other, jaccard) := hits[|hits| - 1];
      LexicalHitsBest(t, noteId, init, key, scores);
      AnswerScoresLast(noteId, hits, key);
      BestAdds(LexicalOf(LexicalHits(t, noteId, init), key), scores + AnswerScores(noteId, init, key), jaccard);
      assert scores + AnswerScores(noteId, hits, key) == scores + AnswerScores(noteId, init, key) +
             if other != noteId && PairKey(noteId, other) == key then {jaccard} else {};
    }
  }

  lemma LexicalScoresLast(lexical: seq<(nat, seq<(nat, real)>)>, key: Pair)
    requires lexical != []
    ensures var init, last := lexical[..|lexical| - 1], lexical[|lexical| - 1];
      LexicalScores(lexical, key) == LexicalScores(init, key) + AnswerScores(last.0, last.1, key)
  {
    var init, last := lexical[..|lexical| - 1], lexical[|lexical| - 1];
    forall x ensures x in LexicalScores(lexical, key) <==>
      x in LexicalScores(init, key) || x in AnswerScores(last.0, last.1, key)
    {
      if a :| 0 <= a < |lexical| && x in AnswerScores(lexical[a].0, lexical[a].1, key) {
        if a < |init| { assert init[a] == lexical[a]; }
      }
      if a :| 0 <= a < |init| && x in AnswerScores(init[a].0, init[a].1, key) {
        assert lexical[a] == init[a];
      }
      if x in AnswerScores(last.0, last.1, key) { assert lexical[|init|] == last; }
    }
  }

  lemma {:induction false} LexicalLegBest(t: Pairs, lexical: seq<(nat, seq<(nat, real)>)>, key: Pair)
    requires LexicalOf(t, key).None?
    ensures IsBest(LexicalOf(LexicalLeg(t, lexical), key), LexicalScores(lexical, key))
  {
    if lexical != [] {
      var init, last := lexical[..|lexical| - 1], lexical[|lexical| - 1];
      LexicalLegBest(t, init, key);
      LexicalHitsBest(LexicalLeg(t, init), last.0, last.1, key, LexicalScores(init, key));
      LexicalScoresLast(lexical, key);
    }
  }

  lemma HitScoresLast(known: set<nat>, noteId: nat, hits: seq<(nat, Option<real>)>, key: Pair)
    requires hits != []
    ensures var init, last := hits[..|hits| - 1], hits[|hits| - 1];
      HitScores(known, noteId, hits, key) == HitScores(known, noteId, init, key) +
        if Counts(known, noteId, last) && PairKey(noteId, last.0) == key then {last.1.value} else {}
  {
    var init, last := hits[..|hits| - 1], hits[|hits| - 1];
    assert forall k :: 0 <= k < |init| ==> init[k] == hits[k];
    assert hits[|init|] == last;
    forall x ensures x in HitScores(known, noteId, hits, key) <==>
      || x in HitScores(known, noteId, init, key)
      || (Counts(known, noteId, last) && PairKey(noteId, last.0) == key && x == last.1.value)
    {
      if k :| 0 <= k < |init| && Counts(known, noteId, init[k]) && PairKey(noteId, init[k].0) == key
              && x == init[k].1.value {
        assert Counts(known, noteId, hits[k]) && hits[k].1.value == x;
      }
    }
  }

  lemma {:induction false} RecordHitsBest(t: Pairs, known: set<nat>, noteId: nat, hits: seq<(nat, Option<real>)>,
                                          key: Pair, scores: set<real>)
    requires IsBest(SemanticOf(t, key), scores)
    ensures IsBest(SemanticOf(RecordHits(t, known, noteId, hits), key), scores + HitScores(known, noteId, hits, key))
  {
    if hits == [] {
      assert scores + HitScores(known, noteId, hits, key) == scores;
    } else {
      var init, last := hits[..|hits| - 1], hits[|hits| - 1];
      RecordHitsBest(t, known, noteId, init, key, scores);
      HitScoresLast(known, noteId, hits, key);
      var before := scores + HitScores(known, noteId, init, key);
      if Counts(known, noteId, last) {
        BestAdds(SemanticOf(RecordHits(t, known, noteId, init), key), before, last.1.value);
      }
      assert scores + HitScores(known, noteId, hits, key) == before +
             if Counts(known, noteId, last) && PairKey(noteId, last.0) == key then {last.1.value} else {};
    }
  }

  lemma SemanticScoresFirst(known: set<nat>, queries: seq<Query>, key: Pair)
    requires queries != []
    ensures SemanticScores(known, queries, key) ==
            QueryScores(known, queries[0], key) + SemanticScores(known, queries[1..], key)
  {
    var rest := queries[1..];
    forall x ensures x in SemanticScores(known, queries, key) <==>
      x in QueryScores(known, queries[0], key) || x in SemanticScores(known, rest, key)
    {
      if n :| 0 <= n < |rest| && x in QueryScores(known, rest[n], key) {
        assert queries[n + 1] == rest[n];
      }
      if n :| 0 <= n < |queries| && x in QueryScores(known, queries[n], key) {
        if n > 0 { assert rest[n - 1] == queries[n]; }
      }
    }
  }

  lemma {:induction false} RecordedBest(t: Pairs, known: set<nat>, queries: seq<Query>, key: Pair, scores: set<real>)
    requires Raises !in queries && IsBest(SemanticOf(t, key), scores)
    ensures IsBest(SemanticOf(Recorded(t, known, queries), key), scores + SemanticScores(known, queries, key))
    decreases |queries|
  {
    if queries == [] {
      assert scores + SemanticScores(known, queries, key) == scores;
    } else {
      SemanticScoresFirst(known, queries, key);
      var more := scores + QueryScores(known, queries[0], key);
      assert scores + SemanticScores(known, queries, key) == more + SemanticScores(known, queries[1..], key);
      match queries[0] {
        case NoChunk =>
          assert more == scores;
          RecordedBest(t, known, queries[1..], key, more);
        case Hits(noteId, hits) =>
          RecordHitsBest(t, known, noteId, hits, key, scores);
          RecordedBest(RecordHits(t, known, noteId, hits), known, queries[1..], key, more);
      }
    }
  }

  lemma {:induction false} RecordAllScoreless(t: Pairs, keys: seq<Pair>, key: Pair)
    requires LexicalOf(t, key).None?
    ensures LexicalOf(RecordAll(t, keys), key).None?
  {
    if keys != [] { RecordAllScoreless(t, keys[..|keys| - 1], key); }
  }

  lemma {:induction false} RecordHitsKeepLexical(t: Pairs, known: set<nat>, noteId: nat,
                                                 hits: seq<(nat, Option<real>)>, key: Pair)
    ensures LexicalOf(RecordHits(t, known, noteId, hits), key) == LexicalOf(t, key)
  {
    if hits != [] { RecordHitsKeepLexical(t, known, noteId, hits[..|hits| - 1], key); }
  }

  lemma {:induction false} RecordedKeepsLexical(t: Pairs, known: set<nat>, queries: seq<Query>, key: Pair)
    ensures LexicalOf(Recorded(t, known, queries), key) == LexicalOf(t, key)
    decreases |queries|
  {
    if queries != [] {
      match queries[0] {
        case Raises =>
        case NoChunk => RecordedKeepsLexical(t, known, queries[1..], key);
        case Hits(noteId, hits) =>
          RecordHitsKeepLexical(t, known, noteId, hits, key);
          RecordedKeepsLexical(RecordHits(t, known, noteId, hits), known, queries[1..], key);
      }
    }
  }

  /**
    At the end of a scan the lexical score of a pair is the greatest that any answer gave it; so is the
    semantic one, if the leg got through, and else there is none.
   */
  lemma ScoresAreBest(notes: seq<NoteRow>, scanned: set<nat>, lexical: seq<(nat, seq<(nat, real)>)>,
                      queries: seq<Query>, ratio: (nat, nat) -> real, key: Pair)
    ensures var t := Annotated(notes, scanned, lexical, queries, ratio);
      && IsBest(LexicalOf(t, key), LexicalScores(lexical, key))
      && (if Raises in queries then SemanticOf(t, key).None?
          else IsBest(SemanticOf(t, key), SemanticScores(Ids(notes), queries, key)))
  {
    var before := BeforeSemantic(notes, scanned, lexical);
    BeforeSemanticScores(notes, scanned, lexical, key);
    RecordedKeepsLexical(before, Ids(notes), queries, key);
    if Raises in queries {
      FailedLegRestores(before, Ids(notes), queries);
    } else {
      RecordedBest(before, Ids(notes), queries, key, {});
      assert {} + SemanticScores(Ids(notes), queries, key) == SemanticScores(Ids(notes), queries, key);
    }
  }

  /** Before the semantic leg a pair has its best lexical score, and no semantic one. */
  lemma BeforeSemanticScores(notes: seq<NoteRow>, scanned: set<nat>, lexical: seq<(nat, seq<(nat, real)>)>, key: Pair)
    ensures var before := BeforeSemantic(notes, scanned, lexical);
      && IsBest(LexicalOf(before, key), LexicalScores(lexical, key)) && SemanticOf(before, key).None?
      && Sound(before) && NoSemantic(before)
  {
    RecordAllScoreless(NO_PAIRS, ExactKeys(notes, scanned), key);
    LexicalLegBest(RecordAll(NO_PAIRS, ExactKeys(notes, scanned)), lexical, key);
    BeforeSemanticSound(notes, scanned, lexical);
  }

  // ----- rows -----

  /** A row tells what the signals of its pair are. */
  ghost predicate Tells(t: Pairs, row: Row) {
    && row.pair in t.signals
    && var s := t.signals[row.pair];
    && row.lexical == s.lexical && row.semantic == s.semantic && row.metadata == s.metadata
    && row.combined == CombinedScore(s) && ChooseMethod(s.methods) == Some(row.via)
  }

  ghost predicate RowFor(rows: seq<Row>, key: Pair) {
    exists k :: 0 <= k < |rows| && rows[k].pair == key
  }

  /** A pair has a row exactly if its combined score reaches the threshold; each row tells its pair's signals. */
  lemma {:induction false} RowIff(t: Pairs, order: seq<Pair>, threshold: real, key: Pair)
    requires (forall k :: k in order ==> k in t.signals) && Rows(t, order, threshold).Some?
    ensures var rows := Rows(t, order, threshold).value;
      && (RowFor(rows, key) <==> key in order && CombinedScore(t.signals[key]) >= threshold)
      && (forall row :: row in rows ==> Tells(t, row))
  {
    if order != [] {
      var init, last := order[..|order| - 1], order[|order| - 1];
      assert order == init + [last];
      RowIff(t, init, threshold, key);
      var before, rows := Rows(t, init, threshold).value, Rows(t, order, threshold).value;
      if CombinedScore(t.signals[last]) >= threshold {
        assert rows[|before|].pair == last && rows[..|before|] == before;
        if k :| 0 <= k < |before| && before[k].pair == key { assert rows[k].pair == key; }
        if k :| 0 <= k < |rows| && rows[k].pair == key { assert k < |before| ==> before[k].pair == key; }
      }
    }
  }

  /** No pair has two rows, and the rows come in the order in which the pairs were first recorded. */
  lemma {:induction false} RowsOnce(t: Pairs, order: seq<Pair>, threshold: real)
    requires (forall k :: k in order ==> k in t.signals) && Rows(t, order, threshold).Some?
    requires forall i, j :: 0 <= i < j < |order| ==> order[i] != order[j]
    ensures var rows := Rows(t, order, threshold).value;
      forall k, l :: 0 <= k < l < |rows| ==> rows[k].pair != rows[l].pair
  {
    if order != [] {
      var init, last := order[..|order| - 1], order[|order| - 1];
      RowsOnce(t, init, threshold);
      RowIff(t, init, threshold, last);
      assert last !in init;
    }
  }

  /** Which pairs a scan that returns upserts: those that some leg found, with a combined score at the threshold. */
  lemma UpsertedIff(notes: seq<NoteRow>, scanned: set<nat>, read: nat -> Read, lexical: seq<(nat, seq<(nat, real)>)>,
                    queries: seq<Query>, ratio: (nat, nat) -> real, threshold: real, rows: seq<Row>, key: Pair)
    requires Scan(notes, scanned, read, lexical, queries, ratio, threshold) == Some(rows)
    ensures var t := Annotated(notes, scanned, lexical, queries, ratio);
      && (RowFor(rows, key) <==>
            && (FoundOtherwise(notes, scanned, lexical, key) || FoundBeforeFailure(Ids(notes), queries, key))
            && key in t.signals && CombinedScore(t.signals[key]) >= threshold)
      && (forall row :: row in rows ==> Tells(t, row))
      && (forall k, l :: 0 <= k < l < |rows| ==> rows[k].pair != rows[l].pair)
  {
    var before := BeforeSemantic(notes, scanned, lexical);
    var t := Annotated(notes, scanned, lexical, queries, ratio);
    AnnotatedSound(notes, scanned, lexical, queries, ratio);
    BeforeSemanticKeys(notes, scanned, lexical, key);
    RecordedKeys(before, Ids(notes), queries, key);
    RowIff(t, t.order, threshold, key);
    RowsOnce(t, t.order, threshold);
  }
}
