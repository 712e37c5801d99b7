/** The rows of a duplicate scan, told by what the notes, LSH and Qdrant answered. */
module DuplicateRows {
  import opened Wrappers
  import opened Duplicates
  import opened DuplicateScan
  import opened DuplicateResults
  import Seqs

  // ----- what the legs leave of a pair besides its scores -----

  ghost predicate ExactOf(t: Pairs, key: Pair) {
    key in t.signals && t.signals[key].contentHash
  }

  ghost function MetadataOf(t: Pairs, key: Pair): Option<real> {
    if key in t.signals then t.signals[key].metadata else None
  }

  lemma {:induction false} RecordAllExact(t: Pairs, keys: seq<Pair>, key: Pair)
    ensures ExactOf(RecordAll(t, keys), key) <==> ExactOf(t, key) || key in keys
    ensures MetadataOf(RecordAll(t, keys), key) == MetadataOf(t, key)
  {
    if keys != [] {
      var init := keys[..|keys| - 1];
      RecordAllExact(t, init, key);
      assert keys == init + [keys[|keys| - 1]];
    }
  }

  /** The exact and the metadata signals of the pair are the same in both. */
  ghost predicate SameRest(t: Pairs, tNext: Pairs, key: Pair) {
    (ExactOf(tNext, key) <==> ExactOf(t, key)) && MetadataOf(tNext, key) == MetadataOf(t, key)
  }

  lemma {:induction false} LexicalHitsRest(t: Pairs, noteId: nat, hits: seq<(nat, real)>, key: Pair)
    ensures SameRest(t, LexicalHits(t, noteId, hits), key)
  {
    if hits != [] { LexicalHitsRest(t, noteId, hits[..|hits| - 1], key); }
  }

  lemma {:induction false} LexicalLegRest(t: Pairs, lexical: seq<(nat, seq<(nat, real)>)>, key: Pair)
    ensures SameRest(t, LexicalLeg(t, lexical), key)
  {
    if lexical != [] {
      var init, last := lexical[..|lexical| - 1], lexical[|lexical| - 1];
      LexicalLegRest(t, init, key);
      LexicalHitsRest(LexicalLeg(t, init), last.0, last.1, key);
    }
  }

  lemma {:induction false} RecordHitsRest(t: Pairs, known: set<nat>, noteId: nat, hits: seq<(nat, Option<real>)>,
                                          key: Pair)
    ensures SameRest(t, RecordHits(t, known, noteId, hits), key)
  {
    if hits != [] { RecordHitsRest(t, known, noteId, hits[..|hits| - 1], key); }
  }

  lemma {:induction false} RecordedRest(t: Pairs, known: set<nat>, queries: seq<Query>, key: Pair)
    ensures SameRest(t, Recorded(t, known, queries), key)
    decreases |queries|
  {
    if queries != [] {
      match queries[0] {
        case Raises =>
        case NoChunk => RecordedRest(t, known, queries[1..], key);
        case Hits(noteId, hits) =>
          RecordHitsRest(t, known, noteId, hits, key);
          RecordedRest(RecordHits(t, known, noteId, hits), known, queries[1..], key);
      }
    }
  }

  // ----- what the answers say about a pair -----

  /** The pair is found by some leg before Qdrant fails, if it does. */
  ghost predicate Found(notes: seq<NoteRow>, scanned: set<nat>, lexical: seq<(nat, seq<(nat, real)>)>,
                        queries: seq<Query>, key: Pair)
  {
    FoundOtherwise(notes, scanned, lexical, key) || FoundBeforeFailure(Ids(notes), queries, key)
  }

  /** The scores that count on the semantic side: none at all if Qdrant fails anywhere. */
  ghost function CountedScores(known: set<nat>, queries: seq<Query>, key: Pair): set<real> {
    if Raises in queries then {} else SemanticScores(known, queries, key)
  }

  ghost function OrNothing(scores: set<real>): set<real> {
    if scores == {} then {0.0} else scores
  }

  /** The figure of a pair: 1 for equal hashes, else the greatest score of either kind, a missing kind giving 0. */
  ghost predicate Figure(notes: seq<NoteRow>, scanned: set<nat>, lexical: seq<(nat, seq<(nat, real)>)>,
                         queries: seq<Query>, key: Pair, x: real)
  {
    if key in ExactKeys(notes, scanned) then x == 1.0
    else IsBest(Some(x), OrNothing(LexicalScores(lexical, key)) + OrNothing(CountedScores(Ids(notes), queries, key)))
  }

  /** The legs that found the pair, a failed one not counting. */
  ghost function FoundBy(notes: seq<NoteRow>, scanned: set<nat>, lexical: seq<(nat, seq<(nat, real)>)>,
                         queries: seq<Query>, key: Pair): set<Method>
  {
    (if key in ExactKeys(notes, scanned) then {ContentHash} else {})
    + (if LexicalScores(lexical, key) != {} then {MinhashLsh} else {})
    + (if CountedScores(Ids(notes), queries, key) != {} then {CosineSimilarity} else {})
  }

  /** The signals that the final loop finds for a pair are what the answers say. */
  lemma SignalsTold(notes: seq<NoteRow>, scanned: set<nat>, lexical: seq<(nat, seq<(nat, real)>)>,
                    queries: seq<Query>, ratio: (nat, nat) -> real, key: Pair)
    ensures var t := Annotated(notes, scanned, lexical, queries, ratio);
      && (key in t.signals <==> Found(notes, scanned, lexical, queries, key))
      && (key in t.signals ==>
            var s := t.signals[key];
            && (s.contentHash <==> key in ExactKeys(notes, scanned))
            && IsBest(s.lexical, LexicalScores(lexical, key))
            && IsBest(s.semantic, CountedScores(Ids(notes), queries, key))
            && s.metadata == (if key.0 in Ids(notes) && key.1 in Ids(notes) then Some(ratio(key.0, key.1)) else None)
            && SoundSignals(s))
  {
    var known, before := Ids(notes), BeforeSemantic(notes, scanned, lexical);
    BeforeSemanticKeys(notes, scanned, lexical, key);
    RecordedKeys(before, known, queries, key);
    ScoresAreBest(notes, scanned, lexical, queries, ratio, key);
    AnnotatedSound(notes, scanned, lexical, queries, ratio);
    RecordAllExact(NO_PAIRS, ExactKeys(notes, scanned), key);
    LexicalLegRest(RecordAll(NO_PAIRS, ExactKeys(notes, scanned)), lexical, key);
    RecordedRest(before, known, queries, key);
  }

  lemma CombinedIsFigure(notes: seq<NoteRow>, scanned: set<nat>, lexical: seq<(nat, seq<(nat, real)>)>,
                         queries: seq<Query>, key: Pair, s: Signals)
    requires s.contentHash <==> key in ExactKeys(notes, scanned)
    requires IsBest(s.lexical, LexicalScores(lexical, key))
    requires IsBest(s.semantic, CountedScores(Ids(notes), queries, key))
    ensures Figure(notes, scanned, lexical, queries, key, CombinedScore(s))
    ensures forall x :: Figure(notes, scanned, lexical, queries, key, x) ==> x == CombinedScore(s)
  {
    var a, b := OrNothing(LexicalScores(lexical, key)), OrNothing(CountedScores(Ids(notes), queries, key));
    assert OrZero(s.lexical) in a && forall y :: y in a ==> y <= OrZero(s.lexical);
    assert OrZero(s.semantic) in b && forall y :: y in b ==> y <= OrZero(s.semantic);
    assert !s.contentHash ==> CombinedScore(s) in a + b;
  }

  lemma MethodsAreFoundBy(notes: seq<NoteRow>, scanned: set<nat>, lexical: seq<(nat, seq<(nat, real)>)>,
                          queries: seq<Query>, key: Pair, s: Signals)
    requires SoundSignals(s) && (s.contentHash <==> key in ExactKeys(notes, scanned))
    requires IsBest(s.lexical, LexicalScores(lexical, key))
    requires IsBest(s.semantic, CountedScores(Ids(notes), queries, key))
    ensures s.methods == FoundBy(notes, scanned, lexical, queries, key)
  {
    var found := FoundBy(notes, scanned, lexical, queries, key);
    forall m: Method ensures m in s.methods <==> m in found {
      match m {
        case ContentHash =>
        case MinhashLsh =>
        case CosineSimilarity =>
      }
    }
  }

  /** One leg gives its own name, several give "combined". */
  ghost predicate Via(methods: set<Method>, via: Detection) {
    match via
    case Single(only) => methods == {only}
    case Combined => exists m, n :: m in methods && n in methods && m != n
  }

  lemma ViaIff(methods: set<Method>, via: Detection)
    ensures ChooseMethod(methods) == Some(via) <==> Via(methods, via)
  {
    match via {
      case Single(only) =>
      case Combined =>
        if m, n :| m in methods && n in methods && m != n {
          assert {m, n} <= methods;
          assert methods == {m, n} + (methods - {m, n});
        } else if methods != {} {
          var m :| m in methods;
          assert methods == {m};
        }
    }
  }

  /** What a row says, in terms of the answers. */
  ghost predicate RowTold(notes: seq<NoteRow>, scanned: set<nat>, lexical: seq<(nat, seq<(nat, real)>)>,
                          queries: seq<Query>, ratio: (nat, nat) -> real, row: Row)
  {
    var key := row.pair;
    && Figure(notes, scanned, lexical, queries, key, row.combined)
    && IsBest(row.lexical, LexicalScores(lexical, key))
    && IsBest(row.semantic, CountedScores(Ids(notes), queries, key))
    && row.metadata == (if key.0 in Ids(notes) && key.1 in Ids(notes) then Some(ratio(key.0, key.1)) else None)
    && Via(FoundBy(notes, scanned, lexical, queries, key), row.via)
  }

  /** A pair has a row exactly if some leg found it with a figure at the threshold; the row says what was answered. */
  lemma ScanTells(notes: seq<NoteRow>, scanned: set<nat>, read: nat -> Read, lexical: seq<(nat, seq<(nat, real)>)>,
                  queries: seq<Query>, ratio: (nat, nat) -> real, threshold: real, rows: seq<Row>, key: Pair)
    requires Scan(notes, scanned, read, lexical, queries, ratio, threshold) == Some(rows)
    ensures RowFor(rows, key) <==>
              && Found(notes, scanned, lexical, queries, key)
              && exists x :: Figure(notes, scanned, lexical, queries, key, x) && x >= threshold
    ensures forall row :: row in rows ==> RowTold(notes, scanned, lexical, queries, ratio, row)
  {
    var t := Annotated(notes, scanned, lexical, queries, ratio);
    UpsertedIff(notes, scanned, read, lexical, queries, ratio, threshold, rows, key);
    SignalsTold(notes, scanned, lexical, queries, ratio, key);
    if key in t.signals { CombinedIsFigure(notes, scanned, lexical, queries, key, t.signals[key]); }
    forall row | row in rows ensures RowTold(notes, scanned, lexical, queries, ratio, row) {
      SignalsTold(notes, scanned, lexical, queries, ratio, row.pair);
      CombinedIsFigure(notes, scanned, lexical, queries, row.pair, t.signals[row.pair]);
      MethodsAreFoundBy(notes, scanned, lexical, queries, row.pair, t.signals[row.pair]);
      ViaIff(t.signals[row.pair].methods, row.via);
    }
  }

  // ----- the order of the rows -----

  function AnswerKeys(noteId: nat, hits: seq<(nat, real)>): seq<Pair> {
    if hits == [] then []
    else
      AnswerKeys(noteId, hits[..|hits| - 1]) +
      if hits[|hits| - 1].0 == noteId then [] else [PairKey(noteId, hits[|hits| - 1].0)]
  }

  /** The pairs that LSH names, as often as it does. */
  function LexicalKeys(lexical: seq<(nat, seq<(nat, real)>)>): seq<Pair> {
    if lexical == [] then []
    else
      var last := lexical[|lexical| - 1];
      LexicalKeys(lexical[..|lexical| - 1]) + AnswerKeys(last.0, last.1)
  }

  function HitKeys(known: set<nat>, noteId: nat, hits: seq<(nat, Option<real>)>): seq<Pair> {
    if hits == [] then []
    else
      var last := hits[|hits| - 1];
      HitKeys(known, noteId, hits[..|hits| - 1]) + if Counts(known, noteId, last) then [PairKey(noteId, last.0)] else []
  }

  /** The pairs that Qdrant names before it fails. */
  function QueryKeys(known: set<nat>, queries: seq<Query>): seq<Pair> {
    if queries == [] || queries[0] == Raises then []
    else if queries[0] == NoChunk then QueryKeys(known, queries[1..])
    else HitKeys(known, queries[0].noteId, queries[0].hits) + QueryKeys(known, queries[1..])
  }

  /** Everything that the legs come across, one after the other. */
  function NamedKeys(notes: seq<NoteRow>, scanned: set<nat>, lexical: seq<(nat, seq<(nat, real)>)>,
                     queries: seq<Query>): seq<Pair>
  {
    ExactKeys(notes, scanned) + LexicalKeys(lexical) + QueryKeys(Ids(notes), queries)
  }

  /** The dictionary has the pairs `keys` in the order in which they first occur. */
  ghost predicate Entered(t: Pairs, keys: seq<Pair>) {
    t.order == Seqs.FirstTimes(keys) && forall k :: k in keys <==> k in t.signals
  }

  lemma EnteredNext(t: Pairs, keys: seq<Pair>, key: Pair)
    requires Entered(t, keys)
    ensures Entered(SetDefault(t, key), keys + [key])
  {
    Seqs.FirstTimesNext(keys, key);
  }

  /** Signals change nothing about what has been entered. */
  lemma EnteredSame(t: Pairs, tNext: Pairs, keys: seq<Pair>)
    requires Entered(t, keys) && tNext.order == t.order && tNext.signals.Keys == t.signals.Keys
    ensures Entered(tNext, keys)
  {
  }

  lemma {:induction false} RecordAllEntered(t: Pairs, keys: seq<Pair>, more: seq<Pair>)
    requires Entered(t, keys)
    ensures Entered(RecordAll(t, more), keys + more)
  {
    if more == [] {
      assert keys + more == keys;
    } else {
      var init, last := more[..|more| - 1], more[|more| - 1];
      RecordAllEntered(t, keys, init);
      EnteredNext(RecordAll(t, init), keys + init, last);
      assert keys + more == keys + init + [last];
      EnteredSame(SetDefault(RecordAll(t, init), last), RecordAll(t, more), keys + more);
    }
  }

  lemma {:induction false} LexicalHitsEntered(t: Pairs, keys: seq<Pair>, noteId: nat, hits: seq<(nat, real)>)
    requires Entered(t, keys)
    ensures Entered(LexicalHits(t, noteId, hits), keys + AnswerKeys(noteId, hits))
  {
    if hits == [] {
      assert keys + [] == keys;
    } else {
      var init, last := hits[..|hits| - 1], hits[|hits| - 1];
      LexicalHitsEntered(t, keys, noteId, init);
      var before, named := LexicalHits(t, noteId, init), keys + AnswerKeys(noteId, init);
      if last.0 == noteId {
        assert AnswerKeys(noteId, init) + [] == AnswerKeys(noteId, init);
      } else {
        var key := PairKey(noteId, last.0);
        EnteredNext(before, named, key);
        EnteredSame(SetDefault(before, key), LexicalHits(t, noteId, hits), named + [key]);
        Seqs.Regroup(keys, AnswerKeys(noteId, init), [key]);
      }
    }
  }

  lemma {:induction false} LexicalLegEntered(t: Pairs, keys: seq<Pair>, lexical: seq<(nat, seq<(nat, real)>)>)
    requires Entered(t, keys)
    ensures Entered(LexicalLeg(t, lexical), keys + LexicalKeys(lexical))
  {
    if lexical == [] {
      assert keys + [] == keys;
    } else {
      var init, last := lexical[..|lexical| - 1], lexical[|lexical| - 1];
      LexicalLegEntered(t, keys, init);
      LexicalHitsEntered(LexicalLeg(t, init), keys + LexicalKeys(init), last.0, last.1);
      Seqs.Regroup(keys, LexicalKeys(init), AnswerKeys(last.0, last.1));
    }
  }

  lemma {:induction false} RecordHitsEntered(t: Pairs, keys: seq<Pair>, known: set<nat>, noteId: nat,
                                             hits: seq<(nat, Option<real>)>)
    requires Entered(t, keys)
    ensures Entered(RecordHits(t, known, noteId, hits), keys + HitKeys(known, noteId, hits))
  {
    if hits == [] {
      assert keys + [] == keys;
    } else {
      var init, last := hits[..|hits| - 1], hits[|hits| - 1];
      RecordHitsEntered(t, keys, known, noteId, init);
      var before, named := RecordHits(t, known, noteId, init), keys + HitKeys(known, noteId, init);
      if Counts(known, noteId, last) {
        var key := PairKey(noteId, last.0);
        EnteredNext(before, named, key);
        EnteredSame(SetDefault(before, key), RecordHits(t, known, noteId, hits), named + [key]);
        Seqs.Regroup(keys, HitKeys(known, noteId, init), [key]);
      } else {
        assert HitKeys(known, noteId, init) + [] == HitKeys(known, noteId, init);
      }
    }
  }

  lemma {:induction false} RecordedEntered(t: Pairs, keys: seq<Pair>, known: set<nat>, queries: seq<Query>)
    requires Entered(t, keys)
    ensures Entered(Recorded(t, known, queries), keys + QueryKeys(known, queries))
    decreases |queries|
  {
    if queries == [] || queries[0] == Raises {
      assert keys + [] == keys;
    } else {
      match queries[0] {
        case NoChunk => RecordedEntered(t, keys, known, queries[1..]);
        case Hits(noteId, hits) =>
          RecordHitsEntered(t, keys, known, noteId, hits);
          RecordedEntered(RecordHits(t, known, noteId, hits), keys + HitKeys(known, noteId, hits), known, queries[1..]);
          Seqs.Regroup(keys, HitKeys(known, noteId, hits), QueryKeys(known, queries[1..]));
      }
    }
  }

  lemma OrderOfPairs(notes: seq<NoteRow>, scanned: set<nat>, lexical: seq<(nat, seq<(nat, real)>)>,
                     queries: seq<Query>, ratio: (nat, nat) -> real)
    ensures Annotated(notes, scanned, lexical, queries, ratio).order ==
            Seqs.FirstTimes(NamedKeys(notes, scanned, lexical, queries))
  {
    var exact := ExactKeys(notes, scanned);
    RecordAllEntered(NO_PAIRS, [], exact);
    assert [] + exact == exact;
    LexicalLegEntered(RecordAll(NO_PAIRS, exact), exact, lexical);
    RecordedEntered(BeforeSemantic(notes, scanned, lexical), exact + LexicalKeys(lexical), Ids(notes), queries);
  }

  /** The rows of a list of pairs stand in the order of that list. */
  lemma {:induction false} RowsInOrder(t: Pairs, order: seq<Pair>, threshold: real, k: nat, l: nat)
    requires (forall key :: key in order ==> key in t.signals) && Rows(t, order, threshold).Some?
    requires k < l < |Rows(t, order, threshold).value|
    ensures var rows := Rows(t, order, threshold).value; Seqs.Before(order, rows[k].pair, rows[l].pair)
  {
    var init, last := order[..|order| - 1], order[|order| - 1];
    assert order == init + [last];
    var before, rows := Rows(t, init, threshold).value, Rows(t, order, threshold).value;
    if l < |before| {
      RowsInOrder(t, init, threshold, k, l);
      Seqs.BeforeMore(init, before[k].pair, before[l].pair, last);
    } else {
      RowIff(t, init, threshold, before[k].pair);
      assert RowFor(before, before[k].pair);
      var i := Seqs.Place(before[k].pair, init);
      assert order[i] == rows[k].pair && order[|init|] == rows[l].pair;
    }
  }

  /** Of two pairs with rows, the one that the legs come across first has the earlier row. */
  lemma ScanInOrder(notes: seq<NoteRow>, scanned: set<nat>, read: nat -> Read, lexical: seq<(nat, seq<(nat, real)>)>,
                    queries: seq<Query>, ratio: (nat, nat) -> real, threshold: real, rows: seq<Row>, k: nat, l: nat,
                    n: nat)
    requires Scan(notes, scanned, read, lexical, queries, ratio, threshold) == Some(rows)
    requires k < |rows| && l < |rows| && n <= |NamedKeys(notes, scanned, lexical, queries)|
    requires rows[k].pair in NamedKeys(notes, scanned, lexical, queries)[..n]
    requires rows[l].pair !in NamedKeys(notes, scanned, lexical, queries)[..n]
    ensures k < l
  {
    var t := Annotated(notes, scanned, lexical, queries, ratio);
    OrderOfPairs(notes, scanned, lexical, queries, ratio);
    AnnotatedSound(notes, scanned, lexical, queries, ratio);
    var keys := NamedKeys(notes, scanned, lexical, queries);
    RowIff(t, t.order, threshold, rows[l].pair);
    assert RowFor(rows, rows[l].pair);
    Seqs.FirstTimesInOrder(keys, n, rows[k].pair, rows[l].pair);
    if l < k {
      RowsInOrder(t, t.order, threshold, l, k);
    }
  }
}
