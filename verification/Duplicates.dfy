/**
  The duplicate scan: several legs fill one dictionary of pair signals, one of
  which may fail midway, and the pairs that clear the threshold become candidates.

  MinHash-LSH and Qdrant answers are arbitrary data.
 */
module Duplicates {
  import opened Wrappers

  type Pair = (nat, nat)

  datatype Method = ContentHash | MinhashLsh | CosineSimilarity

  datatype Signals = Signals(
    contentHash: bool, lexical: Option<real>, semantic: Option<real>, metadata: Option<real>,
    methods: set<Method>)

  /** The `pairs` dictionary with its insertion order. */
  datatype Pairs = Pairs(order: seq<Pair>, signals: map<Pair, Signals>)

  datatype Hash = Sha256(hex: string)

  datatype NoteRow = NoteRow(id: nat, hash: Hash)

  /** What Qdrant answers for one scanned note; `Raises` is an exception out of any step of it. */
  datatype Query = NoChunk | Hits(noteId: nat, hits: seq<(nat, Option<real>)>) | Raises

  datatype Detection = Single(only: Method) | Combined

  datatype Row = Row(pair: Pair, via: Detection, lexical: Option<real>, semantic: Option<real>,
                     metadata: Option<real>, combined: real)

  const BLANK := Signals(false, None, None, None, {})

  function PairKey(a: nat, b: nat): Pair {
    if a < b then (a, b) else (b, a)
  }

  function SetDefault(t: Pairs, key: Pair): Pairs {
    if key in t.signals then t else Pairs(t.order + [key], t.signals[key := BLANK])
  }

  function Best(best: Option<real>, score: real): Option<real> {
    if best.None? || score > best.value then Some(score) else best
  }

  function RecordExact(t: Pairs, key: Pair): Pairs {
    var tNext := SetDefault(t, key);
    var s := tNext.signals[key];
    tNext.(signals := tNext.signals[key := s.(contentHash := true, methods := s.methods + {ContentHash})])
  }

  function RecordLexical(t: Pairs, key: Pair, jaccard: real): Pairs {
    var tNext := SetDefault(t, key);
    var s := tNext.signals[key];
    var sNext := s.(lexical := Best(s.lexical, jaccard), methods := s.methods + {MinhashLsh});
    tNext.(signals := tNext.signals[key := sNext])
  }

  function RecordSemantic(t: Pairs, key: Pair, score: real): Pairs {
    var tNext := SetDefault(t, key);
    var s := tNext.signals[key];
    tNext.(signals := tNext.signals[key := AddSemantic(s, score)])
  }

  /** The answers of one note: itself, unknown notes and missing scores are skipped. */
  function RecordHits(t: Pairs, known: set<nat>, noteId: nat, hits: seq<(nat, Option<real>)>): Pairs
    decreases |hits|
  {
    if hits == [] then t
    else
      var tNext := RecordHits(t, known, noteId, hits[..|hits| - 1]);
      var (other, score) := hits[|hits| - 1];
      if other == noteId || other !in known || score.None? then tNext
      else RecordSemantic(tNext, PairKey(noteId, other), score.value)
  }

  /** The semantic leg up to the first exception. */
  function Recorded(t: Pairs, known: set<nat>, queries: seq<Query>): Pairs
    decreases |queries|
  {
    if queries == [] then t
    else
      match queries[0]
      case Raises => t
      case NoChunk => Recorded(t, known, queries[1..])
      case Hits(noteId, hits) => Recorded(RecordHits(t, known, noteId, hits), known, queries[1..])
  }

  function WithoutSemantic(s: Signals): Signals {
    if CosineSimilarity in s.methods
    then s.(methods := s.methods - {CosineSimilarity}, semantic := None)
    else s
  }

  function Degrade(t: Pairs): Pairs {
    t.(signals := map k | k in t.signals :: WithoutSemantic(t.signals[k]))
  }

  function SemanticLeg(t: Pairs, known: set<nat>, queries: seq<Query>): Pairs {
    if Raises in queries then Degrade(Recorded(t, known, queries)) else Recorded(t, known, queries)
  }

  /** Filename and title similarity annotates pairs between known notes. */
  function Annotate(t: Pairs, known: set<nat>, ratio: (nat, nat) -> real): Pairs {
    t.(signals := map k | k in t.signals :: AnnotateOne(t.signals[k], k, known, ratio))
  }

  function AnnotateOne(s: Signals, k: Pair, known: set<nat>, ratio: (nat, nat) -> real): Signals {
    if k.0 in known && k.1 in known then s.(metadata := Some(ratio(k.0, k.1))) else s
  }

  function OrZero(score: Option<real>): real {
    if score.Some? then score.value else 0.0
  }

  function CombinedScore(s: Signals): real {
    if s.contentHash then 1.0
    else if OrZero(s.lexical) > OrZero(s.semantic) then OrZero(s.lexical) else OrZero(s.semantic)
  }

  /** The detection method; None stands for the exception of taking one out of an empty set. */
  function ChooseMethod(methods: set<Method>): (r: Option<Detection>)
    ensures r.None? <==> methods == {}
    ensures r.Some? && r.value.Single? ==> methods == {r.value.only}
  {
    if methods == {} then None
    else if |methods| > 1 then Some(Combined)
    else if ContentHash in methods then
      Only(methods, ContentHash);
      Some(Single(ContentHash))
    else if MinhashLsh in methods then
      Only(methods, MinhashLsh);
      Some(Single(MinhashLsh))
    else
      SomeMethod(methods);
      Only(methods, CosineSimilarity);
      Some(Single(CosineSimilarity))
  }

  /** There are three methods. */
  lemma SomeMethod(methods: set<Method>)
    requires methods != {}
    ensures ContentHash in methods || MinhashLsh in methods || CosineSimilarity in methods
  {
    var m :| m in methods;
    match m {
      case ContentHash =>
      case MinhashLsh =>
      case CosineSimilarity =>
    }
  }

  lemma Only(methods: set<Method>, m: Method)
    requires m in methods && |methods| <= 1
    ensures methods == {m}
  {
    assert |methods - {m}| == |methods| - 1;
  }

  /** The rows that the scan upserts and returns, in order; None if choosing a method raises. */
  function Rows(t: Pairs, order: seq<Pair>, threshold: real): Option<seq<Row>>
    requires forall k :: k in order ==> k in t.signals
  {
    if order == [] then Some([])
    else
      var key := order[|order| - 1];
      var s := t.signals[key];
      var before := Rows(t, order[..|order| - 1], threshold);
      if before.None? then None
      else if CombinedScore(s) < threshold then before
      else
        var via := ChooseMethod(s.methods);
        if via.None? then None
        else Some(before.value + [Row(key, via.value, s.lexical, s.semantic, s.metadata, CombinedScore(s))])
  }

  // ----- what the dictionary keeps -----

  /** A score is present exactly when its method is recorded. */
  ghost predicate SoundSignals(s: Signals) {
    && (s.contentHash <==> ContentHash in s.methods)
    && (s.lexical.Some? <==> MinhashLsh in s.methods)
    && (s.semantic.Some? <==> CosineSimilarity in s.methods)
  }

  ghost predicate Sound(t: Pairs) {
    && (forall k :: k in t.order <==> k in t.signals)
    && (forall i, j :: 0 <= i < j < |t.order| ==> t.order[i] != t.order[j])
    && (forall k :: k in t.signals ==> SoundSignals(t.signals[k]))
  }

  ghost predicate NoSemantic(t: Pairs) {
    forall k :: k in t.signals ==> CosineSimilarity !in t.signals[k].methods
  }

  /** `t'` is `t` with more semantic signals, new pairs coming after the old ones. */
  ghost predicate Extends(t: Pairs, tNext: Pairs) {
    && t.order <= tNext.order
    && (forall k :: k in t.signals ==> k in tNext.signals && WithoutSemantic(tNext.signals[k]) == t.signals[k])
    && (forall k :: k in tNext.signals && k !in t.signals ==> WithoutSemantic(tNext.signals[k]) == BLANK)
  }

  function AddSemantic(s: Signals, score: real): Signals {
    s.(semantic := Best(s.semantic, score), methods := s.methods + {CosineSimilarity})
  }

  lemma AddSemanticUndone(s: Signals, score: real)
    ensures WithoutSemantic(AddSemantic(s, score)) == WithoutSemantic(s).(semantic := None)
    ensures SoundSignals(s) ==> SoundSignals(AddSemantic(s, score)) && WithoutSemantic(s).semantic.None?
  {
    assert (s.methods + {CosineSimilarity}) - {CosineSimilarity} == s.methods - {CosineSimilarity};
    if CosineSimilarity !in s.methods { assert s.methods - {CosineSimilarity} == s.methods; }
  }

  lemma SetDefaultSound(t: Pairs, key: Pair)
    requires Sound(t)
    ensures Sound(SetDefault(t, key)) && key in SetDefault(t, key).signals
  {
    if key !in t.signals {
      var order := t.order + [key];
      forall k ensures k in order <==> k in t.signals || k == key {
        assert k in t.order || k == key <==> k in order;
      }
    }
  }

  lemma SetDefaultKeeps(t: Pairs, tNext: Pairs, key: Pair)
    requires Sound(tNext) && Extends(t, tNext)
    ensures Sound(SetDefault(tNext, key)) && Extends(t, SetDefault(tNext, key)) && key in SetDefault(tNext, key).signals
  {
    SetDefaultSound(tNext, key);
    assert t.order <= SetDefault(tNext, key).order;
  }

  lemma RecordSemanticKeeps(t: Pairs, tNext: Pairs, key: Pair, score: real)
    requires Sound(tNext) && Extends(t, tNext)
    ensures Sound(RecordSemantic(tNext, key, score)) && Extends(t, RecordSemantic(tNext, key, score))
  {
    SetDefaultKeeps(t, tNext, key);
    var tLast := SetDefault(tNext, key);
    AddSemanticUndone(tLast.signals[key], score);
    assert WithoutSemantic(RecordSemantic(tNext, key, score).signals[key]) == WithoutSemantic(tLast.signals[key]);
  }

  lemma {:induction false} RecordHitsKeeps(t: Pairs, tNext: Pairs, known: set<nat>, noteId: nat,
                                           hits: seq<(nat, Option<real>)>)
    requires Sound(tNext) && Extends(t, tNext) && NoSemantic(t)
    ensures Sound(RecordHits(tNext, known, noteId, hits)) && Extends(t, RecordHits(tNext, known, noteId, hits))
    decreases |hits|
  {
    if hits != [] {
      RecordHitsKeeps(t, tNext, known, noteId, hits[..|hits| - 1]);
      var (other, score) := hits[|hits| - 1];
      if other != noteId && other in known && score.Some? {
        RecordSemanticKeeps(t, RecordHits(tNext, known, noteId, hits[..|hits| - 1]), PairKey(noteId, other),
                            score.value);
      }
    }
  }

  lemma {:induction false} RecordedKeeps(t: Pairs, tNext: Pairs, known: set<nat>, queries: seq<Query>)
    requires Sound(tNext) && Extends(t, tNext) && NoSemantic(t)
    ensures Sound(Recorded(tNext, known, queries)) && Extends(t, Recorded(tNext, known, queries))
    decreases |queries|
  {
    if queries != [] {
      match queries[0] {
        case Raises =>
        case NoChunk => RecordedKeeps(t, tNext, known, queries[1..]);
        case Hits(noteId, hits) =>
          RecordHitsKeeps(t, tNext, known, noteId, hits);
          RecordedKeeps(t, RecordHits(tNext, known, noteId, hits), known, queries[1..]);
      }
    }
  }

  lemma ExtendsReflexive(t: Pairs)
    requires NoSemantic(t)
    ensures Extends(t, t)
  {
  }

  /** After a failure the old pairs are exactly what they were, and every new pair is blank. */
  lemma FailedLegRestores(t: Pairs, known: set<nat>, queries: seq<Query>)
    requires Sound(t) && NoSemantic(t) && Raises in queries
    ensures var tNext := SemanticLeg(t, known, queries);
      && Sound(tNext) && t.order <= tNext.order
      && (forall k :: k in t.signals ==> k in tNext.signals && tNext.signals[k] == t.signals[k])
      && (forall k :: k in tNext.signals && k !in t.signals ==> tNext.signals[k] == BLANK)
  {
    ExtendsReflexive(t);
    RecordedKeeps(t, t, known, queries);
  }

  /** Rows depend on nothing but the signals of the listed pairs. */
  lemma {:induction false} RowsAgree(t: Pairs, tNext: Pairs, order: seq<Pair>, threshold: real)
    requires forall k :: k in order ==> k in t.signals && k in tNext.signals && t.signals[k] == tNext.signals[k]
    ensures Rows(t, order, threshold) == Rows(tNext, order, threshold)
  {
    if order != [] {
      assert order[|order| - 1] in order;
      RowsAgree(t, tNext, order[..|order| - 1], threshold);
    }
  }

  /** Pairs without any signal add no row under a positive threshold. */
  lemma {:induction false} BlankPairsAddNothing(t: Pairs, order: seq<Pair>, extra: seq<Pair>, threshold: real)
    requires threshold > 0.0
    requires forall k :: k in order + extra ==> k in t.signals
    requires forall k :: k in extra ==> t.signals[k].methods == {} && CombinedScore(t.signals[k]) == 0.0
    ensures (forall k :: k in order ==> k in t.signals)
         && Rows(t, order + extra, threshold) == Rows(t, order, threshold)
  {
    assert forall k :: k in order ==> k in order + extra;
    if extra == [] {
      assert order + extra == order;
    } else {
      var init := extra[..|extra| - 1];
      assert (order + extra)[..|order + extra| - 1] == order + init;
      assert (order + extra)[|order + extra| - 1] == extra[|extra| - 1];
      assert extra[|extra| - 1] in extra;
      assert forall k :: k in order + init ==> k in order + extra;
      BlankPairsAddNothing(t, order, init, threshold);
    }
  }

  lemma ExtraPairsAreNew(t: Pairs, tNext: Pairs, extra: seq<Pair>)
    requires Sound(t) && Sound(tNext) && tNext.order == t.order + extra
    ensures forall k :: k in extra ==> k in tNext.signals && k !in t.signals
  {
    forall k | k in extra ensures k in tNext.signals && k !in t.signals {
      var i :| 0 <= i < |extra| && extra[i] == k;
      assert tNext.order[|t.order| + i] == k;
      assert forall j :: 0 <= j < |t.order| ==> tNext.order[j] == t.order[j];
    }
  }

  lemma SameRows(longer: Pairs, shorter: Pairs, extra: seq<Pair>, threshold: real)
    requires threshold > 0.0 && longer.order == shorter.order + extra
    requires forall k :: k in longer.order ==> k in longer.signals
    requires forall k :: k in shorter.order ==> k in shorter.signals && longer.signals[k] == shorter.signals[k]
    requires forall k :: k in extra ==> longer.signals[k].methods == {} && CombinedScore(longer.signals[k]) == 0.0
    ensures Rows(longer, longer.order, threshold) == Rows(shorter, shorter.order, threshold)
  {
    assert forall k :: k in shorter.order || k in extra ==> k in longer.order;
    BlankPairsAddNothing(longer, shorter.order, extra, threshold);
    RowsAgree(longer, shorter, shorter.order, threshold);
  }

  /** A scan whose semantic leg fails gives the rows of a scan without a semantic leg. */
  lemma SemanticLegAllOrNothing(t: Pairs, known: set<nat>, queries: seq<Query>, ratio: (nat, nat) -> real,
                                threshold: real)
    requires Sound(t) && NoSemantic(t) && Raises in queries && threshold > 0.0
    ensures var failed := Annotate(SemanticLeg(t, known, queries), known, ratio);
      var without := Annotate(t, known, ratio);
      && (forall k :: k in failed.order ==> k in failed.signals)
      && (forall k :: k in without.order ==> k in without.signals)
      && Rows(failed, failed.order, threshold) == Rows(without, without.order, threshold)
  {
    FailedLegRestores(t, known, queries);
    var tNext := SemanticLeg(t, known, queries);
    var extra := tNext.order[|t.order|..];
    assert tNext.order == t.order + extra;
    ExtraPairsAreNew(t, tNext, extra);
    AnnotatedRows(tNext, t, extra, known, ratio, threshold);
  }

  lemma AnnotatedRows(longer: Pairs, shorter: Pairs, extra: seq<Pair>, known: set<nat>, ratio: (nat, nat) -> real,
                      threshold: real)
    requires threshold > 0.0 && longer.order == shorter.order + extra
    requires forall k :: k in longer.order ==> k in longer.signals
    requires forall k :: k in shorter.order ==> k in shorter.signals && longer.signals[k] == shorter.signals[k]
    requires forall k :: k in extra ==> longer.signals[k] == BLANK
    ensures var l, s := Annotate(longer, known, ratio), Annotate(shorter, known, ratio);
      && (forall k :: k in l.order ==> k in l.signals)
      && (forall k :: k in s.order ==> k in s.signals)
      && Rows(l, l.order, threshold) == Rows(s, s.order, threshold)
  {
    SameRows(Annotate(longer, known, ratio), Annotate(shorter, known, ratio), extra, threshold);
  }

  /** Choosing a method raises exactly if some pair without signals passes the threshold. */
  lemma {:induction false} MethodChoiceDefined(t: Pairs, order: seq<Pair>, threshold: real)
    requires forall k :: k in order ==> k in t.signals && SoundSignals(t.signals[k])
    ensures Rows(t, order, threshold).Some? <==>
              threshold > 0.0 || forall k :: k in order ==> t.signals[k].methods != {}
  {
    if order != [] {
      var init, last := order[..|order| - 1], order[|order| - 1];
      assert order == init + [last];
      MethodChoiceDefined(t, init, threshold);
      assert t.signals[last].methods == {} ==> CombinedScore(t.signals[last]) == 0.0;
    }
  }
}
