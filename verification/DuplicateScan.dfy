/** The scan itself: the legs updating the shared `pairs` dictionary in place, and its exact-match leg. */
module DuplicateScan {
  import opened Wrappers
  import opened Duplicates

  // ----- the exact leg: grouping by content hash -----

  /** The hashes in the order in which grouping first sees them. */
  function HashOrder(notes: seq<NoteRow>): seq<Hash> {
    if notes == [] then []
    else
      var before, h := HashOrder(notes[..|notes| - 1]), notes[|notes| - 1].hash;
      if h in before then before else before + [h]
  }

  function IdsWith(notes: seq<NoteRow>, h: Hash): seq<nat> {
    if notes == [] then []
    else IdsWith(notes[..|notes| - 1], h) + if notes[|notes| - 1].hash == h then [notes[|notes| - 1].id] else []
  }

  /** The pairs of group member `i` with the members after it and before `j`. */
  function InnerKeys(ids: seq<nat>, i: nat, j: nat, scanned: set<nat>): seq<Pair>
    requires i < |ids| && j <= |ids|
  {
    if j <= i + 1 then []
    else InnerKeys(ids, i, j - 1, scanned) +
         if ids[i] !in scanned && ids[j - 1] !in scanned then [] else [PairKey(ids[i], ids[j - 1])]
  }

  lemma InnerKeysStep(ids: seq<nat>, i: nat, j: nat, scanned: set<nat>)
    requires i < j < |ids|
    ensures InnerKeys(ids, i, j + 1, scanned) ==
            if ids[i] !in scanned && ids[j] !in scanned then InnerKeys(ids, i, j, scanned)
            else InnerKeys(ids, i, j, scanned) + [PairKey(ids[i], ids[j])]
  {
  }

  function OuterKeys(ids: seq<nat>, i: nat, scanned: set<nat>): seq<Pair>
    requires i <= |ids|
  {
    if i == 0 then [] else OuterKeys(ids, i - 1, scanned) + InnerKeys(ids, i - 1, |ids|, scanned)
  }

  function GroupKeys(notes: seq<NoteRow>, hashes: seq<Hash>, scanned: set<nat>): seq<Pair> {
    if hashes == [] then []
    else
      var ids := IdsWith(notes, hashes[|hashes| - 1]);
      GroupKeys(notes, hashes[..|hashes| - 1], scanned) + OuterKeys(ids, |ids|, scanned)
  }

  lemma GroupKeysStep(notes: seq<NoteRow>, hashes: seq<Hash>, g: nat, scanned: set<nat>)
    requires g < |hashes|
    ensures var ids := IdsWith(notes, hashes[g]);
      GroupKeys(notes, hashes[..g + 1], scanned) ==
      GroupKeys(notes, hashes[..g], scanned) + OuterKeys(ids, |ids|, scanned)
  {
    assert hashes[..g + 1][..g] == hashes[..g];
  }

  function ExactKeys(notes: seq<NoteRow>, scanned: set<nat>): seq<Pair> {
    GroupKeys(notes, HashOrder(notes), scanned)
  }

  function RecordAll(t: Pairs, keys: seq<Pair>): Pairs {
    if keys == [] then t else RecordExact(RecordAll(t, keys[..|keys| - 1]), keys[|keys| - 1])
  }

  /** The LSH answers for one scanned note. */
  function LexicalHits(t: Pairs, noteId: nat, hits: seq<(nat, real)>): Pairs {
    if hits == [] then t
    else
      var before, (other, jaccard) := LexicalHits(t, noteId, hits[..|hits| - 1]), hits[|hits| - 1];
      if other == noteId then before else RecordLexical(before, PairKey(noteId, other), jaccard)
  }

  function LexicalLeg(t: Pairs, answers: seq<(nat, seq<(nat, real)>)>): Pairs {
    if answers == [] then t
    else
      var (noteId, hits) := answers[|answers| - 1];
      LexicalHits(LexicalLeg(t, answers[..|answers| - 1]), noteId, hits)
  }

  /** What reading a scanned note's file does: a file that is not UTF-8 raises an exception that nobody catches. */
  datatype Read = Readable | Unreadable | Undecodable

  predicate NotText(notes: seq<NoteRow>, scanned: set<nat>, read: nat -> Read) {
    exists k :: 0 <= k < |notes| && notes[k].id in scanned && read(notes[k].id) == Undecodable
  }

  lemma RecordAllAppend(t: Pairs, keys: seq<Pair>, key: Pair)
    ensures RecordAll(t, keys + [key]) == RecordExact(RecordAll(t, keys), key)
  {
    assert (keys + [key])[..|keys|] == keys;
  }

  lemma {:induction false} RecordAllConcat(t: Pairs, a: seq<Pair>, b: seq<Pair>)
    ensures RecordAll(t, a + b) == RecordAll(RecordAll(t, a), b)
  {
    if b == [] {
      assert a + b == a;
    } else {
      var init, key := b[..|b| - 1], b[|b| - 1];
      assert a + b == (a + init) + [key];
      RecordAllAppend(t, a + init, key);
      RecordAllConcat(t, a, init);
    }
  }

  const NO_PAIRS := Pairs([], map[])

  class PairDict {
    var order: seq<Pair>
    var signals: map<Pair, Signals>

    function View(): Pairs
      reads this
    {
      Pairs(order, signals)
    }

    constructor ()
      ensures View() == NO_PAIRS
    {
      order, signals := [], map[];
    }

    method SetDefaultKey(key: Pair)
      modifies this
      ensures View() == SetDefault(old(View()), key) && key in signals
    {
      if key !in signals {
        order := order + [key];
        signals := signals[key := BLANK];
      }
    }

    method RecordExactMatch(key: Pair)
      modifies this
      ensures View() == RecordExact(old(View()), key)
    {
      SetDefaultKey(key);
      signals := signals[key := signals[key].(contentHash := true, methods := signals[key].methods + {ContentHash})];
    }

    /** The inner loop: member `i` of a group against the members after it. */
    method RecordMember(ids: seq<nat>, i: nat, scanned: set<nat>)
      requires i < |ids|
      modifies this
      ensures View() == RecordAll(old(View()), InnerKeys(ids, i, |ids|, scanned))
    {
      ghost var t := View();
      ghost var keys := [];
      for j := i + 1 to |ids|
        invariant keys == InnerKeys(ids, i, j, scanned)
        invariant View() == RecordAll(t, keys)
      {
        InnerKeysStep(ids, i, j, scanned);
        if ids[i] !in scanned && ids[j] !in scanned { continue; }
        var key := PairKey(ids[i], ids[j]);
        RecordExactMatch(key);
        RecordAllAppend(t, keys, key);
        keys := keys + [key];
      }
    }

    /** The nested loops over one group of equal hashes. */
    method RecordGroup(ids: seq<nat>, scanned: set<nat>)
      modifies this
      ensures View() == RecordAll(old(View()), OuterKeys(ids, |ids|, scanned))
    {
      ghost var t := View();
      for i := 0 to |ids|
        invariant View() == RecordAll(t, OuterKeys(ids, i, scanned))
      {
        RecordMember(ids, i, scanned);
        RecordAllConcat(t, OuterKeys(ids, i, scanned), InnerKeys(ids, i, |ids|, scanned));
      }
    }

    method RecordExactMatches(notes: seq<NoteRow>, scanned: set<nat>)
      modifies this
      ensures View() == RecordAll(old(View()), ExactKeys(notes, scanned))
    {
      var hashes, groups := GroupByHash(notes);
      ghost var t := View();
      for g := 0 to |hashes|
        invariant View() == RecordAll(t, GroupKeys(notes, hashes[..g], scanned))
      {
        var ids := GroupOf(groups, hashes[g]);
        RecordGroup(ids, scanned);
        RecordAllConcat(t, GroupKeys(notes, hashes[..g], scanned), OuterKeys(ids, |ids|, scanned));
        GroupKeysStep(notes, hashes, g, scanned);
      }
      assert hashes[..|hashes|] == hashes;
    }

    /** Reads every scanned note, then takes the answers; answers whether reading raised. */
    method RecordLexicalMatches(notes: seq<NoteRow>, scanned: set<nat>, read: nat -> Read,
                                answers: seq<(nat, seq<(nat, real)>)>)
      returns (raised: bool)
      modifies this
      ensures raised <==> NotText(notes, scanned, read)
      ensures View() == if raised then old(View()) else LexicalLeg(old(View()), answers)
    {
      for k := 0 to |notes|
        invariant View() == old(View()) && !NotText(notes[..k], scanned, read)
      {
        assert notes[..k + 1] == notes[..k] + [notes[k]];
        if notes[k].id in scanned && read(notes[k].id) == Undecodable { return true; }
      }
      assert notes[..|notes|] == notes;
      RecordAnswers(answers);
      raised := false;
    }

    method RecordAnswers(answers: seq<(nat, seq<(nat, real)>)>)
      modifies this
      ensures View() == LexicalLeg(old(View()), answers)
    {
      ghost var t := View();
      for a := 0 to |answers|
        invariant View() == LexicalLeg(t, answers[..a])
      {
        var noteId, hits := answers[a].0, answers[a].1;
        ghost var tNext := View();
        for k := 0 to |hits|
          invariant View() == LexicalHits(tNext, noteId, hits[..k])
        {
          var other, jaccard := hits[k].0, hits[k].1;
          assert hits[..k + 1][..k] == hits[..k];
          if other != noteId {
            var key := PairKey(noteId, other);
            SetDefaultKey(key);
            var s := signals[key];
            if s.lexical.None? || jaccard > s.lexical.value { s := s.(lexical := Some(jaccard)); }
            signals := signals[key := s.(methods := s.methods + {MinhashLsh})];
          }
        }
        assert hits[..|hits|] == hits && answers[..a + 1][..a] == answers[..a];
      }
      assert answers[..|answers|] == answers;
    }

    method RecordNoteHits(known: set<nat>, noteId: nat, hits: seq<(nat, Option<real>)>)
      modifies this
      ensures View() == RecordHits(old(View()), known, noteId, hits)
    {
      ghost var t := View();
      for k := 0 to |hits|
        invariant View() == RecordHits(t, known, noteId, hits[..k])
      {
        var other, score := hits[k].0, hits[k].1;
        assert hits[..k + 1][..k] == hits[..k];
        if other == noteId || other !in known { continue; }
        if score.None? { continue; }
        var key := PairKey(noteId, other);
        SetDefaultKey(key);
        var s := signals[key];
        if s.semantic.None? || score.value > s.semantic.value { s := s.(semantic := score); }
        signals := signals[key := s.(methods := s.methods + {CosineSimilarity})];
      }
      assert hits[..|hits|] == hits;
    }

    method DiscardSemantic()
      modifies this
      ensures View() == Degrade(old(View()))
    {
      var todo := signals.Keys;
      ghost var t := View();
      while todo != {}
        invariant order == t.order && signals.Keys == t.signals.Keys && todo <= signals.Keys
        invariant forall k :: k in signals ==>
                    signals[k] == if k in todo then t.signals[k] else WithoutSemantic(t.signals[k])
        decreases |todo|
      {
        var k :| k in todo;
        if CosineSimilarity in signals[k].methods {
          signals := signals[k := signals[k].(methods := signals[k].methods - {CosineSimilarity}, semantic := None)];
        }
        todo := todo - {k};
      }
    }

    method RecordSemanticMatches(known: set<nat>, queries: seq<Query>)
      modifies this
      ensures View() == SemanticLeg(old(View()), known, queries)
    {
      ghost var t := View();
      var q := 0;
      while q < |queries|
        invariant 0 <= q <= |queries| && Raises !in queries[..q]
        invariant Recorded(t, known, queries) == Recorded(View(), known, queries[q..])
      {
        match queries[q] {
          case NoChunk =>
          case Hits(noteId, hits) => RecordNoteHits(known, noteId, hits);
          case Raises =>
            DiscardSemantic();
            return;
        }
        assert queries[q..][1..] == queries[q + 1..];
        q := q + 1;
      }
      assert queries[..q] == queries;
    }

    method AnnotateMetadataMatches(known: set<nat>, ratio: (nat, nat) -> real)
      modifies this
      ensures View() == Annotate(old(View()), known, ratio)
    {
      var todo := signals.Keys;
      ghost var t := View();
      while todo != {}
        invariant order == t.order && signals.Keys == t.signals.Keys && todo <= signals.Keys
        invariant forall k :: k in signals ==>
                    signals[k] == if k in todo then t.signals[k] else AnnotateOne(t.signals[k], k, known, ratio)
        decreases |todo|
      {
        var k :| k in todo;
        if k.0 in known && k.1 in known {
          signals := signals[k := signals[k].(metadata := Some(ratio(k.0, k.1)))];
        }
        todo := todo - {k};
      }
    }

    /** The final loop; the real one upserts each row as it goes. */
    method CollectRows(threshold: real) returns (rows: Option<seq<Row>>)
      requires Listed(View())
      ensures rows == Rows(View(), order, threshold)
    {
      var results: seq<Row> := [];
      for k := 0 to |order|
        invariant forall m :: m in order[..k] ==> m in signals
        invariant Rows(View(), order[..k], threshold) == Some(results)
      {
        var key := order[k];
        assert order[..k + 1][..k] == order[..k];
        var s := signals[key];
        var combined := if OrZero(s.lexical) > OrZero(s.semantic) then OrZero(s.lexical) else OrZero(s.semantic);
        if s.contentHash { combined := 1.0; }
        if combined < threshold { continue; }
        var via := ChooseMethod(s.methods);
        if via.None? {
          RowsRaise(View(), order, k + 1, threshold);
          return None;
        }
        results := results + [Row(key, via.value, s.lexical, s.semantic, s.metadata, combined)];
      }
      assert order[..|order|] == order;
      return Some(results);
    }
  }

  ghost predicate Listed(t: Pairs) {
    forall k :: k in t.order ==> k in t.signals
  }

  function GroupOf(groups: map<Hash, seq<nat>>, h: Hash): seq<nat> {
    if h in groups then groups[h] else []
  }

  ghost predicate Grouped(notes: seq<NoteRow>, order: seq<Hash>, groups: map<Hash, seq<nat>>) {
    && order == HashOrder(notes)
    && (forall h :: h in order <==> h in groups)
    && (forall h :: GroupOf(groups, h) == IdsWith(notes, h))
  }

  lemma IdsWithStep(notes: seq<NoteRow>, k: nat, h: Hash)
    requires k < |notes|
    ensures IdsWith(notes[..k + 1], h) == IdsWith(notes[..k], h) + if notes[k].hash == h then [notes[k].id] else []
  {
    assert notes[..k + 1][..k] == notes[..k];
  }

  lemma HashOrderStep(notes: seq<NoteRow>, k: nat)
    requires k < |notes|
    ensures HashOrder(notes[..k + 1]) ==
            if notes[k].hash in HashOrder(notes[..k]) then HashOrder(notes[..k])
            else HashOrder(notes[..k]) + [notes[k].hash]
  {
    assert notes[..k + 1][..k] == notes[..k];
  }

  lemma GroupedStep(notes: seq<NoteRow>, k: nat, order: seq<Hash>, groups: map<Hash, seq<nat>>)
    requires k < |notes| && Grouped(notes[..k], order, groups)
    ensures var h := notes[k].hash;
      Grouped(notes[..k + 1], if h in groups then order else order + [h],
              groups[h := GroupOf(groups, h) + [notes[k].id]])
  {
    var seen := notes[k].hash;
    var orderNext := if seen in groups then order else order + [seen];
    var groupsNext := groups[seen := GroupOf(groups, seen) + [notes[k].id]];
    HashOrderStep(notes, k);
    forall h ensures GroupOf(groupsNext, h) == IdsWith(notes[..k + 1], h) {
      IdsWithStep(notes, k, h);
      assert GroupOf(groups, h) == IdsWith(notes[..k], h);
    }
    forall h ensures h in orderNext <==> h in groupsNext {
      assert h in orderNext <==> h in order || h == seen;
    }
  }

  method GroupByHash(notes: seq<NoteRow>) returns (order: seq<Hash>, groups: map<Hash, seq<nat>>)
    ensures Grouped(notes, order, groups)
  {
    order, groups := [], map[];
    for k := 0 to |notes|
      invariant Grouped(notes[..k], order, groups)
    {
      var note := notes[k];
      GroupedStep(notes, k, order, groups);
      if note.hash !in groups { order := order + [note.hash]; }
      groups := groups[note.hash := GroupOf(groups, note.hash) + [note.id]];
    }
    assert notes[..|notes|] == notes;
  }

  /** The state of the dictionary when the semantic leg starts. */
  function BeforeSemantic(notes: seq<NoteRow>, scanned: set<nat>, lexical: seq<(nat, seq<(nat, real)>)>): Pairs {
    LexicalLeg(RecordAll(NO_PAIRS, ExactKeys(notes, scanned)), lexical)
  }

  function Ids(notes: seq<NoteRow>): set<nat> {
    set n | n in notes :: n.id
  }

  /** The pairs as the final loop of a scan finds them. */
  function Annotated(notes: seq<NoteRow>, scanned: set<nat>, lexical: seq<(nat, seq<(nat, real)>)>,
                     queries: seq<Query>, ratio: (nat, nat) -> real): (t: Pairs)
    ensures Listed(t)
  {
    AnnotatedSound(notes, scanned, lexical, queries, ratio);
    Annotate(SemanticLeg(BeforeSemantic(notes, scanned, lexical), Ids(notes), queries), Ids(notes), ratio)
  }

  lemma AnnotatedSound(notes: seq<NoteRow>, scanned: set<nat>, lexical: seq<(nat, seq<(nat, real)>)>,
                       queries: seq<Query>, ratio: (nat, nat) -> real)
    ensures var before := BeforeSemantic(notes, scanned, lexical);
      Sound(Annotate(SemanticLeg(before, Ids(notes), queries), Ids(notes), ratio))
  {
    BeforeSemanticSound(notes, scanned, lexical);
    SemanticLegSound(BeforeSemantic(notes, scanned, lexical), Ids(notes), queries);
    AnnotateSound(SemanticLeg(BeforeSemantic(notes, scanned, lexical), Ids(notes), queries), Ids(notes), ratio);
  }

  /** The rows that a scan upserts; None if it raises. */
  function Scan(notes: seq<NoteRow>, scanned: set<nat>, read: nat -> Read, lexical: seq<(nat, seq<(nat, real)>)>,
                queries: seq<Query>, ratio: (nat, nat) -> real, threshold: real): Option<seq<Row>>
  {
    var t := Annotated(notes, scanned, lexical, queries, ratio);
    if NotText(notes, scanned, read) then None else Rows(t, t.order, threshold)
  }

  method ScanForDuplicates(notes: seq<NoteRow>, noteIds: Option<set<nat>>, read: nat -> Read,
                           lexical: seq<(nat, seq<(nat, real)>)>, queries: seq<Query>, ratio: (nat, nat) -> real,
                           threshold: real)
    returns (rows: Option<seq<Row>>)
    ensures var scanned := if noteIds.Some? then Ids(notes) * noteIds.value else Ids(notes);
      && rows == Scan(notes, scanned, read, lexical, queries, ratio, threshold)
      && (rows.None? <==>
            || (exists note :: note in notes && note.id in scanned && read(note.id) == Undecodable)
            || (&& threshold <= 0.0 && Raises in queries
                && exists key :: FoundBeforeFailure(Ids(notes), queries, key)
                                 && !FoundOtherwise(notes, scanned, lexical, key)))
  {
    var known := Ids(notes);
    var scanned := if noteIds.Some? then known * noteIds.value else known;
    ScanRaisesIff(notes, scanned, read, lexical, queries, ratio, threshold);
    var pairs := new PairDict();
    pairs.RecordExactMatches(notes, scanned);
    var raised := pairs.RecordLexicalMatches(notes, scanned, read, lexical);
    if raised { return None; }
    pairs.RecordSemanticMatches(known, queries);
    pairs.AnnotateMetadataMatches(known, ratio);
    assert pairs.View() == Annotated(notes, scanned, lexical, queries, ratio);
    rows := pairs.CollectRows(threshold);
  }

  // ----- when the scan raises -----

  /** A hit that the semantic leg counts. */
  predicate Counts(known: set<nat>, noteId: nat, hit: (nat, Option<real>)) {
    hit.0 != noteId && hit.0 in known && hit.1.Some?
  }

  ghost predicate InHits(known: set<nat>, noteId: nat, hits: seq<(nat, Option<real>)>, key: Pair) {
    exists k :: 0 <= k < |hits| && Counts(known, noteId, hits[k]) && key == PairKey(noteId, hits[k].0)
  }

  /** The semantic leg gets as far as an answer that names the pair. */
  ghost predicate FoundBeforeFailure(known: set<nat>, queries: seq<Query>, key: Pair) {
    exists n :: 0 <= n < |queries| && Raises !in queries[..n]
                && queries[n].Hits? && InHits(known, queries[n].noteId, queries[n].hits, key)
  }

  ghost predicate InLexical(lexical: seq<(nat, seq<(nat, real)>)>, key: Pair) {
    exists a, k :: 0 <= a < |lexical| && 0 <= k < |lexical[a].1| && lexical[a].1[k].0 != lexical[a].0
                   && key == PairKey(lexical[a].0, lexical[a].1[k].0)
  }

  /** The exact or the lexical leg records the pair. */
  ghost predicate FoundOtherwise(notes: seq<NoteRow>, scanned: set<nat>, lexical: seq<(nat, seq<(nat, real)>)>,
                                 key: Pair)
  {
    key in ExactKeys(notes, scanned) || InLexical(lexical, key)
  }

  lemma {:induction false} RecordHitsKeys(t: Pairs, known: set<nat>, noteId: nat, hits: seq<(nat, Option<real>)>,
                                          key: Pair)
    ensures key in RecordHits(t, known, noteId, hits).signals <==>
            key in t.signals || InHits(known, noteId, hits, key)
  {
    if hits != [] {
      var init := hits[..|hits| - 1];
      RecordHitsKeys(t, known, noteId, init, key);
      if k :| 0 <= k < |init| && Counts(known, noteId, init[k]) && key == PairKey(noteId, init[k].0) {
        assert hits[k] == init[k];
      }
    }
  }

  lemma {:induction false} RecordedKeys(t: Pairs, known: set<nat>, queries: seq<Query>, key: Pair)
    ensures key in Recorded(t, known, queries).signals <==>
            key in t.signals || FoundBeforeFailure(known, queries, key)
    decreases |queries|
  {
    if queries != [] {
      FoundLater(known, queries, key);
      match queries[0] {
        case Raises =>
        case NoChunk => RecordedKeys(t, known, queries[1..], key);
        case Hits(noteId, hits) =>
          RecordHitsKeys(t, known, noteId, hits, key);
          RecordedKeys(RecordHits(t, known, noteId, hits), known, queries[1..], key);
      }
    }
  }

  lemma FoundLater(known: set<nat>, queries: seq<Query>, key: Pair)
    requires queries != []
    ensures FoundBeforeFailure(known, queries, key) <==>
              && queries[0] != Raises
              && ((queries[0].Hits? && InHits(known, queries[0].noteId, queries[0].hits, key))
                  || FoundBeforeFailure(known, queries[1..], key))
  {
    var rest := queries[1..];
    if n :| 0 <= n < |rest| && Raises !in rest[..n] && rest[n].Hits?
            && InHits(known, rest[n].noteId, rest[n].hits, key) {
      assert queries[..n + 1] == [queries[0]] + rest[..n];
      assert queries[0] != Raises ==> Raises !in queries[..n + 1] && queries[n + 1] == rest[n];
    }
    if n :| 0 <= n < |queries| && Raises !in queries[..n] && queries[n].Hits?
            && InHits(known, queries[n].noteId, queries[n].hits, key) && n > 0 {
      assert queries[..n] == [queries[0]] + rest[..n - 1];
      assert rest[n - 1] == queries[n];
    }
  }

  lemma {:induction false} RecordAllKeys(t: Pairs, keys: seq<Pair>, key: Pair)
    ensures key in RecordAll(t, keys).signals <==> key in t.signals || key in keys
  {
    if keys != [] {
      var init := keys[..|keys| - 1];
      RecordAllKeys(t, init, key);
      assert keys == init + [keys[|keys| - 1]];
    }
  }

  ghost predicate InAnswer(noteId: nat, hits: seq<(nat, real)>, key: Pair) {
    exists k :: 0 <= k < |hits| && hits[k].0 != noteId && key == PairKey(noteId, hits[k].0)
  }

  lemma {:induction false} LexicalHitsKeys(t: Pairs, noteId: nat, hits: seq<(nat, real)>, key: Pair)
    ensures key in LexicalHits(t, noteId, hits).signals <==> key in t.signals || InAnswer(noteId, hits, key)
  {
    if hits != [] {
      var init := hits[..|hits| - 1];
      LexicalHitsKeys(t, noteId, init, key);
      if k :| 0 <= k < |init| && init[k].0 != noteId && key == PairKey(noteId, init[k].0) {
        assert hits[k] == init[k];
      }
    }
  }

  lemma {:induction false} LexicalLegKeys(t: Pairs, lexical: seq<(nat, seq<(nat, real)>)>, key: Pair)
    ensures key in LexicalLeg(t, lexical).signals <==> key in t.signals || InLexical(lexical, key)
  {
    if lexical != [] {
      var init, last := lexical[..|lexical| - 1], lexical[|lexical| - 1];
      LexicalLegKeys(t, init, key);
      LexicalHitsKeys(LexicalLeg(t, init), last.0, last.1, key);
      InLexicalLast(lexical, key);
    }
  }

  lemma InLexicalLast(lexical: seq<(nat, seq<(nat, real)>)>, key: Pair)
    requires lexical != []
    ensures var init, last := lexical[..|lexical| - 1], lexical[|lexical| - 1];
      InLexical(lexical, key) <==> InLexical(init, key) || InAnswer(last.0, last.1, key)
  {
    var init, last := lexical[..|lexical| - 1], lexical[|lexical| - 1];
    if a, k :| 0 <= a < |init| && 0 <= k < |init[a].1| && init[a].1[k].0 != init[a].0
               && key == PairKey(init[a].0, init[a].1[k].0) {
      assert lexical[a] == init[a];
    }
    if k :| 0 <= k < |last.1| && last.1[k].0 != last.0 && key == PairKey(last.0, last.1[k].0) {
      assert lexical[|lexical| - 1].1[k] == last.1[k];
    }
    if a, k :| 0 <= a < |lexical| && 0 <= k < |lexical[a].1| && lexical[a].1[k].0 != lexical[a].0
               && key == PairKey(lexical[a].0, lexical[a].1[k].0) {
      if a < |init| { assert init[a] == lexical[a]; }
    }
  }

  lemma BeforeSemanticKeys(notes: seq<NoteRow>, scanned: set<nat>, lexical: seq<(nat, seq<(nat, real)>)>, key: Pair)
    ensures key in BeforeSemantic(notes, scanned, lexical).signals <==> FoundOtherwise(notes, scanned, lexical, key)
  {
    RecordAllKeys(NO_PAIRS, ExactKeys(notes, scanned), key);
    LexicalLegKeys(RecordAll(NO_PAIRS, ExactKeys(notes, scanned)), lexical, key);
  }

  // ----- every recorded pair has a method, until the failure takes it away -----

  ghost predicate AllHaveMethods(t: Pairs) {
    forall k :: k in t.signals ==> t.signals[k].methods != {}
  }

  lemma {:induction false} RecordAllMethods(t: Pairs, keys: seq<Pair>)
    requires AllHaveMethods(t)
    ensures AllHaveMethods(RecordAll(t, keys))
  {
    if keys != [] {
      RecordAllMethods(t, keys[..|keys| - 1]);
      assert ContentHash in RecordAll(t, keys).signals[keys[|keys| - 1]].methods;
    }
  }

  lemma {:induction false} LexicalHitsMethods(t: Pairs, noteId: nat, hits: seq<(nat, real)>)
    requires AllHaveMethods(t)
    ensures AllHaveMethods(LexicalHits(t, noteId, hits))
  {
    if hits != [] {
      var (other, jaccard) := hits[|hits| - 1];
      LexicalHitsMethods(t, noteId, hits[..|hits| - 1]);
      if other != noteId {
        assert MinhashLsh in LexicalHits(t, noteId, hits).signals[PairKey(noteId, other)].methods;
      }
    }
  }

  lemma {:induction false} LexicalLegMethods(t: Pairs, lexical: seq<(nat, seq<(nat, real)>)>)
    requires AllHaveMethods(t)
    ensures AllHaveMethods(LexicalLeg(t, lexical))
  {
    if lexical != [] {
      var (noteId, hits) := lexical[|lexical| - 1];
      LexicalLegMethods(t, lexical[..|lexical| - 1]);
      LexicalHitsMethods(LexicalLeg(t, lexical[..|lexical| - 1]), noteId, hits);
    }
  }

  lemma {:induction false} RecordHitsMethods(t: Pairs, known: set<nat>, noteId: nat, hits: seq<(nat, Option<real>)>)
    requires AllHaveMethods(t)
    ensures AllHaveMethods(RecordHits(t, known, noteId, hits))
  {
    if hits != [] {
      var (other, score) := hits[|hits| - 1];
      RecordHitsMethods(t, known, noteId, hits[..|hits| - 1]);
      if Counts(known, noteId, hits[|hits| - 1]) {
        assert CosineSimilarity in RecordHits(t, known, noteId, hits).signals[PairKey(noteId, other)].methods;
      }
    }
  }

  lemma {:induction false} RecordedMethods(t: Pairs, known: set<nat>, queries: seq<Query>)
    requires AllHaveMethods(t)
    ensures AllHaveMethods(Recorded(t, known, queries))
    decreases |queries|
  {
    if queries != [] {
      match queries[0] {
        case Raises =>
        case NoChunk => RecordedMethods(t, known, queries[1..]);
        case Hits(noteId, hits) =>
          RecordHitsMethods(t, known, noteId, hits);
          RecordedMethods(RecordHits(t, known, noteId, hits), known, queries[1..]);
      }
    }
  }

  /** After the semantic leg a pair is without methods exactly if only a leg that failed had found it. */
  lemma MethodlessIff(notes: seq<NoteRow>, scanned: set<nat>, lexical: seq<(nat, seq<(nat, real)>)>,
                      known: set<nat>, queries: seq<Query>, key: Pair)
    ensures var t := SemanticLeg(BeforeSemantic(notes, scanned, lexical), known, queries);
      key in t.signals && t.signals[key].methods == {} <==>
        && Raises in queries
        && FoundBeforeFailure(known, queries, key) && !FoundOtherwise(notes, scanned, lexical, key)
  {
    var before := BeforeSemantic(notes, scanned, lexical);
    BeforeSemanticSound(notes, scanned, lexical);
    BeforeSemanticKeys(notes, scanned, lexical, key);
    RecordAllMethods(NO_PAIRS, ExactKeys(notes, scanned));
    LexicalLegMethods(RecordAll(NO_PAIRS, ExactKeys(notes, scanned)), lexical);
    RecordedKeys(before, known, queries, key);
    if Raises in queries {
      FailedLegRestores(before, known, queries);
    } else {
      RecordedMethods(before, known, queries);
    }
  }

  /** Choosing a method raises exactly if a failed leg had found a pair of its own and the threshold lets it pass. */
  lemma ChoiceRaisesIff(notes: seq<NoteRow>, scanned: set<nat>, lexical: seq<(nat, seq<(nat, real)>)>,
                        queries: seq<Query>, ratio: (nat, nat) -> real, threshold: real)
    ensures var t := Annotated(notes, scanned, lexical, queries, ratio);
      Rows(t, t.order, threshold).None? <==>
        && threshold <= 0.0 && Raises in queries
        && exists key :: FoundBeforeFailure(Ids(notes), queries, key) && !FoundOtherwise(notes, scanned, lexical, key)
  {
    var t := SemanticLeg(BeforeSemantic(notes, scanned, lexical), Ids(notes), queries);
    var annotated := Annotated(notes, scanned, lexical, queries, ratio);
    AnnotatedSound(notes, scanned, lexical, queries, ratio);
    MethodChoiceDefined(annotated, annotated.order, threshold);
    forall key { MethodlessIff(notes, scanned, lexical, Ids(notes), queries, key); }
    forall key ensures key in annotated.order && annotated.signals[key].methods == {} <==>
                       key in t.signals && t.signals[key].methods == {} {
    }
  }

  /** A scan raises exactly if some scanned file is not UTF-8 text, or choosing a method does. */
  lemma ScanRaisesIff(notes: seq<NoteRow>, scanned: set<nat>, read: nat -> Read, lexical: seq<(nat, seq<(nat, real)>)>,
                      queries: seq<Query>, ratio: (nat, nat) -> real, threshold: real)
    ensures Scan(notes, scanned, read, lexical, queries, ratio, threshold).None? <==>
      || (exists note :: note in notes && note.id in scanned && read(note.id) == Undecodable)
      || (&& threshold <= 0.0 && Raises in queries
          && exists key :: FoundBeforeFailure(Ids(notes), queries, key)
                           && !FoundOtherwise(notes, scanned, lexical, key))
  {
    assert NotText(notes, scanned, read) <==>
           exists note :: note in notes && note.id in scanned && read(note.id) == Undecodable;
    ChoiceRaisesIff(notes, scanned, lexical, queries, ratio, threshold);
  }

  /** One note whose file is not UTF-8 makes the scan raise, whatever the threshold and the other answers are. */
  lemma UndecodableNoteRaises(note: NoteRow, others: seq<NoteRow>, read: nat -> Read,
                              lexical: seq<(nat, seq<(nat, real)>)>, queries: seq<Query>, ratio: (nat, nat) -> real,
                              threshold: real)
    requires read(note.id) == Undecodable
    ensures var notes := [note] + others;
      Scan(notes, Ids(notes), read, lexical, queries, ratio, threshold).None?
  {
    var notes := [note] + others;
    assert notes[0] == note && notes[0] in notes;
    ScanRaisesIff(notes, Ids(notes), read, lexical, queries, ratio, threshold);
  }

  /** Two different notes that only Qdrant pairs, before it fails: with threshold zero the scan raises. */
  lemma ZeroThresholdRaises(a: Hash, b: Hash, read: nat -> Read, ratio: (nat, nat) -> real)
    requires a != b
    ensures var notes, queries := [NoteRow(1, a), NoteRow(2, b)], [Hits(1, [(2, Some(0.9))]), Raises];
      Scan(notes, Ids(notes), read, [], queries, ratio, 0.0).None?
  {
    var notes, queries := [NoteRow(1, a), NoteRow(2, b)], [Hits(1, [(2, Some(0.9))]), Raises];
    assert notes[1].id == 2 && notes[1] in notes;
    assert Counts(Ids(notes), 1, queries[0].hits[0]) && queries[..0] == [] && queries[1] == Raises;
    assert FoundBeforeFailure(Ids(notes), queries, (1, 2));
    ExactKeysMember(notes, Ids(notes), (1, 2));
    assert !FoundOtherwise(notes, Ids(notes), [], (1, 2));
    ScanRaisesIff(notes, Ids(notes), read, [], queries, ratio, 0.0);
  }

  lemma {:induction false} RowsRaise(t: Pairs, order: seq<Pair>, k: nat, threshold: real)
    requires k <= |order| && forall m :: m in order ==> m in t.signals
    requires (forall m :: m in order[..k] ==> m in t.signals) && Rows(t, order[..k], threshold).None?
    ensures Rows(t, order, threshold).None?
  {
    if k == |order| {
      assert order[..k] == order;
    } else {
      var init := order[..|order| - 1];
      assert init[..k] == order[..k];
      RowsRaise(t, init, k, threshold);
    }
  }

  lemma RecordExactSound(t: Pairs, key: Pair)
    requires Sound(t) && NoSemantic(t)
    ensures Sound(RecordExact(t, key)) && NoSemantic(RecordExact(t, key))
  {
    SetDefaultSound(t, key);
  }

  lemma RecordLexicalSound(t: Pairs, key: Pair, jaccard: real)
    requires Sound(t) && NoSemantic(t)
    ensures Sound(RecordLexical(t, key, jaccard)) && NoSemantic(RecordLexical(t, key, jaccard))
  {
    SetDefaultSound(t, key);
  }

  lemma {:induction false} RecordAllSound(t: Pairs, keys: seq<Pair>)
    requires Sound(t) && NoSemantic(t)
    ensures Sound(RecordAll(t, keys)) && NoSemantic(RecordAll(t, keys))
  {
    if keys != [] {
      RecordAllSound(t, keys[..|keys| - 1]);
      RecordExactSound(RecordAll(t, keys[..|keys| - 1]), keys[|keys| - 1]);
    }
  }

  lemma {:induction false} LexicalHitsSound(t: Pairs, noteId: nat, hits: seq<(nat, real)>)
    requires Sound(t) && NoSemantic(t)
    ensures Sound(LexicalHits(t, noteId, hits)) && NoSemantic(LexicalHits(t, noteId, hits))
  {
    if hits != [] {
      LexicalHitsSound(t, noteId, hits[..|hits| - 1]);
      var (other, jaccard) := hits[|hits| - 1];
      RecordLexicalSound(LexicalHits(t, noteId, hits[..|hits| - 1]), PairKey(noteId, other), jaccard);
    }
  }

  lemma {:induction false} LexicalLegSound(t: Pairs, answers: seq<(nat, seq<(nat, real)>)>)
    requires Sound(t) && NoSemantic(t)
    ensures Sound(LexicalLeg(t, answers)) && NoSemantic(LexicalLeg(t, answers))
  {
    if answers != [] {
      LexicalLegSound(t, answers[..|answers| - 1]);
      var (noteId, hits) := answers[|answers| - 1];
      LexicalHitsSound(LexicalLeg(t, answers[..|answers| - 1]), noteId, hits);
    }
  }

  /** Before the semantic leg, every score goes with its method and none is semantic. */
  lemma BeforeSemanticSound(notes: seq<NoteRow>, scanned: set<nat>, lexical: seq<(nat, seq<(nat, real)>)>)
    ensures Sound(BeforeSemantic(notes, scanned, lexical)) && NoSemantic(BeforeSemantic(notes, scanned, lexical))
  {
    RecordAllSound(NO_PAIRS, ExactKeys(notes, scanned));
    LexicalLegSound(RecordAll(NO_PAIRS, ExactKeys(notes, scanned)), lexical);
  }

  lemma SemanticLegSound(t: Pairs, known: set<nat>, queries: seq<Query>)
    requires Sound(t) && NoSemantic(t)
    ensures Sound(SemanticLeg(t, known, queries))
  {
    if Raises in queries {
      FailedLegRestores(t, known, queries);
    } else {
      ExtendsReflexive(t);
      RecordedKeeps(t, t, known, queries);
    }
  }

  lemma AnnotateSound(t: Pairs, known: set<nat>, ratio: (nat, nat) -> real)
    requires Sound(t)
    ensures Sound(Annotate(t, known, ratio))
  {
  }

  /** The whole scan: a failure anywhere in the semantic leg leaves no trace in what is upserted. */
  lemma FailedScanEqualsScanWithout(notes: seq<NoteRow>, scanned: set<nat>, read: nat -> Read,
                                    lexical: seq<(nat, seq<(nat, real)>)>, queries: seq<Query>,
                                    ratio: (nat, nat) -> real, threshold: real)
    requires Raises in queries && threshold > 0.0
    ensures Scan(notes, scanned, read, lexical, queries, ratio, threshold) ==
            Scan(notes, scanned, read, lexical, [], ratio, threshold)
  {
    BeforeSemanticSound(notes, scanned, lexical);
    SemanticLegAllOrNothing(BeforeSemantic(notes, scanned, lexical), Ids(notes), queries, ratio, threshold);
  }

  // ----- which pairs the exact leg records -----

  lemma {:induction false} IdsWithMember(notes: seq<NoteRow>, h: Hash, id: nat)
    ensures id in IdsWith(notes, h) <==> NoteRow(id, h) in notes
  {
    if notes != [] {
      var init, last := notes[..|notes| - 1], notes[|notes| - 1];
      assert notes == init + [last];
      IdsWithMember(init, h, id);
    }
  }

  ghost predicate DistinctIds(notes: seq<NoteRow>) {
    forall i, j :: 0 <= i < j < |notes| ==> notes[i].id != notes[j].id
  }

  lemma {:induction false} IdsWithDistinct(notes: seq<NoteRow>, h: Hash)
    requires DistinctIds(notes)
    ensures forall i, j :: 0 <= i < j < |IdsWith(notes, h)| ==> IdsWith(notes, h)[i] != IdsWith(notes, h)[j]
  {
    if notes != [] {
      var init, last := notes[..|notes| - 1], notes[|notes| - 1];
      IdsWithDistinct(init, h);
      forall k | 0 <= k < |IdsWith(init, h)| ensures IdsWith(init, h)[k] != last.id {
        assert IdsWith(init, h)[k] in IdsWith(init, h);
        IdsWithMember(init, h, IdsWith(init, h)[k]);
      }
    }
  }

  ghost predicate PairAt(ids: seq<nat>, k: int, m: int, scanned: set<nat>, key: Pair) {
    0 <= k < m < |ids| && (ids[k] in scanned || ids[m] in scanned) && key == PairKey(ids[k], ids[m])
  }

  lemma {:induction false} InnerKeysHas(ids: seq<nat>, i: nat, j: nat, m: nat, scanned: set<nat>, key: Pair)
    requires m < j <= |ids| && PairAt(ids, i, m, scanned, key)
    ensures key in InnerKeys(ids, i, j, scanned)
  {
    InnerKeysStep(ids, i, j - 1, scanned);
    if m < j - 1 { InnerKeysHas(ids, i, j - 1, m, scanned, key); }
  }

  lemma {:induction false} InnerKeysOnly(ids: seq<nat>, i: nat, j: nat, scanned: set<nat>, key: Pair) returns (m: nat)
    requires i < |ids| && j <= |ids| && key in InnerKeys(ids, i, j, scanned)
    ensures m < j && PairAt(ids, i, m, scanned, key)
  {
    assert j > i + 1;
    if (ids[i] in scanned || ids[j - 1] in scanned) && key == PairKey(ids[i], ids[j - 1]) {
      m := j - 1;
    } else {
      m := InnerKeysOnly(ids, i, j - 1, scanned, key);
    }
  }

  lemma {:induction false} OuterKeysHas(ids: seq<nat>, i: nat, k: nat, m: nat, scanned: set<nat>, key: Pair)
    requires k < i <= |ids| && PairAt(ids, k, m, scanned, key)
    ensures key in OuterKeys(ids, i, scanned)
  {
    if k < i - 1 {
      OuterKeysHas(ids, i - 1, k, m, scanned, key);
    } else {
      InnerKeysHas(ids, k, |ids|, m, scanned, key);
    }
  }

  lemma {:induction false} OuterKeysOnly(ids: seq<nat>, i: nat, scanned: set<nat>, key: Pair) returns (k: nat, m: nat)
    requires i <= |ids| && key in OuterKeys(ids, i, scanned)
    ensures k < i && PairAt(ids, k, m, scanned, key)
  {
    if key in OuterKeys(ids, i - 1, scanned) {
      k, m := OuterKeysOnly(ids, i - 1, scanned, key);
    } else {
      k := i - 1;
      m := InnerKeysOnly(ids, k, |ids|, scanned, key);
    }
  }

  lemma {:induction false} GroupKeysMember(notes: seq<NoteRow>, hashes: seq<Hash>, scanned: set<nat>, key: Pair)
    requires DistinctIds(notes)
    ensures key in GroupKeys(notes, hashes, scanned) <==>
              && key.0 < key.1 && (key.0 in scanned || key.1 in scanned)
              && exists h :: h in hashes && NoteRow(key.0, h) in notes && NoteRow(key.1, h) in notes
  {
    if hashes != [] {
      var init, h := hashes[..|hashes| - 1], hashes[|hashes| - 1];
      assert hashes == init + [h];
      GroupKeysMember(notes, init, scanned, key);
      PairOfGroup(notes, h, scanned, key);
    }
  }

  lemma PairOfGroup(notes: seq<NoteRow>, h: Hash, scanned: set<nat>, key: Pair)
    requires DistinctIds(notes)
    ensures key in OuterKeys(IdsWith(notes, h), |IdsWith(notes, h)|, scanned) <==>
              && key.0 < key.1 && (key.0 in scanned || key.1 in scanned)
              && NoteRow(key.0, h) in notes && NoteRow(key.1, h) in notes
  {
    var ids := IdsWith(notes, h);
    IdsWithDistinct(notes, h);
    IdsWithMember(notes, h, key.0);
    IdsWithMember(notes, h, key.1);
    if key in OuterKeys(ids, |ids|, scanned) {
      var k, m := OuterKeysOnly(ids, |ids|, scanned, key);
    }
    if key.0 in ids && key.1 in ids && key.0 < key.1 && (key.0 in scanned || key.1 in scanned) {
      var a :| 0 <= a < |ids| && ids[a] == key.0;
      var b :| 0 <= b < |ids| && ids[b] == key.1;
      if a < b { OuterKeysHas(ids, |ids|, a, b, scanned, key); } else { OuterKeysHas(ids, |ids|, b, a, scanned, key); }
    }
  }

  lemma {:induction false} HashOrderMember(notes: seq<NoteRow>, h: Hash)
    ensures h in HashOrder(notes) <==> exists k :: 0 <= k < |notes| && notes[k].hash == h
  {
    if notes != [] { HashOrderMember(notes[..|notes| - 1], h); }
  }

  /** The exact leg records two notes exactly if they share a hash and at least one is scanned. */
  lemma ExactKeysMember(notes: seq<NoteRow>, scanned: set<nat>, key: Pair)
    requires DistinctIds(notes)
    ensures key in ExactKeys(notes, scanned) <==>
              && key.0 < key.1 && (key.0 in scanned || key.1 in scanned)
              && exists h :: NoteRow(key.0, h) in notes && NoteRow(key.1, h) in notes
  {
    GroupKeysMember(notes, HashOrder(notes), scanned, key);
    if h :| NoteRow(key.0, h) in notes && NoteRow(key.1, h) in notes {
      HashOrderMember(notes, h);
    }
  }
}
