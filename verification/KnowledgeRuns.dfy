/**
  What every run of creates, re-ingestions, deletes, promotions, stale sweeps, rescans,
  resolutions and merges keeps: the lifecycle history is a replayable log, the
  supersession graph is a forest, and no merge loses text.
 */
module KnowledgeRuns {
  import opened Wrappers
  import opened Text
  import opened Knowledge
  import opened Lineage

  datatype Op =
    | OpCreate(path: string, text: string, now: int)
    | OpReingest(id: nat, digest: Digest, now: int)
    | OpDelete(id: nat)
    | OpPromote(id: nat, now: int)
    | OpSweep(cutoff: int, ids: seq<nat>, now: int)
    | OpUpsert(a: nat, b: nat, score: real)
    | OpResolve(pair: Pair, decision: Decision)
    | OpMerge(keep: nat, absorb: nat, now: int, write: Write, indexed: bool)

  /** `ids` lists the rows that the stale query answers, each once. */
  ghost predicate Lists(ids: seq<nat>, kb: Kb, cutoff: int) {
    && (forall i :: i in ids <==> StaleCandidate(kb, i, cutoff))
    && (forall j, k :: 0 <= j < k < |ids| ==> ids[j] != ids[k])
  }

  function OrKeep(r: Result<Kb, Error>, kb: Kb): Kb {
    if r.Ok? then r.value else kb
  }

  /** One operation; a refused one leaves the knowledge base as it was, a broken write only the kept file. */
  ghost function Apply(kb: Kb, op: Op): Kb {
    match op
    case OpCreate(path, text, now) => OrKeep(Create(kb, path, text, now), kb)
    case OpReingest(id, digest, now) => Reingest(kb, id, digest, now)
    case OpDelete(id) => Delete(kb, id)
    case OpPromote(id, now) => OrKeep(Promote(kb, id, now), kb)
    case OpSweep(cutoff, ids, now) => if Lists(ids, kb, cutoff) then Sweep(kb, ids, now) else kb
    case OpUpsert(a, b, score) => OrKeep(Upsert(kb, a, b, score), kb)
    case OpResolve(pair, decision) => OrKeep(Resolve(kb, pair, decision), kb)
    case OpMerge(keep, absorb, now, write, indexed) => MergeNotes(kb, keep, absorb, now, write, indexed).0
  }

  ghost function Run(kb: Kb, ops: seq<Op>): Kb {
    if ops == [] then kb else Apply(Run(kb, ops[..|ops| - 1]), ops[|ops| - 1])
  }

  const EMPTY := Kb(map[], 0, [], [], [], map[], map[])

  // ----- the history is a replayable log -----

  /** The status that the history rows of note `id` lead to. */
  function LastStatus(history: seq<Transition>, id: nat): Option<Status> {
    if history == [] then None
    else if history[|history| - 1].noteId == id then Some(history[|history| - 1].to)
    else LastStatus(history[..|history| - 1], id)
  }

  /** Each row starts from where the note's previous row ended; the first makes a draft from nothing. */
  ghost predicate Chained(history: seq<Transition>) {
    forall k :: 0 <= k < |history| ==>
      && history[k].from == LastStatus(history[..k], history[k].noteId)
      && (history[k].from.None? ==> history[k].to == Draft)
      && history[k].from != Some(Superseded)
  }

  ghost predicate HistoryOk(kb: Kb) {
    && Chained(kb.history)
    && forall id :: LastStatus(kb.history, id) == if id in kb.notes then Some(kb.notes[id].status) else None
  }

  lemma HistoryAppend(kb: Kb, kbNext: Kb, tr: Transition)
    requires HistoryOk(kb) && kbNext.history == kb.history + [tr]
    requires tr.from == if tr.noteId in kb.notes then Some(kb.notes[tr.noteId].status) else None
    requires tr.from.None? ==> tr.to == Draft
    requires tr.from != Some(Superseded)
    requires kbNext.notes.Keys == kb.notes.Keys + {tr.noteId} && kbNext.notes[tr.noteId].status == tr.to
    requires forall i :: i in kb.notes && i != tr.noteId ==> kbNext.notes[i].status == kb.notes[i].status
    ensures HistoryOk(kbNext)
  {
    var h := kbNext.history;
    assert h[..|kb.history|] == kb.history;
    forall k | 0 <= k < |h|
      ensures h[k].from == LastStatus(h[..k], h[k].noteId)
      ensures h[k].from.None? ==> h[k].to == Draft
      ensures h[k].from != Some(Superseded)
    {
      if k < |kb.history| { assert h[..k] == kb.history[..k] && h[k] == kb.history[k]; }
    }
    forall id ensures LastStatus(h, id) == if id in kbNext.notes then Some(kbNext.notes[id].status) else None {
      assert LastStatus(kb.history, id) == if id in kb.notes then Some(kb.notes[id].status) else None;
    }
  }

  // ----- the rows fit together -----

  ghost predicate PathsOk(notes: map<nat, Note>) {
    forall i, j :: i in notes && j in notes && notes[i].path == notes[j].path ==> i == j
  }

  ghost predicate TablesOk(kb: Kb) {
    && (forall i :: i in kb.notes ==> i < kb.nextId)
    && (forall i :: i in kb.notes && kb.notes[i].status.Superseded? ==> kb.notes[i].deleted)
    && (forall p :: p in kb.candidates ==> p.0 < p.1 && p.0 in kb.notes && p.1 in kb.notes)
  }

  /** Exactly the absorbed notes are superseded. */
  ghost predicate LineageOk(kb: Kb) {
    && Forest(kb.provenance)
    && (forall k :: 0 <= k < |kb.provenance| ==> kb.provenance[k].noteId in kb.notes)
    && (forall k, keep, n :: Absorbs(kb.provenance, k, keep, n) ==> n in kb.notes && kb.notes[n].status.Superseded?)
    && (forall i :: i in kb.notes && kb.notes[i].status.Superseded? ==>
          exists k, keep :: Absorbs(kb.provenance, k, keep, i))
  }

  ghost predicate Inv(kb: Kb) {
    HistoryOk(kb) && PathsOk(kb.notes) && TablesOk(kb) && LineageOk(kb)
  }

  /** A change that moves no note and supersedes none. */
  ghost predicate Minor(kb: Kb, kbNext: Kb) {
    && kbNext.notes.Keys == kb.notes.Keys && kbNext.nextId == kb.nextId
    && kbNext.provenance == kb.provenance && kbNext.candidates == kb.candidates
    && forall i :: i in kb.notes ==> MinorRow(kb.notes[i], kbNext.notes[i])
  }

  ghost predicate MinorRow(n: Note, nNext: Note) {
    && nNext.path == n.path && (n.deleted ==> nNext.deleted)
    && (n.status.Superseded? ==> nNext == n) && (nNext.status.Superseded? ==> n.status.Superseded?)
  }

  lemma MinorKeeps(kb: Kb, kbNext: Kb)
    requires Minor(kb, kbNext) && PathsOk(kb.notes) && TablesOk(kb) && LineageOk(kb)
    ensures PathsOk(kbNext.notes) && TablesOk(kbNext) && LineageOk(kbNext)
  {
    MinorPaths(kb, kbNext);
    forall i | i in kbNext.notes && kbNext.notes[i].status.Superseded?
      ensures kbNext.notes[i].deleted && exists k, keep :: Absorbs(kbNext.provenance, k, keep, i)
    {
      assert MinorRow(kb.notes[i], kbNext.notes[i]);
    }
  }

  lemma MinorPaths(kb: Kb, kbNext: Kb)
    requires Minor(kb, kbNext) && PathsOk(kb.notes)
    ensures PathsOk(kbNext.notes)
  {
    assert forall i :: i in kb.notes ==> kbNext.notes[i].path == kb.notes[i].path;
  }

  lemma MinorTransitive(a: Kb, b: Kb, c: Kb)
    requires Minor(a, b) && Minor(b, c)
    ensures Minor(a, c)
  {
    forall i | i in a.notes ensures MinorRow(a.notes[i], c.notes[i]) {
      assert MinorRow(a.notes[i], b.notes[i]) && MinorRow(b.notes[i], c.notes[i]);
    }
  }

  lemma TransitIsMinor(kb: Kb, id: nat, from: Option<Status>, to: Status, now: int)
    requires id in kb.notes && !kb.notes[id].status.Superseded? && !to.Superseded?
    ensures Minor(kb, Transit(kb, id, from, to, now))
  {
  }

  lemma TransitHistory(kb: Kb, id: nat, to: Status, now: int)
    requires HistoryOk(kb) && id in kb.notes && !kb.notes[id].status.Superseded?
    ensures HistoryOk(Transit(kb, id, Some(kb.notes[id].status), to, now))
  {
    HistoryAppend(kb, Transit(kb, id, Some(kb.notes[id].status), to, now),
                  Transition(id, Some(kb.notes[id].status), to));
  }

  /** A legal transition is minor unless it supersedes. */
  lemma TransitKeeps(kb: Kb, id: nat, to: Status, now: int)
    requires Inv(kb) && id in kb.notes && !kb.notes[id].status.Superseded? && !to.Superseded?
    ensures Minor(kb, Transit(kb, id, Some(kb.notes[id].status), to, now))
    ensures Inv(Transit(kb, id, Some(kb.notes[id].status), to, now))
  {
    TransitHistory(kb, id, to, now);
    TransitIsMinor(kb, id, Some(kb.notes[id].status), to, now);
    MinorKeeps(kb, Transit(kb, id, Some(kb.notes[id].status), to, now));
  }

  /** Soft deletion and rewriting a note's text touch no status. */
  lemma NoTransitionKeeps(kb: Kb, kbNext: Kb)
    requires Inv(kb) && Minor(kb, kbNext) && kbNext.history == kb.history
    requires forall i :: i in kb.notes ==> kbNext.notes[i].status == kb.notes[i].status
    ensures Inv(kbNext)
  {
    MinorKeeps(kb, kbNext);
    SameStatuses(kb, kbNext);
  }

  lemma CreateKeeps(kb: Kb, path: string, text: string, now: int)
    requires Inv(kb) && Create(kb, path, text, now).Ok?
    ensures Inv(Create(kb, path, text, now).value)
  {
    var kbNext := Create(kb, path, text, now).value;
    assert kb.nextId !in kb.notes;
    HistoryAppend(kb, kbNext, Transition(kb.nextId, None, Draft));
    CreateRows(kb, path, text, now);
    CreateLineage(kb, kbNext, Activity(kb.nextId, Ingested, None));
  }

  lemma CreateRows(kb: Kb, path: string, text: string, now: int)
    requires PathsOk(kb.notes) && TablesOk(kb) && Create(kb, path, text, now).Ok?
    ensures PathsOk(Create(kb, path, text, now).value.notes) && TablesOk(Create(kb, path, text, now).value)
  {
    var kbNext := Create(kb, path, text, now).value;
    assert forall i :: i in kb.notes ==> kbNext.notes[i] == kb.notes[i] && kb.notes[i].path != path;
  }

  /** An activity that supersedes nothing leaves the lineage as it is. */
  lemma CreateLineage(kb: Kb, kbNext: Kb, a: Activity)
    requires LineageOk(kb) && kbNext.provenance == kb.provenance + [a] && a.supersedes.None?
    requires kbNext.notes.Keys == kb.notes.Keys + {a.noteId}
    requires a.noteId !in kb.notes ==> !kbNext.notes[a.noteId].status.Superseded?
    requires forall i :: i in kb.notes ==> kbNext.notes[i].status == kb.notes[i].status
    ensures LineageOk(kbNext)
  {
    forall k, keep, n | Absorbs(kbNext.provenance, k, keep, n)
      ensures n in kbNext.notes && kbNext.notes[n].status.Superseded?
    {
      assert Absorbs(kb.provenance, k, keep, n);
    }
    forall i | i in kbNext.notes && kbNext.notes[i].status.Superseded?
      ensures exists k, keep :: Absorbs(kbNext.provenance, k, keep, i)
    {
      var k, keep :| Absorbs(kb.provenance, k, keep, i);
      assert Absorbs(kbNext.provenance, k, keep, i);
    }
  }

  lemma ReingestKeeps(kb: Kb, id: nat, digest: Digest, now: int)
    requires Inv(kb)
    ensures Inv(Reingest(kb, id, digest, now))
  {
    var kbNext := Reingest(kb, id, digest, now);
    if kbNext != kb {
      CreateLineage(kb, kbNext, Activity(id, Ingested, None));
      ReingestRows(kb, id, digest, now);
    }
  }

  lemma ReingestRows(kb: Kb, id: nat, digest: Digest, now: int)
    requires HistoryOk(kb) && PathsOk(kb.notes) && TablesOk(kb)
    ensures var kbNext := Reingest(kb, id, digest, now);
      HistoryOk(kbNext) && PathsOk(kbNext.notes) && TablesOk(kbNext)
  {
    var kbNext := Reingest(kb, id, digest, now);
    assert forall i :: i in kb.notes ==>
      && kbNext.notes[i].path == kb.notes[i].path && kbNext.notes[i].status == kb.notes[i].status
      && kbNext.notes[i].deleted == kb.notes[i].deleted;
    SameStatuses(kb, kbNext);
  }

  lemma SameStatuses(kb: Kb, kbNext: Kb)
    requires HistoryOk(kb) && kbNext.history == kb.history && kbNext.notes.Keys == kb.notes.Keys
    requires forall i :: i in kb.notes ==> kbNext.notes[i].status == kb.notes[i].status
    ensures HistoryOk(kbNext)
  {
    forall id
      ensures LastStatus(kbNext.history, id) == if id in kbNext.notes then Some(kbNext.notes[id].status) else None
    {
      assert LastStatus(kb.history, id) == if id in kb.notes then Some(kb.notes[id].status) else None;
    }
  }

  lemma {:induction false} SweepKeeps(kb: Kb, ids: seq<nat>, now: int)
    requires Inv(kb)
    requires forall i :: i in ids ==> i in kb.notes && !kb.notes[i].status.Superseded?
    requires forall j, k :: 0 <= j < k < |ids| ==> ids[j] != ids[k]
    ensures Inv(Sweep(kb, ids, now)) && Minor(kb, Sweep(kb, ids, now))
    ensures Sweep(kb, ids, now).files == kb.files
    ensures forall i :: i in kb.notes && i !in ids ==> Sweep(kb, ids, now).notes[i] == kb.notes[i]
  {
    if ids != [] {
      var init, id := ids[..|ids| - 1], ids[|ids| - 1];
      SweepKeeps(kb, init, now);
      assert id in ids && id !in init;
      var done := Sweep(kb, init, now);
      if !UnderReview(kb, id) {
        TransitKeeps(done, id, Stale, now);
        MinorTransitive(kb, done, Sweep(kb, ids, now));
      }
    }
  }

  lemma RewriteKeeps(kb: Kb, keep: nat, text: string, now: int)
    requires Inv(kb) && keep in kb.notes && !kb.notes[keep].status.Superseded?
    ensures Inv(Rewrite(kb, keep, text, now)) && Minor(kb, Rewrite(kb, keep, text, now))
  {
    NoTransitionKeeps(kb, Rewrite(kb, keep, text, now));
  }

  /** Up to burying the absorbed row, a merge is a minor change. */
  lemma AbsorbKeeps(kb: Kb, keep: nat, absorb: nat, now: int, indexed: bool)
    requires Inv(kb) && MergeRefusal(kb, keep, absorb).None?
    ensures keep != absorb && !kb.notes[keep].status.Superseded? && !kb.notes[absorb].status.Superseded?
    ensures var joined := Absorb(kb, keep, absorb, now, indexed);
      Inv(joined) && Minor(kb, joined) && joined.notes[absorb] == kb.notes[absorb]
  {
    assert PairKey(keep, absorb) in kb.candidates;
    var kept, taken := kb.notes[keep].path, kb.notes[absorb].path;
    WrittenKeeps(kb, keep, absorb, Joined(kb.files[kept], Heading(taken), kb.files[taken]), now, indexed);
  }

  lemma WrittenKeeps(kb: Kb, keep: nat, absorb: nat, text: string, now: int, indexed: bool)
    requires Inv(kb) && keep in kb.notes && !kb.notes[keep].status.Superseded? && absorb in kb.notes && absorb != keep
    ensures var written := Rewrite(kb, keep, text, now);
      var promoted := if indexed && written.notes[keep].status.Draft?
                      then Transit(written, keep, Some(Draft), Active, now) else written;
      Inv(promoted) && Minor(kb, promoted) && promoted.notes[absorb] == kb.notes[absorb]
  {
    var written := Rewrite(kb, keep, text, now);
    RewriteKeeps(kb, keep, text, now);
    if indexed && written.notes[keep].status.Draft? {
      TransitKeeps(written, keep, Active, now);
      MinorTransitive(kb, written, Transit(written, keep, Some(Draft), Active, now));
    }
  }

  lemma ForestAppend(log: seq<Activity>, keep: nat, absorb: nat)
    requires Forest(log) && keep != absorb
    requires forall k, c :: !Absorbs(log, k, c, keep) && !Absorbs(log, k, c, absorb)
    ensures Forest(log + [Activity(keep, Merge, Some(absorb))])
  {
    var logNext := log + [Activity(keep, Merge, Some(absorb))];
    forall j, k | 0 <= j < k < |logNext| && logNext[j].supersedes.Some? && logNext[k].supersedes.Some?
      ensures logNext[j].supersedes != logNext[k].supersedes && logNext[j].supersedes != Some(logNext[k].noteId)
    {
      assert Absorbs(log, j, log[j].noteId, log[j].supersedes.value);
    }
  }

  lemma MergeLineage(kb: Kb, kbNext: Kb, keep: nat, absorb: nat)
    requires LineageOk(kb) && keep != absorb && keep in kb.notes && absorb in kb.notes
    requires !kb.notes[keep].status.Superseded? && !kb.notes[absorb].status.Superseded?
    requires kbNext.provenance == kb.provenance + [Activity(keep, Merge, Some(absorb))]
    requires kbNext.notes.Keys == kb.notes.Keys && kbNext.notes[absorb].status.Superseded?
    requires forall i :: i in kb.notes && i != absorb ==> MinorRow(kb.notes[i], kbNext.notes[i])
    ensures LineageOk(kbNext)
  {
    ForestAppend(kb.provenance, keep, absorb);
    forall k, c, n | Absorbs(kbNext.provenance, k, c, n)
      ensures n in kbNext.notes && kbNext.notes[n].status.Superseded?
    {
      if k < |kb.provenance| { assert Absorbs(kb.provenance, k, c, n); }
    }
    forall i | i in kbNext.notes && kbNext.notes[i].status.Superseded?
      ensures exists k, c :: Absorbs(kbNext.provenance, k, c, i)
    {
      if i == absorb {
        assert Absorbs(kbNext.provenance, |kb.provenance|, keep, absorb);
      } else {
        assert MinorRow(kb.notes[i], kbNext.notes[i]);
        var k, c :| Absorbs(kb.provenance, k, c, i);
        assert Absorbs(kbNext.provenance, k, c, i);
      }
    }
  }

  lemma BuryKeeps(kb: Kb, keep: nat, absorb: nat, now: int)
    requires Inv(kb) && keep != absorb && keep in kb.notes && absorb in kb.notes
    requires PairKey(keep, absorb) in kb.candidates
    requires !kb.notes[keep].status.Superseded? && !kb.notes[absorb].status.Superseded?
    ensures Inv(Bury(kb, keep, absorb, kb.notes[absorb].status, now))
  {
    BuryHistory(kb, keep, absorb, now);
    BuryLineage(kb, keep, absorb, now);
    BuryPaths(kb, keep, absorb, now);
    BuryTables(kb, keep, absorb, now);
  }

  lemma BuryHistory(kb: Kb, keep: nat, absorb: nat, now: int)
    requires HistoryOk(kb) && absorb in kb.notes && PairKey(keep, absorb) in kb.candidates
    requires !kb.notes[absorb].status.Superseded?
    ensures HistoryOk(Bury(kb, keep, absorb, kb.notes[absorb].status, now))
  {
    var kbNext := Bury(kb, keep, absorb, kb.notes[absorb].status, now);
    HistoryAppend(kb, kbNext, Transition(absorb, Some(kb.notes[absorb].status), Superseded));
  }

  lemma BuryLineage(kb: Kb, keep: nat, absorb: nat, now: int)
    requires LineageOk(kb) && keep != absorb && keep in kb.notes && absorb in kb.notes
    requires PairKey(keep, absorb) in kb.candidates
    requires !kb.notes[keep].status.Superseded? && !kb.notes[absorb].status.Superseded?
    ensures LineageOk(Bury(kb, keep, absorb, kb.notes[absorb].status, now))
  {
    MergeLineage(kb, Bury(kb, keep, absorb, kb.notes[absorb].status, now), keep, absorb);
  }

  lemma BuryPaths(kb: Kb, keep: nat, absorb: nat, now: int)
    requires PathsOk(kb.notes) && absorb in kb.notes && PairKey(keep, absorb) in kb.candidates
    ensures PathsOk(Bury(kb, keep, absorb, kb.notes[absorb].status, now).notes)
  {
    var notes := Bury(kb, keep, absorb, kb.notes[absorb].status, now).notes;
    assert notes.Keys == kb.notes.Keys;
    assert forall i :: i in kb.notes ==> notes[i].path == kb.notes[i].path;
  }

  lemma BuryTables(kb: Kb, keep: nat, absorb: nat, now: int)
    requires TablesOk(kb) && absorb in kb.notes && PairKey(keep, absorb) in kb.candidates
    ensures TablesOk(Bury(kb, keep, absorb, kb.notes[absorb].status, now))
  {
    var kbNext := Bury(kb, keep, absorb, kb.notes[absorb].status, now);
    assert kbNext.candidates.Keys == kb.candidates.Keys;
  }

  lemma MergeKeeps(kb: Kb, keep: nat, absorb: nat, now: int, indexed: bool)
    requires Inv(kb) && MergeRefusal(kb, keep, absorb).None?
    ensures Inv(MergeNotes(kb, keep, absorb, now, Complete, indexed).0)
  {
    AbsorbKeeps(kb, keep, absorb, now, indexed);
    BuryKeeps(Absorb(kb, keep, absorb, now, indexed), keep, absorb, now);
    MergeCompletes(kb, keep, absorb, now, indexed);
  }

  lemma MergeCompletes(kb: Kb, keep: nat, absorb: nat, now: int, indexed: bool)
    requires MergeRefusal(kb, keep, absorb).None?
    ensures MergeNotes(kb, keep, absorb, now, Complete, indexed).0 ==
            Bury(Absorb(kb, keep, absorb, now, indexed), keep, absorb, kb.notes[absorb].status, now)
  {
  }

  lemma SweepOpKeeps(kb: Kb, op: Op)
    requires Inv(kb) && op.OpSweep?
    ensures Inv(Apply(kb, op))
    ensures forall i :: i in kb.notes ==> i in Apply(kb, op).notes && MinorRow(kb.notes[i], Apply(kb, op).notes[i])
    ensures Apply(kb, op).provenance == kb.provenance && Apply(kb, op).files == kb.files
  {
    if Lists(op.ids, kb, op.cutoff) { SweepKeeps(kb, op.ids, op.now); }
  }

  /** A failing write changes no row. */
  lemma BreakKeeps(kb: Kb, keep: nat, absorb: nat, now: int, left: string, indexed: bool)
    requires Inv(kb) && MergeRefusal(kb, keep, absorb).None?
    ensures Inv(MergeNotes(kb, keep, absorb, now, Broken(left), indexed).0)
  {
    FilesAlone(kb, kb.files[kb.notes[keep].path := left]);
  }

  lemma FilesAlone(kb: Kb, files: map<string, string>)
    requires Inv(kb)
    ensures Inv(kb.(files := files))
  {
    SameStatuses(kb, kb.(files := files));
  }

  lemma MergeNotesKeeps(kb: Kb, keep: nat, absorb: nat, now: int, write: Write, indexed: bool)
    requires Inv(kb)
    ensures Inv(MergeNotes(kb, keep, absorb, now, write, indexed).0)
  {
    if MergeRefusal(kb, keep, absorb).None? {
      match write {
        case Complete => MergeKeeps(kb, keep, absorb, now, indexed);
        case Broken(left) => BreakKeeps(kb, keep, absorb, now, left, indexed);
      }
    }
  }

  lemma MergeOpKeeps(kb: Kb, op: Op)
    requires Inv(kb) && op.OpMerge?
    ensures Inv(Apply(kb, op))
  {
    MergeNotesKeeps(kb, op.keep, op.absorb, op.now, op.write, op.indexed);
  }

  lemma ReviewOpKeeps(kb: Kb, op: Op)
    requires Inv(kb) && (op.OpUpsert? || op.OpResolve?)
    ensures Inv(Apply(kb, op))
  {
    CandidatesKeep(kb, Apply(kb, op));
  }

  lemma CreateOpKeeps(kb: Kb, op: Op)
    requires Inv(kb) && op.OpCreate?
    ensures Inv(Apply(kb, op))
  {
    if Create(kb, op.path, op.text, op.now).Ok? { CreateKeeps(kb, op.path, op.text, op.now); }
  }

  lemma DeleteOpKeeps(kb: Kb, op: Op)
    requires Inv(kb) && op.OpDelete?
    ensures Inv(Apply(kb, op))
  {
    DeleteIsMinor(kb, op.id);
    NoTransitionKeeps(kb, Delete(kb, op.id));
  }

  lemma DeleteIsMinor(kb: Kb, id: nat)
    requires TablesOk(kb)
    ensures Minor(kb, Delete(kb, id)) && Delete(kb, id).history == kb.history
    ensures forall i :: i in kb.notes ==> Delete(kb, id).notes[i].status == kb.notes[i].status
  {
  }

  lemma PromoteOpKeeps(kb: Kb, op: Op)
    requires Inv(kb) && op.OpPromote?
    ensures Inv(Apply(kb, op))
  {
    if op.id in kb.notes && kb.notes[op.id].status.Draft? { TransitKeeps(kb, op.id, Active, op.now); }
  }

  /** Every operation keeps the invariant. */
  lemma ApplyKeeps(kb: Kb, op: Op)
    requires Inv(kb)
    ensures Inv(Apply(kb, op))
  {
    match op {
      case OpSweep(_, _, _) => SweepOpKeeps(kb, op);
      case OpMerge(_, _, _, _, _) => MergeOpKeeps(kb, op);
      case OpUpsert(_, _, _) => ReviewOpKeeps(kb, op);
      case OpResolve(_, _) => ReviewOpKeeps(kb, op);
      case OpCreate(_, _, _) => CreateOpKeeps(kb, op);
      case OpReingest(id, digest, now) => ReingestKeeps(kb, id, digest, now);
      case OpDelete(_) => DeleteOpKeeps(kb, op);
      case OpPromote(_, _) => PromoteOpKeeps(kb, op);
    }
  }

  lemma CandidatesKeep(kb: Kb, kbNext: Kb)
    requires Inv(kb) && kbNext == kb.(candidates := kbNext.candidates)
    requires forall p :: p in kbNext.candidates ==> p.0 < p.1 && p.0 in kb.notes && p.1 in kb.notes
    ensures Inv(kbNext)
  {
    SameStatuses(kb, kbNext);
  }

  lemma {:induction false} RunKeeps(kb: Kb, ops: seq<Op>)
    requires Inv(kb)
    ensures Inv(Run(kb, ops))
  {
    if ops != [] {
      RunKeeps(kb, ops[..|ops| - 1]);
      ApplyKeeps(Run(kb, ops[..|ops| - 1]), ops[|ops| - 1]);
    }
  }

  /** In every run, each note's history replays from nothing through draft to its current status. */
  lemma HistoryReplays(ops: seq<Op>, id: nat)
    ensures var kb := Run(EMPTY, ops);
      && Chained(kb.history)
      && LastStatus(kb.history, id) == if id in kb.notes then Some(kb.notes[id].status) else None
  {
    RunKeeps(EMPTY, ops);
  }

  /** In every run, the merges form a forest over the notes, whose roots are not superseded. */
  lemma MergesFormForest(ops: seq<Op>, n: nat, steps: nat)
    requires n in Run(EMPTY, ops).notes
    ensures var kb := Run(EMPTY, ops);
      && |Descendants(kb.provenance, n)| <= 1
      && (steps > 0 ==> !Became(kb.provenance, n, n, steps))
      && (Descendants(kb.provenance, n) != [] <==> kb.notes[n].status.Superseded?)
      && Descendants(kb.provenance, Root(kb.provenance, n, 0)) == []
  {
    RunKeeps(EMPTY, ops);
    var kb := Run(EMPTY, ops);
    AtMostOneDescendant(kb.provenance, n);
    if steps > 0 { Acyclic(kb.provenance, n, steps); }
    RootIsLive(kb.provenance, n);
    if Descendants(kb.provenance, n) != [] {
      DescendantsWitness(kb.provenance, n, Descendants(kb.provenance, n)[0]);
    }
    if kb.notes[n].status.Superseded? {
      var k, keep :| Absorbs(kb.provenance, k, keep, n);
      DescendantsWitness(kb.provenance, n, keep);
    }
  }

  // ----- an absorbed note stays absorbed -----

  /** The row of an absorbed note, in which re-ingesting its file can change the digest and the time only. */
  ghost predicate StillAbsorbed(kb: Kb, n: nat, row: Note) {
    n in kb.notes && kb.notes[n].(digest := row.digest, updatedAt := row.updatedAt) == row
  }

  /** An absorbed note keeps its path, status and tombstone, whatever happens next; without re-ingestion, its row. */
  lemma {:induction false} AbsorbedForever(kb: Kb, ops: seq<Op>, n: nat)
    requires Inv(kb) && n in kb.notes && kb.notes[n].status.Superseded?
    ensures StillAbsorbed(Run(kb, ops), n, kb.notes[n])
    ensures (forall k :: 0 <= k < |ops| ==> !(ops[k].OpReingest? && ops[k].id == n)) ==>
              Run(kb, ops).notes[n] == kb.notes[n]
  {
    if ops != [] {
      var init := ops[..|ops| - 1];
      AbsorbedForever(kb, init, n);
      assert forall k :: 0 <= k < |init| ==> init[k] == ops[k];
      RunKeeps(kb, init);
      SupersededUntouched(Run(kb, init), ops[|ops| - 1], n);
    }
  }

  lemma SupersededUntouched(kb: Kb, op: Op, n: nat)
    requires Inv(kb) && n in kb.notes && kb.notes[n].status.Superseded?
    ensures StillAbsorbed(Apply(kb, op), n, kb.notes[n])
    ensures !(op.OpReingest? && op.id == n) ==> Apply(kb, op).notes[n] == kb.notes[n]
  {
    match op {
      case OpSweep(_, _, _) => SweepOpKeeps(kb, op);
      case OpMerge(_, _, _, _, _) => MergeLeavesSuperseded(kb, op, n);
      case OpReingest(_, _, _) =>
      case OpCreate(_, _, _) => OtherRowsAlone(kb, op, n);
      case OpDelete(_) => OtherRowsAlone(kb, op, n);
      case OpPromote(_, _) => OtherRowsAlone(kb, op, n);
      case OpUpsert(_, _, _) => ReviewAlone(kb, op);
      case OpResolve(_, _) => ReviewAlone(kb, op);
    }
  }

  lemma ReviewAlone(kb: Kb, op: Op)
    requires op.OpUpsert? || op.OpResolve?
    ensures Apply(kb, op).notes == kb.notes
  {
  }

  /** Creation takes a new row; deletion and promotion have nothing to change in a superseded one. */
  lemma OtherRowsAlone(kb: Kb, op: Op, n: nat)
    requires TablesOk(kb) && n in kb.notes && kb.notes[n].status.Superseded?
    requires op.OpCreate? || op.OpDelete? || op.OpPromote?
    ensures n in Apply(kb, op).notes && Apply(kb, op).notes[n] == kb.notes[n]
  {
  }

  lemma MergeLeavesSuperseded(kb: Kb, op: Op, n: nat)
    requires TablesOk(kb) && n in kb.notes && kb.notes[n].status.Superseded? && op.OpMerge?
    ensures n in Apply(kb, op).notes && Apply(kb, op).notes[n] == kb.notes[n]
  {
    if MergeRefusal(kb, op.keep, op.absorb).None? {
      MergeLeavesOthers(kb, op.keep, op.absorb, op.now, op.indexed, n);
    }
  }

  /** A merge changes no third row. */
  lemma MergeLeavesOthers(kb: Kb, keep: nat, absorb: nat, now: int, indexed: bool, n: nat)
    requires MergeRefusal(kb, keep, absorb).None? && n in kb.notes && n != keep && n != absorb
    ensures n in MergeNotes(kb, keep, absorb, now, Complete, indexed).0.notes
    ensures MergeNotes(kb, keep, absorb, now, Complete, indexed).0.notes[n] == kb.notes[n]
  {
  }

  /** Re-confirming a merged pair is possible, but no later merge can use an absorbed note. */
  lemma MergeAgainRefused(kb: Kb, ops: seq<Op>, n: nat, m: nat)
    requires Inv(kb) && n in kb.notes && kb.notes[n].status.Superseded?
    ensures MergeRefusal(Run(kb, ops), n, m).Some?
    ensures MergeRefusal(Run(kb, ops), m, n).Some?
  {
    AbsorbedForever(kb, ops, n);
  }

  // ----- review decisions -----

  /** The operations that decide on the pair: a resolution of it, or a merge of its two notes. */
  predicate Decides(op: Op, p: Pair) {
    (op.OpResolve? && op.pair == p) || (op.OpMerge? && PairKey(op.keep, op.absorb) == p)
  }

  lemma {:induction false} SweepKeepsCandidates(kb: Kb, ids: seq<nat>, now: int)
    ensures Sweep(kb, ids, now).candidates == kb.candidates && Sweep(kb, ids, now).derivations == kb.derivations
  {
    if ids != [] { SweepKeepsCandidates(kb, ids[..|ids| - 1], now); }
  }

  lemma ApplyKeepsResolved(kb: Kb, op: Op, p: Pair)
    requires p in kb.candidates && !kb.candidates[p].status.Pending?
    ensures p in Apply(kb, op).candidates && !Apply(kb, op).candidates[p].status.Pending?
    ensures !Decides(op, p) ==> Apply(kb, op).candidates[p] == kb.candidates[p]
  {
    match op {
      case OpSweep(_, ids, now) => SweepKeepsCandidates(kb, ids, now);
      case _ =>
    }
  }

  /** A resolved pair is never pending again, and nothing but a resolution or a merge of it changes its row. */
  lemma {:induction false} ResolutionFrozen(kb: Kb, ops: seq<Op>, p: Pair)
    requires p in kb.candidates && !kb.candidates[p].status.Pending?
    ensures p in Run(kb, ops).candidates && !Run(kb, ops).candidates[p].status.Pending?
    ensures (forall k :: 0 <= k < |ops| ==> !Decides(ops[k], p)) ==> Run(kb, ops).candidates[p] == kb.candidates[p]
  {
    if ops != [] {
      var init := ops[..|ops| - 1];
      ResolutionFrozen(kb, init, p);
      assert forall k :: 0 <= k < |init| ==> init[k] == ops[k];
      ApplyKeepsResolved(Run(kb, init), ops[|ops| - 1], p);
    }
  }

  lemma MergedRow(kb: Kb, keep: nat, absorb: nat, now: int, indexed: bool)
    requires Inv(kb) && MergeRefusal(kb, keep, absorb).None?
    ensures var p, merged := PairKey(keep, absorb), MergeNotes(kb, keep, absorb, now, Complete, indexed).0;
      p in merged.candidates && merged.candidates[p].status == Merged && !ActiveNote(merged, absorb)
      && keep != absorb && ActiveNote(merged, keep)
  {
    AbsorbKeeps(kb, keep, absorb, now, indexed);
    BuriedRow(Absorb(kb, keep, absorb, now, indexed), keep, absorb, kb.notes[absorb].status, now);
  }

  lemma BuriedRow(kb: Kb, keep: nat, absorb: nat, from: Status, now: int)
    requires absorb in kb.notes && PairKey(keep, absorb) in kb.candidates && keep != absorb
    ensures var buried := Bury(kb, keep, absorb, from, now);
      PairKey(keep, absorb) in buried.candidates && buried.candidates[PairKey(keep, absorb)].status == Merged
      && !ActiveNote(buried, absorb) && ActiveNote(buried, keep) == ActiveNote(kb, keep)
  {
  }

  lemma ConfirmAgain(kb: Kb, keep: nat, absorb: nat)
    requires PairKey(keep, absorb) in kb.candidates && keep != absorb && ActiveNote(kb, keep) && !ActiveNote(kb, absorb)
    ensures var again := Apply(kb, OpResolve(PairKey(keep, absorb), Confirmed));
      && PairKey(keep, absorb) in again.candidates && again.candidates[PairKey(keep, absorb)].status == Confirmed
      && MergeRefusal(again, keep, absorb) == Some(AbsorbInactive)
      && MergeRefusal(again, absorb, keep) == Some(KeepInactive)
  {
    assert PairKey(absorb, keep) == PairKey(keep, absorb);
  }

  /** "merged" is not sticky: a merged pair can be confirmed again, though no merge can use it any more. */
  lemma MergedCanBeConfirmed(kb: Kb, keep: nat, absorb: nat, now: int, indexed: bool)
    requires Inv(kb) && MergeRefusal(kb, keep, absorb).None?
    ensures var p, merged := PairKey(keep, absorb), MergeNotes(kb, keep, absorb, now, Complete, indexed).0;
      var again := Apply(merged, OpResolve(p, Confirmed));
      && p in merged.candidates && merged.candidates[p].status == Merged
      && p in again.candidates && again.candidates[p].status == Confirmed
      && MergeRefusal(again, keep, absorb) == Some(AbsorbInactive)
      && MergeRefusal(again, absorb, keep) == Some(KeepInactive)
  {
    MergedRow(kb, keep, absorb, now, indexed);
    ConfirmAgain(MergeNotes(kb, keep, absorb, now, Complete, indexed).0, keep, absorb);
  }

  // ----- lineage answers -----

  lemma {:induction false} NoDerivations(kb: Kb, ops: seq<Op>)
    ensures Run(kb, ops).derivations == kb.derivations
  {
    if ops != [] {
      var before, op := Run(kb, ops[..|ops| - 1]), ops[|ops| - 1];
      NoDerivations(kb, ops[..|ops| - 1]);
      if op.OpSweep? { SweepKeepsCandidates(before, op.ids, op.now); }
    }
  }

  /** No operation records a derivation, so in every run ancestors and descendants are converse relations. */
  lemma LineageConverse(ops: seq<Op>, a: nat, n: nat)
    ensures var kb := Run(EMPTY, ops);
      a in AllAncestors(kb.provenance, kb.derivations, n) <==> n in Descendants(kb.provenance, a)
  {
    NoDerivations(EMPTY, ops);
    var kb := Run(EMPTY, ops);
    LineageConverseIff(kb.provenance, kb.derivations, a, n);
  }

  // ----- no merge loses text -----

  /** The trimmed text of note `n` at `start` is part of the file of the note it has ended up in. */
  ghost predicate TextKeptAt(start: Kb, kb: Kb, n: nat)
    requires start.provenance <= kb.provenance
    requires n in start.notes && start.notes[n].path in start.files
  {
    var root := Root(kb.provenance, n, |start.provenance|);
    && root in kb.notes && kb.notes[root].path in kb.files
    && Infix(RStrip(start.files[start.notes[n].path]), kb.files[kb.notes[root].path])
  }

  lemma RStripIdempotent(s: string)
    ensures RStrip(RStrip(s)) == RStrip(s)
  {
  }

  /** Both texts of a merge are parts of the joined one, up to trailing whitespace of the kept one. */
  lemma JoinedKeeps(part: string, keep: string, heading: string, absorb: string)
    requires RStrip(part) == part
    ensures Infix(part, keep) ==> Infix(part, Joined(keep, heading, absorb))
    ensures Infix(part, absorb) ==> Infix(part, Joined(keep, heading, absorb))
  {
    var text := Joined(keep, heading, absorb);
    if Infix(part, absorb) {
      assert text == (RStrip(keep) + heading) + absorb + "";
      InfixIn(RStrip(keep) + heading, absorb, "");
      InfixTransitive(part, absorb, text);
    }
    if Infix(part, keep) {
      assert text == "" + RStrip(keep) + (heading + absorb);
      InfixIn("", RStrip(keep), heading + absorb);
      TrimKeepsTrimmedPart(part, keep);
      InfixTransitive(part, RStrip(keep), text);
    }
  }

  /** What a merge does to paths, files and lineage. */
  ghost predicate MergedFiles(kb: Kb, kbNext: Kb, keep: nat, absorb: nat, text: string)
    requires keep in kb.notes
  {
    && kbNext.notes.Keys == kb.notes.Keys && (forall i :: i in kb.notes ==> kbNext.notes[i].path == kb.notes[i].path)
    && kbNext.provenance == kb.provenance + [Activity(keep, Merge, Some(absorb))]
    && kbNext.files == kb.files[kb.notes[keep].path := text]
  }

  lemma MergeFiles(kb: Kb, keep: nat, absorb: nat, now: int, indexed: bool)
    requires MergeRefusal(kb, keep, absorb).None?
    ensures var kept, taken := kb.notes[keep].path, kb.notes[absorb].path;
      MergedFiles(kb, MergeNotes(kb, keep, absorb, now, Complete, indexed).0, keep, absorb,
                  Joined(kb.files[kept], Heading(taken), kb.files[taken]))
  {
  }

  lemma MergedFilesKeepText(start: Kb, kb: Kb, kbNext: Kb, keep: nat, absorb: nat, heading: string, n: nat)
    requires PathsOk(kb.notes) && start.provenance <= kb.provenance && keep in kb.notes && absorb in kb.notes
    requires kb.notes[keep].path in kb.files && kb.notes[absorb].path in kb.files
    requires MergedFiles(kb, kbNext, keep, absorb,
                         Joined(kb.files[kb.notes[keep].path], heading, kb.files[kb.notes[absorb].path]))
    requires n in start.notes && start.notes[n].path in start.files && TextKeptAt(start, kb, n)
    ensures start.provenance <= kbNext.provenance && TextKeptAt(start, kbNext, n)
  {
    RootAppend(kb.provenance, Activity(keep, Merge, Some(absorb)), n, |start.provenance|);
    RStripIdempotent(start.files[start.notes[n].path]);
    JoinedKeeps(RStrip(start.files[start.notes[n].path]),
                kb.files[kb.notes[keep].path], heading, kb.files[kb.notes[absorb].path]);
  }

  lemma MergeKeepsText(start: Kb, kb: Kb, keep: nat, absorb: nat, now: int, indexed: bool, n: nat)
    requires PathsOk(kb.notes) && start.provenance <= kb.provenance
    requires MergeRefusal(kb, keep, absorb).None?
    requires n in start.notes && start.notes[n].path in start.files && TextKeptAt(start, kb, n)
    ensures start.provenance <= MergeNotes(kb, keep, absorb, now, Complete, indexed).0.provenance
    ensures TextKeptAt(start, MergeNotes(kb, keep, absorb, now, Complete, indexed).0, n)
  {
    MergeFiles(kb, keep, absorb, now, indexed);
    MergedFilesKeepText(start, kb, MergeNotes(kb, keep, absorb, now, Complete, indexed).0, keep, absorb,
                        Heading(kb.notes[absorb].path), n);
  }

  lemma CreateKeepsText(start: Kb, kb: Kb, path: string, text: string, now: int, n: nat)
    requires start.provenance <= kb.provenance && Create(kb, path, text, now).Ok? && kb.nextId !in kb.notes
    requires n in start.notes && start.notes[n].path in start.files && TextKeptAt(start, kb, n)
    ensures var kbNext := Create(kb, path, text, now).value;
      start.provenance <= kbNext.provenance && TextKeptAt(start, kbNext, n)
  {
    RootAppend(kb.provenance, Activity(kb.nextId, Ingested, None), n, |start.provenance|);
  }

  lemma ReingestKeepsText(start: Kb, kb: Kb, id: nat, digest: Digest, now: int, n: nat)
    requires n in start.notes && start.notes[n].path in start.files && TextStill(start, kb, n)
    ensures TextStill(start, Reingest(kb, id, digest, now), n)
  {
    RootAppend(kb.provenance, Activity(id, Ingested, None), n, |start.provenance|);
  }

  /** The operations that leave files, paths and lineage alone. */
  ghost predicate SameFiles(kb: Kb, kbNext: Kb) {
    && kbNext.provenance == kb.provenance && kbNext.files == kb.files
    && forall i :: i in kb.notes ==> i in kbNext.notes && kbNext.notes[i].path == kb.notes[i].path
  }

  lemma SweepSameFiles(kb: Kb, op: Op)
    requires Inv(kb) && op.OpSweep?
    ensures SameFiles(kb, Apply(kb, op))
  {
    var kbNext := Apply(kb, op);
    SweepOpKeeps(kb, op);
    forall i | i in kb.notes ensures kbNext.notes[i].path == kb.notes[i].path {
      assert MinorRow(kb.notes[i], kbNext.notes[i]);
    }
  }

  lemma StatusSameFiles(kb: Kb, op: Op)
    requires op.OpDelete? || op.OpPromote?
    ensures SameFiles(kb, Apply(kb, op))
  {
  }

  lemma ReviewSameFiles(kb: Kb, op: Op)
    requires op.OpUpsert? || op.OpResolve?
    ensures SameFiles(kb, Apply(kb, op))
  {
  }

  lemma OtherOpSameFiles(kb: Kb, op: Op)
    requires Inv(kb) && !op.OpCreate? && !op.OpReingest? && !op.OpMerge?
    ensures SameFiles(kb, Apply(kb, op))
  {
    match op {
      case OpSweep(_, _, _) => SweepSameFiles(kb, op);
      case OpDelete(_) => StatusSameFiles(kb, op);
      case OpPromote(_, _) => StatusSameFiles(kb, op);
      case OpUpsert(_, _, _) => ReviewSameFiles(kb, op);
      case OpResolve(_, _) => ReviewSameFiles(kb, op);
    }
  }

  lemma SameFilesKeepText(start: Kb, kb: Kb, kbNext: Kb, n: nat)
    requires start.provenance <= kb.provenance && SameFiles(kb, kbNext)
    requires n in start.notes && start.notes[n].path in start.files && TextKeptAt(start, kb, n)
    ensures TextKeptAt(start, kbNext, n)
  {
  }

  /** The lineage grows and the text of note `n` is kept. */
  ghost predicate TextStill(start: Kb, kb: Kb, n: nat)
    requires n in start.notes && start.notes[n].path in start.files
  {
    start.provenance <= kb.provenance && TextKeptAt(start, kb, n)
  }

  lemma CreateOpKeepsText(start: Kb, kb: Kb, op: Op, n: nat)
    requires Inv(kb) && op.OpCreate?
    requires n in start.notes && start.notes[n].path in start.files && TextStill(start, kb, n)
    ensures TextStill(start, Apply(kb, op), n)
  {
    if Create(kb, op.path, op.text, op.now).Ok? { CreateKeepsText(start, kb, op.path, op.text, op.now, n); }
  }

  /** The operation is a merge whose write fails on the file of note `m`. */
  predicate Damages(kb: Kb, op: Op, m: nat) {
    op.OpMerge? && op.write.Broken? && op.keep == m && MergeRefusal(kb, op.keep, op.absorb).None?
  }

  /** A write that fails hurts the kept file and no other. */
  lemma BreakKeepsText(start: Kb, kb: Kb, keep: nat, left: string, n: nat)
    requires PathsOk(kb.notes) && keep in kb.notes
    requires n in start.notes && start.notes[n].path in start.files && TextStill(start, kb, n)
    requires Root(kb.provenance, n, |start.provenance|) != keep
    ensures TextStill(start, Break(kb, keep, left), n)
  {
    var root := Root(kb.provenance, n, |start.provenance|);
    assert kb.notes[root].path != kb.notes[keep].path;
  }

  lemma MergeNotesKeepsText(start: Kb, kb: Kb, keep: nat, absorb: nat, now: int, write: Write, indexed: bool, n: nat)
    requires PathsOk(kb.notes) && MergeRefusal(kb, keep, absorb).None?
    requires n in start.notes && start.notes[n].path in start.files && TextStill(start, kb, n)
    requires write.Broken? ==> Root(kb.provenance, n, |start.provenance|) != keep
    ensures TextStill(start, MergeNotes(kb, keep, absorb, now, write, indexed).0, n)
  {
    match write {
      case Complete => MergeKeepsText(start, kb, keep, absorb, now, indexed, n);
      case Broken(left) => BreakKeepsText(start, kb, keep, left, n);
    }
  }

  lemma MergeOpKeepsText(start: Kb, kb: Kb, op: Op, n: nat)
    requires PathsOk(kb.notes) && op.OpMerge?
    requires start.provenance <= kb.provenance && !Damages(kb, op, Root(kb.provenance, n, |start.provenance|))
    requires n in start.notes && start.notes[n].path in start.files && TextStill(start, kb, n)
    ensures TextStill(start, Apply(kb, op), n)
  {
    if MergeRefusal(kb, op.keep, op.absorb).None? {
      MergeNotesKeepsText(start, kb, op.keep, op.absorb, op.now, op.write, op.indexed, n);
    }
  }

  lemma OtherOpKeepsText(start: Kb, kb: Kb, op: Op, n: nat)
    requires Inv(kb) && !op.OpCreate? && !op.OpReingest? && !op.OpMerge?
    requires n in start.notes && start.notes[n].path in start.files && TextStill(start, kb, n)
    ensures TextStill(start, Apply(kb, op), n)
  {
    var kbNext := Apply(kb, op);
    OtherOpSameFiles(kb, op);
    SameFilesKeepText(start, kb, kbNext, n);
  }

  lemma ApplyKeepsText(start: Kb, kb: Kb, op: Op, n: nat)
    requires Inv(kb)
    requires start.provenance <= kb.provenance && !Damages(kb, op, Root(kb.provenance, n, |start.provenance|))
    requires n in start.notes && start.notes[n].path in start.files && TextStill(start, kb, n)
    ensures TextStill(start, Apply(kb, op), n)
  {
    if op.OpCreate? {
      CreateOpKeepsText(start, kb, op, n);
    } else if op.OpReingest? {
      ReingestKeepsText(start, kb, op.id, op.digest, op.now, n);
    } else if op.OpMerge? {
      MergeOpKeepsText(start, kb, op, n);
    } else {
      OtherOpKeepsText(start, kb, op, n);
    }
  }

  /** At no point of the run does a write fail on the file that the text of note `n` is in by then. */
  ghost predicate Undamaged(start: Kb, ops: seq<Op>, n: nat) {
    forall k :: 0 <= k < |ops| ==> UndamagedAt(start, ops, n, k)
  }

  ghost predicate UndamagedAt(start: Kb, ops: seq<Op>, n: nat, k: nat)
    requires k < |ops|
  {
    var kb := Run(start, ops[..k]);
    |start.provenance| <= |kb.provenance| ==> !Damages(kb, ops[k], Root(kb.provenance, n, |start.provenance|))
  }

  lemma UndamagedInit(start: Kb, ops: seq<Op>, n: nat)
    requires ops != [] && Undamaged(start, ops, n)
    ensures Undamaged(start, ops[..|ops| - 1], n)
  {
    var init := ops[..|ops| - 1];
    forall k | 0 <= k < |init| ensures UndamagedAt(start, init, n, k) {
      assert UndamagedAt(start, ops, n, k) && init[..k] == ops[..k];
    }
  }

  /** Through every run without such a damage, the trimmed text of a note stays in the file of its root. */
  lemma {:induction false} RunKeepsText(start: Kb, ops: seq<Op>, n: nat)
    requires Inv(start) && n in start.notes && start.notes[n].path in start.files && Undamaged(start, ops, n)
    ensures TextStill(start, Run(start, ops), n)
  {
    if ops == [] {
      var s := start.files[start.notes[n].path];
      assert "" + RStrip(s) + s[|RStrip(s)|..] == s;
      InfixIn("", RStrip(s), s[|RStrip(s)|..]);
    } else {
      UndamagedInit(start, ops, n);
      RunKeepsText(start, ops[..|ops| - 1], n);
      RunKeeps(start, ops[..|ops| - 1]);
      assert UndamagedAt(start, ops, n, |ops| - 1);
      ApplyKeepsText(start, Run(start, ops[..|ops| - 1]), ops[|ops| - 1], n);
    }
  }

  /** A write that fails leaves the kept file with whatever it got to, and every row as it was. */
  lemma BrokenWriteDamages(kb: Kb, keep: nat, absorb: nat, now: int, left: string, indexed: bool)
    requires MergeRefusal(kb, keep, absorb).None?
    ensures var (kbNext, error) := MergeNotes(kb, keep, absorb, now, Broken(left), indexed);
      && error == Some(WriteFailed) && kbNext.files[kb.notes[keep].path] == left
      && kbNext == kb.(files := kbNext.files)
  {
  }

  lemma NothingIsKept(text: string)
    ensures Infix("", text)
    ensures Infix(text, "") ==> text == ""
  {
    assert OccursAt("", text, 0);
  }

  /** A text survives every outcome of a failing write if and only if another file holds it, or it is blank. */
  lemma BrokenWriteIff(start: Kb, kb: Kb, keep: nat, absorb: nat, now: int, indexed: bool, n: nat)
    requires PathsOk(kb.notes) && MergeRefusal(kb, keep, absorb).None?
    requires n in start.notes && start.notes[n].path in start.files && TextStill(start, kb, n)
    ensures (forall left :: TextStill(start, MergeNotes(kb, keep, absorb, now, Broken(left), indexed).0, n)) <==>
            Root(kb.provenance, n, |start.provenance|) != keep || RStrip(start.files[start.notes[n].path]) == ""
  {
    var text := RStrip(start.files[start.notes[n].path]);
    if Root(kb.provenance, n, |start.provenance|) != keep {
      forall left ensures TextStill(start, MergeNotes(kb, keep, absorb, now, Broken(left), indexed).0, n) {
        BreakKeepsText(start, kb, keep, left, n);
      }
    } else {
      forall left
        ensures TextStill(start, MergeNotes(kb, keep, absorb, now, Broken(left), indexed).0, n) <==> Infix(text, left)
      {
        BrokenRoot(start, kb, keep, left, n);
      }
      NothingIsKept(text);
      if text == "" {
        forall left ensures Infix(text, left) { NothingIsKept(left); }
      }
    }
  }

  lemma BrokenRoot(start: Kb, kb: Kb, keep: nat, left: string, n: nat)
    requires keep in kb.notes && start.provenance <= kb.provenance
    requires n in start.notes && start.notes[n].path in start.files
    requires Root(kb.provenance, n, |start.provenance|) == keep
    ensures TextStill(start, Break(kb, keep, left), n) <==> Infix(RStrip(start.files[start.notes[n].path]), left)
  {
  }

  /** What a merge absorbs is, up to trailing whitespace, in its root's file after any run without damage to it. */
  lemma AbsorbedTextSurvives(kb: Kb, keep: nat, absorb: nat, now: int, indexed: bool, ops: seq<Op>)
    requires Inv(kb) && MergeRefusal(kb, keep, absorb).None?
    requires Undamaged(kb, [OpMerge(keep, absorb, now, Complete, indexed)] + ops, absorb)
    ensures var merged := MergeNotes(kb, keep, absorb, now, Complete, indexed).0;
      var end := Run(merged, ops);
      && |kb.provenance| <= |end.provenance|
      && var root := Root(end.provenance, absorb, |kb.provenance|);
      && root in end.notes && end.notes[root].path in end.files
      && Infix(RStrip(kb.files[kb.notes[absorb].path]), end.files[end.notes[root].path])
  {
    var op := OpMerge(keep, absorb, now, Complete, indexed);
    var merged := MergeNotes(kb, keep, absorb, now, Complete, indexed).0;
    RunAfter(kb, op, ops);
    MergeApplied(kb, keep, absorb, now, indexed);
    RunKeepsText(kb, [op] + ops, absorb);
    TextFound(kb, Run(merged, ops), absorb);
  }

  lemma MergeApplied(kb: Kb, keep: nat, absorb: nat, now: int, indexed: bool)
    ensures Apply(kb, OpMerge(keep, absorb, now, Complete, indexed)) ==
            MergeNotes(kb, keep, absorb, now, Complete, indexed).0
  {
  }

  lemma TextFound(start: Kb, kb: Kb, n: nat)
    requires n in start.notes && start.notes[n].path in start.files && TextStill(start, kb, n)
    ensures |start.provenance| <= |kb.provenance|
    ensures var root := Root(kb.provenance, n, |start.provenance|);
      && root in kb.notes && kb.notes[root].path in kb.files
      && Infix(RStrip(start.files[start.notes[n].path]), kb.files[kb.notes[root].path])
  {
  }

  lemma {:induction false} RunAfter(kb: Kb, op: Op, ops: seq<Op>)
    ensures Run(kb, [op] + ops) == Run(Apply(kb, op), ops)
  {
    var all := [op] + ops;
    if ops == [] {
      assert all[..|all| - 1] == [];
      assert Run(kb, all[..|all| - 1]) == kb;
    } else {
      assert all[..|all| - 1] == [op] + ops[..|ops| - 1];
      RunAfter(kb, op, ops[..|ops| - 1]);
    }
  }
}
