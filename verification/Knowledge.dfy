/**
  Lifecycle, duplicate review and merging over one knowledge base: the rows of
  `notes`, `note_lifecycle_history`, `provenance`, `provenance_derivations` and
  `duplicate_candidates`, and the note files that a merge rewrites.
 */
module Knowledge {
  import opened Wrappers
  import opened Text

  datatype Status = Draft | Active | Verified | Stale | Superseded | Archived

  /** SHA-256, taken to be injective. */
  datatype Digest = Sha256(text: string)

  datatype Note = Note(path: string, digest: Digest, status: Status, deleted: bool, updatedAt: int)

  datatype Transition = Transition(noteId: nat, from: Option<Status>, to: Status)

  datatype Activity = Activity(noteId: nat, kind: ActivityKind, supersedes: Option<nat>)
  datatype ActivityKind = Ingested | Merge

  /** A row of `provenance_derivations`; an activity is named by its place in the log. */
  datatype Derivation = Derivation(provenanceId: nat, sourceNoteId: nat)

  datatype Decision = Pending | Confirmed | Rejected | Merged
  datatype Candidate = Candidate(status: Decision, score: real)

  /** A candidate is named by its ordered pair of notes, which is UNIQUE in its table. */
  type Pair = (nat, nat)

  datatype Kb = Kb(
    notes: map<nat, Note>, nextId: nat,
    history: seq<Transition>, provenance: seq<Activity>, derivations: seq<Derivation>,
    candidates: map<Pair, Candidate>,
    files: map<string, string>)

  datatype Error =
    | NoSuchNote | NoSuchCandidate | BadResolution | PathTaken | SelfPair
    | NotConfirmed | KeepInactive | AbsorbInactive | FileMissing | WriteFailed

  predicate ActiveNote(kb: Kb, id: nat) {
    id in kb.notes && !kb.notes[id].deleted
  }

  function PairKey(a: nat, b: nat): Pair {
    if a < b then (a, b) else (b, a)
  }

  /** transition_status: the status column and its history row, together. */
  function Transit(kb: Kb, id: nat, from: Option<Status>, to: Status, now: int): Kb
    requires id in kb.notes
  {
    kb.(notes := kb.notes[id := kb.notes[id].(status := to, updatedAt := now)],
        history := kb.history + [Transition(id, from, to)])
  }

  /** A new note: its file is on disk and ingestion records it as a draft. */
  function Create(kb: Kb, path: string, text: string, now: int): Result<Kb, Error> {
    if path in kb.files || exists i :: i in kb.notes && kb.notes[i].path == path then Err(PathTaken)
    else Ok(kb.(
      notes := kb.notes[kb.nextId := Note(path, Sha256(text), Draft, false, now)],
      nextId := kb.nextId + 1,
      history := kb.history + [Transition(kb.nextId, None, Draft)],
      provenance := kb.provenance + [Activity(kb.nextId, Ingested, None)],
      files := kb.files[path := text]))
  }

  /** The file of a known note is ingested again: its row, tombstone or not, takes the digest of what was parsed. */
  function Reingest(kb: Kb, id: nat, digest: Digest, now: int): Kb {
    if id !in kb.notes || kb.notes[id].path !in kb.files then kb
    else if !kb.notes[id].deleted && kb.notes[id].digest == digest then kb
    else kb.(notes := kb.notes[id := kb.notes[id].(digest := digest, updatedAt := now)],
             provenance := kb.provenance + [Activity(id, Ingested, None)])
  }

  /** Soft deletion keeps the status. */
  function Delete(kb: Kb, id: nat): Kb {
    if id in kb.notes then kb.(notes := kb.notes[id := kb.notes[id].(deleted := true)]) else kb
  }

  function Promote(kb: Kb, id: nat, now: int): Result<Kb, Error> {
    if id !in kb.notes then Err(NoSuchNote)
    else if !kb.notes[id].status.Draft? then Ok(kb)
    else Ok(Transit(kb, id, Some(Draft), Active, now))
  }

  predicate StaleCandidate(kb: Kb, id: nat, cutoff: int) {
    && ActiveNote(kb, id) && kb.notes[id].updatedAt < cutoff
    && (kb.notes[id].status.Active? || kb.notes[id].status.Verified?)
  }

  /** Some unresolved duplicate candidate names the note. */
  predicate UnderReview(kb: Kb, id: nat) {
    exists p :: p in kb.candidates && kb.candidates[p].status.Pending? && (p.0 == id || p.1 == id)
  }

  /** The stale sweep over its candidates, in the order that the query listed them. */
  function Sweep(kb: Kb, ids: seq<nat>, now: int): (r: Kb)
    ensures r.notes.Keys == kb.notes.Keys
  {
    if ids == [] then kb
    else
      var done, id := Sweep(kb, ids[..|ids| - 1], now), ids[|ids| - 1];
      if id !in kb.notes || UnderReview(kb, id) then done
      else Transit(done, id, Some(kb.notes[id].status), Stale, now)
  }

  /** The sweep has come through `done` and counted what it did. */
  ghost predicate SweptSoFar(kb: Kb, view: Kb, done: seq<nat>, now: int, flagged: nat, skipped: nat) {
    && view == Sweep(kb, done, now) && view.candidates == kb.candidates && view.notes.Keys == kb.notes.Keys
    && flagged + skipped == |done| && flagged == |view.history| - |kb.history|
  }

  lemma SweepNext(kb: Kb, view: Kb, ids: seq<nat>, k: nat, now: int, flagged: nat, skipped: nat)
    requires k < |ids| && ids[k] in kb.notes && SweptSoFar(kb, view, ids[..k], now, flagged, skipped)
    ensures UnderReview(view, ids[k]) ==> SweptSoFar(kb, view, ids[..k + 1], now, flagged, skipped + 1)
    ensures !UnderReview(view, ids[k]) ==>
              SweptSoFar(kb, Transit(view, ids[k], Some(kb.notes[ids[k]].status), Stale, now), ids[..k + 1], now,
                         flagged + 1, skipped)
  {
    assert ids[..k + 1][..k] == ids[..k];
    assert UnderReview(view, ids[k]) == UnderReview(kb, ids[k]);
  }

  /** A rescan refreshes a pending candidate; a resolved one is left as it is. */
  function Upsert(kb: Kb, a: nat, b: nat, score: real): Result<Kb, Error> {
    if a == b then Err(SelfPair)
    else if a !in kb.notes || b !in kb.notes then Err(NoSuchNote)
    else
      var key := PairKey(a, b);
      if key in kb.candidates && !kb.candidates[key].status.Pending? then Ok(kb)
      else Ok(kb.(candidates := kb.candidates[key := Candidate(Pending, score)]))
  }

  function Resolve(kb: Kb, pair: Pair, decision: Decision): Result<Kb, Error> {
    if !decision.Confirmed? && !decision.Rejected? then Err(BadResolution)
    else if pair !in kb.candidates then Err(NoSuchCandidate)
    else Ok(kb.(candidates := kb.candidates[pair := kb.candidates[pair].(status := decision)]))
  }

  function Heading(absorbPath: string): string {
    "\n\n## Merged from " + absorbPath + "\n\n"
  }

  /** The kept text is right-trimmed; the absorbed one follows whole. */
  function Joined(keep: string, heading: string, absorb: string): string {
    RStrip(keep) + heading + absorb
  }

  /** Writing a file first empties it, so a write that fails can leave any text behind. */
  datatype Write = Complete | Broken(left: string)

  /** Why a merge is refused before it touches anything, if it is. */
  function MergeRefusal(kb: Kb, keep: nat, absorb: nat): Option<Error> {
    var key := PairKey(keep, absorb);
    if key !in kb.candidates || !kb.candidates[key].status.Confirmed? then Some(NotConfirmed)
    else if !ActiveNote(kb, keep) then Some(KeepInactive)
    else if !ActiveNote(kb, absorb) then Some(AbsorbInactive)
    else if kb.notes[keep].path !in kb.files || kb.notes[absorb].path !in kb.files then Some(FileMissing)
    else None
  }

  /** The file of the kept note and its row, rewritten. */
  function Rewrite(kb: Kb, keep: nat, text: string, now: int): Kb
    requires keep in kb.notes
  {
    kb.(files := kb.files[kb.notes[keep].path := text],
        notes := kb.notes[keep := kb.notes[keep].(digest := Sha256(text), updatedAt := now)])
  }

  /** The kept note with the joined text; `indexed` says that re-indexing got as far as promotion. */
  function Absorb(kb: Kb, keep: nat, absorb: nat, now: int, indexed: bool): Kb
    requires MergeRefusal(kb, keep, absorb).None?
  {
    var kept, taken := kb.notes[keep].path, kb.notes[absorb].path;
    var written := Rewrite(kb, keep, Joined(kb.files[kept], Heading(taken), kb.files[taken]), now);
    if indexed && written.notes[keep].status.Draft?
    then Transit(written, keep, Some(Draft), Active, now) else written
  }

  /** The absorbed row becomes a superseded tombstone; lineage and review record it. */
  function Bury(kb: Kb, keep: nat, absorb: nat, from: Status, now: int): Kb
    requires absorb in kb.notes && PairKey(keep, absorb) in kb.candidates
  {
    var key := PairKey(keep, absorb);
    kb.(notes := kb.notes[absorb := kb.notes[absorb].(deleted := true, status := Superseded, updatedAt := now)],
        history := kb.history + [Transition(absorb, Some(from), Superseded)],
        provenance := kb.provenance + [Activity(keep, Merge, Some(absorb))],
        candidates := kb.candidates[key := kb.candidates[key].(status := Merged)])
  }

  /** The kept file after a write that failed; no row has changed. */
  function Break(kb: Kb, keep: nat, left: string): Kb
    requires keep in kb.notes
  {
    kb.(files := kb.files[kb.notes[keep].path := left])
  }

  /** What a merge leaves, and the error that it raises. */
  function MergeNotes(kb: Kb, keep: nat, absorb: nat, now: int, write: Write, indexed: bool): (Kb, Option<Error>) {
    var refusal := MergeRefusal(kb, keep, absorb);
    if refusal.Some? then (kb, refusal)
    else if write.Broken? then (Break(kb, keep, write.left), Some(WriteFailed))
    else (Bury(Absorb(kb, keep, absorb, now, indexed), keep, absorb, kb.notes[absorb].status, now), None)
  }

  // ----- the code, updating the tables step by step -----

  class KnowledgeBase {
    var notes: map<nat, Note>
    var nextId: nat
    var history: seq<Transition>
    var provenance: seq<Activity>
    var derivations: seq<Derivation>
    var candidates: map<Pair, Candidate>
    var files: map<string, string>

    ghost function View(): Kb
      reads this
    {
      Kb(notes, nextId, history, provenance, derivations, candidates, files)
    }

    constructor ()
      ensures View() == Kb(map[], 0, [], [], [], map[], map[])
    {
      notes, nextId, history, provenance, derivations := map[], 0, [], [], [];
      candidates, files := map[], map[];
    }

    method TransitionStatus(id: nat, from: Option<Status>, to: Status, now: int)
      requires id in notes
      modifies this
      ensures View() == Transit(old(View()), id, from, to, now)
    {
      notes := notes[id := notes[id].(status := to, updatedAt := now)];
      history := history + [Transition(id, from, to)];
    }

    method PromoteOnFirstIndex(id: nat, now: int) returns (r: Result<(), Error>)
      modifies this
      ensures match Promote(old(View()), id, now)
              case Ok(kb) => r.Ok? && View() == kb
              case Err(e) => r == Err(e) && View() == old(View())
    {
      if id !in notes { return Err(NoSuchNote); }
      if !notes[id].status.Draft? { return Ok(()); }
      TransitionStatus(id, Some(Draft), Active, now);
      return Ok(());
    }

    /** The job at the path of a known note; a missing file is not its business here. */
    method IngestAgain(id: nat, digest: Digest, now: int) returns (updated: bool)
      modifies this
      ensures View() == Reingest(old(View()), id, digest, now)
      ensures updated <==> |provenance| > |old(provenance)|
    {
      if id !in notes || notes[id].path !in files { return false; }
      if !notes[id].deleted {
        if notes[id].digest == digest { return false; }
      }
      notes := notes[id := notes[id].(digest := digest, updatedAt := now)];
      provenance := provenance + [Activity(id, Ingested, None)];
      return true;
    }

    /** The rows that the sweep's query answers, each once. */
    method ListStaleCandidates(cutoff: int) returns (ids: seq<nat>)
      ensures forall i :: i in ids <==> StaleCandidate(View(), i, cutoff)
      ensures forall j, k :: 0 <= j < k < |ids| ==> ids[j] != ids[k]
    {
      var todo := notes.Keys;
      ids := [];
      while todo != {}
        invariant todo <= notes.Keys
        invariant forall i :: i in ids <==> i !in todo && StaleCandidate(View(), i, cutoff)
        invariant forall j, k :: 0 <= j < k < |ids| ==> ids[j] != ids[k]
        decreases |todo|
      {
        var i :| i in todo;
        if !notes[i].deleted && notes[i].updatedAt < cutoff && (notes[i].status.Active? || notes[i].status.Verified?) {
          ids := ids + [i];
        }
        todo := todo - {i};
      }
    }

    method RunStaleSweep(cutoff: int, now: int) returns (flagged: nat, skipped: nat, ghost ids: seq<nat>)
      modifies this
      ensures forall i :: i in ids <==> StaleCandidate(old(View()), i, cutoff)
      ensures forall j, k :: 0 <= j < k < |ids| ==> ids[j] != ids[k]
      ensures View() == Sweep(old(View()), ids, now)
      ensures flagged + skipped == |ids| && flagged == |history| - |old(history)|
    {
      var rows := ListStaleCandidates(cutoff);
      ids := rows;
      flagged, skipped := 0, 0;
      ghost var kb := View();
      var pending := set p | p in candidates && candidates[p].status.Pending?;
      var statuses := map i | i in notes :: notes[i].status;
      for k := 0 to |rows|
        invariant candidates == kb.candidates
        invariant SweptSoFar(kb, View(), rows[..k], now, flagged, skipped)
      {
        var id := rows[k];
        assert id in rows && StaleCandidate(kb, id, cutoff);
        SweepNext(kb, View(), rows, k, now, flagged, skipped);
        var marked := SweepOne(id, statuses[id], pending, now);
        if marked { flagged := flagged + 1; } else { skipped := skipped + 1; }
      }
      assert rows[..|rows|] == rows;
    }

    /** One candidate of the sweep; answers whether it was marked. */
    method SweepOne(id: nat, status: Status, pending: set<Pair>, now: int) returns (marked: bool)
      requires id in notes && pending == set p | p in candidates && candidates[p].status.Pending?
      modifies this
      ensures marked <==> !UnderReview(old(View()), id)
      ensures View() == if marked then Transit(old(View()), id, Some(status), Stale, now) else old(View())
    {
      if exists p | p in pending :: p.0 == id || p.1 == id { return false; }
      TransitionStatus(id, Some(status), Stale, now);
      return true;
    }

    method UpsertCandidate(a: nat, b: nat, score: real) returns (r: Result<Pair, Error>)
      modifies this
      ensures match Upsert(old(View()), a, b, score)
              case Ok(kb) => r == Ok(PairKey(a, b)) && View() == kb && PairKey(a, b) in candidates
              case Err(e) => r == Err(e) && View() == old(View())
    {
      if a == b { return Err(SelfPair); }
      if a !in notes || b !in notes { return Err(NoSuchNote); }
      var key := if a < b then (a, b) else (b, a);
      if key !in candidates || candidates[key].status.Pending? {
        candidates := candidates[key := Candidate(Pending, score)];
      }
      return Ok(key);
    }

    method ResolveDuplicate(pair: Pair, resolution: Decision) returns (r: Result<(), Error>)
      modifies this
      ensures match Resolve(old(View()), pair, resolution)
              case Ok(kb) => r.Ok? && View() == kb
              case Err(e) => r == Err(e) && View() == old(View())
    {
      if !resolution.Confirmed? && !resolution.Rejected? { return Err(BadResolution); }
      if pair !in candidates { return Err(NoSuchCandidate); }
      candidates := candidates[pair := candidates[pair].(status := resolution)];
      return Ok(());
    }

    /** The pending candidates whose notes are both still there. */
    method ListPendingDuplicates() returns (live: set<Pair>)
      ensures forall p :: p in live <==>
                p in candidates && candidates[p].status.Pending? && ActiveNote(View(), p.0) && ActiveNote(View(), p.1)
    {
      var todo := candidates.Keys;
      live := {};
      while todo != {}
        invariant todo <= candidates.Keys
        invariant forall p :: p in live <==> p !in todo && p in candidates && candidates[p].status.Pending?
                                             && ActiveNote(View(), p.0) && ActiveNote(View(), p.1)
        decreases |todo|
      {
        var p :| p in todo;
        todo := todo - {p};
        if !candidates[p].status.Pending? { continue; }
        if p.0 !in notes || notes[p.0].deleted { continue; }
        if p.1 !in notes || notes[p.1].deleted { continue; }
        live := live + {p};
      }
    }

    /** The file write and the row's new content, before any other table. */
    method RewriteNote(keep: nat, text: string, now: int)
      requires keep in notes
      modifies this
      ensures View() == Rewrite(old(View()), keep, text, now)
    {
      files := files[notes[keep].path := text];
      notes := notes[keep := notes[keep].(digest := Sha256(text), updatedAt := now)];
    }

    /** Tombstone, transition, lineage and resolution of the absorbed note, in this order. */
    method BuryNote(keep: nat, absorb: nat, from: Status, now: int) returns (provenanceId: nat)
      requires absorb in notes && PairKey(keep, absorb) in candidates
      modifies this
      ensures View() == Bury(old(View()), keep, absorb, from, now)
      ensures provenanceId == |old(provenance)|
    {
      notes := notes[absorb := notes[absorb].(deleted := true)];
      TransitionStatus(absorb, Some(from), Superseded, now);
      provenanceId := |provenance|;
      provenance := provenance + [Activity(keep, ActivityKind.Merge, Some(absorb))];
      var key := if keep < absorb then (keep, absorb) else (absorb, keep);
      candidates := candidates[key := candidates[key].(status := Merged)];
    }

    method Merge(keep: nat, absorb: nat, now: int, write: Write, indexed: bool) returns (r: Result<nat, Error>)
      modifies this
      ensures var (kb, error) := MergeNotes(old(View()), keep, absorb, now, write, indexed);
        View() == kb && r == if error.Some? then Err(error.value) else Ok(|old(provenance)|)
    {
      var key := if keep < absorb then (keep, absorb) else (absorb, keep);
      if key !in candidates || !candidates[key].status.Confirmed? { return Err(NotConfirmed); }
      if keep !in notes || notes[keep].deleted { return Err(KeepInactive); }
      if absorb !in notes || notes[absorb].deleted { return Err(AbsorbInactive); }
      var keepNote, absorbNote := notes[keep], notes[absorb];
      if keepNote.path !in files || absorbNote.path !in files { return Err(FileMissing); }
      var text := RStrip(files[keepNote.path]) + Heading(absorbNote.path) + files[absorbNote.path];
      if write.Broken? {
        files := files[keepNote.path := write.left];
        return Err(WriteFailed);
      }
      RewriteNote(keep, text, now);
      if indexed {
        var _ := PromoteOnFirstIndex(keep, now);
      }
      var id := BuryNote(keep, absorb, absorbNote.status, now);
      return Ok(id);
    }

    /** insert_derivation, which no modelled operation calls. */
    method InsertDerivation(provenanceId: nat, source: nat)
      modifies this
      ensures View() == old(View()).(derivations := old(derivations) + [Derivation(provenanceId, source)])
    {
      derivations := derivations + [Derivation(provenanceId, source)];
    }
  }
}
