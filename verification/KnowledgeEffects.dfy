/**
  What the operations on the knowledge base do: when a merge goes through and what it writes, which notes a
  sweep marks, and how a pair of notes gets from creation through review to a merge.
 */
module KnowledgeEffects {
  import opened Wrappers
  import opened Text
  import opened Knowledge
  import opened Lineage
  import opened KnowledgeRuns

  // ----- merging -----

  /** Some candidate row of exactly these two notes has been confirmed. */
  ghost predicate ConfirmedPair(kb: Kb, a: nat, b: nat) {
    exists p :: p in kb.candidates && {p.0, p.1} == {a, b} && kb.candidates[p].status == Confirmed
  }

  /** The note is not deleted and its file is there. */
  predicate Mergeable(kb: Kb, id: nat) {
    id in kb.notes && !kb.notes[id].deleted && kb.notes[id].path in kb.files
  }

  lemma ConfirmedIff(kb: Kb, a: nat, b: nat)
    requires TablesOk(kb)
    ensures ConfirmedPair(kb, a, b) <==>
            PairKey(a, b) in kb.candidates && kb.candidates[PairKey(a, b)].status == Confirmed && a != b
  {
    var key := PairKey(a, b);
    assert {key.0, key.1} == {a, b};
    if p :| p in kb.candidates && {p.0, p.1} == {a, b} && kb.candidates[p].status == Confirmed {
      assert p.0 in {a, b} && p.1 in {a, b} && p.0 < p.1;
      assert p == key;
    }
  }

  /** A merge goes through if and only if the pair is confirmed, both notes and files are there, and the write works. */
  lemma MergeHappensIff(kb: Kb, keep: nat, absorb: nat, now: int, write: Write, indexed: bool)
    requires TablesOk(kb)
    ensures var (kbNext, error) := MergeNotes(kb, keep, absorb, now, write, indexed);
      && (error.None? <==>
            ConfirmedPair(kb, keep, absorb) && Mergeable(kb, keep) && Mergeable(kb, absorb) && write.Complete?)
      && (error.Some? && error.value != WriteFailed ==> kbNext == kb)
  {
    ConfirmedIff(kb, keep, absorb);
    var key := PairKey(keep, absorb);
    if key in kb.candidates { assert key.0 < key.1; }
  }

  /** The new text of the kept file: its old text, trimmed at the end, a heading, and the whole absorbed text. */
  predicate JoinsTexts(text: string, kept: string, path: string, absorbed: string) {
    && RStrip(kept) <= text && |absorbed| <= |text| && text[|text| - |absorbed|..] == absorbed
    && |RStrip(kept)| <= |text| - |absorbed|
    && text[|RStrip(kept)|..|text| - |absorbed|] == "\n\n## Merged from " + path + "\n\n"
  }

  lemma JoinedJoins(kept: string, path: string, absorbed: string)
    ensures JoinsTexts(Joined(kept, Heading(path), absorbed), kept, path, absorbed)
  {
    ThreeParts(RStrip(kept), Heading(path), absorbed);
  }

  lemma ThreeParts(a: string, b: string, c: string)
    ensures a <= a + b + c && (a + b + c)[|a|..|a| + |b|] == b && (a + b + c)[|a| + |b|..] == c
  {
  }

  /** What a completed merge does to the files: the kept one gets the joined text, no other changes. */
  lemma MergeWrites(kb: Kb, keep: nat, absorb: nat, now: int, indexed: bool)
    requires MergeRefusal(kb, keep, absorb).None?
    ensures var kept, taken := kb.notes[keep].path, kb.notes[absorb].path;
      var files := MergeNotes(kb, keep, absorb, now, Complete, indexed).0.files;
      && files.Keys == kb.files.Keys
      && JoinsTexts(files[kept], kb.files[kept], taken, kb.files[taken])
      && forall path :: path in kb.files && path != kept ==> files[path] == kb.files[path]
  {
    MergeFiles(kb, keep, absorb, now, indexed);
    var kept, taken := kb.notes[keep].path, kb.notes[absorb].path;
    JoinedJoins(kb.files[kept], taken, kb.files[taken]);
  }

  /** What a completed merge does to the rows. */
  lemma MergeRows(kb: Kb, keep: nat, absorb: nat, now: int, indexed: bool)
    requires MergeRefusal(kb, keep, absorb).None? && keep != absorb
    ensures var merged := MergeNotes(kb, keep, absorb, now, Complete, indexed).0;
      var kept, taken, promoted := kb.notes[keep], kb.notes[absorb], indexed && kb.notes[keep].status == Draft;
      && merged.notes.Keys == kb.notes.Keys && kept.path in merged.files
      && merged.notes[keep] == kept.(digest := Sha256(merged.files[kept.path]), updatedAt := now,
                                     status := if promoted then Active else kept.status)
      && merged.notes[absorb] == taken.(deleted := true, status := Superseded, updatedAt := now)
      && (forall i :: i in kb.notes && i != keep && i != absorb ==> merged.notes[i] == kb.notes[i])
      && merged.history == kb.history + (if promoted then [Transition(keep, Some(Draft), Active)] else [])
                                      + [Transition(absorb, Some(taken.status), Superseded)]
  {
    var kept, taken := kb.notes[keep].path, kb.notes[absorb].path;
    var written := Rewrite(kb, keep, Joined(kb.files[kept], Heading(taken), kb.files[taken]), now);
    assert kb.history + [] == kb.history;
  }

  /** What a completed merge records about the pair. */
  lemma MergeRecords(kb: Kb, keep: nat, absorb: nat, now: int, indexed: bool)
    requires MergeRefusal(kb, keep, absorb).None?
    ensures var merged, key := MergeNotes(kb, keep, absorb, now, Complete, indexed).0, PairKey(keep, absorb);
      && merged.provenance == kb.provenance + [Activity(keep, Merge, Some(absorb))]
      && merged.candidates == kb.candidates[key := Candidate(Merged, kb.candidates[key].score)]
      && merged.derivations == kb.derivations && merged.nextId == kb.nextId
  {
  }

  // ----- the stale sweep -----

  /** A candidate that nobody has decided on names the note. */
  ghost predicate Undecided(kb: Kb, id: nat) {
    exists p :: p in kb.candidates && kb.candidates[p].status == Pending && id in {p.0, p.1}
  }

  ghost predicate Distinct(ids: seq<nat>) {
    forall j, k :: 0 <= j < k < |ids| ==> ids[j] != ids[k]
  }

  lemma {:induction false} SweepRows(kb: Kb, ids: seq<nat>, now: int, i: nat)
    requires Distinct(ids) && i in kb.notes
    ensures Sweep(kb, ids, now).notes[i] ==
            if i in ids && !UnderReview(kb, i) then kb.notes[i].(status := Stale, updatedAt := now) else kb.notes[i]
  {
    if ids != [] {
      var init, last := ids[..|ids| - 1], ids[|ids| - 1];
      SweepRows(kb, init, now, i);
      assert ids == init + [last];
      assert last !in init;
    }
  }

  /**
    A sweep marks exactly the live active or verified notes that are older than the cutoff and that no
    undecided candidate names; every other row stays as it is.
   */
  lemma SweepIff(kb: Kb, cutoff: int, ids: seq<nat>, now: int, i: nat)
    requires Lists(ids, kb, cutoff) && i in kb.notes
    ensures var row := kb.notes[i];
      Sweep(kb, ids, now).notes[i] ==
        if !row.deleted && row.updatedAt < cutoff && (row.status == Active || row.status == Verified)
           && !Undecided(kb, i)
        then row.(status := Stale, updatedAt := now) else row
  {
    SweepRows(kb, ids, now, i);
    if p :| p in kb.candidates && kb.candidates[p].status == Pending && i in {p.0, p.1} { assert UnderReview(kb, i); }
    if UnderReview(kb, i) {
      var p :| p in kb.candidates && kb.candidates[p].status.Pending? && (p.0 == i || p.1 == i);
      assert i in {p.0, p.1};
    }
  }

  // ----- what no later operation takes back -----

  /** Deleted stays deleted, and what has left the drafts does not return to them. */
  predicate Onward(n: Note, nNext: Note) {
    && nNext.path == n.path && (n.deleted ==> nNext.deleted) && (n.status != Draft ==> nNext.status != Draft)
  }

  lemma SweepOnward(kb: Kb, op: Op, i: nat)
    requires op.OpSweep? && i in kb.notes
    ensures i in Apply(kb, op).notes && Onward(kb.notes[i], Apply(kb, op).notes[i])
  {
    if Lists(op.ids, kb, op.cutoff) { SweepRows(kb, op.ids, op.now, i); }
  }

  lemma MergeOnward(kb: Kb, op: Op, i: nat)
    requires TablesOk(kb) && op.OpMerge? && i in kb.notes
    ensures i in Apply(kb, op).notes && Onward(kb.notes[i], Apply(kb, op).notes[i])
  {
    if MergeRefusal(kb, op.keep, op.absorb).None? {
      assert PairKey(op.keep, op.absorb) in kb.candidates;
      MergeRows(kb, op.keep, op.absorb, op.now, op.indexed);
    }
  }

  lemma ApplyOnward(kb: Kb, op: Op, i: nat)
    requires TablesOk(kb) && i in kb.notes
    ensures i in Apply(kb, op).notes && Onward(kb.notes[i], Apply(kb, op).notes[i])
  {
    match op {
      case OpSweep(_, _, _) => SweepOnward(kb, op, i);
      case OpMerge(_, _, _, _, _) => MergeOnward(kb, op, i);
      case OpCreate(_, _, _) =>
      case OpReingest(_, _, _) =>
      case OpDelete(_) =>
      case OpPromote(_, _) =>
      case OpUpsert(_, _, _) => ReviewAlone(kb, op);
      case OpResolve(_, _) => ReviewAlone(kb, op);
    }
  }

  lemma {:induction false} RunOnward(kb: Kb, ops: seq<Op>, i: nat)
    requires Inv(kb) && i in kb.notes
    ensures i in Run(kb, ops).notes && Onward(kb.notes[i], Run(kb, ops).notes[i])
  {
    if ops != [] {
      var init := ops[..|ops| - 1];
      RunOnward(kb, init, i);
      RunKeeps(kb, init);
      ApplyOnward(Run(kb, init), ops[|ops| - 1], i);
    }
  }

  lemma Afterwards(kb: Kb, op: Op, ops: seq<Op>, id: nat)
    requires Inv(kb) && id in Apply(kb, op).notes
    ensures id in Run(kb, [op] + ops).notes && Onward(Apply(kb, op).notes[id], Run(kb, [op] + ops).notes[id])
  {
    ApplyKeeps(kb, op);
    RunAfter(kb, op, ops);
    RunOnward(Apply(kb, op), ops, id);
  }

  /** A deleted note stays deleted, and a note that has been promoted is never a draft again. */
  lemma DeletedAndPromotedForever(kb: Kb, id: nat, now: int, ops: seq<Op>)
    requires Inv(kb) && id in kb.notes
    ensures var end := Run(kb, [OpDelete(id)] + ops); id in end.notes && end.notes[id].deleted
    ensures var end := Run(kb, [OpPromote(id, now)] + ops); id in end.notes && end.notes[id].status != Draft
  {
    assert id in Apply(kb, OpDelete(id)).notes && Apply(kb, OpDelete(id)).notes[id].deleted;
    Afterwards(kb, OpDelete(id), ops, id);
    PromoteIff(kb, id, now);
    Afterwards(kb, OpPromote(id, now), ops, id);
  }

  /** Promotion makes a draft active, and nothing else. */
  lemma PromoteIff(kb: Kb, id: nat, now: int)
    ensures var kbNext := Apply(kb, OpPromote(id, now));
      if id in kb.notes && kb.notes[id].status == Draft then
        && kbNext.notes == kb.notes[id := kb.notes[id].(status := Active, updatedAt := now)]
        && kbNext == kb.(notes := kbNext.notes, history := kb.history + [Transition(id, Some(Draft), Active)])
      else kbNext == kb
  {
  }

  /** Ingesting a known note's file again leaves its row with the new digest, and logs it unless nothing had changed. */
  lemma ReingestIff(kb: Kb, id: nat, digest: Digest, now: int)
    requires id in kb.notes && kb.notes[id].path in kb.files
    ensures var kbNext := Reingest(kb, id, digest, now);
      var same := !kb.notes[id].deleted && kb.notes[id].digest == digest;
      && kbNext.notes == kb.notes[id := kb.notes[id].(digest := digest, updatedAt := kbNext.notes[id].updatedAt)]
      && kbNext.notes[id].updatedAt == (if same then kb.notes[id].updatedAt else now)
      && kbNext.provenance == kb.provenance + (if same then [] else [Activity(id, Ingested, None)])
      && kbNext == kb.(notes := kbNext.notes, provenance := kbNext.provenance)
  {
    assert kb.provenance + [] == kb.provenance;
  }

  // ----- from creation to a merge -----

  /** A new note can be created exactly where there is neither a file nor a row. */
  lemma CreateIff(kb: Kb, path: string, text: string, now: int)
    requires TablesOk(kb)
    ensures Create(kb, path, text, now).Ok? <==>
              path !in kb.files && forall i :: i in kb.notes ==> kb.notes[i].path != path
    ensures Create(kb, path, text, now).Ok? ==>
              var kbNext := Create(kb, path, text, now).value;
              && kb.nextId !in kb.notes
              && kbNext.notes == kb.notes[kb.nextId := Note(path, Sha256(text), Draft, false, now)]
              && kbNext.files == kb.files[path := text] && kbNext.candidates == kb.candidates
              && kbNext.nextId == kb.nextId + 1
  {
  }

  /** Known pairs can be confirmed or rejected, nothing else; a rejected pair cannot be merged either way round. */
  lemma ResolveIff(kb: Kb, a: nat, b: nat, decision: Decision)
    ensures var pair, r := PairKey(a, b), Resolve(kb, PairKey(a, b), decision);
      && (r.Ok? <==> pair in kb.candidates && (decision == Confirmed || decision == Rejected))
      && (r.Ok? ==> r.value == kb.(candidates := kb.candidates[pair := Candidate(decision, kb.candidates[pair].score)]))
      && (r.Ok? && decision == Rejected ==>
            MergeRefusal(r.value, a, b) == Some(NotConfirmed) && MergeRefusal(r.value, b, a) == Some(NotConfirmed))
  {
    assert PairKey(b, a) == PairKey(a, b);
  }

  /** The two notes of a pair, new and confirmed for a merge. */
  ghost predicate Reviewed(kb: Kb, kbNext: Kb, a: nat, b: nat, score: real) {
    && a != b && Mergeable(kb, a) && Mergeable(kb, b)
    && kbNext == kb.(candidates := kb.candidates[PairKey(a, b) := Candidate(Confirmed, score)])
  }

  /** A found pair that no decision has been made on can be confirmed, named in either order. */
  lemma ReviewConfirms(kb: Kb, a: nat, b: nat, score: real)
    requires a != b && Mergeable(kb, a) && Mergeable(kb, b)
    requires PairKey(a, b) !in kb.candidates || kb.candidates[PairKey(a, b)].status == Pending
    ensures Reviewed(kb, Apply(Apply(kb, OpUpsert(b, a, score)), OpResolve(PairKey(a, b), Confirmed)), a, b, score)
  {
    assert PairKey(b, a) == PairKey(a, b);
    var found := Apply(kb, OpUpsert(b, a, score));
    assert found.candidates == kb.candidates[PairKey(a, b) := Candidate(Pending, score)];
    var confirmed := Apply(found, OpResolve(PairKey(a, b), Confirmed));
    assert confirmed.candidates == kb.candidates[PairKey(a, b) := Candidate(Confirmed, score)];
  }

  /**
    Any two live notes with files, found as a pair and confirmed, can be merged; the merge then does what it
    promises, and the pair counts as merged.
   */
  lemma ReviewToMerge(kb: Kb, keep: nat, absorb: nat, score: real, now: int, indexed: bool)
    requires keep != absorb && Mergeable(kb, keep) && Mergeable(kb, absorb)
    requires PairKey(keep, absorb) !in kb.candidates || kb.candidates[PairKey(keep, absorb)].status == Pending
    ensures var ready := Apply(Apply(kb, OpUpsert(absorb, keep, score)), OpResolve(PairKey(keep, absorb), Confirmed));
      var (merged, error) := MergeNotes(ready, keep, absorb, now, Complete, indexed);
      && error.None? && merged.candidates[PairKey(keep, absorb)] == Candidate(Merged, score)
      && absorb in merged.notes && merged.notes[absorb].status == Superseded && merged.notes[absorb].deleted
      && kb.notes[keep].path in merged.files
      && JoinsTexts(merged.files[kb.notes[keep].path], kb.files[kb.notes[keep].path], kb.notes[absorb].path,
                    kb.files[kb.notes[absorb].path])
      && keep in Descendants(merged.provenance, absorb)
  {
    ReviewConfirms(kb, keep, absorb, score);
    var ready := Apply(Apply(kb, OpUpsert(absorb, keep, score)), OpResolve(PairKey(keep, absorb), Confirmed));
    assert MergeRefusal(ready, keep, absorb).None?;
    MergeWrites(ready, keep, absorb, now, indexed);
    MergeRows(ready, keep, absorb, now, indexed);
    MergeRecords(ready, keep, absorb, now, indexed);
    var log := MergeNotes(ready, keep, absorb, now, Complete, indexed).0.provenance;
    assert Absorbs(log, |log| - 1, keep, absorb);
    DescendantsWitness(log, absorb, keep);
  }

  /** Two new notes are at once ready for that. */
  lemma NewNotesAreMergeable(kb: Kb, path: string, text: string, path2: string, text2: string, now: int)
    requires Inv(kb) && path != path2 && path !in kb.files && path2 !in kb.files
    requires forall i :: i in kb.notes ==> kb.notes[i].path != path && kb.notes[i].path != path2
    ensures var a, b := kb.nextId, kb.nextId + 1;
      var both := Apply(Apply(kb, OpCreate(path, text, now)), OpCreate(path2, text2, now));
      && Mergeable(both, a) && Mergeable(both, b) && PairKey(a, b) !in both.candidates
      && both.files[both.notes[a].path] == text && both.files[both.notes[b].path] == text2
  {
    CreateIff(kb, path, text, now);
    var one := Apply(kb, OpCreate(path, text, now));
    CreateKeeps(kb, path, text, now);
    CreateIff(one, path2, text2, now);
    assert kb.nextId !in kb.notes;
  }
}
