/**
  The reconciliation sweep: every walked file is ingested, then every active row
  whose path the walk did not see.  Ingestion may re-path other rows while the
  sweep runs, so the sweep is described by what it does to the table it started
  from, hash by hash.
 */
module Reconcile {
  import opened Wrappers
  import opened Ingest
  import Seqs

  /** The on-disk paths with hash `h` that had no row of any kind. */
  ghost function NewPaths(v: Vault, t0: Table, done: set<Path>, h: Hash): set<Path> {
    set p | p in done && Clean(v, p) && v.files[p].hash == h && NoRowAt(t0, p)
  }

  /** The active rows with hash `h` whose file has gone. */
  ghost function Vanished(v: Vault, t0: Table, h: Hash): set<nat> {
    set i | i in t0 && MoveSource(v, t0, i, h)
  }

  ghost function MovedRows(t0: Table, t: Table, h: Hash): set<nat> {
    set i | i in t0 && i in t && t0[i].hash == h && t[i].path != t0[i].path
  }

  ghost function NewRows(t0: Table, t: Table, h: Hash): set<nat> {
    set i | i in t && i !in t0 && t[i].hash == h
  }

  ghost function DeletedRows(t0: Table, t: Table, h: Hash): set<nat> {
    set i | i in t0 && i in t && t0[i].hash == h && !t0[i].deleted && t[i].deleted
  }

  /** The on-disk paths that get hash `h` through a row that did not show it as active. */
  ghost function ChangedPaths(v: Vault, t0: Table, done: set<Path>, h: Hash): set<Path> {
    set p | p in done && Clean(v, p) && v.files[p].hash == h && Stale(v, t0, p)
  }

  /** The row at `p` is a tombstone or has another hash than the file. */
  ghost predicate Stale(v: Vault, t0: Table, p: Path)
    requires Clean(v, p)
  {
    exists i :: i in t0 && t0[i].path == p && (t0[i].deleted || t0[i].hash != v.files[p].hash)
  }

  ghost predicate TombstoneAt(t: Table, p: Path) {
    exists i :: i in t && t[i].path == p && t[i].deleted
  }

  /** The walked paths at which every sweep reports an update again. */
  ghost function BuriedPaths(v: Vault, t: Table, done: set<Path>): set<Path> {
    set p | p in done && Clean(v, p) && TombstoneAt(t, p)
  }

  function CountHash(log: seq<Event>, kind: Outcome, h: Hash): nat {
    if log == [] then 0
    else CountHash(log[..|log| - 1], kind, h) +
         if log[|log| - 1].kind == kind && log[|log| - 1].hash == h then 1 else 0
  }

  function Count(log: seq<Event>, kind: Outcome): nat {
    if log == [] then 0
    else Count(log[..|log| - 1], kind) + if log[|log| - 1].kind == kind then 1 else 0
  }

  lemma CountHashAppend(log: seq<Event>, e: Event, kind: Outcome, h: Hash)
    ensures CountHash(log + [e], kind, h) ==
            CountHash(log, kind, h) + if e.kind == kind && e.hash == h then 1 else 0
  {
    assert (log + [e])[..|log|] == log;
  }

  lemma CountAppend(log: seq<Event>, e: Event, kind: Outcome)
    ensures Count(log + [e], kind) == Count(log, kind) + if e.kind == kind then 1 else 0
  {
    assert (log + [e])[..|log|] == log;
  }

  // ----- the first phase: every walked file -----

  /** What the first phase has done to a row of the initial table. */
  ghost predicate Kept(v: Vault, t0: Table, done: set<Path>, before: Note, after: Note) {
    if before.path in done && Clean(v, before.path) then
      after == before.(hash := v.files[before.path].hash)
    else
      || after == before
      || (&& !before.deleted && before.path !in v.files
          && after == before.(path := after.path)
          && after.path in NewPaths(v, t0, done, before.hash))
  }

  ghost predicate Phase1(v: Vault, t0: Table, done: set<Path>, t: Table) {
    && done <= v.files.Keys
    && t0.Keys <= t.Keys
    && (forall i :: i in t0 ==> Kept(v, t0, done, t0[i], t[i]))
    && (forall i :: i in t && i !in t0 ==>
          !t[i].deleted && t[i].path in NewPaths(v, t0, done, t[i].hash))
    && (forall p :: p in done && Clean(v, p) ==> !NoRowAt(t, p))
  }

  /** For one hash: each new path took a row, and a fresh row only once none was left to move. */
  ghost predicate BalancedAt(v: Vault, t0: Table, done: set<Path>, t: Table, h: Hash) {
    && |MovedRows(t0, t, h)| + |NewRows(t0, t, h)| == |NewPaths(v, t0, done, h)|
    && (NewRows(t0, t, h) != {} ==> MovedRows(t0, t, h) == Vanished(v, t0, h))
  }

  ghost predicate Balanced(v: Vault, t0: Table, done: set<Path>, t: Table) {
    forall h :: BalancedAt(v, t0, done, t, h)
  }

  /** For one hash, the event log of the sweep tells the truth about the rows. */
  ghost predicate LoggedAt(v: Vault, t0: Table, done: set<Path>, t: Table, log: seq<Event>, h: Hash) {
    && CountHash(log, Moved, h) == |MovedRows(t0, t, h)|
    && CountHash(log, Created, h) == |NewRows(t0, t, h)|
    && CountHash(log, Updated, h) == |ChangedPaths(v, t0, done, h)|
    && CountHash(log, Deleted, h) == |DeletedRows(t0, t, h)|
  }

  ghost predicate Logged(v: Vault, t0: Table, done: set<Path>, t: Table, log: seq<Event>) {
    forall h :: LoggedAt(v, t0, done, t, log, h)
  }

  lemma Phase1RowAt(v: Vault, t0: Table, done: set<Path>, t: Table, p: Path)
    requires Phase1(v, t0, done, t) && p !in done && p in v.files
    ensures NoRowAt(t, p) == NoRowAt(t0, p)
    ensures forall i :: i in t && t[i].path == p ==> i in t0 && t[i] == t0[i]
  {
    forall i | i in t && t[i].path == p
      ensures i in t0 && t[i] == t0[i]
    {
      assert i !in t0 ==> t[i].path in NewPaths(v, t0, done, t[i].hash);
    }
    if i :| i in t0 && t0[i].path == p { assert t[i] == t0[i]; }
  }

  lemma Phase1Source(v: Vault, t0: Table, done: set<Path>, t: Table, j: nat, h: Hash)
    requires Phase1(v, t0, done, t) && MoveSource(v, t, j, h)
    ensures j in t0 && t[j] == t0[j] && j in Vanished(v, t0, h) && j !in MovedRows(t0, t, h)
  {
    assert j !in t0 ==> t[j].path in NewPaths(v, t0, done, t[j].hash);
  }

  lemma NewPathsStep(v: Vault, t0: Table, done: set<Path>, p: Path, h: Hash)
    requires p !in done
    ensures NewPaths(v, t0, done + {p}, h) ==
            if Clean(v, p) && v.files[p].hash == h && NoRowAt(t0, p)
            then NewPaths(v, t0, done, h) + {p} else NewPaths(v, t0, done, h)
    ensures p !in NewPaths(v, t0, done, h)
  {
  }

  lemma ChangedPathsStep(v: Vault, t0: Table, done: set<Path>, p: Path, h: Hash)
    requires p !in done
    ensures ChangedPaths(v, t0, done + {p}, h) ==
            if Clean(v, p) && v.files[p].hash == h && Stale(v, t0, p)
            then ChangedPaths(v, t0, done, h) + {p} else ChangedPaths(v, t0, done, h)
    ensures p !in ChangedPaths(v, t0, done, h)
  {
  }

  /** A step of the first phase, told in terms of the initial table. */
  ghost predicate Effect(v: Vault, t0: Table, p: Path, t: Table, r: IngestResult, tNext: Table) {
    if !Reported(r.outcome) then
      tNext == t && (Clean(v, p) ==> SettledAt(v, t0, p) && !NoRowAt(t0, p))
    else
      && Clean(v, p) && r.noteId.Some?
      && var id, h := r.noteId.value, v.files[p].hash;
      match r.outcome
      case Updated => id in t0 && t0[id].path == p && id in t && t[id] == t0[id] && Stale(v, t0, p)
                      && tNext == t[id := t0[id].(hash := h)]
      case Moved => NoRowAt(t0, p) && id in t0 && MoveSource(v, t0, id, h) && id in t && t[id] == t0[id]
                    && tNext == t[id := t0[id].(path := p)]
      case Created => NoRowAt(t0, p) && id !in t && tNext == t[id := Note(p, h, false)]
                      && !exists j :: MoveSource(v, t, j, h)
      case _ => false
  }

  /** Every row at `p` is active and shows the file's hash. */
  ghost predicate SettledAt(v: Vault, t0: Table, p: Path)
    requires Clean(v, p)
  {
    forall i :: i in t0 && t0[i].path == p ==> t0[i] == Note(p, v.files[p].hash, false)
  }

  lemma StepEffect(v: Vault, t0: Table, done: set<Path>, p: Path, t: Table, r: IngestResult, tNext: Table)
    requires UniquePaths(t0)
    requires Phase1(v, t0, done, t) && p !in done && p in v.files && Step(v, p, t, r, tNext)
    ensures Effect(v, t0, p, t, r, tNext)
  {
    if Clean(v, p) {
      Phase1RowAt(v, t0, done, t, p);
      if r.outcome == Moved { Phase1Source(v, t0, done, t, r.noteId.value, v.files[p].hash); }
    }
  }

  /** The first phase keeps its description, whichever row a move picks. */
  lemma Phase1Step(v: Vault, t0: Table, done: set<Path>, p: Path, t: Table, r: IngestResult, tNext: Table)
    requires UniquePaths(t0)
    requires Phase1(v, t0, done, t) && p !in done && p in v.files && Effect(v, t0, p, t, r, tNext)
    ensures Phase1(v, t0, done + {p}, tNext)
  {
    forall i | i in t0 ensures Kept(v, t0, done + {p}, t0[i], tNext[i]) {
      KeptStep(v, t0, done, p, t, r, tNext, i);
    }
    forall i | i in tNext && i !in t0
      ensures !tNext[i].deleted && tNext[i].path in NewPaths(v, t0, done + {p}, tNext[i].hash)
    {
      NewPathsStep(v, t0, done, p, tNext[i].hash);
    }
    forall q | q in done + {p} && Clean(v, q) ensures !NoRowAt(tNext, q) {
      CoveredStep(v, t0, done, p, t, r, tNext, q);
    }
  }

  lemma KeptStep(v: Vault, t0: Table, done: set<Path>, p: Path, t: Table, r: IngestResult, tNext: Table, i: nat)
    requires UniquePaths(t0)
    requires Phase1(v, t0, done, t) && p !in done && p in v.files && Effect(v, t0, p, t, r, tNext)
    requires i in t0
    ensures i in tNext && Kept(v, t0, done + {p}, t0[i], tNext[i])
  {
    assert Kept(v, t0, done, t0[i], t[i]);
    NewPathsStep(v, t0, done, p, t0[i].hash);
  }

  lemma CoveredStep(v: Vault, t0: Table, done: set<Path>, p: Path, t: Table, r: IngestResult, tNext: Table, q: Path)
    requires Phase1(v, t0, done, t) && p !in done && p in v.files && Effect(v, t0, p, t, r, tNext)
    requires q in done + {p} && Clean(v, q)
    ensures !NoRowAt(tNext, q)
  {
    if q != p {
      var i :| i in t && t[i].path == q;
      assert tNext[i].path == q;
    } else if Reported(r.outcome) {
      assert tNext[r.noteId.value].path == q;
    } else {
      var i :| i in t0 && t0[i].path == q;
      assert Kept(v, t0, done, t0[i], t[i]);
      assert tNext[i].path == q;
    }
  }

  lemma MovedRowsStep(v: Vault, t0: Table, done: set<Path>, p: Path, t: Table, r: IngestResult, tNext: Table, h: Hash)
    requires Phase1(v, t0, done, t) && p !in done && p in v.files && Effect(v, t0, p, t, r, tNext)
    ensures MovedRows(t0, tNext, h) ==
            if r.outcome.Moved? && v.files[p].hash == h
            then MovedRows(t0, t, h) + {r.noteId.value} else MovedRows(t0, t, h)
    ensures r.outcome.Moved? ==> r.noteId.value !in MovedRows(t0, t, h)
  {
    if Reported(r.outcome) {
      var id := r.noteId.value;
      forall i | i in t0 && i != id ensures i in MovedRows(t0, tNext, h) <==> i in MovedRows(t0, t, h) {
        assert tNext[i] == t[i];
      }
    }
  }

  lemma NewRowsStep(v: Vault, t0: Table, done: set<Path>, p: Path, t: Table, r: IngestResult, tNext: Table, h: Hash)
    requires Phase1(v, t0, done, t) && p !in done && p in v.files && Effect(v, t0, p, t, r, tNext)
    ensures NewRows(t0, tNext, h) ==
            if r.outcome.Created? && v.files[p].hash == h
            then NewRows(t0, t, h) + {r.noteId.value} else NewRows(t0, t, h)
    ensures r.outcome.Created? ==> r.noteId.value !in NewRows(t0, t, h)
  {
  }

  lemma Phase1DeletesNothing(v: Vault, t0: Table, done: set<Path>, t: Table, h: Hash)
    requires Phase1(v, t0, done, t)
    ensures DeletedRows(t0, t, h) == {}
  {
    forall i | i in t0 ensures t[i].deleted == t0[i].deleted {
      assert Kept(v, t0, done, t0[i], t[i]);
    }
  }

  lemma AllMoved(v: Vault, t0: Table, done: set<Path>, t: Table, h: Hash)
    requires Phase1(v, t0, done, t)
    requires !exists j :: MoveSource(v, t, j, h)
    ensures MovedRows(t0, t, h) == Vanished(v, t0, h)
  {
    forall i | i in Vanished(v, t0, h) ensures i in MovedRows(t0, t, h) {
      if t[i] == t0[i] { assert MoveSource(v, t, i, h); }
    }
  }

  lemma Phase1Balanced(v: Vault, t0: Table, done: set<Path>, p: Path, t: Table, r: IngestResult, tNext: Table,
                       h: Hash)
    requires Phase1(v, t0, done, t) && p !in done && p in v.files && Effect(v, t0, p, t, r, tNext)
    requires BalancedAt(v, t0, done, t, h)
    ensures BalancedAt(v, t0, done + {p}, tNext, h)
  {
    RowCounts(v, t0, done, p, t, r, tNext, h);
    NewPathsCount(v, t0, done, p, t, r, tNext, h);
    MovedRowsStep(v, t0, done, p, t, r, tNext, h);
    if Hit(v, p, r, Created, h) == 1 {
      AllMoved(v, t0, done, t, h);
    } else {
      assert NewRows(t0, tNext, h) == NewRows(t0, t, h) by { NewRowsStep(v, t0, done, p, t, r, tNext, h); }
      if Hit(v, p, r, Moved, h) == 1 {
        assert r.noteId.value in Vanished(v, t0, h) - MovedRows(t0, t, h);
      }
    }
  }

  lemma NewPathsCount(v: Vault, t0: Table, done: set<Path>, p: Path, t: Table, r: IngestResult, tNext: Table, h: Hash)
    requires p !in done && Effect(v, t0, p, t, r, tNext)
    ensures |NewPaths(v, t0, done + {p}, h)| ==
            |NewPaths(v, t0, done, h)| + Hit(v, p, r, Moved, h) + Hit(v, p, r, Created, h)
  {
    NewPathsStep(v, t0, done, p, h);
  }

  /** A step adds one row or path to exactly the set that its outcome names. */
  lemma RowCounts(v: Vault, t0: Table, done: set<Path>, p: Path, t: Table, r: IngestResult, tNext: Table, h: Hash)
    requires Phase1(v, t0, done, t) && p !in done && p in v.files && Effect(v, t0, p, t, r, tNext)
    ensures |MovedRows(t0, tNext, h)| == |MovedRows(t0, t, h)| + Hit(v, p, r, Moved, h)
    ensures |NewRows(t0, tNext, h)| == |NewRows(t0, t, h)| + Hit(v, p, r, Created, h)
  {
    MovedRowsStep(v, t0, done, p, t, r, tNext, h);
    NewRowsStep(v, t0, done, p, t, r, tNext, h);
  }

  lemma ChangedCount(v: Vault, t0: Table, done: set<Path>, p: Path, t: Table, r: IngestResult, tNext: Table, h: Hash)
    requires p !in done && Effect(v, t0, p, t, r, tNext)
    ensures |ChangedPaths(v, t0, done + {p}, h)| == |ChangedPaths(v, t0, done, h)| + Hit(v, p, r, Updated, h)
  {
    ChangedPathsStep(v, t0, done, p, h);
  }

  ghost function Hit(v: Vault, p: Path, r: IngestResult, kind: Outcome, h: Hash): nat {
    if r.outcome == kind && Clean(v, p) && v.files[p].hash == h then 1 else 0
  }

  lemma Phase1Logged(v: Vault, t0: Table, done: set<Path>, p: Path, t: Table, r: IngestResult, tNext: Table,
                     log: seq<Event>, h: Hash)
    requires Phase1(v, t0, done, t) && p !in done && p in v.files && Effect(v, t0, p, t, r, tNext)
    requires Phase1(v, t0, done + {p}, tNext)
    requires LoggedAt(v, t0, done, t, log, h)
    ensures LoggedAt(v, t0, done + {p}, tNext, log + Emitted(p, r, tNext), h)
  {
    RowCounts(v, t0, done, p, t, r, tNext, h);
    ChangedCount(v, t0, done, p, t, r, tNext, h);
    Phase1DeletesNothing(v, t0, done, t, h);
    Phase1DeletesNothing(v, t0, done + {p}, tNext, h);
    EffectEmits(v, t0, p, t, r, tNext, log, h);
  }

  /** The event of a step names the hash that the file shows. */
  lemma EffectEmits(v: Vault, t0: Table, p: Path, t: Table, r: IngestResult, tNext: Table, log: seq<Event>, h: Hash)
    requires Effect(v, t0, p, t, r, tNext)
    ensures forall kind | Reported(kind) :: CountHash(log + Emitted(p, r, tNext), kind, h) ==
              CountHash(log, kind, h) + Hit(v, p, r, kind, h)
  {
    if Reported(r.outcome) {
      var e := Event(r.outcome, r.noteId.value, p, v.files[p].hash);
      assert Emitted(p, r, tNext) == [e];
      forall kind { CountHashAppend(log, e, kind, h); }
    } else {
      assert log + Emitted(p, r, tNext) == log;
    }
  }

  // ----- the second phase: active rows that the walk did not see -----

  function ActivePaths(t: Table): set<Path> {
    set i | i in t && !t[i].deleted :: t[i].path
  }

  ghost function ActiveRows(t: Table): set<nat> {
    set i | i in t && !t[i].deleted
  }

  function Listed(order: seq<Path>): set<Path> {
    set p | p in order
  }

  lemma ListedMore(W: set<Path>, order: seq<Path>, p: Path)
    ensures W + Listed(order + [p]) == W + Listed(order) + {p}
    ensures Listed(order + [p]) == Listed(order) + {p}
  {
    assert Listed(order + [p]) == Listed(order) + {p};
  }

  ghost predicate Distinct(order: seq<Path>) {
    forall k, m :: 0 <= k < m < |order| ==> order[k] != order[m]
  }

  /** `order` is one of the orders in which the second phase can go through the paths `gone`. */
  ghost predicate Enumerates(order: seq<Path>, gone: set<Path>) {
    Distinct(order) && Listed(order) == gone
  }

  /** Row `i` has lost its file, and a job at its path gets as far as noticing. */
  ghost predicate Lost(v: Vault, t: Table, i: nat) {
    Active(t, i) && t[i].path !in v.files && t[i].path !in v.unsafe
  }

  /** What row `j` shows once the second phase has been at the paths `done`. */
  ghost function HashAfter(v: Vault, s: Table, done: seq<Path>, j: nat): Hash
    requires j in s
  {
    if Active(s, j) && s[j].path in done && Clean(v, s[j].path) then v.files[s[j].path].hash else s[j].hash
  }

  /** Row `i` has a twin once the second phase has been at the paths `done`. */
  ghost predicate TwinAfter(v: Vault, s: Table, done: seq<Path>, i: nat)
    requires i in s
  {
    exists j :: Active(s, j) && j != i && s[j].path in v.files && HashAfter(v, s, done, j) == s[i].hash
  }

  /** The second phase tombstones row `i`: at its turn it has no twin. */
  ghost predicate Doomed(v: Vault, s: Table, order: seq<Path>, i: nat) {
    && Lost(v, s, i)
    && exists k :: 0 <= k < |order| && order[k] == s[i].path && !TwinAfter(v, s, order[..k], i)
  }

  ghost function After(v: Vault, s: Table, order: seq<Path>, i: nat): Note
    requires i in s
  {
    if Doomed(v, s, order, i) then s[i].(deleted := true) else s[i].(hash := HashAfter(v, s, order, i))
  }

  /** The second phase, at the paths `order` in turn, takes table `s` to `t`. */
  ghost predicate Phase2(v: Vault, s: Table, order: seq<Path>, t: Table) {
    t.Keys == s.Keys && forall i :: i in s ==> t[i] == After(v, s, order, i)
  }

  lemma StartOfPhase2(v: Vault, s: Table)
    ensures Phase2(v, s, [], s)
  {
  }

  /** At every moment of the second phase, a row has a twin exactly as the paths done so far decide. */
  lemma TwinsDuring(v: Vault, s: Table, order: seq<Path>, t: Table, i: nat)
    requires Phase2(v, s, order, t) && Lost(v, s, i)
    ensures HasTwin(v, t, i) == TwinAfter(v, s, order, i)
  {
    assert t[i].hash == s[i].hash;
    forall j | j in s && s[j].path in v.files
      ensures Active(t, j) == Active(s, j) && t[j].hash == HashAfter(v, s, order, j)
    {
      assert t[j] == After(v, s, order, j);
    }
    if HasTwin(v, t, i) {
      var j :| Active(t, j) && j != i && t[j].hash == t[i].hash && t[j].path in v.files;
      assert t[j] == After(v, s, order, j);
    }
    if TwinAfter(v, s, order, i) {
      var j :| Active(s, j) && j != i && s[j].path in v.files && HashAfter(v, s, order, j) == s[i].hash;
      assert Active(t, j);
    }
  }

  lemma DoomedNext(v: Vault, s: Table, order: seq<Path>, p: Path, i: nat)
    requires p !in order
    ensures Doomed(v, s, order + [p], i) <==>
            if i in s && s[i].path == p then Lost(v, s, i) && !TwinAfter(v, s, order, i) else Doomed(v, s, order, i)
  {
    var more := order + [p];
    assert more[..|order|] == order;
    forall k | 0 <= k <= |order| ensures more[..k] == order[..k] {
    }
    if i in s && s[i].path == p {
      assert more[|order|] == p;
    } else if Doomed(v, s, order, i) {
      var k :| 0 <= k < |order| && order[k] == s[i].path && !TwinAfter(v, s, order[..k], i);
      assert more[k] == s[i].path;
    }
  }

  /** What a job of the second phase does to the row `i` at its path. */
  ghost predicate RowEffect(v: Vault, i: nat, p: Path, t: Table, r: IngestResult, tNext: Table)
    requires i in t
  {
    if !Reported(r.outcome) then tNext == t && (Clean(v, p) ==> t[i].hash == v.files[p].hash)
    else
      && r.noteId == Some(i)
      && match r.outcome
         case Deleted => p !in v.files && tNext == t[i := t[i].(deleted := true)]
         case Updated => Clean(v, p) && t[i].hash != v.files[p].hash && tNext == t[i := t[i].(hash := v.files[p].hash)]
         case _ => false
  }

  lemma RowAt(s: Table, p: Path) returns (i: nat)
    requires p in ActivePaths(s)
    ensures Active(s, i) && s[i].path == p
  {
    i :| i in s && !s[i].deleted && s[i].path == p;
  }

  lemma UntouchedBefore(v: Vault, s: Table, order: seq<Path>, t: Table, i: nat)
    requires Phase2(v, s, order, t) && i in s && s[i].path !in order
    ensures t[i] == s[i] && !Doomed(v, s, order, i)
  {
  }

  lemma SecondStepEffect(v: Vault, s: Table, order: seq<Path>, p: Path, t: Table, r: IngestResult, tNext: Table)
    returns (i: nat)
    requires UniquePaths(s) && Phase2(v, s, order, t) && p in ActivePaths(s) && p !in order && Step(v, p, t, r, tNext)
    ensures Active(s, i) && s[i].path == p && i in t && t[i] == s[i]
    ensures RowEffect(v, i, p, t, r, tNext)
    ensures r.outcome.Deleted? <==> Lost(v, s, i) && !TwinAfter(v, s, order, i)
  {
    i := RowAt(s, p);
    UntouchedBefore(v, s, order, t, i);
    forall j | j in t && t[j].path == p ensures j == i {
      assert t[j] == After(v, s, order, j);
    }
    if Lost(v, s, i) { TwinsDuring(v, s, order, t, i); }
  }

  /** A job of the second phase keeps its description: the order so far decides every row. */
  lemma Phase2Step(v: Vault, s: Table, order: seq<Path>, p: Path, t: Table, r: IngestResult, tNext: Table)
    requires UniquePaths(s) && Phase2(v, s, order, t) && p in ActivePaths(s) && p !in order && Step(v, p, t, r, tNext)
    ensures Phase2(v, s, order + [p], tNext)
  {
    var id := SecondStepEffect(v, s, order, p, t, r, tNext);
    forall i | i in s ensures i in tNext && tNext[i] == After(v, s, order + [p], i) {
      assert t[i] == After(v, s, order, i);
      if i == id {
        DoomedNext(v, s, order, p, i);
        UntouchedBefore(v, s, order, t, i);
      } else {
        OtherRowNext(v, s, order, p, i);
      }
    }
  }

  lemma OtherRowNext(v: Vault, s: Table, order: seq<Path>, p: Path, i: nat)
    requires p !in order && i in s && (Active(s, i) ==> s[i].path != p)
    ensures After(v, s, order + [p], i) == After(v, s, order, i)
  {
    DoomedNext(v, s, order, p, i);
  }

  /** What a job answers at a path with the active row `i`. */
  ghost function RunResult(v: Vault, p: Path, t: Table, i: nat): IngestResult
    requires i in t
  {
    if p in v.unsafe then IngestResult(ScanFailed, None)
    else if p !in v.files then IngestResult(if HasTwin(v, t, i) then Noop else Deleted, Some(i))
    else match v.files[p]
      case Unreadable => IngestResult(ScanFailed, None)
      case ScanError => IngestResult(ScanFailed, None)
      case Crash => IngestResult(Raised, None)
      case Text(h, blocking) =>
        if v.blockOnHigh && blocking then IngestResult(Blocked, None)
        else IngestResult(if t[i].hash == h then Noop else Updated, Some(i))
  }

  /** The row at the path of a job, after the job. */
  ghost function RowNext(v: Vault, t: Table, i: nat): Note
    requires i in t
  {
    if Lost(v, t, i) && !HasTwin(v, t, i) then t[i].(deleted := true)
    else if Clean(v, t[i].path) then t[i].(hash := v.files[t[i].path].hash)
    else t[i]
  }

  lemma RowStep(v: Vault, p: Path, t: Table, i: nat)
    requires Active(t, i) && t[i].path == p && forall j :: j in t && t[j].path == p ==> j == i
    ensures Step(v, p, t, RunResult(v, p, t, i), t[i := RowNext(v, t, i)])
  {
    assert t[i := t[i]] == t;
  }

  lemma OtherStays(v: Vault, s: Table, order: seq<Path>, p: Path, t: Table, tNext: Table, j: nat)
    requires p !in order && j in s && (Active(s, j) ==> s[j].path != p)
    requires Phase2(v, s, order, t) && Phase2(v, s, order + [p], tNext)
    ensures tNext[j] == t[j] && t[j].path == s[j].path
  {
    OtherRowNext(v, s, order, p, j);
    assert t[j] == After(v, s, order, j) && tNext[j] == After(v, s, order + [p], j);
  }

  lemma OthersStay(v: Vault, s: Table, order: seq<Path>, p: Path, t: Table, tNext: Table, i: nat)
    requires UniquePaths(s) && Active(s, i) && s[i].path == p && p !in order
    requires Phase2(v, s, order, t) && Phase2(v, s, order + [p], tNext)
    ensures tNext == t[i := tNext[i]] && forall j :: j in t && t[j].path == p ==> j == i
  {
    forall j | j in s && j != i ensures tNext[j] == t[j] && t[j].path != p {
      OtherStays(v, s, order, p, t, tNext, j);
    }
    SameBut(t, tNext, i);
  }

  lemma SameBut(t: Table, tNext: Table, i: nat)
    requires tNext.Keys == t.Keys && i in t && forall j :: j in t && j != i ==> tNext[j] == t[j]
    ensures tNext == t[i := tNext[i]]
  {
  }

  /** Every order is a run: between the closed forms of two successive tables there is a job. */
  lemma Phase2IsRun(v: Vault, s: Table, order: seq<Path>, p: Path, t: Table, tNext: Table) returns (r: IngestResult)
    requires UniquePaths(s) && p in ActivePaths(s) && p !in order
    requires Phase2(v, s, order, t) && Phase2(v, s, order + [p], tNext)
    ensures Step(v, p, t, r, tNext)
  {
    var i := RowAt(s, p);
    UntouchedBefore(v, s, order, t, i);
    OthersStay(v, s, order, p, t, tNext, i);
    assert tNext[i] == RowNext(v, t, i) by {
      DoomedNext(v, s, order, p, i);
      if Lost(v, s, i) { TwinsDuring(v, s, order, t, i); }
      assert tNext[i] == After(v, s, order + [p], i);
    }
    RowStep(v, p, t, i);
    r := RunResult(v, p, t, i);
  }

  /** The rows that the second phase visits are still as the sweep found them. */
  lemma UnwalkedRow(v: Vault, t0: Table, W: set<Path>, s: Table, i: nat)
    requires Phase1(v, t0, W, s) && Active(s, i) && s[i].path !in W
    ensures i in t0 && s[i] == t0[i]
  {
    assert i !in t0 ==> s[i].path in NewPaths(v, t0, W, s[i].hash);
    assert Kept(v, t0, W, t0[i], s[i]);
  }

  lemma Phase2Logged(v: Vault, t0: Table, W: set<Path>, s: Table, order: seq<Path>, p: Path, t: Table,
                     r: IngestResult, tNext: Table, log: seq<Event>, h: Hash)
    requires UniquePaths(t0) && UniquePaths(s) && Phase1(v, t0, W, s) && Phase2(v, s, order, t)
    requires p in ActivePaths(s) - W && p !in order && Step(v, p, t, r, tNext)
    requires LoggedAt(v, t0, W + Listed(order), t, log, h)
    ensures LoggedAt(v, t0, W + Listed(order + [p]), tNext, log + Emitted(p, r, tNext), h)
  {
    var i := SecondStepEffect(v, s, order, p, t, r, tNext);
    UnwalkedRow(v, t0, W, s, i);
    ListedMore(W, order, p);
    RowLogged(v, t0, W + Listed(order), p, i, t, r, tNext, log, h);
  }

  lemma RowLogged(v: Vault, t0: Table, done: set<Path>, p: Path, i: nat, t: Table, r: IngestResult, tNext: Table,
                  log: seq<Event>, h: Hash)
    requires UniquePaths(t0) && Active(t0, i) && t0[i].path == p && p !in done
    requires i in t && t[i] == t0[i] && RowEffect(v, i, p, t, r, tNext)
    requires LoggedAt(v, t0, done, t, log, h)
    ensures LoggedAt(v, t0, done + {p}, tNext, log + Emitted(p, r, tNext), h)
  {
    RefreshedCount(v, t0, done, p, i, h);
    if !Reported(r.outcome) {
      assert log + Emitted(p, r, tNext) == log;
    } else {
      if r.outcome.Deleted? { TombstoneCounts(t0, t, i, h); } else { RefreshCounts(t0, t, tNext, i, h); }
      EmitsOne(p, r, tNext, log, h);
    }
  }

  /** A path that a job refreshes joins the paths that get its hash. */
  lemma RefreshedCount(v: Vault, t0: Table, done: set<Path>, p: Path, i: nat, h: Hash)
    requires UniquePaths(t0) && Active(t0, i) && t0[i].path == p && p !in done
    ensures |ChangedPaths(v, t0, done + {p}, h)| == |ChangedPaths(v, t0, done, h)| +
            if Clean(v, p) && t0[i].hash != v.files[p].hash && v.files[p].hash == h then 1 else 0
  {
    ChangedPathsStep(v, t0, done, p, h);
    if Clean(v, p) { assert Stale(v, t0, p) <==> t0[i].hash != v.files[p].hash; }
  }

  lemma EmitsOne(p: Path, r: IngestResult, tNext: Table, log: seq<Event>, h: Hash)
    requires Reported(r.outcome) && r.noteId.Some? && r.noteId.value in tNext
    ensures forall kind :: CountHash(log + Emitted(p, r, tNext), kind, h) ==
              CountHash(log, kind, h) + if kind == r.outcome && tNext[r.noteId.value].hash == h then 1 else 0
  {
    var e := Event(r.outcome, r.noteId.value, p, tNext[r.noteId.value].hash);
    assert Emitted(p, r, tNext) == [e];
    forall kind { CountHashAppend(log, e, kind, h); }
  }

  lemma TombstoneCounts(t0: Table, t: Table, id: nat, h: Hash)
    requires id in t0 && id in t && t[id] == t0[id] && !t0[id].deleted
    ensures var tNext := t[id := t[id].(deleted := true)];
      && MovedRows(t0, tNext, h) == MovedRows(t0, t, h) && NewRows(t0, tNext, h) == NewRows(t0, t, h)
      && |DeletedRows(t0, tNext, h)| == |DeletedRows(t0, t, h)| + if t0[id].hash == h then 1 else 0
  {
    var tNext := t[id := t[id].(deleted := true)];
    assert DeletedRows(t0, tNext, h) ==
           if t0[id].hash == h then DeletedRows(t0, t, h) + {id} else DeletedRows(t0, t, h);
  }

  lemma RefreshCounts(t0: Table, t: Table, tNext: Table, id: nat, h: Hash)
    requires id in t0 && id in t && t[id] == t0[id] && !t0[id].deleted
    requires id in tNext && tNext == t[id := t[id].(hash := tNext[id].hash)]
    ensures MovedRows(t0, tNext, h) == MovedRows(t0, t, h) && NewRows(t0, tNext, h) == NewRows(t0, t, h)
    ensures DeletedRows(t0, tNext, h) == DeletedRows(t0, t, h)
  {
  }

  // ----- the whole sweep -----

  /**
    A sweep over the walked paths `W` took `t0` to `t1`: `s` is the table after the first phase,
    `order` the order in which the second phase went through the paths that were left.
   */
  ghost predicate Swept(v: Vault, W: set<Path>, t0: Table, s: Table, order: seq<Path>, t1: Table) {
    && Phase1(v, t0, W, s) && Balanced(v, t0, W, s)
    && Enumerates(order, ActivePaths(s) - W)
    && Phase2(v, s, order, t1)
  }

  /** Nothing is left for a sweep to repair. */
  ghost predicate Settled(v: Vault, W: set<Path>, t: Table) {
    && (forall p :: p in W && Clean(v, p) ==> !NoRowAt(t, p))
    && (forall i :: i in t && Clean(v, t[i].path) && (t[i].path in W || !t[i].deleted) ==>
          t[i].hash == v.files[t[i].path].hash)
    && (forall i :: Lost(v, t, i) ==> HasTwin(v, t, i))
  }

  /** What a step does to the set of active rows. */
  ghost predicate Change(t: Table, r: IngestResult, tNext: Table) {
    if !Reported(r.outcome) then tNext == t
    else
      && r.noteId.Some? && r.noteId.value in tNext
      && var id := r.noteId.value;
      && tNext == t[id := tNext[id]]
      && match r.outcome
         case Created => id !in t && !tNext[id].deleted
         case Deleted => Active(t, id) && tNext[id].deleted
         case _ => id in t && tNext[id].deleted == t[id].deleted
  }

  lemma StepChange(v: Vault, p: Path, t: Table, r: IngestResult, tNext: Table)
    requires Step(v, p, t, r, tNext)
    ensures Change(t, r, tNext)
    ensures |Emitted(p, r, tNext)| == if Reported(r.outcome) then 1 else 0
  {
  }

  lemma ActiveCountStep(p: Path, t: Table, r: IngestResult, tNext: Table, log: seq<Event>)
    requires Change(t, r, tNext)
    ensures |ActiveRows(tNext)| + Count(log + Emitted(p, r, tNext), Deleted) - Count(log, Deleted)
         == |ActiveRows(t)| + Count(log + Emitted(p, r, tNext), Created) - Count(log, Created)
  {
    if Reported(r.outcome) {
      var id := r.noteId.value;
      var e := Event(r.outcome, id, p, tNext[id].hash);
      assert Emitted(p, r, tNext) == [e];
      CountAppend(log, e, Deleted);
      CountAppend(log, e, Created);
      assert ActiveRows(tNext) == if r.outcome.Created? then ActiveRows(t) + {id}
                                  else if r.outcome.Deleted? then ActiveRows(t) - {id}
                                  else ActiveRows(t);
    } else {
      assert log + Emitted(p, r, tNext) == log;
    }
  }

  /** On a settled table, a step changes nothing; it reports an update only at a tombstone. */
  lemma SettledStep(v: Vault, W: set<Path>, p: Path, t: Table, r: IngestResult, tNext: Table)
    requires UniquePaths(t) && Settled(v, W, t) && Step(v, p, t, r, tNext)
    requires p in W || p in ActivePaths(t)
    ensures tNext == t
    ensures Reported(r.outcome) <==> Clean(v, p) && TombstoneAt(t, p)
  {
  }

  datatype Summary = Summary(pathsScanned: nat, discrepanciesFound: nat, jobsEnqueued: nat)

  /** One path of the sweep: whether its job answered, and whether it is a discrepancy. */
  method ReconcileOne(db: Database, v: Vault, p: Path) returns (answered: bool, found: bool, ghost r: IngestResult)
    requires db.Valid()
    modifies db
    ensures db.Valid()
    ensures Step(v, p, old(db.notes), r, db.notes)
    ensures db.events == old(db.events) + Emitted(p, r, db.notes)
    ensures answered == Answers(v, p) && found == Reported(r.outcome)
  {
    var result := db.IngestNote(v, p);
    r := result;
    if result.outcome.Raised? { return false, false, r; }
    answered := true;
    match result.outcome {
      case Created => found := true;   // missing_from_index
      case Updated => found := true;   // hash_mismatch
      case Moved => found := true;     // hash_mismatch
      case Deleted => found := true;   // missing_from_disk
      case _ => found := false;
    }
  }

  /** The running account of a sweep: replaying the log gives the table, and its counts give the active rows. */
  ghost predicate Account(t0: Table, t: Table, log: seq<Event>) {
    && Replay(t0, log) == Some(t)
    && |ActiveRows(t)| + Count(log, Deleted) == |ActiveRows(t0)| + Count(log, Created)
  }

  lemma AccountStep(v: Vault, t0: Table, p: Path, t: Table, r: IngestResult, tNext: Table, log: seq<Event>)
    requires Step(v, p, t, r, tNext) && Account(t0, t, log)
    ensures Account(t0, tNext, log + Emitted(p, r, tNext))
    ensures |Emitted(p, r, tNext)| == if Reported(r.outcome) then 1 else 0
  {
    StepReplays(v, p, t, r, tNext);
    ReplayMore(t0, log, Emitted(p, r, tNext), t);
    StepChange(v, p, t, r, tNext);
    ActiveCountStep(p, t, r, tNext, log);
  }

  /** A job counts as enqueued if it does not raise, whatever it answers. */
  predicate Answers(v: Vault, p: Path) {
    !(p in v.files && p !in v.unsafe && v.files[p].Crash?)
  }

  ghost function Answered(v: Vault, done: set<Path>): set<Path> {
    set p | p in done && Answers(v, p)
  }

  lemma AnsweredStep(v: Vault, order: seq<Path>, p: Path)
    requires p !in order
    ensures |Answered(v, Listed(order + [p]))| == |Answered(v, Listed(order))| + if Answers(v, p) then 1 else 0
  {
    assert Answered(v, Listed(order + [p])) == Answered(v, Listed(order)) + if Answers(v, p) then {p} else {};
  }

  method FirstPhase(db: Database, v: Vault, walk: seq<Path>, ghost log0: seq<Event>)
    returns (found: nat, enqueued: nat, ghost log: seq<Event>)
    requires db.Valid() && db.events == log0
    requires Distinct(walk) && forall k :: 0 <= k < |walk| ==> walk[k] in v.files
    modifies db
    ensures db.Valid() && db.events == log0 + log && found == |log| && enqueued == |Answered(v, Listed(walk))|
    ensures var t0, W := old(db.notes), Listed(walk);
      && Phase1(v, t0, W, db.notes) && Balanced(v, t0, W, db.notes) && Logged(v, t0, W, db.notes, log)
      && Account(t0, db.notes, log)
      && (Settled(v, W, t0) ==> db.notes == t0 && found == |BuriedPaths(v, t0, W)|)
  {
    ghost var t0, W := db.notes, Listed(walk);
    found, enqueued, log := 0, 0, [];
    StartOfSweep(v, t0);
    for k := 0 to |walk|
      invariant db.Valid() && db.events == log0 + log && found == |log|
      invariant enqueued == |Answered(v, Listed(walk[..k]))|
      invariant Phase1(v, t0, Listed(walk[..k]), db.notes) && Balanced(v, t0, Listed(walk[..k]), db.notes)
      invariant Logged(v, t0, Listed(walk[..k]), db.notes, log)
      invariant Account(t0, db.notes, log)
      invariant Settled(v, W, t0) ==> db.notes == t0 && found == |BuriedPaths(v, t0, Listed(walk[..k]))|
    {
      ghost var t, done := db.notes, Listed(walk[..k]);
      var p := walk[k];
      assert p !in done && p in W;
      var answered, hit, r := ReconcileOne(db, v, p);
      FirstPhaseStep(v, t0, done, p, t, r, db.notes, log);
      if Settled(v, W, t0) {
        SettledStep(v, W, p, t, r, db.notes);
        BuriedStep(v, t0, done, p);
      }
      Seqs.Regroup(log0, log, Emitted(p, r, db.notes));
      log := log + Emitted(p, r, db.notes);
      ListedNext(walk, k);
      AnsweredStep(v, walk[..k], p);
      if hit { found := found + 1; }
      if answered { enqueued := enqueued + 1; }
    }
    assert walk[..|walk|] == walk;
  }

  lemma ListedNext(order: seq<Path>, k: nat)
    requires k < |order|
    ensures order[..k + 1] == order[..k] + [order[k]]
    ensures Listed(order[..k + 1]) == Listed(order[..k]) + {order[k]}
  {
  }

  /** What the second phase keeps while it goes through the paths that are left. */
  ghost predicate SecondPhaseInv(v: Vault, t0: Table, W: set<Path>, s: Table, order: seq<Path>, t: Table,
                                 log: seq<Event>, found: nat)
  {
    && Phase2(v, s, order, t)
    && Logged(v, t0, W + Listed(order), t, log) && Account(t0, t, log)
    && (Settled(v, W, t0) && s == t0 ==> t == t0 && found == 0)
  }

  /** The paths `todo` are what is left for the second phase after those in `order`, whose jobs `enqueued` counts. */
  ghost predicate Remaining(v: Vault, W: set<Path>, s: Table, todo: set<Path>, order: seq<Path>, enqueued: nat) {
    && Distinct(order) && todo !! Listed(order) && todo + Listed(order) == ActivePaths(s) - W
    && enqueued == |Answered(v, Listed(order))|
  }

  lemma LeftOver(todo: set<Path>, order: seq<Path>, gone: set<Path>, p: Path)
    requires todo !! Listed(order) && todo + Listed(order) == gone && p in todo
    ensures (todo - {p}) !! Listed(order + [p]) && (todo - {p}) + Listed(order + [p]) == gone
    ensures p in gone && |todo - {p}| == |todo| - 1
  {
    ListedMore({}, order, p);
  }

  lemma DistinctMore(order: seq<Path>, p: Path)
    requires Distinct(order) && p !in order
    ensures Distinct(order + [p])
  {
  }

  lemma RemainingStep(v: Vault, W: set<Path>, s: Table, todo: set<Path>, order: seq<Path>, enqueued: nat, p: Path)
    requires Remaining(v, W, s, todo, order, enqueued) && p in todo
    ensures Remaining(v, W, s, todo - {p}, order + [p], if Answers(v, p) then enqueued + 1 else enqueued)
    ensures p in ActivePaths(s) - W && p !in order && |todo - {p}| == |todo| - 1
  {
    assert p !in Listed(order);
    LeftOver(todo, order, ActivePaths(s) - W, p);
    DistinctMore(order, p);
    AnsweredStep(v, order, p);
  }

  lemma StartRemaining(v: Vault, W: set<Path>, s: Table)
    ensures Remaining(v, W, s, ActivePaths(s) - W, [], 0)
  {
    assert Answered(v, Listed([])) == {};
  }

  method SecondPhase(db: Database, v: Vault, walked: set<Path>, ghost t0: Table, ghost log0: seq<Event>,
                     ghost log: seq<Event>)
    returns (found: nat, enqueued: nat, ghost order: seq<Path>, ghost logNext: seq<Event>)
    requires db.Valid() && UniquePaths(t0) && db.events == log0 + log
    requires Phase1(v, t0, walked, db.notes)
    requires SecondPhaseInv(v, t0, walked, db.notes, [], db.notes, log, 0)
    modifies db
    ensures db.Valid() && db.events == log0 + logNext && found + |log| == |logNext|
    ensures Enumerates(order, ActivePaths(old(db.notes)) - walked) && enqueued == |Answered(v, Listed(order))|
    ensures SecondPhaseInv(v, t0, walked, old(db.notes), order, db.notes, logNext, found)
  {
    ghost var s := db.notes;
    var todo := ActivePaths(db.notes) - walked;
    found, enqueued, order, logNext := 0, 0, [], log;
    StartRemaining(v, walked, s);
    while todo != {}
      invariant db.Valid() && db.events == log0 + logNext && found + |log| == |logNext|
      invariant Remaining(v, walked, s, todo, order, enqueued)
      invariant SecondPhaseInv(v, t0, walked, s, order, db.notes, logNext, found)
      decreases |todo|
    {
      var p :| p in todo;
      found, enqueued, logNext := SecondPhaseOne(db, v, p, walked, t0, s, todo, order, log0, logNext, found, enqueued);
      todo := todo - {p};
      order := order + [p];
    }
  }

  /** One path of the second phase. */
  method SecondPhaseOne(db: Database, v: Vault, p: Path, ghost W: set<Path>, ghost t0: Table, ghost s: Table,
                        ghost todo: set<Path>, ghost order: seq<Path>, ghost log0: seq<Event>, ghost log: seq<Event>,
                        found: nat, enqueued: nat)
    returns (foundNext: nat, enqueuedNext: nat, ghost logNext: seq<Event>)
    requires db.Valid() && UniquePaths(s) && UniquePaths(t0) && db.events == log0 + log
    requires Phase1(v, t0, W, s) && SecondPhaseInv(v, t0, W, s, order, db.notes, log, found)
    requires Remaining(v, W, s, todo, order, enqueued) && p in todo
    modifies db
    ensures db.Valid() && db.events == log0 + logNext && |logNext| - |log| == foundNext - found
    ensures Remaining(v, W, s, todo - {p}, order + [p], enqueuedNext) && |todo - {p}| < |todo|
    ensures SecondPhaseInv(v, t0, W, s, order + [p], db.notes, logNext, foundNext)
  {
    ghost var t := db.notes;
    RemainingStep(v, W, s, todo, order, enqueued, p);
    var answered, hit, r := ReconcileOne(db, v, p);
    Seqs.Regroup(log0, log, Emitted(p, r, db.notes));
    SecondPhaseStep(v, t0, W, s, order, p, t, r, db.notes, log, found);
    logNext := log + Emitted(p, r, db.notes);
    foundNext := if hit then found + 1 else found;
    enqueuedNext := if answered then enqueued + 1 else enqueued;
  }

  method ReconcileVault(db: Database, v: Vault, walk: seq<Path>)
    returns (summary: Summary, ghost s: Table, ghost order: seq<Path>)
    requires db.Valid()
    requires Distinct(walk) && forall k :: 0 <= k < |walk| ==> walk[k] in v.files
    modifies db
    ensures db.Valid() && old(db.events) <= db.events
    ensures summary == Summary(|walk|, |db.events| - |old(db.events)|,
                               |Answered(v, Listed(walk))| + |Answered(v, Listed(order))|)
    ensures Account(old(db.notes), db.notes, db.events[|old(db.events)|..])
    ensures var t0, W := old(db.notes), Listed(walk);
      && Swept(v, W, t0, s, order, db.notes)
      && Logged(v, t0, W + ActivePaths(t0), db.notes, db.events[|old(db.events)|..])
      && (Settled(v, W, t0) ==> db.notes == t0 && summary.discrepanciesFound == |BuriedPaths(v, t0, W)|)
  {
    ghost var t0, log0 := db.notes, db.events;
    var found, enqueued, log := FirstPhase(db, v, walk, log0);
    s := db.notes;
    StartOfPhase2(v, s);
    assert Listed(walk) + Listed([]) == Listed(walk);
    var foundLater, enqueuedLater;
    ghost var logNext;
    foundLater, enqueuedLater, order, logNext := SecondPhase(db, v, Listed(walk), t0, log0, log);
    assert db.events[|log0|..] == logNext;
    WholeLog(v, t0, Listed(walk), s, order, db.notes, logNext);
    summary := Summary(|walk|, found + foundLater, enqueued + enqueuedLater);
  }

  /** The files that a sweep refreshes are the walked ones and those of the rows that were active before. */
  lemma WholeLog(v: Vault, t0: Table, W: set<Path>, s: Table, order: seq<Path>, t: Table, log: seq<Event>)
    requires Phase1(v, t0, W, s) && Enumerates(order, ActivePaths(s) - W)
    requires Logged(v, t0, W + Listed(order), t, log)
    ensures Logged(v, t0, W + ActivePaths(t0), t, log)
  {
    forall p | Clean(v, p) && p !in W ensures p in Listed(order) <==> p in ActivePaths(t0) {
      if i :| Active(s, i) && s[i].path == p { UnwalkedRow(v, t0, W, s, i); }
      if i :| Active(t0, i) && t0[i].path == p { assert Kept(v, t0, W, t0[i], s[i]); }
    }
    forall h ensures LoggedAt(v, t0, W + ActivePaths(t0), t, log, h) {
      assert LoggedAt(v, t0, W + Listed(order), t, log, h);
      assert ChangedPaths(v, t0, W + Listed(order), h) == ChangedPaths(v, t0, W + ActivePaths(t0), h);
    }
  }

  lemma FirstPhaseStep(v: Vault, t0: Table, done: set<Path>, p: Path, t: Table, r: IngestResult, tNext: Table,
                       log: seq<Event>)
    requires UniquePaths(t0)
    requires Phase1(v, t0, done, t) && p !in done && p in v.files && Step(v, p, t, r, tNext)
    requires Balanced(v, t0, done, t) && Logged(v, t0, done, t, log) && Account(t0, t, log)
    ensures Phase1(v, t0, done + {p}, tNext)
    ensures Balanced(v, t0, done + {p}, tNext) && Logged(v, t0, done + {p}, tNext, log + Emitted(p, r, tNext))
    ensures Account(t0, tNext, log + Emitted(p, r, tNext))
    ensures |Emitted(p, r, tNext)| == if Reported(r.outcome) then 1 else 0
  {
    StepEffect(v, t0, done, p, t, r, tNext);
    Phase1Step(v, t0, done, p, t, r, tNext);
    forall h ensures BalancedAt(v, t0, done + {p}, tNext, h) {
      assert BalancedAt(v, t0, done, t, h);
      Phase1Balanced(v, t0, done, p, t, r, tNext, h);
    }
    forall h ensures LoggedAt(v, t0, done + {p}, tNext, log + Emitted(p, r, tNext), h) {
      assert LoggedAt(v, t0, done, t, log, h);
      Phase1Logged(v, t0, done, p, t, r, tNext, log, h);
    }
    AccountStep(v, t0, p, t, r, tNext, log);
  }

  lemma SecondPhaseStep(v: Vault, t0: Table, W: set<Path>, s: Table, order: seq<Path>, p: Path, t: Table,
                        r: IngestResult, tNext: Table, log: seq<Event>, found: nat)
    requires UniquePaths(s) && UniquePaths(t0) && p in ActivePaths(s) - W && p !in order && Step(v, p, t, r, tNext)
    requires Phase1(v, t0, W, s) && SecondPhaseInv(v, t0, W, s, order, t, log, found)
    ensures |Emitted(p, r, tNext)| == if Reported(r.outcome) then 1 else 0
    ensures SecondPhaseInv(v, t0, W, s, order + [p], tNext, log + Emitted(p, r, tNext),
                           if Reported(r.outcome) then found + 1 else found)
  {
    AccountStep(v, t0, p, t, r, tNext, log);
    Phase2Step(v, s, order, p, t, r, tNext);
    forall h ensures LoggedAt(v, t0, W + Listed(order + [p]), tNext, log + Emitted(p, r, tNext), h) {
      assert LoggedAt(v, t0, W + Listed(order), t, log, h);
      Phase2Logged(v, t0, W, s, order, p, t, r, tNext, log, h);
    }
    if Settled(v, W, t0) && s == t0 { SettledStep(v, W, p, t, r, tNext); }
  }

  lemma StartOfSweep(v: Vault, t0: Table)
    ensures Phase1(v, t0, {}, t0) && Balanced(v, t0, {}, t0) && Logged(v, t0, {}, t0, [])
    ensures BuriedPaths(v, t0, {}) == {}
  {
    forall h ensures BalancedAt(v, t0, {}, t0, h) && LoggedAt(v, t0, {}, t0, [], h) {
      assert MovedRows(t0, t0, h) == {} && NewRows(t0, t0, h) == {} && DeletedRows(t0, t0, h) == {};
      assert NewPaths(v, t0, {}, h) == {} && ChangedPaths(v, t0, {}, h) == {};
    }
  }

  lemma BuriedStep(v: Vault, t: Table, done: set<Path>, p: Path)
    requires p !in done
    ensures |BuriedPaths(v, t, done + {p})| ==
            |BuriedPaths(v, t, done)| + if Clean(v, p) && TombstoneAt(t, p) then 1 else 0
  {
    assert BuriedPaths(v, t, done + {p}) ==
           BuriedPaths(v, t, done) + if Clean(v, p) && TombstoneAt(t, p) then {p} else {};
  }
}
