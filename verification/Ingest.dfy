/**
  The per-path ingestion job: one path of the vault against the `notes` table.

  The disk is static while a job runs.  Reading, secret scanning and parsing a
  file are summarised by what they answer (a `Scan`); SHA-256 of the parsed body
  is the `hash` of that answer.
 */
module Ingest {
  import opened Wrappers

  type Path = string
  type Hash = string

  /** A row of `notes`; `deleted` says that `deleted_at` is set. */
  datatype Note = Note(path: Path, hash: Hash, deleted: bool)

  type Table = map<nat, Note>

  /** What reading, scanning and parsing one existing file answers. */
  datatype Scan =
    | Text(hash: Hash, blocking: bool)
    | Unreadable
    | ScanError
    | Crash

  /** The vault on disk.  `unsafe` holds the paths that path resolution refuses. */
  datatype Vault = Vault(files: map<Path, Scan>, unsafe: set<Path>, blockOnHigh: bool)

  datatype Outcome = Created | Updated | Moved | Deleted | Noop | Blocked | ScanFailed | Raised

  datatype IngestResult = IngestResult(outcome: Outcome, noteId: Option<nat>)

  /** A `vault.note_*` event, named by the outcome that it reports. */
  datatype Event = Event(kind: Outcome, noteId: nat, path: Path, hash: Hash)

  /** The file at `p` gets as far as having a content hash. */
  predicate Clean(v: Vault, p: Path) {
    && p in v.files && p !in v.unsafe && v.files[p].Text?
    && !(v.blockOnHigh && v.files[p].blocking)
  }

  /** The UNIQUE constraint on `notes.path`; tombstones count too. */
  ghost predicate UniquePaths(t: Table) {
    forall i, j :: i in t && j in t && t[i].path == t[j].path ==> i == j
  }

  ghost predicate NoRowAt(t: Table, p: Path) {
    forall i :: i in t ==> t[i].path != p
  }

  ghost predicate Active(t: Table, i: nat) {
    i in t && !t[i].deleted
  }

  /** Row `j` can be re-pathed to a new file with hash `h`: its own file has gone. */
  ghost predicate MoveSource(v: Vault, t: Table, j: nat, h: Hash) {
    Active(t, j) && t[j].hash == h && t[j].path !in v.files
  }

  /** Some other active row with the same hash has its file on disk. */
  ghost predicate HasTwin(v: Vault, t: Table, i: nat)
    requires i in t
  {
    exists j :: Active(t, j) && j != i && t[j].hash == t[i].hash && t[j].path in v.files
  }

  /** What one ingestion of an existing, clean file may do. */
  ghost predicate PresentStep(p: Path, v: Vault, h: Hash, t: Table, r: IngestResult, tNext: Table) {
    if NoRowAt(t, p) then
      && r.noteId.Some?
      && var id := r.noteId.value;
      if exists j :: MoveSource(v, t, j, h) then
        r.outcome == Moved && MoveSource(v, t, id, h) && tNext == t[id := t[id].(path := p)]
      else
        r.outcome == Created && id !in t && tNext == t[id := Note(p, h, false)]
    else
      && r.noteId.Some? && r.noteId.value in t && t[r.noteId.value].path == p
      && var id := r.noteId.value;
      if !t[id].deleted && t[id].hash == h then
        r.outcome == Noop && tNext == t
      else
        r.outcome == Updated && tNext == t[id := t[id].(hash := h)]
  }

  /** What one ingestion of a path with no file may do. */
  ghost predicate VanishedStep(p: Path, v: Vault, t: Table, r: IngestResult, tNext: Table) {
    if exists i :: Active(t, i) && t[i].path == p then
      && r.noteId.Some? && Active(t, r.noteId.value) && t[r.noteId.value].path == p
      && var id := r.noteId.value;
      if HasTwin(v, t, id) then
        r.outcome == Noop && tNext == t
      else
        r.outcome == Deleted && tNext == t[id := t[id].(deleted := true)]
    else
      r == IngestResult(Noop, None) && tNext == t
  }

  /** One ingestion of `p` may take table `t` to `t'` and answer `r`. */
  ghost predicate Step(v: Vault, p: Path, t: Table, r: IngestResult, tNext: Table) {
    if p in v.unsafe then r == IngestResult(ScanFailed, None) && tNext == t
    else if p !in v.files then VanishedStep(p, v, t, r, tNext)
    else match v.files[p]
      case Unreadable => r == IngestResult(ScanFailed, None) && tNext == t
      case ScanError => r == IngestResult(ScanFailed, None) && tNext == t
      case Crash => r == IngestResult(Raised, None) && tNext == t
      case Text(h, blocking) =>
        if v.blockOnHigh && blocking then r == IngestResult(Blocked, None) && tNext == t
        else PresentStep(p, v, h, t, r, tNext)
  }

  /** Which jobs do not get through, and how they tell it: the file is refused, cannot be read, or breaks the job. */
  lemma StoppedIff(v: Vault, p: Path, t: Table, r: IngestResult, tNext: Table)
    requires Step(v, p, t, r, tNext)
    ensures r.outcome == Blocked <==>
              p in v.files && p !in v.unsafe && v.files[p].Text? && v.files[p].blocking && v.blockOnHigh
    ensures r.outcome == ScanFailed <==>
              p in v.unsafe || (p in v.files && (v.files[p] == Unreadable || v.files[p] == ScanError))
    ensures r.outcome == Raised <==> p in v.files && p !in v.unsafe && v.files[p] == Crash
    ensures r.outcome in {Blocked, ScanFailed, Raised} ==> r.noteId == None && tNext == t
  {
  }

  /** The outcomes that write a `vault.note_*` event. */
  predicate Reported(o: Outcome) {
    o.Created? || o.Updated? || o.Moved? || o.Deleted?
  }

  /** The events that an ingestion of `p` with answer `r` appends. */
  ghost function Emitted(p: Path, r: IngestResult, tNext: Table): seq<Event> {
    if Reported(r.outcome) && r.noteId.Some? && r.noteId.value in tNext
    then [Event(r.outcome, r.noteId.value, p, tNext[r.noteId.value].hash)]
    else []
  }

  // ----- what the events tell -----

  /** Reading an event back: the row that it names must be as it says, and changes as it says. */
  function ApplyEvent(t: Table, e: Event): Option<Table> {
    var id := e.noteId;
    match e.kind
    case Created => if id in t then None else Some(t[id := Note(e.path, e.hash, false)])
    case Moved => if id in t && t[id].hash == e.hash then Some(t[id := t[id].(path := e.path)]) else None
    case Updated => if id in t && t[id].path == e.path then Some(t[id := t[id].(hash := e.hash)]) else None
    case Deleted =>
      if id in t && t[id] == Note(e.path, e.hash, false) then Some(t[id := t[id].(deleted := true)]) else None
    case _ => None
  }

  function Replay(t: Table, log: seq<Event>): Option<Table> {
    if log == [] then Some(t)
    else
      var before := Replay(t, log[..|log| - 1]);
      if before.None? then None else ApplyEvent(before.value, log[|log| - 1])
  }

  /** The event of a job tells everything that the job did to the table. */
  lemma StepReplays(v: Vault, p: Path, t: Table, r: IngestResult, tNext: Table)
    requires Step(v, p, t, r, tNext)
    ensures Replay(t, Emitted(p, r, tNext)) == Some(tNext)
  {
    var told := Emitted(p, r, tNext);
    if told != [] {
      assert told[..0] == [] && Replay(t, []) == Some(t);
    }
  }

  lemma {:induction false} ReplayMore(t0: Table, log: seq<Event>, more: seq<Event>, t: Table)
    requires Replay(t0, log) == Some(t)
    ensures Replay(t0, log + more) == Replay(t, more)
  {
    if more == [] {
      assert log + more == log;
    } else {
      assert (log + more)[..|log + more| - 1] == log + more[..|more| - 1];
      ReplayMore(t0, log, more[..|more| - 1], t);
    }
  }

  /** The database connection: the `notes` table and the append-only event log. */
  class Database {
    var notes: Table
    var nextId: nat
    var events: seq<Event>

    ghost predicate Valid()
      reads this
    {
      UniquePaths(notes) && forall i :: i in notes ==> i < nextId
    }

    constructor ()
      ensures Valid() && notes == map[] && events == []
    {
      notes, nextId, events := map[], 0, [];
    }

    method GetByPath(p: Path) returns (row: Option<nat>)
      ensures row.None? ==> NoRowAt(notes, p)
      ensures row.Some? ==> row.value in notes && notes[row.value].path == p
    {
      var todo := notes.Keys;
      while todo != {}
        invariant todo <= notes.Keys
        invariant forall i :: i in notes && notes[i].path == p ==> i in todo
        decreases |todo|
      {
        var i :| i in todo;
        if notes[i].path == p { return Some(i); }
        todo := todo - {i};
      }
      return None;
    }

    /** The active rows with hash `h`, in whatever order the database answers. */
    method FindByContentHash(h: Hash) returns (ids: seq<nat>)
      ensures forall k :: 0 <= k < |ids| ==> Active(notes, ids[k]) && notes[ids[k]].hash == h
      ensures forall i :: Active(notes, i) && notes[i].hash == h ==> i in ids
    {
      var todo := notes.Keys;
      ids := [];
      while todo != {}
        invariant todo <= notes.Keys
        invariant forall k :: 0 <= k < |ids| ==> Active(notes, ids[k]) && notes[ids[k]].hash == h
        invariant forall i :: Active(notes, i) && notes[i].hash == h ==> i in todo || i in ids
        decreases |todo|
      {
        var i :| i in todo;
        if !notes[i].deleted && notes[i].hash == h { ids := ids + [i]; }
        todo := todo - {i};
      }
    }

    method HandleVanishedPath(v: Vault, p: Path) returns (r: IngestResult)
      requires Valid() && p !in v.files
      modifies this
      ensures Valid()
      ensures VanishedStep(p, v, old(notes), r, notes)
      ensures events == old(events) + Emitted(p, r, notes)
    {
      var existing := GetByPath(p);
      if existing.None? || notes[existing.value].deleted {
        return IngestResult(Noop, None);
      }
      var id := existing.value;
      var candidates := FindByContentHash(notes[id].hash);
      for k := 0 to |candidates|
        invariant notes == old(notes) && events == old(events)
        invariant forall m :: 0 <= m < k && candidates[m] != id ==> notes[candidates[m]].path !in v.files
      {
        if candidates[k] != id && notes[candidates[k]].path in v.files {
          return IngestResult(Noop, existing);
        }
      }
      notes := notes[id := notes[id].(deleted := true)];
      events := events + [Event(Deleted, id, p, notes[id].hash)];
      return IngestResult(Deleted, existing);
    }

    method IngestNote(v: Vault, p: Path) returns (r: IngestResult)
      requires Valid()
      modifies this
      ensures Valid()
      ensures Step(v, p, old(notes), r, notes)
      ensures events == old(events) + Emitted(p, r, notes)
    {
      if p in v.unsafe { return IngestResult(ScanFailed, None); }
      if p !in v.files {
        r := HandleVanishedPath(v, p);
        return;
      }
      var scan := v.files[p];
      if scan.Crash? { return IngestResult(Raised, None); }
      if !scan.Text? { return IngestResult(ScanFailed, None); }
      if v.blockOnHigh && scan.blocking { return IngestResult(Blocked, None); }

      var existing := GetByPath(p);
      if existing.Some? && !notes[existing.value].deleted && notes[existing.value].hash == scan.hash {
        return IngestResult(Noop, existing);
      }
      if existing.None? {
        var candidates := FindByContentHash(scan.hash);
        for k := 0 to |candidates|
          invariant notes == old(notes) && events == old(events)
          invariant forall m :: 0 <= m < k ==> notes[candidates[m]].path in v.files
        {
          var c := candidates[k];
          if notes[c].path != p && notes[c].path !in v.files {
            notes := notes[c := notes[c].(path := p)];
            events := events + [Event(Moved, c, p, scan.hash)];
            return IngestResult(Moved, Some(c));
          }
        }
        var id := nextId;
        notes, nextId := notes[id := Note(p, scan.hash, false)], nextId + 1;
        events := events + [Event(Created, id, p, scan.hash)];
        return IngestResult(Created, Some(id));
      }
      notes := notes[existing.value := notes[existing.value].(hash := scan.hash)];
      events := events + [Event(Updated, existing.value, p, scan.hash)];
      return IngestResult(Updated, existing);
    }
  }
}
