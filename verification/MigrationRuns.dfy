/** Sequences of failed, resumed and repeated migration runs. */
module MigrationRuns {
  import opened Wrappers
  import opened Migrate
  import Splitter

  /** One run: the files it found and the faults it met. */
  datatype Attempt = Attempt(files: seq<File>, fails: Faults)

  function Runs(w: World, db: Db, attempts: seq<Attempt>): Db {
    if attempts == [] then db
    else
      var last := attempts[|attempts| - 1];
      Apply(w, last.fails, Runs(w, db, attempts[..|attempts| - 1]), last.files).0
  }

  /** What the last run returned or raised. */
  function LastOutcome(w: World, db: Db, attempts: seq<Attempt>): Outcome
    requires attempts != []
  {
    var last := attempts[|attempts| - 1];
    Apply(w, last.fails, Runs(w, db, attempts[..|attempts| - 1]), last.files).1
  }

  /** Positive versions, each once, in order. */
  predicate Strict(files: seq<File>) {
    && (forall i :: 0 <= i < |files| ==> files[i].version > 0)
    && (forall i, j :: 0 <= i < j < |files| ==> files[i].version < files[j].version)
  }

  /** Between runs only higher versions are added: each list extends the one before. */
  predicate Growing(attempts: seq<Attempt>) {
    && (forall i :: 0 <= i < |attempts| ==> Strict(attempts[i].files))
    && (forall i :: 0 < i < |attempts| ==> attempts[i - 1].files <= attempts[i].files)
  }

  // ----- the states of a run without faults -----

  /** The state after the first `k` files, each committed to what the ones before left. */
  function Chain(commit: Commit, files: seq<File>, k: nat): Option<Db>
    requires k <= |files|
  {
    if k == 0 then Some(EMPTY)
    else
      var d := Chain(commit, files, k - 1);
      if d.None? then None else commit(d.value, files[k - 1])
  }

  /** `db` is what the first `k` files leave in an empty database. */
  predicate At(commit: Commit, files: seq<File>, k: nat, db: Db) {
    k <= |files| && Chain(commit, files, k) == Some(db)
  }

  /** Whatever `commit` commits, `clean` commits the same. */
  ghost predicate Within(commit: Commit, clean: Commit) {
    forall d: Db, f: File :: commit(d, f).Some? ==> commit(d, f) == clean(d, f)
  }

  function Clean(w: World): Commit {
    Committing(w, NO_FAULTS)
  }

  function RowsOf(w: World, files: seq<File>): (r: seq<Row>)
    ensures |r| == |files| && forall i :: 0 <= i < |files| ==> r[i] == RowOf(w, files[i])
  {
    if files == [] then [] else RowsOf(w, files[..|files| - 1]) + [RowOf(w, files[|files| - 1])]
  }

  /** How a file's text becomes statements. */
  type Splitting = string -> seq<string>

  function SchemaOf(split: Splitting, files: seq<File>): seq<string> {
    if files == [] then [] else SchemaOf(split, files[..|files| - 1]) + split(files[|files| - 1].text)
  }

  function VersionOf(files: seq<File>): nat {
    if files == [] then 0 else files[|files| - 1].version
  }

  lemma {:induction false} ExecuteAppends(w: World, fails: Faults, v: nat, schema: seq<string>,
                                          statements: seq<string>, k: nat)
    requires k <= |statements| && Execute(w, fails, v, schema, statements, k).Some?
    ensures Execute(w, fails, v, schema, statements, k) == Some(schema + statements[k..])
    ensures Execute(w, NO_FAULTS, v, schema, statements, k) == Some(schema + statements[k..])
    decreases |statements| - k
  {
    if k == |statements| {
      assert schema + statements[k..] == schema;
    } else {
      ExecuteAppends(w, fails, v, schema + [statements[k]], statements, k + 1);
      assert schema + [statements[k]] + statements[k + 1..] == schema + statements[k..];
    }
  }

  /** A transaction that commits despite the faults of its run commits the same without them. */
  lemma CommitsTheSame(w: World, fails: Faults, db: Db, f: File)
    requires Transaction(w, fails, db, f).Some?
    ensures Transaction(w, fails, db, f) == Transaction(w, NO_FAULTS, db, f)
    ensures Transaction(w, fails, db, f).value.schema == db.schema + Splitter.Split(f.text)
    ensures w.hasLog(Transaction(w, fails, db, f).value.schema)
    ensures !Recorded(db.rows, f.version)
  {
    ExecuteAppends(w, fails, f.version, db.schema, Splitter.Split(f.text), 0);
  }

  lemma {:induction false} AddRowLast(rows: seq<Row>, r: Row)
    requires forall i :: 0 <= i < |rows| ==> rows[i].version < r.version
    ensures AddRow(rows, r) == rows + [r]
  {
    if rows != [] {
      AddRowLast(rows[1..], r);
      assert [rows[0]] + (rows[1..] + [r]) == rows + [r];
    }
  }

  /** What applying `done` leaves: its statements, one record per file, the last version. */
  function Built(w: World, split: Splitting, done: seq<File>): Db {
    Db(SchemaOf(split, done), RowsOf(w, done), VersionOf(done))
  }

  /** A commit appends the statements of the file, adds its record and moves the version. */
  ghost predicate Appends(w: World, split: Splitting, commit: Commit) {
    forall d: Db, f: File :: commit(d, f).Some? ==>
      && commit(d, f) == Some(Db(d.schema + split(f.text), AddRow(d.rows, RowOf(w, f)), f.version))
      && w.hasLog(commit(d, f).value.schema)
      && !Recorded(d.rows, f.version)
  }

  lemma CommittingAppends(w: World, fails: Faults)
    ensures Appends(w, Splitter.Split, Committing(w, fails))
  {
    forall d: Db, f: File | Committing(w, fails)(d, f).Some?
      ensures Committing(w, fails)(d, f).value.schema == d.schema + Splitter.Split(f.text)
      ensures w.hasLog(Committing(w, fails)(d, f).value.schema) && !Recorded(d.rows, f.version)
    {
      CommitsTheSame(w, fails, d, f);
    }
  }

  lemma BuiltNext(w: World, split: Splitting, done: seq<File>, f: File)
    requires forall i :: 0 <= i < |done| ==> done[i].version < f.version
    ensures Built(w, split, done + [f])
         == Db(SchemaOf(split, done) + split(f.text), AddRow(RowsOf(w, done), RowOf(w, f)), f.version)
  {
    AddRowLast(RowsOf(w, done), RowOf(w, f));
    assert (done + [f])[..|done|] == done;
  }

  lemma ShapeNext(w: World, split: Splitting, commit: Commit, done: seq<File>, f: File, more: seq<File>, db: Db)
    requires Appends(w, split, commit) && commit(Built(w, split, done), f) == Some(db) && more == done + [f]
    requires forall i :: 0 <= i < |done| ==> done[i].version < f.version
    ensures db == Built(w, split, more) && w.hasLog(db.schema)
  {
    BuiltNext(w, split, done, f);
  }

  lemma AtPrevious(commit: Commit, files: seq<File>, k: nat, db: Db) returns (prev: Db)
    requires 0 < k && At(commit, files, k, db)
    ensures At(commit, files, k - 1, prev) && commit(prev, files[k - 1]) == Some(db)
  {
    prev := Chain(commit, files, k - 1).value;
  }

  /** The records are the first `k` files, the version is the last of them, the schema is their statements. */
  lemma {:induction false} ChainShape(w: World, split: Splitting, commit: Commit, files: seq<File>, k: nat, db: Db)
    requires Strict(files) && Appends(w, split, commit) && At(commit, files, k, db)
    ensures db == Built(w, split, files[..k])
    ensures k > 0 ==> w.hasLog(db.schema)
  {
    if k > 0 {
      var prev := AtPrevious(commit, files, k, db);
      ChainShape(w, split, commit, files, k - 1, prev);
      assert files[..k] == files[..k - 1] + [files[k - 1]];
      ShapeNext(w, split, commit, files[..k - 1], files[k - 1], files[..k], db);
    }
  }

  lemma {:induction false} ChainExtends(commit: Commit, files: seq<File>, more: seq<File>, k: nat)
    requires files <= more && k <= |files|
    ensures Chain(commit, files, k) == Chain(commit, more, k)
  {
    if k > 0 { ChainExtends(commit, files, more, k - 1); }
  }

  lemma {:induction false} ChainDefined(commit: Commit, files: seq<File>, i: nat, k: nat)
    requires i <= k <= |files| && Chain(commit, files, k).Some?
    ensures Chain(commit, files, i).Some?
    decreases k - i
  {
    if i < k { ChainDefined(commit, files, i + 1, k); }
  }

  lemma FaultsOnlyStop(w: World, fails: Faults)
    ensures Within(Committing(w, fails), Clean(w))
  {
    forall d: Db, f: File | Committing(w, fails)(d, f).Some?
      ensures Committing(w, fails)(d, f) == Clean(w)(d, f)
    {
      CommitsTheSame(w, fails, d, f);
    }
  }

  // ----- one run -----

  lemma {:induction false} ByVersionUnique(files: seq<File>, i: nat, n: nat)
    requires Strict(files) && i < n <= |files|
    ensures ByVersion(files[..n], files[i].version) == Some(files[i])
    decreases n
  {
    if i < n - 1 {
      assert files[..n][..n - 1] == files[..n - 1];
      ByVersionUnique(files, i, n - 1);
    }
  }

  lemma NoDrift(w: World, split: Splitting, clean: Commit, files: seq<File>, k: nat, db: Db)
    requires Strict(files) && Appends(w, split, clean) && At(clean, files, k, db)
    ensures Verify(w, files, db) == None
  {
    ChainShape(w, split, clean, files, k, db);
    forall i | 0 <= i < |db.rows| ensures RowOk(w, files, db.rows[i]) {
      ByVersionUnique(files, i, |files|);
      assert files[..|files|] == files;
    }
  }

  /** File number `j` commits to what the files before it leave. */
  ghost predicate Passes(commit: Commit, clean: Commit, files: seq<File>, j: nat)
    requires j < |files|
  {
    Chain(clean, files, j).Some? && commit(Chain(clean, files, j).value, files[j]).Some?
  }

  /** From file `k0` on, every file before `k` commits, and file `k` does not. */
  ghost predicate StopsAt(commit: Commit, clean: Commit, files: seq<File>, k0: nat, k: nat) {
    && k <= |files|
    && (forall j :: k0 <= j < k ==> Passes(commit, clean, files, j))
    && (k < |files| ==> !Passes(commit, clean, files, k))
  }

  /** A run ended in the clean state of `k` files: it returned if these are all, else the next one failed. */
  predicate EndsAt(w: World, clean: Commit, files: seq<File>, k: nat, end: (Db, Outcome)) {
    && At(clean, files, k, end.0)
    && end.1 == if k == |files| then Done(Records(w, end.0)) else Failed(files[k].version)
  }

  /** A run goes on from a clean state to a clean state; it stops early only at the file that failed. */
  lemma {:induction false} ApplyFromClean(w: World, commit: Commit, clean: Commit, db: Db, files: seq<File>,
                                          i: nat, k0: nat, start: nat) returns (k: nat)
    requires Strict(files) && i <= |files| && k0 <= |files| && start == VersionOf(files[..k0])
    requires Within(commit, clean) && At(clean, files, if i <= k0 then k0 else i, db)
    ensures k0 <= k <= |files|
    ensures EndsAt(w, clean, files, k, ApplyFrom(w, commit, start, db, files, i))
    ensures StopsAt(commit, clean, files, if i <= k0 then k0 else i, k)
    decreases |files| - i
  {
    if i == |files| {
      k := |files|;
    } else if i < k0 {
      k := ApplyFromClean(w, commit, clean, db, files, i + 1, k0, start);
    } else {
      var d := commit(db, files[i]);
      if d.None? {
        k := i;
      } else {
        k := ApplyFromClean(w, commit, clean, d.value, files, i + 1, k0, start);
      }
    }
  }

  lemma ApplyClean(w: World, fails: Faults, split: Splitting, clean: Commit, db: Db, files: seq<File>, k0: nat)
    returns (k: nat)
    requires Strict(files) && Appends(w, split, clean) && At(clean, files, k0, db)
    requires Within(Committing(w, fails), clean)
    ensures k0 <= k <= |files|
    ensures EndsAt(w, clean, files, k, Apply(w, fails, db, files))
    ensures StopsAt(Committing(w, fails), clean, files, k0, k)
  {
    NoDrift(w, split, clean, files, k0, db);
    ChainShape(w, split, clean, files, k0, db);
    k := ApplyFromClean(w, Committing(w, fails), clean, db, files, 0, k0, db.userVersion);
  }

  // ----- many runs -----

  lemma {:induction false} AlwaysClean(w: World, attempts: seq<Attempt>) returns (k0: nat, k: nat)
    requires attempts != [] && Growing(attempts)
    ensures var n := |attempts| - 1;
      && k0 <= k && At(Clean(w), attempts[n].files, k0, Runs(w, EMPTY, attempts[..n]))
      && EndsAt(w, Clean(w), attempts[n].files, k, (Runs(w, EMPTY, attempts), LastOutcome(w, EMPTY, attempts)))
      && StopsAt(Committing(w, attempts[n].fails), Clean(w), attempts[n].files, k0, k)
  {
    var n := |attempts| - 1;
    var last, init := attempts[n], attempts[..n];
    k0 := 0;
    if init != [] {
      var _, reached := AlwaysClean(w, init);
      k0 := reached;
      ChainExtends(Clean(w), attempts[n - 1].files, last.files, k0);
    }
    FaultsOnlyStop(w, last.fails);
    CommittingAppends(w, NO_FAULTS);
    k := ApplyClean(w, last.fails, Splitter.Split, Clean(w), Runs(w, EMPTY, init), last.files, k0);
  }

  /**
    After any failed and resumed runs, the records are a prefix of the sorted files, the version
    is the last recorded one, and the schema is what these files' statements made.
   */
  lemma PrefixAlways(w: World, attempts: seq<Attempt>, files: seq<File>) returns (k: nat)
    requires attempts != [] && Growing(attempts) && files == attempts[|attempts| - 1].files
    ensures k <= |files| && Runs(w, EMPTY, attempts) == Built(w, Splitter.Split, files[..k])
    ensures LastOutcome(w, EMPTY, attempts).Done? <==> k == |files|
    ensures k < |files| ==> LastOutcome(w, EMPTY, attempts) == Failed(files[k].version)
  {
    var _, reached := AlwaysClean(w, attempts);
    k := reached;
    CommittingAppends(w, NO_FAULTS);
    ChainShape(w, Splitter.Split, Clean(w), files, k, Runs(w, EMPTY, attempts));
  }

  lemma {:induction false} CleanApplyFrom(w: World, clean: Commit, files: seq<File>, i: nat, db: Db, end: Db)
    requires Strict(files) && At(clean, files, i, db) && At(clean, files, |files|, end)
    ensures ApplyFrom(w, clean, 0, db, files, i) == (end, Done(Records(w, end)))
    decreases |files| - i
  {
    if i < |files| {
      ChainDefined(clean, files, i + 1, |files|);
      CleanApplyFrom(w, clean, files, i + 1, Chain(clean, files, i + 1).value, end);
    }
  }

  /** Runs that fail and resume and finally return leave what one clean run leaves. */
  lemma ResumedEqualsClean(w: World, attempts: seq<Attempt>)
    requires attempts != [] && Growing(attempts) && LastOutcome(w, EMPTY, attempts).Done?
    ensures Apply(w, NO_FAULTS, EMPTY, attempts[|attempts| - 1].files)
         == (Runs(w, EMPTY, attempts), LastOutcome(w, EMPTY, attempts))
  {
    var _, _ := AlwaysClean(w, attempts);
    var files := attempts[|attempts| - 1].files;
    CommittingAppends(w, NO_FAULTS);
    NoDrift(w, Splitter.Split, Clean(w), files, 0, EMPTY);
    CleanApplyFrom(w, Clean(w), files, 0, EMPTY, Runs(w, EMPTY, attempts));
  }

  // ----- any database -----

  lemma {:induction false} AddRowContents(rows: seq<Row>, r: Row)
    ensures multiset(AddRow(rows, r)) == multiset(rows) + multiset{r}
  {
    if rows != [] {
      assert rows == [rows[0]] + rows[1..];
      AddRowContents(rows[1..], r);
    }
  }

  lemma AddRowMember(rows: seq<Row>, r: Row, x: Row)
    ensures x in AddRow(rows, r) <==> x in rows || x == r
  {
    AddRowContents(rows, r);
    assert x in AddRow(rows, r) <==> x in multiset(AddRow(rows, r));
    assert x in rows <==> x in multiset(rows);
  }

  lemma RecordedAfter(rows: seq<Row>, r: Row, v: nat)
    ensures Recorded(AddRow(rows, r), v) <==> Recorded(rows, v) || v == r.version
  {
    var more := AddRow(rows, r);
    AddRowMember(rows, r, r);
    if Recorded(more, v) {
      var i :| 0 <= i < |more| && more[i].version == v;
      AddRowMember(rows, r, more[i]);
    }
    if Recorded(rows, v) {
      var i :| 0 <= i < |rows| && rows[i].version == v;
      AddRowMember(rows, r, rows[i]);
    }
  }

  /** Version `v` is among the files from number `i` on that are above `start`. */
  predicate Pending(files: seq<File>, i: nat, start: nat, v: nat) {
    v > start && exists j :: i <= j < |files| && files[j].version == v
  }

  /** Every run adds records only for files above the version that it started from. */
  lemma {:induction false} AddsOnlyPending(w: World, commit: Commit, start: nat, db: Db, files: seq<File>, i: nat,
                                           v: nat)
    requires Appends(w, Splitter.Split, commit) && i <= |files|
    requires Recorded(ApplyFrom(w, commit, start, db, files, i).0.rows, v)
    ensures Recorded(db.rows, v) || Pending(files, i, start, v)
    decreases |files| - i
  {
    if i < |files| {
      if files[i].version <= start {
        AddsOnlyPending(w, commit, start, db, files, i + 1, v);
      } else if commit(db, files[i]).Some? {
        AddsOnlyPending(w, commit, start, commit(db, files[i]).value, files, i + 1, v);
        RecordedAfter(db.rows, RowOf(w, files[i]), v);
      }
    }
  }

  lemma {:induction false} KeepsRecords(w: World, commit: Commit, start: nat, db: Db, files: seq<File>, i: nat, v: nat)
    requires Appends(w, Splitter.Split, commit) && i <= |files| && Recorded(db.rows, v)
    ensures Recorded(ApplyFrom(w, commit, start, db, files, i).0.rows, v)
    decreases |files| - i
  {
    if i < |files| {
      if files[i].version <= start {
        KeepsRecords(w, commit, start, db, files, i + 1, v);
      } else if commit(db, files[i]).Some? {
        RecordedAfter(db.rows, RowOf(w, files[i]), v);
        KeepsRecords(w, commit, start, commit(db, files[i]).value, files, i + 1, v);
      }
    }
  }

  /** A run that returns has recorded every pending file, none of which was recorded before. */
  lemma {:induction false} RecordsPending(w: World, commit: Commit, start: nat, db: Db, files: seq<File>, i: nat,
                                          j: nat)
    requires Appends(w, Splitter.Split, commit)
    requires i <= j < |files| && files[j].version > start
    requires ApplyFrom(w, commit, start, db, files, i).1.Done?
    ensures Recorded(ApplyFrom(w, commit, start, db, files, i).0.rows, files[j].version)
    ensures !Recorded(db.rows, files[j].version)
    decreases |files| - i
  {
    if files[i].version <= start {
      RecordsPending(w, commit, start, db, files, i + 1, j);
    } else {
      var d := commit(db, files[i]).value;
      RecordedAfter(db.rows, RowOf(w, files[i]), files[j].version);
      if j == i {
        KeepsRecords(w, commit, start, d, files, i + 1, files[i].version);
      } else {
        RecordsPending(w, commit, start, d, files, i + 1, j);
      }
    }
  }

  /** A run that returns has recorded every file exactly when no file at or below the version was missing. */
  lemma CompleteIff(w: World, fails: Faults, db: Db, files: seq<File>)
    requires Apply(w, fails, db, files).1.Done?
    ensures (forall i :: 0 <= i < |files| ==> Recorded(Apply(w, fails, db, files).0.rows, files[i].version))
        <==> (forall i :: 0 <= i < |files| && files[i].version <= db.userVersion ==>
                Recorded(db.rows, files[i].version))
  {
    var after := Apply(w, fails, db, files).0.rows;
    var commit := Committing(w, fails);
    CommittingAppends(w, fails);
    forall i | 0 <= i < |files|
      ensures Recorded(after, files[i].version) <==>
              files[i].version > db.userVersion || Recorded(db.rows, files[i].version)
    {
      if files[i].version > db.userVersion {
        RecordsPending(w, commit, db.userVersion, db, files, 0, i);
      } else if Recorded(db.rows, files[i].version) {
        KeepsRecords(w, commit, db.userVersion, db, files, 0, files[i].version);
      } else if Recorded(after, files[i].version) {
        AddsOnlyPending(w, commit, db.userVersion, db, files, 0, files[i].version);
      }
    }
  }

  /** A commit moves the version to that of the file. */
  ghost predicate Moves(commit: Commit) {
    forall d: Db, f: File :: commit(d, f).Some? ==> commit(d, f).value.userVersion == f.version
  }

  lemma CommittingMoves(w: World, fails: Faults)
    ensures Moves(Committing(w, fails))
  {
    CommittingAppends(w, fails);
  }

  lemma {:induction false} VersionGrows(w: World, commit: Commit, start: nat, db: Db, files: seq<File>, i: nat)
    requires Moves(commit) && i <= |files| && Ascending(files) && start <= db.userVersion
    requires forall j :: i <= j < |files| && files[j].version > start ==> files[j].version >= db.userVersion
    ensures ApplyFrom(w, commit, start, db, files, i).0.userVersion >= db.userVersion
    decreases |files| - i
  {
    if i < |files| {
      if files[i].version <= start {
        VersionGrows(w, commit, start, db, files, i + 1);
      } else if commit(db, files[i]).Some? {
        VersionGrows(w, commit, start, commit(db, files[i]).value, files, i + 1);
      }
    }
  }

  /** After a run that returns, no file is above the version. */
  lemma {:induction false} VersionCovers(w: World, commit: Commit, start: nat, db: Db, files: seq<File>, i: nat, j: nat)
    requires Moves(commit) && i <= j < |files| && Ascending(files) && start <= db.userVersion
    requires forall m :: i <= m < |files| && files[m].version > start ==> files[m].version >= db.userVersion
    requires ApplyFrom(w, commit, start, db, files, i).1.Done?
    ensures files[j].version <= ApplyFrom(w, commit, start, db, files, i).0.userVersion
    decreases |files| - i
  {
    if files[i].version <= start {
      if i == j {
        VersionGrows(w, commit, start, db, files, i);
      } else {
        VersionCovers(w, commit, start, db, files, i + 1, j);
      }
    } else {
      var d := commit(db, files[i]).value;
      if i == j {
        VersionGrows(w, commit, start, d, files, i + 1);
      } else {
        VersionCovers(w, commit, start, d, files, i + 1, j);
      }
    }
  }

  /** A file that arrives with a version at or below the current one is never applied, in any later runs. */
  lemma {:induction false} SkippedForever(w: World, db: Db, attempts: seq<Attempt>, v: nat)
    requires v <= db.userVersion && !Recorded(db.rows, v)
    requires forall i :: 0 <= i < |attempts| ==> Ascending(attempts[i].files)
    ensures !Recorded(Runs(w, db, attempts).rows, v) && v <= Runs(w, db, attempts).userVersion
  {
    if attempts != [] {
      var n := |attempts| - 1;
      var before, last := Runs(w, db, attempts[..n]), attempts[n];
      SkippedForever(w, db, attempts[..n], v);
      if Verify(w, last.files, before).None? {
        var commit := Committing(w, last.fails);
        CommittingAppends(w, last.fails);
        CommittingMoves(w, last.fails);
        VersionGrows(w, commit, before.userVersion, before, last.files, 0);
        if Recorded(Runs(w, db, attempts).rows, v) {
          AddsOnlyPending(w, commit, before.userVersion, before, last.files, 0, v);
        }
      }
    }
  }

  // ----- repeating a run -----

  lemma {:induction false} ByVersionLast(files: seq<File>, i: nat)
    requires i < |files| && forall j :: i < j < |files| ==> files[j].version != files[i].version
    ensures ByVersion(files, files[i].version) == Some(files[i])
    decreases |files|
  {
    if i < |files| - 1 { ByVersionLast(files[..|files| - 1], i); }
  }

  predicate AllRowsOk(w: World, files: seq<File>, rows: seq<Row>) {
    forall i :: 0 <= i < |rows| ==> RowOk(w, files, rows[i])
  }

  lemma AllRowsOkAfter(w: World, files: seq<File>, rows: seq<Row>, r: Row)
    requires AllRowsOk(w, files, rows) && RowOk(w, files, r)
    ensures AllRowsOk(w, files, AddRow(rows, r))
  {
    var more := AddRow(rows, r);
    forall i | 0 <= i < |more| ensures RowOk(w, files, more[i]) {
      AddRowMember(rows, r, more[i]);
    }
  }

  lemma {:induction false} RowsStayOk(w: World, commit: Commit, start: nat, db: Db, files: seq<File>, i: nat)
    requires Appends(w, Splitter.Split, commit) && i <= |files| && AllRowsOk(w, files, db.rows)
    requires ApplyFrom(w, commit, start, db, files, i).1.Done?
    ensures AllRowsOk(w, files, ApplyFrom(w, commit, start, db, files, i).0.rows)
    decreases |files| - i
  {
    if i < |files| {
      if files[i].version <= start {
        RowsStayOk(w, commit, start, db, files, i + 1);
      } else {
        var d := commit(db, files[i]).value;
        RecordedAfter(db.rows, RowOf(w, files[i]), files[i].version);
        forall j | i < j < |files| ensures files[j].version != files[i].version {
          if files[j].version == files[i].version { RecordsPending(w, commit, start, d, files, i + 1, j); }
        }
        ByVersionLast(files, i);
        AllRowsOkAfter(w, files, db.rows, RowOf(w, files[i]));
        RowsStayOk(w, commit, start, d, files, i + 1);
      }
    }
  }

  lemma {:induction false} SkipsAll(w: World, commit: Commit, start: nat, db: Db, files: seq<File>, i: nat)
    requires i <= |files| && forall j :: i <= j < |files| ==> files[j].version <= start
    ensures ApplyFrom(w, commit, start, db, files, i) == (db, Done(Records(w, db)))
    decreases |files| - i
  {
    if i < |files| { SkipsAll(w, commit, start, db, files, i + 1); }
  }

  /** Repeating a run that returned changes nothing and returns the same, whatever faults the second meets. */
  lemma RerunChangesNothing(w: World, fails: Faults, again: Faults, db: Db, files: seq<File>)
    requires Ascending(files) && (w.hasLog(db.schema) || db.rows == [])
    requires Apply(w, fails, db, files).1.Done?
    ensures Apply(w, again, Apply(w, fails, db, files).0, files) == Apply(w, fails, db, files)
  {
    var d, commit := Apply(w, fails, db, files).0, Committing(w, fails);
    CommittingAppends(w, fails);
    RowsStayOk(w, commit, db.userVersion, db, files, 0);
    CommittingMoves(w, fails);
    forall j | 0 <= j < |files| ensures files[j].version <= d.userVersion {
      VersionCovers(w, commit, db.userVersion, db, files, 0, j);
    }
    SkipsAll(w, Committing(w, again), d.userVersion, d, files, 0);
    DoneReturnsRecords(w, commit, db.userVersion, db, files, 0);
  }

  lemma {:induction false} DoneReturnsRecords(w: World, commit: Commit, start: nat, db: Db, files: seq<File>, i: nat)
    requires i <= |files| && ApplyFrom(w, commit, start, db, files, i).1.Done?
    ensures var (after, outcome) := ApplyFrom(w, commit, start, db, files, i);
      outcome.records == Records(w, after)
    decreases |files| - i
  {
    if i < |files| {
      if files[i].version <= start {
        DoneReturnsRecords(w, commit, start, db, files, i + 1);
      } else {
        DoneReturnsRecords(w, commit, start, commit(db, files[i]).value, files, i + 1);
      }
    }
  }
}
