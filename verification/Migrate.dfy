/**
  The migration runner: numbered SQL files, each applied in one transaction that also
  records the file and moves PRAGMA user_version.
 */
module Migrate {
  import opened Wrappers
  import Seqs
  import Splitter

  // ----- the migrations directory -----

  datatype Entry = Entry(name: string, text: string)

  datatype File = File(version: nat, name: string, text: string)

  predicate Digit(c: char) {
    '0' <= c <= '9'
  }

  /** name.split("_", 1)[0] */
  function Prefix(name: string): (r: string)
    ensures r <= name && '_' !in r
    ensures |r| < |name| ==> name[|r|] == '_'
  {
    if name == "" || name[0] == '_' then "" else [name[0]] + Prefix(name[1..])
  }

  function Value(digits: string): nat
    requires forall i :: 0 <= i < |digits| ==> Digit(digits[i])
  {
    if digits == "" then 0
    else
      assert Digit(digits[|digits| - 1]);
      10 * Value(digits[..|digits| - 1]) + (digits[|digits| - 1] as nat - '0' as nat)
  }

  predicate IsMigration(name: string) {
    && |name| >= 4 && name[|name| - 4..] == ".sql"
    && Prefix(name) != "" && forall i :: 0 <= i < |Prefix(name)| ==> Digit(Prefix(name)[i])
  }

  function AsFile(e: Entry): seq<File> {
    if IsMigration(e.name) then [File(Value(Prefix(e.name)), e.name, e.text)] else []
  }

  function Numbered(entries: seq<Entry>): seq<File> {
    if entries == [] then [] else AsFile(entries[0]) + Numbered(entries[1..])
  }

  function Order(): (File, File) -> bool {
    (a: File, b: File) => a.version <= b.version
  }

  function Discover(entries: seq<Entry>): seq<File> {
    Seqs.Sort(Order(), Numbered(entries))
  }

  predicate Ascending(files: seq<File>) {
    forall i, j :: 0 <= i < j < |files| ==> files[i].version <= files[j].version
  }

  /** Every version names one file. */
  predicate Distinct(files: seq<File>) {
    forall i, j :: 0 <= i < |files| && 0 <= j < |files| && files[i].version == files[j].version ==> files[i] == files[j]
  }

  lemma DiscoverSorts(entries: seq<Entry>)
    ensures Ascending(Discover(entries))
    ensures multiset(Discover(entries)) == multiset(Numbered(entries))
  {
    var order := Order();
    Seqs.SortSorts(order, Numbered(entries));
    Seqs.SortPermutes(order, Numbered(entries));
    var files := Discover(entries);
    forall i, j | 0 <= i < j < |files| ensures files[i].version <= files[j].version {
      assert order(files[i], files[j]);
    }
  }

  lemma NumberedCons(e: Entry, entries: seq<Entry>)
    ensures Numbered([e] + entries) == AsFile(e) + Numbered(entries)
  {
    assert ([e] + entries)[1..] == entries;
  }

  lemma {:induction false} NumberedSplit(a: seq<Entry>, b: seq<Entry>)
    ensures Numbered(a + b) == Numbered(a) + Numbered(b)
  {
    if a == [] {
      assert a + b == b;
    } else {
      var x, rest := a[0], a[1..];
      assert a == [x] + rest;
      Seqs.Regroup([x], rest, b);
      NumberedSplit(rest, b);
      NumberedCons(x, rest + b);
      Seqs.Regroup(AsFile(x), Numbered(rest), Numbered(b));
    }
  }

  lemma NumberedAround(a: seq<Entry>, x: Entry, b: seq<Entry>)
    ensures multiset(Numbered(a + [x] + b)) == multiset(Numbered([x])) + multiset(Numbered(a + b))
  {
    NumberedSplit(a, b);
    NumberedSplit(a + [x], b);
    NumberedSplit(a, [x]);
  }

  lemma {:induction false} NumberedPermutes(a: seq<Entry>, b: seq<Entry>)
    requires multiset(a) == multiset(b)
    ensures multiset(Numbered(a)) == multiset(Numbered(b))
  {
    Seqs.SameMembers(a, b);
    if a != [] {
      assert a[0] in b;
      var i :| 0 <= i < |b| && b[i] == a[0];
      Seqs.WithoutAt(a, 0);
      Seqs.WithoutAt(b, i);
      assert a[..0] + [a[0]] + a[1..] == a && a[..0] + a[1..] == a[1..];
      NumberedPermutes(a[1..], b[..i] + b[i + 1..]);
      NumberedAround(b[..i], a[0], b[i + 1..]);
      NumberedAround(a[..0], a[0], a[1..]);
    }
  }

  /** The order in which the directory lists its files makes no difference. */
  lemma DiscoverAnyListing(a: seq<Entry>, b: seq<Entry>)
    requires multiset(a) == multiset(b) && Distinct(Discover(a))
    ensures Discover(a) == Discover(b)
  {
    NumberedPermutes(a, b);
    Seqs.SortPermutes(Order(), Numbered(a));
    Seqs.SortPermutes(Order(), Numbered(b));
    Seqs.SortSorts(Order(), Numbered(a));
    Seqs.SortSorts(Order(), Numbered(b));
    Seqs.SortedUnique(Order(), Discover(a), Discover(b));
  }

  // ----- the database -----

  /** A schema_migrations row, without its timestamp. */
  datatype Row = Row(version: nat, filename: string, checksum: string)

  /**
    The schema is the history of the statements that were executed; `rows` is kept in the
    order of its primary key.
   */
  datatype Db = Db(schema: seq<string>, rows: seq<Row>, userVersion: nat)

  const EMPTY := Db([], [], 0)

  /** What SQLite and SHA-256 answer; `hasLog` says whether schema_migrations exists. */
  datatype World = World(
    accepts: (seq<string>, string) -> bool, hasLog: seq<string> -> bool, checksum: string -> string)

  /** Whether step `n` of a version fails in this run for an outside reason. */
  type Faults = (nat, nat) -> bool

  const NO_FAULTS: Faults := (v, n) => false

  datatype Outcome = Done(records: seq<Row>) | Mismatch(version: nat) | Failed(version: nat)

  function RowOf(w: World, f: File): Row {
    Row(f.version, f.name, w.checksum(f.text))
  }

  predicate Recorded(rows: seq<Row>, version: nat) {
    exists i :: 0 <= i < |rows| && rows[i].version == version
  }

  function AddRow(rows: seq<Row>, r: Row): seq<Row> {
    if rows == [] || r.version < rows[0].version then [r] + rows else [rows[0]] + AddRow(rows[1..], r)
  }

  /** dict(migrations)[version]: the last file of that version. */
  function ByVersion(files: seq<File>, version: nat): Option<File> {
    if files == [] then None
    else if files[|files| - 1].version == version then Some(files[|files| - 1])
    else ByVersion(files[..|files| - 1], version)
  }

  predicate RowOk(w: World, files: seq<File>, r: Row) {
    ByVersion(files, r.version).Some? && w.checksum(ByVersion(files, r.version).value.text) == r.checksum
  }

  function FirstDrift(w: World, files: seq<File>, rows: seq<Row>): (r: Option<nat>)
    ensures r.None? <==> forall i :: 0 <= i < |rows| ==> RowOk(w, files, rows[i])
  {
    if rows == [] then None
    else if !RowOk(w, files, rows[0]) then Some(rows[0].version)
    else
      assert forall i :: 1 <= i < |rows| ==> rows[i] == rows[1..][i - 1];
      FirstDrift(w, files, rows[1..])
  }

  function Verify(w: World, files: seq<File>, db: Db): Option<nat> {
    if w.hasLog(db.schema) then FirstDrift(w, files, db.rows) else None
  }

  function Records(w: World, db: Db): seq<Row> {
    if w.hasLog(db.schema) then db.rows else []
  }

  /** The statements from number `k` on. */
  function Execute(w: World, fails: Faults, version: nat, schema: seq<string>, statements: seq<string>, k: nat)
    : Option<seq<string>>
    requires k <= |statements|
    decreases |statements| - k
  {
    if k == |statements| then Some(schema)
    else if fails(version, k) || !w.accepts(schema, statements[k]) then None
    else Execute(w, fails, version, schema + [statements[k]], statements, k + 1)
  }

  /** One transaction: the statements, the record, the version, the commit. */
  function Transaction(w: World, fails: Faults, db: Db, f: File): Option<Db> {
    var statements := Splitter.Split(f.text);
    var run := Execute(w, fails, f.version, db.schema, statements, 0);
    if run.None? then None
    else if fails(f.version, |statements|) || !w.hasLog(run.value) || Recorded(db.rows, f.version) then None
    else if fails(f.version, |statements| + 1) || fails(f.version, |statements| + 2) then None
    else Some(Db(run.value, AddRow(db.rows, RowOf(w, f)), f.version))
  }

  /** What committing a file to a database gives, if it commits. */
  type Commit = (Db, File) -> Option<Db>

  function Committing(w: World, fails: Faults): Commit {
    (d, f) => Transaction(w, fails, d, f)
  }

  /** The files from number `i` on; `start` is the version read before the loop. */
  function ApplyFrom(w: World, commit: Commit, start: nat, db: Db, files: seq<File>, i: nat): (Db, Outcome)
    requires i <= |files|
    decreases |files| - i
  {
    if i == |files| then (db, Done(Records(w, db)))
    else if files[i].version <= start then ApplyFrom(w, commit, start, db, files, i + 1)
    else
      var d := commit(db, files[i]);
      if d.None? then (db, Failed(files[i].version)) else ApplyFrom(w, commit, start, d.value, files, i + 1)
  }

  function Apply(w: World, fails: Faults, db: Db, files: seq<File>): (Db, Outcome) {
    var drift := Verify(w, files, db);
    if drift.Some? then (db, Mismatch(drift.value))
    else ApplyFrom(w, Committing(w, fails), db.userVersion, db, files, 0)
  }

  class Connection {
    var schema: seq<string>
    var rows: seq<Row>
    var userVersion: nat

    function State(): Db
      reads this
    {
      Db(schema, rows, userVersion)
    }

    /** BEGIN, the statements one by one, the record, the version, and COMMIT or ROLLBACK. */
    method ApplyOne(w: World, fails: Faults, f: File) returns (ok: bool)
      modifies this
      ensures ok == Transaction(w, fails, old(State()), f).Some?
      ensures State() == if ok then Transaction(w, fails, old(State()), f).value else old(State())
    {
      var before := State();
      var statements := Splitter.SplitStatements(f.text);
      var k := 0;
      ok := true;
      while ok && k < |statements|
        invariant 0 <= k <= |statements| && rows == before.rows && userVersion == before.userVersion
        invariant Execute(w, fails, f.version, before.schema, statements, 0)
               == if ok then Execute(w, fails, f.version, schema, statements, k) else None
      {
        if fails(f.version, k) || !w.accepts(schema, statements[k]) {
          ok := false;
        } else {
          schema := schema + [statements[k]];
          k := k + 1;
        }
      }
      if ok {
        ok := !fails(f.version, k) && w.hasLog(schema) && !Recorded(rows, f.version);
      }
      if ok {
        rows := AddRow(rows, RowOf(w, f));
        ok := !fails(f.version, k + 1);
      }
      if ok {
        userVersion := f.version;
        ok := !fails(f.version, k + 2);
      }
      if !ok {
        schema, rows, userVersion := before.schema, before.rows, before.userVersion;
      }
    }

    method ApplyPending(w: World, fails: Faults, entries: seq<Entry>) returns (outcome: Outcome)
      modifies this
      ensures (State(), outcome) == Apply(w, fails, old(State()), Discover(entries))
    {
      var files := Discover(entries);
      var drift := Verify(w, files, State());
      if drift.Some? {
        return Mismatch(drift.value);
      }
      var start := userVersion;
      ghost var commit := Committing(w, fails);
      ghost var goal := ApplyFrom(w, commit, start, State(), files, 0);
      var i := 0;
      while i < |files|
        invariant 0 <= i <= |files|
        invariant ApplyFrom(w, commit, start, State(), files, i) == goal
      {
        if files[i].version > start {
          var ok := ApplyOne(w, fails, files[i]);
          if !ok {
            return Failed(files[i].version);
          }
        }
        i := i + 1;
      }
      outcome := Done(Records(w, State()));
    }
  }
}
