/** What a migration run gets done: which files it applies, where it stops, and when it refuses to start. */
module MigrationProgress {
  import opened Wrappers
  import opened Migrate
  import opened MigrationRuns
  import Splitter

  // ----- when a file commits -----

  /** Statement `k` runs on what the schema and the statements before it make. */
  predicate StatementRuns(w: World, fails: Faults, version: nat, schema: seq<string>, st: seq<string>, k: nat)
    requires k < |st|
  {
    !fails(version, k) && w.accepts(schema + st[..k], st[k])
  }

  /** Every statement of the file runs, and so do its record, its version and the commit. */
  ghost predicate Accepted(w: World, fails: Faults, db: Db, f: File) {
    var st := Splitter.Split(f.text);
    && (forall k :: 0 <= k < |st| ==> StatementRuns(w, fails, f.version, db.schema, st, k))
    && (forall step :: |st| <= step <= |st| + 2 ==> !fails(f.version, step))
    && w.hasLog(db.schema + st)
    && (forall i :: 0 <= i < |db.rows| ==> db.rows[i].version != f.version)
  }

  lemma {:induction false} ExecuteIff(w: World, fails: Faults, v: nat, schema: seq<string>, st: seq<string>, k: nat)
    requires k <= |st|
    ensures Execute(w, fails, v, schema + st[..k], st, k).Some? <==>
            forall j :: k <= j < |st| ==> StatementRuns(w, fails, v, schema, st, j)
    decreases |st| - k
  {
    if k < |st| {
      assert schema + st[..k] + [st[k]] == schema + st[..k + 1];
      ExecuteIff(w, fails, v, schema, st, k + 1);
      assert StatementRuns(w, fails, v, schema, st, k) <==>
             !fails(v, k) && w.accepts(schema + st[..k], st[k]);
    }
  }

  /** A file commits if and only if all its steps succeed on the database as it is. */
  lemma CommitsIff(w: World, fails: Faults, db: Db, f: File)
    ensures Transaction(w, fails, db, f).Some? <==> Accepted(w, fails, db, f)
  {
    var st := Splitter.Split(f.text);
    assert db.schema + st[..0] == db.schema;
    ExecuteIff(w, fails, f.version, db.schema, st, 0);
    if Execute(w, fails, f.version, db.schema, st, 0).Some? {
      ExecuteAppends(w, fails, f.version, db.schema, st, 0);
    }
  }

  // ----- how far a run gets -----

  lemma PassesIff(w: World, fails: Faults, files: seq<File>, j: nat)
    requires Strict(files) && j < |files| && Chain(Clean(w), files, j).Some?
    ensures Passes(Committing(w, fails), Clean(w), files, j) <==>
            Accepted(w, fails, Built(w, Splitter.Split, files[..j]), files[j])
  {
    CommittingAppends(w, NO_FAULTS);
    ChainShape(w, Splitter.Split, Clean(w), files, j, Chain(Clean(w), files, j).value);
    CommitsIff(w, fails, Built(w, Splitter.Split, files[..j]), files[j]);
  }

  /**
    A run goes on from the files that the runs before it applied: it applies every next file whose steps
    succeed, and stops at the first one with a step that fails.
   */
  lemma RunProgress(w: World, attempts: seq<Attempt>) returns (before: nat, k: nat)
    requires attempts != [] && Growing(attempts)
    ensures var n := |attempts| - 1;
      var files, fails := attempts[n].files, attempts[n].fails;
      && before <= k <= |files|
      && Runs(w, EMPTY, attempts[..n]) == Built(w, Splitter.Split, files[..before])
      && Runs(w, EMPTY, attempts) == Built(w, Splitter.Split, files[..k])
      && (forall j :: before <= j < k ==> Accepted(w, fails, Built(w, Splitter.Split, files[..j]), files[j]))
      && (k < |files| ==> !Accepted(w, fails, Built(w, Splitter.Split, files[..k]), files[k]))
      && LastOutcome(w, EMPTY, attempts) == if k == |files| then Done(RowsOf(w, files)) else Failed(files[k].version)
  {
    before, k := AlwaysClean(w, attempts);
    var n := |attempts| - 1;
    var files, fails := attempts[n].files, attempts[n].fails;
    CommittingAppends(w, NO_FAULTS);
    ChainShape(w, Splitter.Split, Clean(w), files, before, Runs(w, EMPTY, attempts[..n]));
    ChainShape(w, Splitter.Split, Clean(w), files, k, Runs(w, EMPTY, attempts));
    assert files[..|files|] == files;
    forall j | before <= j < k ensures Accepted(w, fails, Built(w, Splitter.Split, files[..j]), files[j]) {
      assert Passes(Committing(w, fails), Clean(w), files, j);
      PassesIff(w, fails, files, j);
    }
    if k < |files| { PassesIff(w, fails, files, k); }
  }

  ghost predicate Faultless(fails: Faults) {
    forall v: nat, step: nat :: !fails(v, step)
  }

  /** Every statement of every file is accepted in its turn. */
  ghost predicate AllAccepted(w: World, files: seq<File>) {
    forall j :: 0 <= j < |files| ==> Accepted(w, NO_FAULTS, Built(w, Splitter.Split, files[..j]), files[j])
  }

  lemma AppliedWasAccepted(w: World, files: seq<File>, k: nat, j: nat, db: Db)
    requires Strict(files) && At(Clean(w), files, k, db) && j < k
    ensures Accepted(w, NO_FAULTS, Built(w, Splitter.Split, files[..j]), files[j])
  {
    ChainDefined(Clean(w), files, j + 1, k);
    PassedOn(Clean(w), files, j);
    PassesIff(w, NO_FAULTS, files, j);
  }

  lemma PassedOn(clean: Commit, files: seq<File>, j: nat)
    requires j < |files| && Chain(clean, files, j + 1).Some?
    ensures Passes(clean, clean, files, j)
  {
  }

  /** A run that reached the end has had all its files accepted at some time. */
  lemma AllWereAccepted(w: World, files: seq<File>, db: Db)
    requires Strict(files) && At(Clean(w), files, |files|, db)
    ensures AllAccepted(w, files)
  {
    forall j | 0 <= j < |files| ensures Accepted(w, NO_FAULTS, Built(w, Splitter.Split, files[..j]), files[j]) {
      AppliedWasAccepted(w, files, |files|, j, db);
    }
  }

  /** As soon as a run meets no fault, it returns if and only if the files' own statements are accepted. */
  lemma ReturnsOnceFaultsStop(w: World, attempts: seq<Attempt>)
    requires attempts != [] && Growing(attempts)
    requires Faultless(attempts[|attempts| - 1].fails)
    ensures var files := attempts[|attempts| - 1].files;
      && (LastOutcome(w, EMPTY, attempts).Done? <==> AllAccepted(w, files))
      && (AllAccepted(w, files) ==>
            && Runs(w, EMPTY, attempts) == Built(w, Splitter.Split, files)
            && LastOutcome(w, EMPTY, attempts) == Done(RowsOf(w, files)))
  {
    var before, k := RunProgress(w, attempts);
    var files, fails := attempts[|attempts| - 1].files, attempts[|attempts| - 1].fails;
    assert files[..|files|] == files;
    if k == |files| {
      var _, reached := AlwaysClean(w, attempts);
      AllWereAccepted(w, files, Runs(w, EMPTY, attempts));
    } else {
      SameWithoutFaults(w, fails, Built(w, Splitter.Split, files[..k]), files[k]);
    }
  }

  lemma SameWithoutFaults(w: World, fails: Faults, db: Db, f: File)
    requires Faultless(fails)
    ensures Accepted(w, fails, db, f) <==> Accepted(w, NO_FAULTS, db, f)
  {
    var st := Splitter.Split(f.text);
    forall k | 0 <= k < |st|
      ensures StatementRuns(w, fails, f.version, db.schema, st, k)
         <==> StatementRuns(w, NO_FAULTS, f.version, db.schema, st, k)
    {
    }
  }

  // ----- when a run refuses to start -----

  /** The last file of the row's version has the row's checksum. */
  predicate HasItsFile(w: World, files: seq<File>, r: Row) {
    exists j :: 0 <= j < |files| && files[j].version == r.version && w.checksum(files[j].text) == r.checksum
                && forall m :: j < m < |files| ==> files[m].version != r.version
  }

  lemma {:induction false} ByVersionIff(files: seq<File>, version: nat, f: File)
    ensures ByVersion(files, version) == Some(f) <==>
            exists j :: 0 <= j < |files| && files[j] == f && f.version == version
                        && forall m :: j < m < |files| ==> files[m].version != version
  {
    if files != [] {
      var init, last := files[..|files| - 1], files[|files| - 1];
      if last.version == version {
        assert files[|init|] == last;
      } else {
        ByVersionIff(init, version, f);
        if j :| 0 <= j < |init| && init[j] == f && f.version == version
                && forall m :: j < m < |init| ==> init[m].version != version {
          assert files[j] == f && forall m :: j < m < |files| ==> files[m] == if m == |init| then last else init[m];
        }
        if j :| 0 <= j < |files| && files[j] == f && f.version == version
                && forall m :: j < m < |files| ==> files[m].version != version {
          assert init[j] == f && forall m :: j < m < |init| ==> init[m] == files[m];
        }
      }
    }
  }

  lemma RowOkIff(w: World, files: seq<File>, r: Row)
    ensures RowOk(w, files, r) <==> HasItsFile(w, files, r)
  {
    if ByVersion(files, r.version).Some? { ByVersionIff(files, r.version, ByVersion(files, r.version).value); }
    if j :| 0 <= j < |files| && files[j].version == r.version && w.checksum(files[j].text) == r.checksum
            && forall m :: j < m < |files| ==> files[m].version != r.version {
      ByVersionIff(files, r.version, files[j]);
    }
  }

  lemma {:induction false} NeverMismatches(w: World, commit: Commit, start: nat, db: Db, files: seq<File>, i: nat)
    requires i <= |files|
    ensures !ApplyFrom(w, commit, start, db, files, i).1.Mismatch?
    decreases |files| - i
  {
    if i < |files| {
      if files[i].version <= start {
        NeverMismatches(w, commit, start, db, files, i + 1);
      } else if commit(db, files[i]).Some? {
        NeverMismatches(w, commit, start, commit(db, files[i]).value, files, i + 1);
      }
    }
  }

  /** The first row without its file. */
  ghost predicate FirstWithout(w: World, files: seq<File>, rows: seq<Row>, i: nat) {
    && i < |rows| && !HasItsFile(w, files, rows[i])
    && forall j :: 0 <= j < i ==> HasItsFile(w, files, rows[j])
  }

  lemma {:induction false} FirstDriftIsFirst(w: World, files: seq<File>, rows: seq<Row>) returns (i: nat)
    requires FirstDrift(w, files, rows).Some?
    ensures FirstWithout(w, files, rows, i) && FirstDrift(w, files, rows) == Some(rows[i].version)
  {
    RowOkIff(w, files, rows[0]);
    if RowOk(w, files, rows[0]) {
      var later := FirstDriftIsFirst(w, files, rows[1..]);
      i := later + 1;
      assert forall j :: 1 <= j <= i ==> rows[j] == rows[1..][j - 1];
    } else {
      i := 0;
    }
  }

  /** A run refuses to start, and changes nothing, if and only if a recorded file has changed or is gone. */
  lemma DriftStops(w: World, fails: Faults, db: Db, files: seq<File>)
    ensures var (after, outcome) := Apply(w, fails, db, files);
      && (outcome.Mismatch? <==>
            w.hasLog(db.schema) && exists i :: 0 <= i < |db.rows| && !HasItsFile(w, files, db.rows[i]))
      && (outcome.Mismatch? ==>
            after == db
            && exists i: nat :: FirstWithout(w, files, db.rows, i) && outcome.version == db.rows[i].version)
  {
    forall i | 0 <= i < |db.rows| ensures RowOk(w, files, db.rows[i]) <==> HasItsFile(w, files, db.rows[i]) {
      RowOkIff(w, files, db.rows[i]);
    }
    if Verify(w, files, db).Some? {
      var i := FirstDriftIsFirst(w, files, db.rows);
    } else {
      NeverMismatches(w, Committing(w, fails), db.userVersion, db, files, 0);
    }
  }

  // ----- which files count, and under which number -----

  predicate Digits(s: string) {
    forall i :: 0 <= i < |s| ==> Digit(s[i])
  }

  /** A number in decimal, without leading zeros; nothing for zero. */
  function Decimal(n: nat): (s: string)
    ensures Digits(s)
  {
    if n == 0 then "" else Decimal(n / 10) + [('0' as nat + n % 10) as char]
  }

  /** The version of a file is the number that its digits write, whatever the leading zeros. */
  lemma {:induction false} ValueOfDecimal(zeros: nat, n: nat)
    ensures Digits(Zeros(zeros) + Decimal(n)) && Value(Zeros(zeros) + Decimal(n)) == n
  {
    var s := Zeros(zeros) + Decimal(n);
    if n > 0 {
      ValueOfDecimal(zeros, n / 10);
      assert s[..|s| - 1] == Zeros(zeros) + Decimal(n / 10);
    } else if zeros > 0 {
      ValueOfDecimal(zeros - 1, 0);
      assert s[..|s| - 1] == Zeros(zeros - 1) + Decimal(0);
    }
  }

  function Zeros(n: nat): (s: string)
    ensures Digits(s) && |s| == n
  {
    if n == 0 then "" else Zeros(n - 1) + "0"
  }

  lemma {:induction false} PrefixIs(digits: string, rest: string)
    requires '_' !in digits
    ensures Prefix(digits + "_" + rest) == digits
  {
    if digits != "" {
      assert (digits + "_" + rest)[1..] == digits[1..] + "_" + rest;
      PrefixIs(digits[1..], rest);
    }
  }

  /** A name counts if and only if it is a number, an underscore, anything, and ".sql". */
  lemma MigrationNameIff(name: string)
    ensures IsMigration(name) <==>
            exists digits, rest :: digits != "" && Digits(digits) && name == digits + "_" + rest + ".sql"
  {
    if IsMigration(name) {
      var digits := Prefix(name);
      SqlTail(name);
      PrefixStops(name);
      assert |digits| < |name| - 4 by { assert |digits| > |name| - 4 ==> Digit(digits[|name| - 4]); }
      var rest := name[|digits| + 1..|name| - 4];
      assert name == digits + "_" + rest + ".sql";
    }
    if digits, rest :| digits != "" && Digits(digits) && name == digits + "_" + rest + ".sql" {
      assert '_' !in digits;
      assert name == digits + "_" + (rest + ".sql");
      PrefixIs(digits, rest + ".sql");
    }
  }

  lemma SqlTail(name: string)
    requires |name| >= 4 && name[|name| - 4..] == ".sql"
    ensures name[|name| - 4] == '.' && name[|name| - 3] == 's' && name[|name| - 2] == 'q' && name[|name| - 1] == 'l'
  {
    var tail := name[|name| - 4..];
    assert tail[0] == '.' && tail[1] == 's' && tail[2] == 'q' && tail[3] == 'l';
  }

  /** A name that ends in letters is longer than its number. */
  lemma PrefixStops(name: string)
    requires IsMigration(name)
    ensures |Prefix(name)| < |name|
  {
    SqlTail(name);
    assert !Digit('l') && Prefix(name) <= name;
  }

  lemma NumberNotEmpty(zeros: nat, n: nat)
    requires zeros > 0 || n > 0
    ensures Zeros(zeros) + Decimal(n) != "" && '_' !in Zeros(zeros) + Decimal(n)
  {
    var digits := Zeros(zeros) + Decimal(n);
    assert forall i :: 0 <= i < |digits| ==> Digit(digits[i]);
  }

  /** Such a name is listed under its number. */
  lemma ListedUnderItsNumber(zeros: nat, n: nat, rest: string, text: string)
    requires zeros > 0 || n > 0
    ensures var name := Zeros(zeros) + Decimal(n) + "_" + rest + ".sql";
      Numbered([Entry(name, text)]) == [File(n, name, text)]
  {
    var digits := Zeros(zeros) + Decimal(n);
    var name := digits + "_" + rest + ".sql";
    ValueOfDecimal(zeros, n);
    NumberNotEmpty(zeros, n);
    MigrationNameIff(name);
    assert name == digits + "_" + (rest + ".sql");
    PrefixIs(digits, rest + ".sql");
    OneFile(Entry(name, text), n);
  }

  lemma OneFile(e: Entry, n: nat)
    requires IsMigration(e.name) && Value(Prefix(e.name)) == n
    ensures Numbered([e]) == [File(n, e.name, e.text)]
  {
    assert [e][1..] == [];
  }

  // ----- the order of the records -----

  predicate InOrder(rows: seq<Row>) {
    forall i, j :: 0 <= i < j < |rows| ==> rows[i].version <= rows[j].version
  }

  /** A commit keeps the records in the order of their versions. */
  lemma {:induction false} AddRowInOrder(rows: seq<Row>, r: Row)
    requires InOrder(rows)
    ensures InOrder(AddRow(rows, r)) && multiset(AddRow(rows, r)) == multiset(rows) + multiset{r}
  {
    AddRowContents(rows, r);
    if rows != [] && r.version >= rows[0].version {
      AddRowInOrder(rows[1..], r);
      var more := AddRow(rows[1..], r);
      forall j | 0 <= j < |more| ensures more[j].version >= rows[0].version {
        AddRowMember(rows[1..], r, more[j]);
        assert more[j] in more;
      }
    }
  }
}
