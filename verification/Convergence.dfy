/**
  What one reconciliation sweep guarantees: when the table it leaves has nothing to
  repair, its work as a closed form of the table it found, and which of that can
  depend on the order of the walk, on the order of the second phase or on which row
  the database offers for a move.
 */
module Convergence {
  import opened Wrappers
  import opened Ingest
  import opened Reconcile
  import Seqs

  // ----- which rows with a file show a hash, before and after the second phase -----

  /** A row with hash `h` is on disk all through the second phase. */
  ghost predicate Held(v: Vault, W: set<Path>, t0: Table, h: Hash) {
    || (exists p :: p in W && Clean(v, p) && v.files[p].hash == h && !TombstoneAt(t0, p))
    || (exists j :: Active(t0, j) && t0[j].path in v.files && t0[j].hash == h
                    && (Clean(v, t0[j].path) ==> t0[j].path !in W && v.files[t0[j].path].hash == h))
  }

  /** The second phase takes hash `h` from row `j`, whose file the walk does not list. */
  ghost predicate Leaver(v: Vault, W: set<Path>, t0: Table, j: nat, h: Hash) {
    && Active(t0, j) && t0[j].path !in W && Clean(v, t0[j].path)
    && t0[j].hash == h && v.files[t0[j].path].hash != h
  }

  /** The second phase gives hash `h` to row `j`, whose file the walk does not list. */
  ghost predicate Comer(v: Vault, W: set<Path>, t0: Table, j: nat, h: Hash) {
    && Active(t0, j) && t0[j].path !in W && Clean(v, t0[j].path)
    && t0[j].hash != h && v.files[t0[j].path].hash == h
  }

  lemma RowOnDisk(v: Vault, W: set<Path>, t0: Table, s: Table, j: nat)
    requires Phase1(v, t0, W, s) && j in t0 && t0[j].path in v.files && !(t0[j].path in W && Clean(v, t0[j].path))
    ensures j in s && s[j] == t0[j]
  {
    assert Kept(v, t0, W, t0[j], s[j]);
  }

  lemma WalkedRow(v: Vault, W: set<Path>, t0: Table, s: Table, j: nat)
    requires UniquePaths(t0) && Phase1(v, t0, W, s) && j in s && s[j].path in W && Clean(v, s[j].path)
    ensures s[j] == Note(s[j].path, v.files[s[j].path].hash, TombstoneAt(t0, s[j].path))
  {
    var p := s[j].path;
    if j in t0 {
      assert Kept(v, t0, W, t0[j], s[j]);
    } else {
      assert p in NewPaths(v, t0, W, s[j].hash);
    }
  }

  lemma HeldIsTwin(v: Vault, W: set<Path>, t0: Table, s: Table, done: seq<Path>, i: nat)
    requires UniquePaths(t0) && Phase1(v, t0, W, s) && Listed(done) !! W && Lost(v, s, i)
    requires Held(v, W, t0, s[i].hash)
    ensures TwinAfter(v, s, done, i)
  {
    var h := s[i].hash;
    if p :| p in W && Clean(v, p) && v.files[p].hash == h && !TombstoneAt(t0, p) {
      var j :| j in s && s[j].path == p;
      WalkedRow(v, W, t0, s, j);
      assert p !in Listed(done);
      assert HashAfter(v, s, done, j) == h;
    } else {
      var j :| Active(t0, j) && t0[j].path in v.files && t0[j].hash == h
               && (Clean(v, t0[j].path) ==> t0[j].path !in W && v.files[t0[j].path].hash == h);
      RowOnDisk(v, W, t0, s, j);
      assert HashAfter(v, s, done, j) == h;
    }
  }

  /** Row `i` has a twin after the jobs `done`: it is held, or not all leavers have left, or a comer has come. */
  lemma TwinAfterIff(v: Vault, W: set<Path>, t0: Table, s: Table, done: seq<Path>, i: nat)
    requires UniquePaths(t0) && Phase1(v, t0, W, s) && Listed(done) !! W && Lost(v, s, i)
    ensures TwinAfter(v, s, done, i) <==>
              || Held(v, W, t0, s[i].hash)
              || (exists j :: Leaver(v, W, t0, j, s[i].hash) && t0[j].path !in done)
              || (exists j :: Comer(v, W, t0, j, s[i].hash) && t0[j].path in done)
  {
    var h := s[i].hash;
    if Held(v, W, t0, h) { HeldIsTwin(v, W, t0, s, done, i); }
    if j :| Leaver(v, W, t0, j, h) && t0[j].path !in done {
      RowOnDisk(v, W, t0, s, j);
      assert HashAfter(v, s, done, j) == h;
    }
    if j :| Comer(v, W, t0, j, h) && t0[j].path in done {
      RowOnDisk(v, W, t0, s, j);
      assert HashAfter(v, s, done, j) == h;
    }
    if j :| Active(s, j) && j != i && s[j].path in v.files && HashAfter(v, s, done, j) == h {
      TwinReason(v, W, t0, s, done, j);
    }
  }

  lemma TwinReason(v: Vault, W: set<Path>, t0: Table, s: Table, done: seq<Path>, j: nat)
    requires UniquePaths(t0) && Phase1(v, t0, W, s) && Listed(done) !! W && Active(s, j) && s[j].path in v.files
    ensures var h := HashAfter(v, s, done, j);
      || Held(v, W, t0, h)
      || (Leaver(v, W, t0, j, h) && t0[j].path !in done)
      || (Comer(v, W, t0, j, h) && t0[j].path in done)
  {
    var p := s[j].path;
    if p in W && Clean(v, p) {
      WalkedRow(v, W, t0, s, j);
      assert p !in Listed(done);
    } else if p in W {
      assert j !in t0 ==> p in NewPaths(v, t0, W, s[j].hash);
      assert Kept(v, t0, W, t0[j], s[j]);
    } else {
      UnwalkedRow(v, t0, W, s, j);
    }
  }

  // ----- what the sweep leaves behind -----

  /** A clean walked file ends with the row of its hash, as a tombstone exactly if it started as one. */
  lemma OnDiskView(v: Vault, W: set<Path>, t0: Table, s: Table, order: seq<Path>, t1: Table, p: Path)
    requires UniquePaths(t0) && Swept(v, W, t0, s, order, t1) && p in W && Clean(v, p)
    ensures !NoRowAt(t1, p)
    ensures forall i :: i in t1 && t1[i].path == p ==> t1[i] == s[i] == Note(p, v.files[p].hash, TombstoneAt(t0, p))
  {
    forall i | i in t1 && t1[i].path == p
      ensures t1[i] == s[i] == Note(p, v.files[p].hash, TombstoneAt(t0, p))
    {
      assert t1[i] == After(v, s, order, i);
      assert p !in Listed(order);
      WalkedRow(v, W, t0, s, i);
    }
    var i :| i in s && s[i].path == p;
    assert t1[i].path == p;
  }

  /** A clean file that the walk does not list has its active row refreshed in place; a tombstone stays as it is. */
  lemma UnwalkedView(v: Vault, W: set<Path>, t0: Table, s: Table, order: seq<Path>, t1: Table, i: nat)
    requires UniquePaths(t0) && Swept(v, W, t0, s, order, t1) && i in t0
    requires t0[i].path !in W && Clean(v, t0[i].path)
    ensures i in t1 && t1[i] == if t0[i].deleted then t0[i] else t0[i].(hash := v.files[t0[i].path].hash)
  {
    RowOnDisk(v, W, t0, s, i);
    assert t1[i] == After(v, s, order, i);
    assert !t0[i].deleted ==> t0[i].path in Listed(order);
  }

  /** Files that cannot be ingested leave their rows alone. */
  lemma UncleanRowsUntouched(v: Vault, W: set<Path>, t0: Table, s: Table, order: seq<Path>, t1: Table, i: nat)
    requires Swept(v, W, t0, s, order, t1) && i in t0
    requires t0[i].path in v.files && !Clean(v, t0[i].path)
    ensures i in t1 && t1[i] == t0[i]
  {
    RowOnDisk(v, W, t0, s, i);
    assert t1[i] == After(v, s, order, i);
  }

  /** A clean walked file has a row with its hash after the sweep, buried exactly if it was before. */
  ghost predicate OnDiskAfter(v: Vault, t0: Table, t1: Table, p: Path)
    requires Clean(v, p)
  {
    && !NoRowAt(t1, p) && (TombstoneAt(t1, p) <==> TombstoneAt(t0, p))
    && forall i :: i in t1 && t1[i].path == p ==> t1[i].hash == v.files[p].hash
  }

  lemma OnDiskSettles(v: Vault, W: set<Path>, t0: Table, s: Table, order: seq<Path>, t1: Table, p: Path)
    requires UniquePaths(t0) && Swept(v, W, t0, s, order, t1) && p in W && Clean(v, p)
    ensures OnDiskAfter(v, t0, t1, p)
  {
    OnDiskView(v, W, t0, s, order, t1, p);
    var i :| i in t1 && t1[i].path == p;
  }

  /** A row that lost its file and whose hash is not held is still there for the second phase. */
  lemma LostStays(v: Vault, W: set<Path>, t0: Table, s: Table, i: nat)
    requires UniquePaths(t0) && Phase1(v, t0, W, s) && Lost(v, t0, i) && !Held(v, W, t0, t0[i].hash)
    ensures i in s && s[i] == t0[i] && Lost(v, s, i)
  {
    assert Kept(v, t0, W, t0[i], s[i]);
    if p :| p in NewPaths(v, t0, W, t0[i].hash) { assert false; }
  }

  /** The jobs of all leavers of hash `h` come before the job at `p`, and those of its comers do not. */
  ghost predicate Bare(v: Vault, W: set<Path>, t0: Table, order: seq<Path>, h: Hash, p: Path) {
    && (forall j :: Leaver(v, W, t0, j, h) ==> Seqs.Before(order, t0[j].path, p))
    && (forall j :: Comer(v, W, t0, j, h) ==> !Seqs.Before(order, t0[j].path, p))
  }

  lemma BeforeAt(order: seq<Path>, k: nat, q: Path)
    requires Distinct(order) && k < |order|
    ensures Seqs.Before(order, q, order[k]) <==> q in order[..k]
  {
    if q in order[..k] {
      var m :| 0 <= m < k && order[m] == q;
      assert Seqs.Before(order, q, order[k]);
    }
  }

  /** A row that lost its file is tombstoned exactly if its hash is not held and bare at its turn. */
  lemma DoomedIff(v: Vault, W: set<Path>, t0: Table, s: Table, order: seq<Path>, i: nat)
    requires UniquePaths(t0) && Phase1(v, t0, W, s) && Enumerates(order, ActivePaths(s) - W) && Lost(v, s, i)
    ensures Doomed(v, s, order, i) <==> !Held(v, W, t0, s[i].hash) && Bare(v, W, t0, order, s[i].hash, s[i].path)
  {
    var h, p := s[i].hash, s[i].path;
    assert p in Listed(order);
    var k :| 0 <= k < |order| && order[k] == p;
    assert Doomed(v, s, order, i) <==> !TwinAfter(v, s, order[..k], i);
    forall q ensures Seqs.Before(order, q, p) <==> q in order[..k] { BeforeAt(order, k, q); }
    forall q | q in order[..k] ensures q !in W { assert q in Listed(order); }
    TwinAfterIff(v, W, t0, s, order[..k], i);
  }

  /** Which vanished rows a sweep tombstones, for any state of the table and any order of the second phase. */
  lemma DeletedIff(v: Vault, W: set<Path>, t0: Table, s: Table, order: seq<Path>, t1: Table, i: nat, h: Hash)
    requires UniquePaths(t0) && Swept(v, W, t0, s, order, t1)
    ensures i in DeletedRows(t0, t1, h) <==>
            Lost(v, t0, i) && t0[i].hash == h && !Held(v, W, t0, h) && Bare(v, W, t0, order, h, t0[i].path)
  {
    if i in DeletedRows(t0, t1, h) {
      assert t1[i] == After(v, s, order, i);
      assert Kept(v, t0, W, t0[i], s[i]);
      UnwalkedRow(v, t0, W, s, i);
      DoomedIff(v, W, t0, s, order, i);
    }
    if Lost(v, t0, i) && t0[i].hash == h && !Held(v, W, t0, h) && Bare(v, W, t0, order, h, t0[i].path) {
      LostStays(v, W, t0, s, i);
      DoomedIff(v, W, t0, s, order, i);
      assert t1[i] == After(v, s, order, i);
    }
  }

  /** When the sweep ends, an active row on disk shows hash `h`. */
  ghost predicate HeldAtEnd(v: Vault, W: set<Path>, t0: Table, h: Hash) {
    Held(v, W, t0, h) || exists j :: Comer(v, W, t0, j, h)
  }

  /** A row that is still active without its file has a twin exactly if its hash is held at the end. */
  lemma TwinAtEnd(v: Vault, W: set<Path>, t0: Table, s: Table, order: seq<Path>, t1: Table, i: nat)
    requires UniquePaths(t0) && Swept(v, W, t0, s, order, t1) && Lost(v, t1, i)
    ensures Lost(v, s, i) && s[i] == t1[i]
    ensures HasTwin(v, t1, i) <==> HeldAtEnd(v, W, t0, t1[i].hash)
  {
    assert t1[i] == After(v, s, order, i);
    assert Lost(v, s, i);
    TwinsDuring(v, s, order, t1, i);
    TwinAfterIff(v, W, t0, s, order, i);
    forall j, h | Leaver(v, W, t0, j, h) || Comer(v, W, t0, j, h) ensures t0[j].path in order {
      RowOnDisk(v, W, t0, s, j);
      assert t0[j].path in Listed(order);
    }
  }

  /** The vanished rows of hash `h` have only twins on disk that the second phase refreshes away. */
  ghost predicate AtRisk(v: Vault, W: set<Path>, t0: Table, h: Hash) {
    && !HeldAtEnd(v, W, t0, h)
    && (exists i :: Lost(v, t0, i) && t0[i].hash == h) && (exists j :: Leaver(v, W, t0, j, h))
  }

  /** Every vanished row at risk has its turn after all the twins that are refreshed away. */
  ghost predicate LateEnough(v: Vault, W: set<Path>, t0: Table, order: seq<Path>) {
    forall i, j :: Lost(v, t0, i) && AtRisk(v, W, t0, t0[i].hash) && Leaver(v, W, t0, j, t0[i].hash) ==>
      Seqs.Before(order, t0[j].path, t0[i].path)
  }

  lemma WalkedSettled(v: Vault, W: set<Path>, t0: Table, s: Table, order: seq<Path>, t1: Table)
    requires UniquePaths(t0) && Swept(v, W, t0, s, order, t1)
    ensures forall p :: p in W && Clean(v, p) ==> OnDiskAfter(v, t0, t1, p)
  {
    forall p | p in W && Clean(v, p) ensures OnDiskAfter(v, t0, t1, p) {
      OnDiskSettles(v, W, t0, s, order, t1, p);
    }
  }

  lemma BuriedStay(v: Vault, W: set<Path>, t0: Table, t1: Table)
    requires forall p :: p in W && Clean(v, p) ==> OnDiskAfter(v, t0, t1, p)
    ensures BuriedPaths(v, t1, W) == BuriedPaths(v, t0, W)
  {
    forall p | p in W && Clean(v, p) ensures TombstoneAt(t1, p) <==> TombstoneAt(t0, p) {
      assert OnDiskAfter(v, t0, t1, p);
    }
  }

  lemma ActiveSettled(v: Vault, W: set<Path>, t0: Table, s: Table, order: seq<Path>, t1: Table, i: nat)
    requires UniquePaths(t0) && Swept(v, W, t0, s, order, t1)
    requires Active(t1, i) && Clean(v, t1[i].path) && t1[i].path !in W
    ensures t1[i].hash == v.files[t1[i].path].hash
  {
    assert t1[i] == After(v, s, order, i);
    UnwalkedRow(v, t0, W, s, i);
    UnwalkedView(v, W, t0, s, order, t1, i);
  }

  /** After a sweep every clean file that a sweep looks at shows its hash. */
  ghost predicate FilesShown(v: Vault, W: set<Path>, t: Table) {
    && (forall p :: p in W && Clean(v, p) ==> !NoRowAt(t, p))
    && (forall i :: i in t && Clean(v, t[i].path) && (t[i].path in W || !t[i].deleted) ==>
          t[i].hash == v.files[t[i].path].hash)
  }

  lemma FilesSettled(v: Vault, W: set<Path>, t0: Table, s: Table, order: seq<Path>, t1: Table)
    requires UniquePaths(t0) && Swept(v, W, t0, s, order, t1)
    ensures FilesShown(v, W, t1) && BuriedPaths(v, t1, W) == BuriedPaths(v, t0, W)
  {
    WalkedSettled(v, W, t0, s, order, t1);
    BuriedStay(v, W, t0, t1);
    forall i | i in t1 && Clean(v, t1[i].path) && (t1[i].path in W || !t1[i].deleted)
      ensures t1[i].hash == v.files[t1[i].path].hash
    {
      if t1[i].path in W {
        assert OnDiskAfter(v, t0, t1, t1[i].path);
      } else {
        ActiveSettled(v, W, t0, s, order, t1, i);
      }
    }
  }

  lemma LateSettles(v: Vault, W: set<Path>, t0: Table, s: Table, order: seq<Path>, t1: Table, i: nat)
    requires UniquePaths(t0) && Swept(v, W, t0, s, order, t1) && LateEnough(v, W, t0, order) && Lost(v, t1, i)
    ensures HasTwin(v, t1, i)
  {
    TwinAtEnd(v, W, t0, s, order, t1, i);
    UnwalkedRow(v, t0, W, s, i);
    DeletedIff(v, W, t0, s, order, t1, i, t0[i].hash);
  }

  lemma SettledIsLate(v: Vault, W: set<Path>, t0: Table, s: Table, order: seq<Path>, t1: Table, i: nat, j: nat)
    requires UniquePaths(t0) && Swept(v, W, t0, s, order, t1) && Lost(v, t0, i)
    requires AtRisk(v, W, t0, t0[i].hash) && Leaver(v, W, t0, j, t0[i].hash)
    requires !Seqs.Before(order, t0[j].path, t0[i].path)
    ensures Lost(v, t1, i) && !HasTwin(v, t1, i)
  {
    DeletedIff(v, W, t0, s, order, t1, i, t0[i].hash);
    LostStays(v, W, t0, s, i);
    assert t1[i] == After(v, s, order, i);
    TwinAtEnd(v, W, t0, s, order, t1, i);
  }

  lemma LateSweepSettles(v: Vault, W: set<Path>, t0: Table, s: Table, order: seq<Path>, t1: Table)
    requires UniquePaths(t0) && Swept(v, W, t0, s, order, t1) && LateEnough(v, W, t0, order)
    ensures Settled(v, W, t1)
  {
    FilesSettled(v, W, t0, s, order, t1);
    forall i | Lost(v, t1, i) ensures HasTwin(v, t1, i) {
      LateSettles(v, W, t0, s, order, t1, i);
    }
  }

  lemma EarlySweepDoesNot(v: Vault, W: set<Path>, t0: Table, s: Table, order: seq<Path>, t1: Table)
    requires UniquePaths(t0) && Swept(v, W, t0, s, order, t1) && !LateEnough(v, W, t0, order)
    ensures exists i :: Lost(v, t1, i) && !HasTwin(v, t1, i)
  {
    var i, j :| Lost(v, t0, i) && AtRisk(v, W, t0, t0[i].hash) && Leaver(v, W, t0, j, t0[i].hash)
                && !Seqs.Before(order, t0[j].path, t0[i].path);
    SettledIsLate(v, W, t0, s, order, t1, i, j);
  }

  /** One sweep settles the table if and only if its second phase comes to the rows at risk late enough. */
  lemma SweepSettlesIff(v: Vault, W: set<Path>, t0: Table, s: Table, order: seq<Path>, t1: Table)
    requires UniquePaths(t0) && Swept(v, W, t0, s, order, t1)
    ensures Settled(v, W, t1) <==> LateEnough(v, W, t0, order)
    ensures BuriedPaths(v, t1, W) == BuriedPaths(v, t0, W)
  {
    FilesSettled(v, W, t0, s, order, t1);
    if LateEnough(v, W, t0, order) {
      LateSweepSettles(v, W, t0, s, order, t1);
    } else {
      EarlySweepDoesNot(v, W, t0, s, order, t1);
    }
  }

  // ----- every order of the second phase -----

  lemma {:induction false} AnyEnumeration(gone: set<Path>) returns (order: seq<Path>)
    ensures Enumerates(order, gone)
    decreases |gone|
  {
    if gone == {} {
      order := [];
    } else {
      var p :| p in gone;
      var rest := AnyEnumeration(gone - {p});
      order := rest + [p];
      ListedMore({}, rest, p);
      assert p !in Listed(rest);
    }
  }

  lemma JoinEnumerations(a: seq<Path>, first: set<Path>, p: Path, b: seq<Path>, rest: set<Path>)
    requires Enumerates(a, first) && Enumerates(b, rest) && p !in first && p !in rest && first !! rest
    ensures Enumerates(a + [p] + b, first + {p} + rest)
    ensures forall q :: Seqs.Before(a + [p] + b, q, p) <==> q in first
  {
    var order := a + [p] + b;
    forall q | q in a ensures q in first { assert q in Listed(a); }
    forall q | q in b ensures q in rest { assert q in Listed(b); }
    forall q ensures q in Listed(order) <==> q in first + {p} + rest {
      assert q in first ==> q in Listed(a);
      assert q in rest ==> q in Listed(b);
    }
    forall k, m | 0 <= k < m < |order| ensures order[k] != order[m] {
      assert k < |a| ==> order[k] in first;
      assert m > |a| ==> order[m] == b[m - |a| - 1] && order[m] in rest;
    }
    assert order[|a|] == p && order[..|a|] == a;
    forall q ensures Seqs.Before(order, q, p) <==> q in first {
      BeforeAt(order, |a|, q);
      assert q in first ==> q in Listed(a);
    }
  }

  /** Some order has exactly the paths `first` before `p`. */
  lemma OrderThrough(gone: set<Path>, first: set<Path>, p: Path) returns (order: seq<Path>)
    requires p in gone && first <= gone - {p}
    ensures Enumerates(order, gone)
    ensures forall q :: Seqs.Before(order, q, p) <==> q in first
  {
    var a := AnyEnumeration(first);
    var b := AnyEnumeration(gone - {p} - first);
    JoinEnumerations(a, first, p, b, gone - {p} - first);
    order := a + [p] + b;
    assert first + {p} + (gone - {p} - first) == gone;
  }

  ghost function TableAfter(v: Vault, s: Table, order: seq<Path>): (t: Table)
    ensures Phase2(v, s, order, t)
  {
    map i | i in s :: After(v, s, order, i)
  }

  /** A sweep whose second phase has exactly the paths `first` before the job of the lost row `i`. */
  lemma SweepThrough(v: Vault, W: set<Path>, t0: Table, s: Table, i: nat, first: set<Path>)
    returns (order: seq<Path>, t1: Table)
    requires UniquePaths(t0) && Phase1(v, t0, W, s) && Balanced(v, t0, W, s)
    requires Lost(v, t0, i) && !Held(v, W, t0, t0[i].hash) && first <= ActivePaths(s) - W - {t0[i].path}
    ensures Swept(v, W, t0, s, order, t1)
    ensures forall q :: Seqs.Before(order, q, t0[i].path) <==> q in first
  {
    LostStays(v, W, t0, s, i);
    order := OrderThrough(ActivePaths(s) - W, first, t0[i].path);
    t1 := TableAfter(v, s, order);
  }

  /** Whatever its first phase did, a sweep settles in every order if and only if no hash is at risk. */
  lemma EveryOrderSettlesIff(v: Vault, W: set<Path>, t0: Table, s: Table)
    requires UniquePaths(t0) && Phase1(v, t0, W, s) && Balanced(v, t0, W, s)
    ensures (forall order, t1 :: Swept(v, W, t0, s, order, t1) ==> Settled(v, W, t1)) <==>
            (forall h :: !AtRisk(v, W, t0, h))
  {
    if h :| AtRisk(v, W, t0, h) {
      var i :| Lost(v, t0, i) && t0[i].hash == h;
      var j :| Leaver(v, W, t0, j, h);
      var order, t1 := SweepThrough(v, W, t0, s, i, {});
      SettledIsLate(v, W, t0, s, order, t1, i, j);
      assert Swept(v, W, t0, s, order, t1) && !Settled(v, W, t1);
    } else {
      forall order, t1 | Swept(v, W, t0, s, order, t1) ensures Settled(v, W, t1) {
        SweepSettlesIff(v, W, t0, s, order, t1);
      }
    }
  }

  /** A swept table has no row left that a second phase would refresh. */
  lemma NothingAtRiskAfter(v: Vault, W: set<Path>, t0: Table, s: Table, order: seq<Path>, t1: Table, h: Hash)
    requires UniquePaths(t0) && Swept(v, W, t0, s, order, t1)
    ensures !AtRisk(v, W, t1, h)
  {
    FilesSettled(v, W, t0, s, order, t1);
  }

  /** The second of two sweeps always settles the table, from any state and in any orders. */
  lemma TwoSweepsSettle(v: Vault, W: set<Path>, t0: Table, s: Table, order: seq<Path>, t1: Table,
                        s2: Table, order2: seq<Path>, t2: Table)
    requires UniquePaths(t0) && UniquePaths(t1)
    requires Swept(v, W, t0, s, order, t1) && Swept(v, W, t1, s2, order2, t2)
    ensures Settled(v, W, t2)
    ensures BuriedPaths(v, t2, W) == BuriedPaths(v, t0, W)
  {
    forall h ensures !AtRisk(v, W, t1, h) { NothingAtRiskAfter(v, W, t0, s, order, t1, h); }
    SweepSettlesIff(v, W, t0, s, order, t1);
    SweepSettlesIff(v, W, t1, s2, order2, t2);
  }

  /** Two sweeps: when no hash is at risk, the second changes nothing and reports exactly the buried paths. */
  method ReconcileTwice(db: Database, v: Vault, walk: seq<Path>)
    returns (first: Summary, second: Summary, ghost t1: Table)
    requires db.Valid()
    requires Distinct(walk) && forall k :: 0 <= k < |walk| ==> walk[k] in v.files
    modifies db
    ensures db.Valid() && Settled(v, Listed(walk), db.notes)
    ensures exists s, order :: Swept(v, Listed(walk), old(db.notes), s, order, t1)
    ensures BuriedPaths(v, db.notes, Listed(walk)) == BuriedPaths(v, old(db.notes), Listed(walk))
    ensures (forall h :: !AtRisk(v, Listed(walk), old(db.notes), h)) ==>
              db.notes == t1 && second.discrepanciesFound == |BuriedPaths(v, old(db.notes), Listed(walk))|
  {
    ghost var t0, W := db.notes, Listed(walk);
    ghost var s, order, s2, order2;
    first, s, order := ReconcileVault(db, v, walk);
    t1 := db.notes;
    SweepSettlesIff(v, W, t0, s, order, t1);
    second, s2, order2 := ReconcileVault(db, v, walk);
    TwoSweepsSettle(v, W, t0, s, order, t1, s2, order2, db.notes);
  }

  /** The third sweep over the same files changes nothing and reports exactly the buried paths, always. */
  method ReconcileThrice(db: Database, v: Vault, walk: seq<Path>) returns (third: Summary, ghost t2: Table)
    requires db.Valid()
    requires Distinct(walk) && forall k :: 0 <= k < |walk| ==> walk[k] in v.files
    modifies db
    ensures db.Valid() && db.notes == t2 && Settled(v, Listed(walk), t2)
    ensures third.discrepanciesFound == |BuriedPaths(v, old(db.notes), Listed(walk))|
  {
    var first, second;
    ghost var t1, s, order;
    first, second, t1 := ReconcileTwice(db, v, walk);
    t2 := db.notes;
    third, s, order := ReconcileVault(db, v, walk);
  }

  /** A text file that the walk does not list, now with the hash `now`. */
  ghost function TextFile(b: Path, now: Hash): Vault {
    Vault(map[b := Text(now, false)], {}, false)
  }

  /** The rows of a vanished note and of a text file, both recorded with the hash `was`. */
  ghost function TwoRows(a: Path, b: Path, was: Hash): Table {
    map[0 := Note(a, was, false), 1 := Note(b, was, false)]
  }

  lemma KeptForTwin(a: Path, b: Path, was: Hash, now: Hash, r: IngestResult, t: Table)
    requires a != b && Step(TextFile(b, now), a, TwoRows(a, b, was), r, t)
    ensures r.outcome == Noop && t == TwoRows(a, b, was)
  {
    var v, t0 := TextFile(b, now), TwoRows(a, b, was);
    assert Active(t0, 0) && Active(t0, 1) && t0[1].path in v.files;
    assert HasTwin(v, t0, 0);
  }

  lemma TwinRefreshed(a: Path, b: Path, was: Hash, now: Hash, r: IngestResult, t: Table)
    requires a != b && was != now && Step(TextFile(b, now), b, TwoRows(a, b, was), r, t)
    ensures r.outcome == Updated && t == TwoRows(a, b, was)[1 := Note(b, now, false)]
  {
    assert TwoRows(a, b, was)[1].path == b;
  }

  lemma ThenDeleted(a: Path, b: Path, was: Hash, now: Hash, r: IngestResult, t: Table)
    requires a != b && was != now
    requires Step(TextFile(b, now), a, TwoRows(a, b, was)[1 := Note(b, now, false)], r, t)
    ensures r.outcome == Deleted && !Settled(TextFile(b, now), {}, TwoRows(a, b, was)[1 := Note(b, now, false)])
  {
    var v, t2 := TextFile(b, now), TwoRows(a, b, was)[1 := Note(b, now, false)];
    assert Lost(v, t2, 0) && !HasTwin(v, t2, 0);
  }

  /** One sweep is not always enough: the vanished note is kept for a twin that the same sweep refreshes away. */
  lemma OneSweepIsNotEnough(a: Path, b: Path, was: Hash, now: Hash, r: IngestResult, t: Table,
                            r2: IngestResult, t2: Table, r3: IngestResult, t3: Table)
    requires a != b && was != now
    requires Step(TextFile(b, now), a, TwoRows(a, b, was), r, t)
    requires Step(TextFile(b, now), b, t, r2, t2)
    requires Step(TextFile(b, now), a, t2, r3, t3)
    ensures r.outcome == Noop && r2.outcome == Updated && r3.outcome == Deleted
    ensures AtRisk(TextFile(b, now), {}, TwoRows(a, b, was), was) && !Settled(TextFile(b, now), {}, t2)
  {
    KeptForTwin(a, b, was, now, r, t);
    TwinRefreshed(a, b, was, now, r2, t2);
    ThenDeleted(a, b, was, now, r3, t3);
    var v, t0 := TextFile(b, now), TwoRows(a, b, was);
    assert Lost(v, t0, 0) && Leaver(v, {}, t0, 1, was);
  }

  // ----- the work of a sweep, hash by hash -----

  function Min(a: nat, b: nat): nat { if a < b then a else b }

  lemma Phase2MovesNothing(v: Vault, W: set<Path>, t0: Table, s: Table, order: seq<Path>, t1: Table, h: Hash)
    requires Swept(v, W, t0, s, order, t1)
    ensures MovedRows(t0, t1, h) == MovedRows(t0, s, h)
    ensures NewRows(t0, t1, h) == NewRows(t0, s, h)
  {
    forall i | i in s ensures t1[i].path == s[i].path && (i !in t0 ==> t1[i].hash == s[i].hash) {
      assert t1[i] == After(v, s, order, i);
      if i !in t0 { assert s[i].path in NewPaths(v, t0, W, s[i].hash); assert s[i].path !in Listed(order); }
    }
  }

  /** The sweep re-paths as many rows per hash as it can, and creates rows for the other new paths. */
  lemma MoveAccounting(v: Vault, W: set<Path>, t0: Table, s: Table, order: seq<Path>, t1: Table, h: Hash)
    requires Swept(v, W, t0, s, order, t1)
    ensures |MovedRows(t0, t1, h)| == Min(|NewPaths(v, t0, W, h)|, |Vanished(v, t0, h)|)
    ensures |NewRows(t0, t1, h)| == |NewPaths(v, t0, W, h)| - |MovedRows(t0, t1, h)|
  {
    Phase2MovesNothing(v, W, t0, s, order, t1, h);
    assert BalancedAt(v, t0, W, s, h);
    MovedVanished(v, W, t0, s, h);
  }

  lemma MovedVanished(v: Vault, W: set<Path>, t0: Table, s: Table, h: Hash)
    requires Phase1(v, t0, W, s)
    ensures MovedRows(t0, s, h) <= Vanished(v, t0, h)
    ensures |MovedRows(t0, s, h)| <= |Vanished(v, t0, h)|
  {
    forall i | i in MovedRows(t0, s, h) ensures i in Vanished(v, t0, h) {
      assert Kept(v, t0, W, t0[i], s[i]);
    }
    var rest := Vanished(v, t0, h) - MovedRows(t0, s, h);
    assert Vanished(v, t0, h) == MovedRows(t0, s, h) + rest;
  }

  ghost predicate NoneComeOrGo(v: Vault, W: set<Path>, t0: Table, h: Hash) {
    forall j :: !Leaver(v, W, t0, j, h) && !Comer(v, W, t0, j, h)
  }

  ghost predicate NoneLost(v: Vault, t0: Table, h: Hash) {
    forall i :: Lost(v, t0, i) ==> t0[i].hash != h
  }

  /** If no row comes to hash `h` or leaves it, its vanished rows go all together, or not at all if it is held. */
  lemma DeleteAccounting(v: Vault, W: set<Path>, t0: Table, s: Table, order: seq<Path>, t1: Table, h: Hash)
    requires UniquePaths(t0) && Swept(v, W, t0, s, order, t1)
    requires Held(v, W, t0, h) || NoneComeOrGo(v, W, t0, h)
    ensures DeletedRows(t0, t1, h) ==
            if Held(v, W, t0, h) then {} else set i | i in t0 && Lost(v, t0, i) && t0[i].hash == h
  {
    forall i: nat ensures i in DeletedRows(t0, t1, h) <==> Lost(v, t0, i) && t0[i].hash == h && !Held(v, W, t0, h) {
      DeletedIff(v, W, t0, s, order, t1, i, h);
    }
  }

  /** The order of the second phase cannot matter to the deletions of hash `h`. */
  ghost predicate Steady(v: Vault, W: set<Path>, t0: Table, h: Hash) {
    NoneLost(v, t0, h) || Held(v, W, t0, h) || NoneComeOrGo(v, W, t0, h)
  }

  /** The vanished rows of a hash, unless it is held. */
  ghost function SteadyRows(v: Vault, W: set<Path>, t0: Table, h: Hash): set<nat> {
    set i | i in t0 && Lost(v, t0, i) && t0[i].hash == h && !Held(v, W, t0, h)
  }

  lemma SteadySweep(v: Vault, W: set<Path>, t0: Table, s: Table, order: seq<Path>, t1: Table, h: Hash)
    requires UniquePaths(t0) && Steady(v, W, t0, h) && Swept(v, W, t0, s, order, t1)
    ensures DeletedRows(t0, t1, h) == SteadyRows(v, W, t0, h)
  {
    forall i: nat ensures i in DeletedRows(t0, t1, h) <==> i in SteadyRows(v, W, t0, h) {
      DeletedIff(v, W, t0, s, order, t1, i, h);
    }
  }

  lemma SteadyDeletions(v: Vault, W: set<Path>, t0: Table, s: Table, order: seq<Path>, t1: Table,
                        s2: Table, order2: seq<Path>, t2: Table, h: Hash)
    requires UniquePaths(t0) && Steady(v, W, t0, h)
    requires Swept(v, W, t0, s, order, t1) && Swept(v, W, t0, s2, order2, t2)
    ensures DeletedRows(t0, t1, h) == DeletedRows(t0, t2, h)
  {
    SteadySweep(v, W, t0, s, order, t1, h);
    SteadySweep(v, W, t0, s2, order2, t2, h);
  }

  ghost function LeaverPaths(v: Vault, W: set<Path>, t0: Table, h: Hash): set<Path> {
    set j | j in t0 && Leaver(v, W, t0, j, h) :: t0[j].path
  }

  ghost function ComerPaths(v: Vault, W: set<Path>, t0: Table, h: Hash): set<Path> {
    set j | j in t0 && Comer(v, W, t0, j, h) :: t0[j].path
  }

  lemma VisitedLater(v: Vault, W: set<Path>, t0: Table, s: Table, i: nat, h: Hash)
    requires UniquePaths(t0) && Phase1(v, t0, W, s) && Lost(v, t0, i)
    ensures LeaverPaths(v, W, t0, h) + ComerPaths(v, W, t0, h) <= ActivePaths(s) - W - {t0[i].path}
    ensures LeaverPaths(v, W, t0, h) !! ComerPaths(v, W, t0, h)
  {
    forall j | Leaver(v, W, t0, j, h) || Comer(v, W, t0, j, h) ensures t0[j].path in ActivePaths(s) {
      RowOnDisk(v, W, t0, s, j);
    }
  }

  /** A sweep that comes to a vanished row when it is bare tombstones it. */
  lemma GoneAfterLeavers(v: Vault, W: set<Path>, t0: Table, s: Table, i: nat) returns (order: seq<Path>, t1: Table)
    requires UniquePaths(t0) && Phase1(v, t0, W, s) && Balanced(v, t0, W, s)
    requires Lost(v, t0, i) && !Held(v, W, t0, t0[i].hash)
    ensures Swept(v, W, t0, s, order, t1) && i in DeletedRows(t0, t1, t0[i].hash)
  {
    var h := t0[i].hash;
    VisitedLater(v, W, t0, s, i, h);
    order, t1 := SweepThrough(v, W, t0, s, i, LeaverPaths(v, W, t0, h));
    DeletedIff(v, W, t0, s, order, t1, i, h);
  }

  /** A sweep that comes to a vanished row after the comers, and before the leavers, keeps it if there are any. */
  lemma KeptAfterComers(v: Vault, W: set<Path>, t0: Table, s: Table, i: nat) returns (order: seq<Path>, t1: Table)
    requires UniquePaths(t0) && Phase1(v, t0, W, s) && Balanced(v, t0, W, s)
    requires Lost(v, t0, i) && !Held(v, W, t0, t0[i].hash) && !NoneComeOrGo(v, W, t0, t0[i].hash)
    ensures Swept(v, W, t0, s, order, t1) && i !in DeletedRows(t0, t1, t0[i].hash)
  {
    var h := t0[i].hash;
    VisitedLater(v, W, t0, s, i, h);
    order, t1 := SweepThrough(v, W, t0, s, i, ComerPaths(v, W, t0, h));
    DeletedIff(v, W, t0, s, order, t1, i, h);
    var j :| Leaver(v, W, t0, j, h) || Comer(v, W, t0, j, h);
    assert t0[j].path in LeaverPaths(v, W, t0, h) + ComerPaths(v, W, t0, h);
  }

  /** A vanished row of an unsteady hash: some order tombstones it and some order keeps it. */
  lemma OrdersDiffer(v: Vault, W: set<Path>, t0: Table, s: Table, h: Hash)
    requires UniquePaths(t0) && Phase1(v, t0, W, s) && Balanced(v, t0, W, s) && !Steady(v, W, t0, h)
    ensures exists order, t1, order2, t2 :: Swept(v, W, t0, s, order, t1) && Swept(v, W, t0, s, order2, t2)
              && DeletedRows(t0, t1, h) != DeletedRows(t0, t2, h)
  {
    var i :| Lost(v, t0, i) && t0[i].hash == h;
    var order, t1 := GoneAfterLeavers(v, W, t0, s, i);
    var order2, t2 := KeptAfterComers(v, W, t0, s, i);
    assert DeletedRows(t0, t1, h) != DeletedRows(t0, t2, h);
  }

  /** Every order deletes the same rows of hash `h` if and only if `h` is steady. */
  lemma DeletionsIndependentIff(v: Vault, W: set<Path>, t0: Table, s: Table, h: Hash)
    requires UniquePaths(t0) && Phase1(v, t0, W, s) && Balanced(v, t0, W, s)
    ensures (forall order, t1, order2, t2 :: Swept(v, W, t0, s, order, t1) && Swept(v, W, t0, s, order2, t2) ==>
              DeletedRows(t0, t1, h) == DeletedRows(t0, t2, h)) <==> Steady(v, W, t0, h)
  {
    if Steady(v, W, t0, h) {
      forall order, t1, order2, t2 | Swept(v, W, t0, s, order, t1) && Swept(v, W, t0, s, order2, t2)
        ensures DeletedRows(t0, t1, h) == DeletedRows(t0, t2, h)
      {
        SteadyDeletions(v, W, t0, s, order, t1, s, order2, t2, h);
      }
    } else {
      OrdersDiffer(v, W, t0, s, h);
    }
  }

  /** Two sweeps over the same files, in any order and with any choice of moves, do the same work. */
  lemma OrderIndependent(v: Vault, W: set<Path>, t0: Table, s: Table, order: seq<Path>, t1: Table, log: seq<Event>,
                         s2: Table, order2: seq<Path>, t2: Table, log2: seq<Event>, h: Hash)
    requires UniquePaths(t0)
    requires Swept(v, W, t0, s, order, t1) && Logged(v, t0, W + ActivePaths(t0), t1, log)
    requires Swept(v, W, t0, s2, order2, t2) && Logged(v, t0, W + ActivePaths(t0), t2, log2)
    ensures CountHash(log, Moved, h) == CountHash(log2, Moved, h)
    ensures CountHash(log, Created, h) == CountHash(log2, Created, h)
    ensures CountHash(log, Updated, h) == CountHash(log2, Updated, h)
    ensures Steady(v, W, t0, h) ==>
              && DeletedRows(t0, t1, h) == DeletedRows(t0, t2, h)
              && CountHash(log, Deleted, h) == CountHash(log2, Deleted, h)
    ensures forall p, i, j :: p in W && Clean(v, p) && i in t1 && t1[i].path == p && j in t2 && t2[j].path == p ==>
              t1[i] == t2[j]
  {
    MoveAccounting(v, W, t0, s, order, t1, h);
    MoveAccounting(v, W, t0, s2, order2, t2, h);
    if Steady(v, W, t0, h) { SteadyDeletions(v, W, t0, s, order, t1, s2, order2, t2, h); }
    assert LoggedAt(v, t0, W + ActivePaths(t0), t1, log, h) && LoggedAt(v, t0, W + ActivePaths(t0), t2, log2, h);
    forall p, i, j | p in W && Clean(v, p) && i in t1 && t1[i].path == p && j in t2 && t2[j].path == p
      ensures t1[i] == t2[j]
    {
      OnDiskView(v, W, t0, s, order, t1, p);
      OnDiskView(v, W, t0, s2, order2, t2, p);
    }
  }

  /** A rename whose new path is ingested first keeps the note's id. */
  lemma RenameDestinationFirst(v: Vault, t: Table, i: nat, p: Path, r1: IngestResult, t1: Table,
                               r2: IngestResult, t2: Table)
    requires UniquePaths(t) && i in t && Clean(v, p) && NoRowAt(t, p)
    requires forall j :: MoveSource(v, t, j, v.files[p].hash) <==> j == i
    requires Step(v, p, t, r1, t1) && Step(v, t[i].path, t1, r2, t2)
    ensures r1 == IngestResult(Moved, Some(i)) && t1 == t[i := Note(p, v.files[p].hash, false)]
    ensures t2 == t1
  {
    assert MoveSource(v, t, i, v.files[p].hash);
  }

  /** The same rename ingested the other way round loses the id, unless another copy is on disk. */
  lemma RenameSourceFirst(v: Vault, t: Table, i: nat, p: Path, r1: IngestResult, t1: Table,
                          r2: IngestResult, t2: Table)
    requires UniquePaths(t) && i in t && Clean(v, p) && NoRowAt(t, p) && t[i].path !in v.unsafe
    requires forall j :: MoveSource(v, t, j, v.files[p].hash) <==> j == i
    requires Step(v, t[i].path, t, r1, t1) && Step(v, p, t1, r2, t2)
    ensures HasTwin(v, t, i) ==> t1 == t && r2 == IngestResult(Moved, Some(i))
    ensures !HasTwin(v, t, i) ==>
              && r1 == IngestResult(Deleted, Some(i)) && r2.outcome == Created
              && i in t2 && t2[i] == t[i].(deleted := true)
              && r2.noteId.Some? && r2.noteId.value !in t
  {
    assert MoveSource(v, t, i, v.files[p].hash);
    if HasTwin(v, t, i) {
      assert t1 == t;
    } else {
      assert t1 == t[i := t[i].(deleted := true)];
      assert NoRowAt(t1, p);
      assert forall j :: MoveSource(v, t1, j, v.files[p].hash) ==> MoveSource(v, t, j, v.files[p].hash);
    }
  }
}
