/** Whole runs of inserts, deletions and indexing calls, and what a lost failure record costs. */
module IndexRuns {
  import opened Indexing

  datatype Op =
    | OpInsert(id: nat)
    | OpDelete(id: nat)
    | OpIndex(id: nat, n: nat, fault: Fault)

  function Apply(s: Stores, op: Op): Stores {
    match op
    case OpInsert(id) => if id in s.notes then s else s.(notes := s.notes[id := Note(false, NeverIndexed, 0)])
    case OpDelete(id) => if id in s.notes then s.(notes := s.notes[id := s.notes[id].(deleted := true)]) else s
    case OpIndex(id, n, fault) => Index(s, id, n, fault, true).0
  }

  function Run(s: Stores, ops: seq<Op>): Stores {
    if ops == [] then s else Apply(Run(s, ops[..|ops| - 1]), ops[|ops| - 1])
  }

  const EMPTY := Stores(map[], [], map[], 0)

  lemma ApplyKeeps(s: Stores, op: Op)
    requires Inv(s)
    ensures Inv(Apply(s, op))
  {
    if op.OpIndex? {
      IndexKeeps(s, op.id, op.n, op.fault);
    } else {
      var sNext := Apply(s, op);
      forall id | id in sNext.notes && sNext.notes[id].state.Current? ensures Agree(sNext, id) { assert Agree(s, id); }
    }
  }

  lemma {:induction false} RunKeeps(ops: seq<Op>)
    ensures Inv(Run(EMPTY, ops))
  {
    if ops != [] {
      RunKeeps(ops[..|ops| - 1]);
      ApplyKeeps(Run(EMPTY, ops[..|ops| - 1]), ops[|ops| - 1]);
    }
  }

  /** In every run, a note marked current has the same chunks in both stores. */
  lemma CurrentMeansAgreement(ops: seq<Op>, id: nat)
    requires id in Run(EMPTY, ops).notes && Run(EMPTY, ops).notes[id].state.Current?
    ensures Agree(Run(EMPTY, ops), id)
  {
    RunKeeps(ops);
  }

  // ----- what a run makes of a note -----

  predicate Inserted(ops: seq<Op>, id: nat) {
    exists k :: 0 <= k < |ops| && ops[k] == OpInsert(id)
  }

  /** A deletion comes after the insert. */
  predicate Gone(ops: seq<Op>, id: nat) {
    exists k :: 0 <= k < |ops| && ops[k] == OpDelete(id) && Inserted(ops[..k], id)
  }

  predicate Live(ops: seq<Op>, id: nat) {
    Inserted(ops, id) && !Gone(ops, id)
  }

  /** The last indexing call of the note that finds it live. */
  predicate LastIndexing(ops: seq<Op>, id: nat, k: nat) {
    && k < |ops| && ops[k].OpIndex? && ops[k].id == id && Live(ops[..k], id)
    && forall m :: k < m < |ops| && ops[m].OpIndex? && ops[m].id == id ==> !Live(ops[..m], id)
  }

  /** The last indexing call of the note went through. */
  ghost predicate IndexedLast(ops: seq<Op>, id: nat) {
    exists k: nat :: LastIndexing(ops, id, k) && !Strikes(ops[k].fault, ops[k].n)
  }

  lemma InsertedNext(ops: seq<Op>, op: Op, id: nat)
    ensures Inserted(ops + [op], id) <==> Inserted(ops, id) || op == OpInsert(id)
  {
    var more := ops + [op];
    assert more[|ops|] == op;
    if k :| 0 <= k < |ops| && ops[k] == OpInsert(id) { assert more[k] == OpInsert(id); }
  }

  lemma GoneNext(ops: seq<Op>, op: Op, id: nat)
    ensures Gone(ops + [op], id) <==> Gone(ops, id) || (op == OpDelete(id) && Inserted(ops, id))
  {
    var more := ops + [op];
    assert more[|ops|] == op && more[..|ops|] == ops;
    forall k | 0 <= k < |ops| ensures more[k] == ops[k] && more[..k] == ops[..k] {}
    if k :| 0 <= k < |ops| && ops[k] == OpDelete(id) && Inserted(ops[..k], id) {
      assert more[k] == OpDelete(id) && Inserted(more[..k], id);
    }
    if k :| 0 <= k < |more| && more[k] == OpDelete(id) && Inserted(more[..k], id) && k < |ops| {
      assert ops[k] == OpDelete(id) && Inserted(ops[..k], id);
    }
  }

  lemma LastIndexingNext(ops: seq<Op>, op: Op, id: nat, k: nat)
    ensures LastIndexing(ops + [op], id, k) <==>
            if op.OpIndex? && op.id == id && Live(ops, id) then k == |ops| else LastIndexing(ops, id, k)
  {
    var more := ops + [op];
    assert more[|ops|] == op && more[..|ops|] == ops;
    forall m | 0 <= m < |ops| ensures more[m] == ops[m] && more[..m] == ops[..m] {}
  }

  lemma IndexedLastNext(ops: seq<Op>, op: Op, id: nat)
    ensures IndexedLast(ops + [op], id) <==>
            if op.OpIndex? && op.id == id && Live(ops, id) then !Strikes(op.fault, op.n) else IndexedLast(ops, id)
  {
    var more := ops + [op];
    forall k: nat { LastIndexingNext(ops, op, id, k); }
    if op.OpIndex? && op.id == id && Live(ops, id) {
      assert LastIndexing(more, id, |ops|) && more[|ops|] == op;
    } else if k: nat :| LastIndexing(ops, id, k) && !Strikes(ops[k].fault, ops[k].n) {
      assert LastIndexing(more, id, k) && more[k] == ops[k];
    }
  }

  /** What the operations so far say about the row of a note. */
  ghost predicate RowTold(ops: seq<Op>, id: nat, notes: map<nat, Note>) {
    && (id in notes <==> Inserted(ops, id))
    && (id in notes ==>
          && (notes[id].deleted <==> Gone(ops, id))
          && (notes[id].state == Current <==> IndexedLast(ops, id))
          && forall k: nat :: LastIndexing(ops, id, k) && !Strikes(ops[k].fault, ops[k].n) ==>
               notes[id].chunkCount == ops[k].n)
  }

  lemma RowToldNext(ops: seq<Op>, op: Op, id: nat, s: Stores)
    requires RowTold(ops, id, s.notes)
    ensures RowTold(ops + [op], id, Apply(s, op).notes)
  {
    InsertedNext(ops, op, id);
    GoneNext(ops, op, id);
    IndexedLastNext(ops, op, id);
    var more := ops + [op];
    forall k: nat | LastIndexing(more, id, k)
      ensures if op.OpIndex? && op.id == id && Live(ops, id) then k == |ops| else LastIndexing(ops, id, k)
      ensures more[k] == if k == |ops| then op else ops[k]
    {
      LastIndexingNext(ops, op, id, k);
    }
    if op.OpIndex? && op.id in s.notes && !s.notes[op.id].deleted { IndexedIff(s, op.id, op.n, op.fault, true); }
    if op == OpInsert(id) && !Inserted(ops, id) { NotYetInserted(ops, id); }
  }

  /** Nothing has been done to a note that has not been inserted. */
  lemma NotYetInserted(ops: seq<Op>, id: nat)
    requires !Inserted(ops, id)
    ensures !Gone(ops, id) && forall k: nat :: !LastIndexing(ops, id, k)
  {
    forall k | 0 <= k < |ops| ensures !Inserted(ops[..k], id) {
      assert forall m :: 0 <= m < k ==> ops[..k][m] == ops[m];
    }
  }

  /**
    In every run, a note is there exactly if it was inserted, deleted exactly if a deletion followed, and
    current exactly if the last indexing call that found it live went through; that call's chunks are counted.
   */
  lemma {:induction false} NoteOfRun(ops: seq<Op>, id: nat)
    ensures RowTold(ops, id, Run(EMPTY, ops).notes)
  {
    if ops != [] {
      var init, last := ops[..|ops| - 1], ops[|ops| - 1];
      assert ops == init + [last];
      NoteOfRun(init, id);
      RowToldNext(init, last, id, Run(EMPTY, init));
    }
  }

  // ----- a lost failure record -----

  /** When the failed state is not written down, these are the failures of a current note that do no harm. */
  ghost predicate Harmless(s: Stores, id: nat, n: nat, fault: Fault)
    requires id in s.notes
  {
    match fault
    case AtDeletePoints(gone) => forall p :: p in gone && p in s.points ==> s.points[p].noteId != id
    case AtUpsert(arrived) =>
      n == 0 || (s.notes[id].chunkCount == 0 && forall i :: 0 <= i < n ==> i !in arrived)
    case AtDeleteRows => n == 0 && s.notes[id].chunkCount == 0
    case AtInsert(k) => k >= n
    case AtMarkIndexed => s.notes[id].chunkCount == n
    case _ => true
  }

  /** Without the failure record, the stores still agree exactly after the harmless failures. */
  lemma LostFailureRecord(s: Stores, id: nat, n: nat, fault: Fault)
    requires Inv(s) && id in s.notes && !s.notes[id].deleted && s.notes[id].state.Current?
    ensures var sNext := Index(s, id, n, fault, false).0;
      && id in sNext.notes && sNext.notes[id].state.Current?
      && (Agree(sNext, id) <==> Harmless(s, id, n, fault))
  {
    TryIndexFrame(s, id, n, fault);
    assert Agree(s, id);
    if fault.AtDeletePoints? || (fault.AtUpsert? && n > 0) || fault.AtDeleteRows? {
      LostEarly(s, id, n, fault);
    } else if !fault.AtReprocess? && !(fault.AtEmbed? && n > 0) {
      LostLate(s, id, n, fault);
    }
  }

  lemma LostEarly(s: Stores, id: nat, n: nat, fault: Fault)
    requires IdsFresh(s) && id in s.notes && Agree(s, id)
    requires fault.AtDeletePoints? || (fault.AtUpsert? && n > 0) || fault.AtDeleteRows?
    ensures var sNext := TryIndex(s, id, n, fault).0;
      id in sNext.notes && (Agree(sNext, id) <==> Harmless(s, id, n, fault))
  {
    match fault {
      case AtDeletePoints(gone) => LostAtDeletePoints(s, id, gone);
      case AtUpsert(arrived) => LostAtUpsert(s, id, n, arrived);
      case AtDeleteRows => LostAtDeleteRows(s, id, n);
    }
  }

  lemma LostLate(s: Stores, id: nat, n: nat, fault: Fault)
    requires IdsFresh(s) && id in s.notes && Agree(s, id) && !fault.AtDeletePoints? && !fault.AtDeleteRows?
    requires !fault.AtReprocess? && ((fault.AtUpsert? || fault.AtEmbed?) ==> n == 0)
    ensures var sNext := TryIndex(s, id, n, fault).0;
      id in sNext.notes && (Agree(sNext, id) <==> Harmless(s, id, n, fault))
  {
    if fault.AtInsert? && fault.k < n {
      LostAtInsert(s, id, n, fault.k);
    } else if fault.AtMarkIndexed? {
      LostAtMark(s, id, n);
    } else {
      FullyInsertedAgrees(s, id, n);
    }
  }

  lemma LostAtDeletePoints(s: Stores, id: nat, gone: set<nat>)
    requires id in s.notes && Agree(s, id)
    ensures Agree(DeleteSome(s, id, gone), id) <==> forall p :: p in gone && p in s.points ==> s.points[p].noteId != id
  {
    var sNext := DeleteSome(s, id, gone);
    if p :| p in gone && p in s.points && s.points[p].noteId == id {
      assert RowsOf(s.rows, id)[s.points[p].index].pointId == p && p !in sNext.points;
    } else {
      assert sNext.points == s.points;
    }
  }

  /** Rows that a note had before keep pointing at deleted points. */
  lemma OldRowsDangle(s: Stores, id: nat, n: nat, arrived: set<nat>)
    requires IdsFresh(s) && id in s.notes && Agree(s, id) && s.notes[id].chunkCount > 0
    ensures !Agree(UpsertSome(DeletePoints(s, id), id, n, arrived), id)
  {
    var p := RowsOf(s.rows, id)[0].pointId;
    assert p < s.nextPoint && s.points[p] == Point(id, 0);
    assert p !in DeletePoints(s, id).points && p !in ArrivedPoints(s.nextPoint, id, n, arrived);
  }

  lemma ArrivedPoint(s: Stores, id: nat, n: nat, arrived: set<nat>, i: nat) returns (p: nat)
    requires i < n && i in arrived
    ensures var sNext := UpsertSome(DeletePoints(s, id), id, n, arrived);
      && p in sNext.points && sNext.points[p].noteId == id
      && sNext.rows == s.rows && sNext.notes == s.notes
  {
    p := s.nextPoint + i;
    assert p in ArrivedPoints(s.nextPoint, id, n, arrived);
  }

  /** A point of a note without rows has no partner. */
  lemma PointWithoutRow(s: Stores, id: nat, p: nat)
    requires id in s.notes && RowsOf(s.rows, id) == [] && p in s.points && s.points[p].noteId == id
    ensures !Agree(s, id)
  {
  }

  lemma ArrivedDangle(s: Stores, id: nat, n: nat, arrived: set<nat>, i: nat)
    requires id in s.notes && RowsOf(s.rows, id) == [] && i < n && i in arrived
    ensures !Agree(UpsertSome(DeletePoints(s, id), id, n, arrived), id)
  {
    var sNext := UpsertSome(DeletePoints(s, id), id, n, arrived);
    var p := ArrivedPoint(s, id, n, arrived, i);
    PointWithoutRow(sNext, id, p);
  }

  lemma NothingArrived(s: Stores, id: nat, n: nat, arrived: set<nat>)
    requires id in s.notes && Agree(s, id) && s.notes[id].chunkCount == 0
    requires forall i :: 0 <= i < n ==> i !in arrived
    ensures Agree(UpsertSome(DeletePoints(s, id), id, n, arrived), id)
  {
    assert ArrivedPoints(s.nextPoint, id, n, arrived) == map[];
    assert UpsertSome(DeletePoints(s, id), id, n, arrived).points == DeletePoints(s, id).points;
  }

  lemma LostAtUpsert(s: Stores, id: nat, n: nat, arrived: set<nat>)
    requires IdsFresh(s) && id in s.notes && Agree(s, id)
    ensures Agree(UpsertSome(DeletePoints(s, id), id, n, arrived), id) <==>
            s.notes[id].chunkCount == 0 && forall i :: 0 <= i < n ==> i !in arrived
  {
    if s.notes[id].chunkCount > 0 {
      OldRowsDangle(s, id, n, arrived);
    } else if i :| 0 <= i < n && i in arrived {
      ArrivedDangle(s, id, n, arrived, i);
    } else {
      NothingArrived(s, id, n, arrived);
    }
  }

  lemma LostAtDeleteRows(s: Stores, id: nat, n: nat)
    requires IdsFresh(s) && id in s.notes && Agree(s, id)
    ensures Agree(Upsert(DeletePoints(s, id), id, n), id) <==> n == 0 && s.notes[id].chunkCount == 0
  {
    ReplacePoints(s, id, n);
    var sNext := Upsert(DeletePoints(s, id), id, n);
    if n > 0 {
      assert sNext.points[s.nextPoint] == Point(id, 0);
    } else if s.notes[id].chunkCount > 0 {
      assert RowsOf(s.rows, id)[0].pointId !in sNext.points;
    }
  }

  lemma LostAtInsert(s: Stores, id: nat, n: nat, k: nat)
    requires IdsFresh(s) && id in s.notes && k < n
    ensures var sNext := InsertRows(DeleteRows(Upsert(DeletePoints(s, id), id, n), id), id, s.nextPoint, k);
      id in sNext.notes && !Agree(sNext, id)
  {
    ReplacePoints(s, id, n);
    var dropped := DeleteRows(Upsert(DeletePoints(s, id), id, n), id);
    DropRowsOf(s.rows, id, id);
    InsertRowsFrame(dropped, id, s.nextPoint, k);
    InsertRowsOwn(dropped, id, s.nextPoint, k);
    assert InsertRows(dropped, id, s.nextPoint, k).points[s.nextPoint + k] == Point(id, k);
  }

  lemma LostAtMark(s: Stores, id: nat, n: nat)
    requires IdsFresh(s) && id in s.notes
    ensures var sNext := InsertRows(DeleteRows(Upsert(DeletePoints(s, id), id, n), id), id, s.nextPoint, n);
      id in sNext.notes && (Agree(sNext, id) <==> s.notes[id].chunkCount == n)
  {
    FullyInsertedAgrees(s, id, n);
    var dropped := DeleteRows(Upsert(DeletePoints(s, id), id, n), id);
    DropRowsOf(s.rows, id, id);
    InsertRowsFrame(dropped, id, s.nextPoint, n);
    InsertRowsOwn(dropped, id, s.nextPoint, n);
    var sNext := InsertRows(dropped, id, s.nextPoint, n);
    if s.notes[id].chunkCount == n { assert Agree(Mark(sNext, id, Current, n), id); }
  }
}
