/**
  Indexing one note across two stores: its chunk rows in SQLite and its points in
  Qdrant, with an exception possible at any step.  How the text is chunked and
  embedded is left open; only the number of chunks matters here.
 */
module Indexing {

  datatype IndexState = NeverIndexed | Current | Failed

  datatype Note = Note(deleted: bool, state: IndexState, chunkCount: nat)

  datatype ChunkRow = ChunkRow(noteId: nat, index: nat, pointId: nat)

  datatype Point = Point(noteId: nat, index: nat)

  /** Both stores; fresh point ids count up, as random ids never repeat. */
  datatype Stores = Stores(notes: map<nat, Note>, rows: seq<ChunkRow>, points: map<nat, Point>, nextPoint: nat)

  /**
    The step that raises.  A request to Qdrant that times out can have been carried out in part:
    the points `gone` deleted, or the new points at the places `arrived` stored.
   */
  datatype Fault =
    | NoFault | AtReprocess | AtEmbed | AtDeletePoints(gone: set<nat>) | AtUpsert(arrived: set<nat>) | AtDeleteRows
    | AtInsert(k: nat) | AtMarkIndexed | AtPromote | AtEvent

  datatype Outcome = Noop | Indexed | Raised

  function DropRows(rows: seq<ChunkRow>, id: nat): seq<ChunkRow> {
    if rows == [] then []
    else DropRows(rows[..|rows| - 1], id) + if rows[|rows| - 1].noteId == id then [] else [rows[|rows| - 1]]
  }

  function RowsOf(rows: seq<ChunkRow>, id: nat): seq<ChunkRow> {
    if rows == [] then []
    else RowsOf(rows[..|rows| - 1], id) + if rows[|rows| - 1].noteId == id then [rows[|rows| - 1]] else []
  }

  function DeletePoints(s: Stores, id: nat): Stores {
    s.(points := map p | p in s.points && s.points[p].noteId != id :: s.points[p])
  }

  function FreshPoints(base: nat, id: nat, n: nat): (r: map<nat, Point>)
    ensures forall p :: p in r <==> base <= p < base + n
    ensures forall p :: p in r ==> r[p] == Point(id, p - base)
  {
    if n == 0 then map[] else FreshPoints(base, id, n - 1)[base + n - 1 := Point(id, n - 1)]
  }

  /** A fresh point per chunk, with the chunk's index in its payload. */
  function Upsert(s: Stores, id: nat, n: nat): Stores {
    s.(points := s.points + FreshPoints(s.nextPoint, id, n), nextPoint := s.nextPoint + n)
  }

  /** Only the note's points in `gone` are deleted. */
  function DeleteSome(s: Stores, id: nat, gone: set<nat>): Stores {
    s.(points := map p | p in s.points && !(s.points[p].noteId == id && p in gone) :: s.points[p])
  }

  function ArrivedPoints(base: nat, id: nat, n: nat, arrived: set<nat>): (r: map<nat, Point>)
    ensures forall p :: p in r <==> base <= p < base + n && p - base in arrived
    ensures forall p :: p in r ==> r[p] == Point(id, p - base)
  {
    map p | p in FreshPoints(base, id, n) && p - base in arrived :: Point(id, p - base)
  }

  /** Only the fresh points at the places in `arrived` are stored; all ids are used up. */
  function UpsertSome(s: Stores, id: nat, n: nat, arrived: set<nat>): Stores {
    s.(points := s.points + ArrivedPoints(s.nextPoint, id, n, arrived), nextPoint := s.nextPoint + n)
  }

  function DeleteRows(s: Stores, id: nat): Stores {
    s.(rows := DropRows(s.rows, id))
  }

  /** The first `k` chunk rows, for points from `base` on. */
  function InsertRows(s: Stores, id: nat, base: nat, k: nat): Stores {
    if k == 0 then s
    else
      var before := InsertRows(s, id, base, k - 1);
      before.(rows := before.rows + [ChunkRow(id, k - 1, base + k - 1)])
  }

  function Mark(s: Stores, id: nat, state: IndexState, count: nat): Stores
    requires id in s.notes
  {
    s.(notes := s.notes[id := s.notes[id].(state := state, chunkCount := count)])
  }

  /** The protected part of index_note: the stores when it ends, and whether it ended without raising. */
  function TryIndex(s: Stores, id: nat, n: nat, fault: Fault): (Stores, bool)
    requires id in s.notes
  {
    if fault.AtReprocess? || (fault.AtEmbed? && n > 0) then (s, false)
    else if fault.AtDeletePoints? then (DeleteSome(s, id, fault.gone), false)
    else
      var cleared := DeletePoints(s, id);
      if fault.AtUpsert? && n > 0 then (UpsertSome(cleared, id, n, fault.arrived), false)
      else
        var upserted := Upsert(cleared, id, n);
        if fault.AtDeleteRows? then (upserted, false)
        else
          var dropped := DeleteRows(upserted, id);
          if fault.AtInsert? && fault.k < n then (InsertRows(dropped, id, s.nextPoint, fault.k), false)
          else
            var inserted := InsertRows(dropped, id, s.nextPoint, n);
            InsertRowsFrame(dropped, id, s.nextPoint, n);
            if fault.AtMarkIndexed? then (inserted, false)
            else (Mark(inserted, id, Current, n), !(fault.AtPromote? && n > 0) && !fault.AtEvent?)
  }

  /** index_note; `recorded` says that writing the failed state down succeeds. */
  function Index(s: Stores, id: nat, n: nat, fault: Fault, recorded: bool): (Stores, Outcome) {
    if id !in s.notes || s.notes[id].deleted then (s, Noop)
    else
      var (sNext, ok) := TryIndex(s, id, n, fault);
      TryIndexFrame(s, id, n, fault);
      if ok then (sNext, Indexed)
      else if recorded then (Mark(sNext, id, Failed, sNext.notes[id].chunkCount), Raised)
      else (sNext, Raised)
  }

  // ----- when a call succeeds -----

  /** The fault comes at a step that a call with `n` chunks takes. */
  predicate Strikes(fault: Fault, n: nat) {
    match fault
    case NoFault => false
    case AtInsert(k) => k < n
    case AtEmbed => n > 0
    case AtUpsert(_) => n > 0
    case AtPromote => n > 0
    case _ => true
  }

  /** The note is marked as indexed if and only if no step raises, and as failed otherwise. */
  lemma IndexedIff(s: Stores, id: nat, n: nat, fault: Fault, recorded: bool)
    requires id in s.notes && !s.notes[id].deleted
    ensures var (sNext, outcome) := Index(s, id, n, fault, recorded);
      && outcome == (if Strikes(fault, n) then Raised else Indexed) && id in sNext.notes
      && (!Strikes(fault, n) ==> sNext.notes[id] == Note(false, Current, n))
      && (Strikes(fault, n) && recorded ==> sNext.notes[id].state == Failed && !sNext.notes[id].deleted)
      && sNext.notes == s.notes[id := sNext.notes[id]]
  {
    TryIndexFrame(s, id, n, fault);
    var inserted := InsertRows(DeleteRows(Upsert(DeletePoints(s, id), id, n), id), id, s.nextPoint, n);
    InsertRowsFrame(DeleteRows(Upsert(DeletePoints(s, id), id, n), id), id, s.nextPoint, n);
    assert inserted.notes == s.notes;
  }

  /** What the plan of a bootstrap pass says about a note: its chunks and the fault of its call. */
  function Planned(plan: map<nat, (nat, Fault)>, id: nat): (nat, Fault) {
    if id in plan then plan[id] else (0, NoFault)
  }

  /** The note was live and not current, and the pass dealt with it as planned. */
  predicate Tried(before: Note, after: Note, n: nat, fault: Fault) {
    if Strikes(fault, n) then after.state == Failed && !after.deleted else after == Note(false, Current, n)
  }

  // ----- the code -----

  class IndexStore {
    var notes: map<nat, Note>
    var rows: seq<ChunkRow>
    var points: map<nat, Point>
    var nextPoint: nat

    ghost function View(): Stores
      reads this
    {
      Stores(notes, rows, points, nextPoint)
    }

    constructor ()
      ensures View() == Stores(map[], [], map[], 0)
    {
      notes, rows, points, nextPoint := map[], [], map[], 0;
    }

    method DeletePointsForNote(id: nat)
      modifies this
      ensures View() == DeletePoints(old(View()), id)
    {
      points := map p | p in points && points[p].noteId != id :: points[p];
    }

    method UpsertChunks(id: nat, n: nat) returns (base: nat)
      modifies this
      ensures base == old(nextPoint) && View() == Upsert(old(View()), id, n)
    {
      base := nextPoint;
      points := points + FreshPoints(base, id, n);
      nextPoint := base + n;
    }

    method DeleteRowsForNote(id: nat)
      modifies this
      ensures View() == DeleteRows(old(View()), id)
    {
      var kept: seq<ChunkRow> := [];
      for k := 0 to |rows|
        invariant View() == old(View()) && kept == DropRows(rows[..k], id)
      {
        assert rows[..k + 1][..k] == rows[..k];
        if rows[k].noteId != id { kept := kept + [rows[k]]; }
      }
      assert rows[..|rows|] == rows;
      rows := kept;
    }

    /** The insert loop; answers false if an insert raised. */
    method InsertChunkRows(id: nat, base: nat, n: nat, fault: Fault) returns (ok: bool)
      modifies this
      ensures ok <==> !(fault.AtInsert? && fault.k < n)
      ensures View() == InsertRows(old(View()), id, base, if ok then n else fault.k)
    {
      for k := 0 to n
        invariant View() == InsertRows(old(View()), id, base, k)
        invariant !(fault.AtInsert? && fault.k < k)
      {
        if fault == AtInsert(k) { return false; }
        rows := rows + [ChunkRow(id, k, base + k)];
      }
      return true;
    }

    /** The deletion as a request that can fail half-way. */
    method DeleteRequest(id: nat, fault: Fault) returns (ok: bool)
      modifies this
      ensures ok <==> !fault.AtDeletePoints?
      ensures View() == if ok then DeletePoints(old(View()), id) else DeleteSome(old(View()), id, fault.gone)
    {
      if fault.AtDeletePoints? {
        points := map p | p in points && !(points[p].noteId == id && p in fault.gone) :: points[p];
        return false;
      }
      DeletePointsForNote(id);
      ok := true;
    }

    /** The upsert as a request that can fail half-way. */
    method UpsertRequest(id: nat, n: nat, fault: Fault) returns (ok: bool, base: nat)
      modifies this
      ensures ok <==> !fault.AtUpsert?
      ensures base == old(nextPoint)
      ensures View() == if ok then Upsert(old(View()), id, n) else UpsertSome(old(View()), id, n, fault.arrived)
    {
      base := nextPoint;
      if fault.AtUpsert? {
        points := points + ArrivedPoints(base, id, n, fault.arrived);
        nextPoint := base + n;
        return false, base;
      }
      base := UpsertChunks(id, n);
      ok := true;
    }

    method TryIndexNote(id: nat, n: nat, fault: Fault) returns (ok: bool)
      requires id in notes
      modifies this
      ensures (View(), ok) == TryIndex(old(View()), id, n, fault)
    {
      if fault.AtReprocess? { return false; }
      var base := nextPoint;
      if n > 0 {
        if fault.AtEmbed? { return false; }
        ok := DeleteRequest(id, fault);
        if !ok { return; }
        ok, base := UpsertRequest(id, n, fault);
        if !ok { return; }
      } else {
        ok := DeleteRequest(id, fault);
        if !ok { return; }
        UpsertNothing(View(), id);
      }
      if fault.AtDeleteRows? { return false; }
      DeleteRowsForNote(id);
      ghost var dropped := View();
      ok := InsertChunkRows(id, base, n, fault);
      if !ok { return; }
      InsertRowsFrame(dropped, id, base, n);
      if fault.AtMarkIndexed? { return false; }
      notes := notes[id := notes[id].(state := Current, chunkCount := n)];
      if n > 0 && fault.AtPromote? { return false; }
      return !fault.AtEvent?;
    }

    method IndexNote(id: nat, n: nat, fault: Fault, recorded: bool) returns (outcome: Outcome)
      modifies this
      ensures (View(), outcome) == Index(old(View()), id, n, fault, recorded)
    {
      if id !in notes || notes[id].deleted { return Noop; }
      TryIndexFrame(View(), id, n, fault);
      var ok := TryIndexNote(id, n, fault);
      if ok { return Indexed; }
      if recorded { notes := notes[id := notes[id].(state := Failed)]; }
      return Raised;
    }

    method ListIdsNeedingIndex() returns (ids: seq<nat>)
      ensures forall i :: i in ids <==> i in NeedingIndex(notes)
      ensures forall j, k :: 0 <= j < k < |ids| ==> ids[j] != ids[k]
    {
      var todo := notes.Keys;
      ids := [];
      while todo != {}
        invariant todo <= notes.Keys
        invariant forall i :: i in ids <==> i !in todo && i in NeedingIndex(notes)
        invariant forall j, k :: 0 <= j < k < |ids| ==> ids[j] != ids[k]
        decreases |todo|
      {
        var i :| i in todo;
        if !notes[i].deleted && !notes[i].state.Current? { ids := ids + [i]; }
        todo := todo - {i};
      }
    }

    /** One note of the bootstrap pass. */
    method IndexOne(id: nat, n: nat, fault: Fault) returns (outcome: Outcome)
      requires Inv(View()) && id in NeedingIndex(notes)
      modifies this
      ensures Inv(View()) && id in notes && notes == old(notes)[id := notes[id]]
      ensures outcome == (if Strikes(fault, n) then Raised else Indexed) && Tried(old(notes)[id], notes[id], n, fault)
    {
      IndexKeepsNotes(View(), id, n, fault);
      outcome := IndexNote(id, n, fault, true);
    }

    /** One pass over the notes that need it; `plan` says how each of them goes. */
    method IndexBootstrap(plan: map<nat, (nat, Fault)>) returns (indexed: nat, failed: nat)
      requires Inv(View())
      modifies this
      ensures Inv(View()) && notes.Keys == old(notes).Keys
      ensures |NeedingIndex(notes)| == failed && NeedingIndex(notes) == Struck(old(notes), plan)
      ensures indexed + failed == |NeedingIndex(old(notes))|
      ensures forall i :: i in old(notes) ==>
                if old(notes)[i].deleted || old(notes)[i].state == Current then notes[i] == old(notes)[i]
                else Tried(old(notes)[i], notes[i], Planned(plan, i).0, Planned(plan, i).1)
    {
      var ids := ListIdsNeedingIndex();
      indexed, failed := 0, 0;
      ghost var s0 := notes;
      ghost var done: set<nat> := {};
      ghost var bad: set<nat> := {};
      for k := 0 to |ids|
        invariant forall j :: 0 <= j < |ids| ==> (ids[j] in done <==> j < k)
        invariant Inv(View()) && Progress(s0, notes, plan, done, bad)
        invariant |done| == k == indexed + failed && |bad| == failed
      {
        var id := ids[k];
        assert id in ids;
        var (n, fault) := Planned(plan, id);
        ghost var before := notes;
        var outcome := IndexOne(id, n, fault);
        ProgressStep(s0, before, notes, plan, done, bad, id);
        done := done + {id};
        if outcome == Indexed { indexed := indexed + 1; }
        if outcome == Raised {
          failed := failed + 1;
          bad := bad + {id};
        }
      }
      assert forall i :: i in NeedingIndex(s0) ==> i in ids;
      BootstrapEnd(s0, notes, plan, done, bad);
    }
  }

  function NeedingIndex(notes: map<nat, Note>): set<nat> {
    set i | i in notes && Needs(notes[i])
  }

  predicate Needs(note: Note) {
    !note.deleted && !note.state.Current?
  }

  /** The notes that a bootstrap pass takes on and whose planned fault strikes. */
  function Struck(notes: map<nat, Note>, plan: map<nat, (nat, Fault)>): set<nat> {
    set i | i in notes && !notes[i].deleted && notes[i].state != Current
            && Strikes(Planned(plan, i).1, Planned(plan, i).0)
  }

  /** Of the notes that needed an index, those in `done` have been tried and those in `bad` failed. */
  ghost predicate Progress(s0: map<nat, Note>, notes: map<nat, Note>, plan: map<nat, (nat, Fault)>, done: set<nat>,
                           bad: set<nat>)
  {
    && notes.Keys == s0.Keys && done <= NeedingIndex(s0)
    && bad == (set i | i in done && Strikes(Planned(plan, i).1, Planned(plan, i).0))
    && (forall i :: i in done ==> Tried(s0[i], notes[i], Planned(plan, i).0, Planned(plan, i).1))
    && (forall i :: i in notes && i !in done ==> notes[i] == s0[i])
  }

  lemma BootstrapEnd(s0: map<nat, Note>, notes: map<nat, Note>, plan: map<nat, (nat, Fault)>, done: set<nat>,
                     bad: set<nat>)
    requires Progress(s0, notes, plan, done, bad) && NeedingIndex(s0) <= done
    ensures done == NeedingIndex(s0) && bad == NeedingIndex(notes) && bad == Struck(s0, plan)
  {
  }

  lemma ProgressStep(s0: map<nat, Note>, before: map<nat, Note>, notes: map<nat, Note>, plan: map<nat, (nat, Fault)>,
                     done: set<nat>, bad: set<nat>, id: nat)
    requires Progress(s0, before, plan, done, bad) && id in NeedingIndex(s0) && id !in done
    requires id in notes && notes == before[id := notes[id]]
    requires Tried(before[id], notes[id], Planned(plan, id).0, Planned(plan, id).1)
    ensures Progress(s0, notes, plan, done + {id},
                     if Strikes(Planned(plan, id).1, Planned(plan, id).0) then bad + {id} else bad)
    ensures |done + {id}| == |done| + 1 && |bad + {id}| == |bad| + 1
  {
  }

  /** Only the note's own row changes; it needs another run exactly if the fault strikes. */
  lemma IndexKeepsNotes(s: Stores, id: nat, n: nat, fault: Fault)
    requires Inv(s) && id in NeedingIndex(s.notes)
    ensures var (sNext, outcome) := Index(s, id, n, fault, true);
      && Inv(sNext) && id in sNext.notes && sNext.notes == s.notes[id := sNext.notes[id]]
      && outcome == (if Strikes(fault, n) then Raised else Indexed) && Tried(s.notes[id], sNext.notes[id], n, fault)
  {
    IndexKeeps(s, id, n, fault);
    IndexedIff(s, id, n, fault, true);
  }

  // ----- agreement of the two stores -----

  /** The chunk rows of a note and its points are the same chunks 0..chunkCount-1, one to one. */
  ghost predicate Agree(s: Stores, id: nat)
    requires id in s.notes
  {
    var rows := RowsOf(s.rows, id);
    && |rows| == s.notes[id].chunkCount
    && (forall k :: 0 <= k < |rows| ==>
          rows[k].index == k && rows[k].pointId in s.points && s.points[rows[k].pointId] == Point(id, k))
    && (forall p :: p in s.points && s.points[p].noteId == id ==>
          s.points[p].index < |rows| && rows[s.points[p].index].pointId == p)
  }

  ghost predicate Inv(s: Stores) {
    && (forall id :: id in s.notes && s.notes[id].state.Current? ==> Agree(s, id))
    && (forall p :: p in s.points ==> p < s.nextPoint)
    && RowsBelow(s.rows, s.nextPoint)
  }

  /** Nothing that belongs to another note changes. */
  ghost predicate OthersSame(s: Stores, sNext: Stores, id: nat) {
    && sNext.notes.Keys == s.notes.Keys && s.nextPoint <= sNext.nextPoint
    && (forall m :: m in s.notes && m != id ==> sNext.notes[m] == s.notes[m])
    && (forall m :: m != id ==> RowsOf(sNext.rows, m) == RowsOf(s.rows, m))
    && (forall p :: p in s.points && s.points[p].noteId != id ==> p in sNext.points && sNext.points[p] == s.points[p])
    && (forall p :: p in sNext.points && sNext.points[p].noteId != id ==>
          p in s.points && sNext.points[p] == s.points[p])
  }

  lemma UpsertNothing(s: Stores, id: nat)
    ensures Upsert(s, id, 0) == s
  {
    assert FreshPoints(s.nextPoint, id, 0) == map[];
  }

  lemma {:induction false} InsertRowsFrame(s: Stores, id: nat, base: nat, k: nat)
    ensures InsertRows(s, id, base, k) == s.(rows := InsertRows(s, id, base, k).rows)
  {
    if k > 0 { InsertRowsFrame(s, id, base, k - 1); }
  }

  /** Until the final mark, no row of `notes` is written. */
  lemma TryIndexFrame(s: Stores, id: nat, n: nat, fault: Fault)
    requires id in s.notes
    ensures var (sNext, ok) := TryIndex(s, id, n, fault);
      && sNext.notes.Keys == s.notes.Keys
      && (sNext.notes == s.notes || sNext.notes == s.notes[id := s.notes[id].(state := Current, chunkCount := n)])
      && (ok ==> sNext.notes == s.notes[id := s.notes[id].(state := Current, chunkCount := n)])
  {
    var dropped := DeleteRows(Upsert(DeletePoints(s, id), id, n), id);
    InsertRowsFrame(dropped, id, s.nextPoint, n);
    if fault.AtInsert? { InsertRowsFrame(dropped, id, s.nextPoint, fault.k); }
  }

  lemma RowsOfAppend(rows: seq<ChunkRow>, r: ChunkRow, m: nat)
    ensures RowsOf(rows + [r], m) == RowsOf(rows, m) + if r.noteId == m then [r] else []
  {
    assert (rows + [r])[..|rows|] == rows;
  }

  lemma {:induction false} DropRowsOf(rows: seq<ChunkRow>, id: nat, m: nat)
    ensures RowsOf(DropRows(rows, id), m) == if m == id then [] else RowsOf(rows, m)
  {
    if rows != [] {
      var init, last := rows[..|rows| - 1], rows[|rows| - 1];
      DropRowsOf(init, id, m);
      if last.noteId != id { RowsOfAppend(DropRows(init, id), last, m); }
      assert last.noteId == id ==> DropRows(rows, id) == DropRows(init, id);
    }
  }

  ghost predicate RowsBelow(rows: seq<ChunkRow>, bound: nat) {
    forall k :: 0 <= k < |rows| ==> rows[k].pointId < bound
  }

  lemma {:induction false} DropRowsBelow(rows: seq<ChunkRow>, id: nat, bound: nat)
    requires RowsBelow(rows, bound)
    ensures RowsBelow(DropRows(rows, id), bound)
  {
    if rows != [] { DropRowsBelow(rows[..|rows| - 1], id, bound); }
  }

  lemma {:induction false} InsertRowsOf(s: Stores, id: nat, base: nat, k: nat, m: nat)
    requires m != id
    ensures RowsOf(InsertRows(s, id, base, k).rows, m) == RowsOf(s.rows, m)
  {
    if k > 0 {
      InsertRowsOf(s, id, base, k - 1, m);
      RowsOfAppend(InsertRows(s, id, base, k - 1).rows, ChunkRow(id, k - 1, base + k - 1), m);
    }
  }

  lemma {:induction false} InsertRowsOwn(s: Stores, id: nat, base: nat, k: nat)
    requires RowsOf(s.rows, id) == []
    ensures |RowsOf(InsertRows(s, id, base, k).rows, id)| == k
    ensures forall j :: 0 <= j < k ==> RowsOf(InsertRows(s, id, base, k).rows, id)[j] == ChunkRow(id, j, base + j)
  {
    if k > 0 {
      InsertRowsOwn(s, id, base, k - 1);
      RowsOfAppend(InsertRows(s, id, base, k - 1).rows, ChunkRow(id, k - 1, base + k - 1), id);
    }
  }

  lemma {:induction false} InsertRowsBelow(s: Stores, id: nat, base: nat, k: nat, bound: nat)
    requires RowsBelow(s.rows, bound) && base + k <= bound
    ensures RowsBelow(InsertRows(s, id, base, k).rows, bound)
  {
    if k > 0 { InsertRowsBelow(s, id, base, k - 1, bound); }
  }

  ghost predicate IdsFresh(s: Stores) {
    && (forall p :: p in s.points ==> p < s.nextPoint)
    && RowsBelow(s.rows, s.nextPoint)
  }

  /** The points after clearing and upserting: the note's are the fresh ones, the rest is untouched. */
  ghost predicate PointsReplaced(s: Stores, sNext: Stores, id: nat, n: nat) {
    && sNext.nextPoint == s.nextPoint + n
    && (forall p :: p in sNext.points && sNext.points[p].noteId == id ==> s.nextPoint <= p < s.nextPoint + n)
    && (forall p :: s.nextPoint <= p < s.nextPoint + n ==>
          p in sNext.points && sNext.points[p] == Point(id, p - s.nextPoint))
    && (forall p :: p in s.points && s.points[p].noteId != id ==> p in sNext.points && sNext.points[p] == s.points[p])
    && (forall p :: p in sNext.points && sNext.points[p].noteId != id ==>
          p in s.points && sNext.points[p] == s.points[p])
    && (forall p :: p in sNext.points ==> p < sNext.nextPoint)
  }

  lemma ReplacePoints(s: Stores, id: nat, n: nat)
    requires IdsFresh(s)
    ensures PointsReplaced(s, Upsert(DeletePoints(s, id), id, n), id, n)
  {
  }

  lemma OthersSameUpserted(s: Stores, id: nat, n: nat)
    requires IdsFresh(s)
    ensures OthersSame(s, DeletePoints(s, id), id) && IdsFresh(DeletePoints(s, id))
    ensures OthersSame(s, Upsert(DeletePoints(s, id), id, n), id) && IdsFresh(Upsert(DeletePoints(s, id), id, n))
  {
    ReplacePoints(s, id, n);
  }

  /** A request that failed half-way concerns the note's own points only. */
  lemma OthersSamePartly(s: Stores, id: nat, n: nat, gone: set<nat>, arrived: set<nat>)
    requires IdsFresh(s)
    ensures OthersSame(s, DeleteSome(s, id, gone), id) && IdsFresh(DeleteSome(s, id, gone))
    ensures var partly := UpsertSome(DeletePoints(s, id), id, n, arrived);
      OthersSame(s, partly, id) && IdsFresh(partly)
  {
  }

  lemma OthersSameDropped(s: Stores, sNext: Stores, id: nat)
    requires OthersSame(s, sNext, id) && IdsFresh(sNext)
    ensures OthersSame(s, DeleteRows(sNext, id), id) && IdsFresh(DeleteRows(sNext, id))
    ensures RowsOf(DeleteRows(sNext, id).rows, id) == []
  {
    forall m ensures m != id ==> RowsOf(DropRows(sNext.rows, id), m) == RowsOf(s.rows, m) {
      DropRowsOf(sNext.rows, id, m);
    }
    DropRowsOf(sNext.rows, id, id);
    DropRowsBelow(sNext.rows, id, sNext.nextPoint);
  }

  lemma OthersSameInserted(s: Stores, sNext: Stores, id: nat, base: nat, k: nat)
    requires OthersSame(s, sNext, id) && IdsFresh(sNext) && base + k <= sNext.nextPoint
    ensures OthersSame(s, InsertRows(sNext, id, base, k), id) && IdsFresh(InsertRows(sNext, id, base, k))
  {
    InsertRowsFrame(sNext, id, base, k);
    forall m ensures m != id ==> RowsOf(InsertRows(sNext, id, base, k).rows, m) == RowsOf(s.rows, m) {
      if m != id { InsertRowsOf(sNext, id, base, k, m); }
    }
    InsertRowsBelow(sNext, id, base, k, sNext.nextPoint);
  }

  lemma LateOthers(s: Stores, id: nat, n: nat, k: nat)
    requires IdsFresh(s) && id in s.notes && k <= n
    ensures var upserted := Upsert(DeletePoints(s, id), id, n);
      && OthersSame(s, upserted, id) && IdsFresh(upserted)
      && var inserted := InsertRows(DeleteRows(upserted, id), id, s.nextPoint, k);
      && OthersSame(s, inserted, id) && IdsFresh(inserted)
      && inserted.notes == s.notes
  {
    OthersSameUpserted(s, id, n);
    var upserted := Upsert(DeletePoints(s, id), id, n);
    OthersSameDropped(s, upserted, id);
    OthersSameInserted(s, DeleteRows(upserted, id), id, s.nextPoint, k);
    InsertRowsFrame(DeleteRows(upserted, id), id, s.nextPoint, k);
  }

  lemma MarkOthers(s: Stores, sNext: Stores, id: nat, count: nat)
    requires OthersSame(s, sNext, id) && IdsFresh(sNext) && id in sNext.notes
    ensures OthersSame(s, Mark(sNext, id, Current, count), id) && IdsFresh(Mark(sNext, id, Current, count))
  {
  }

  /** The stores in which the protected part can end. */
  lemma TryIndexStages(s: Stores, id: nat, n: nat, fault: Fault)
    requires id in s.notes
    ensures var r, upserted := TryIndex(s, id, n, fault).0, Upsert(DeletePoints(s, id), id, n);
      var k := if fault.AtInsert? && fault.k < n then fault.k else n;
      var inserted := InsertRows(DeleteRows(upserted, id), id, s.nextPoint, k);
      || r == s
      || (fault.AtDeletePoints? && r == DeleteSome(s, id, fault.gone))
      || (fault.AtUpsert? && r == UpsertSome(DeletePoints(s, id), id, n, fault.arrived))
      || r == upserted || r == inserted || (id in inserted.notes && r == Mark(inserted, id, Current, n))
  {
    InsertRowsFrame(DeleteRows(Upsert(DeletePoints(s, id), id, n), id), id, s.nextPoint, n);
  }

  /** Wherever it stops, the protected part leaves every other note alone. */
  lemma TryIndexOthers(s: Stores, id: nat, n: nat, fault: Fault)
    requires IdsFresh(s) && id in s.notes
    ensures OthersSame(s, TryIndex(s, id, n, fault).0, id) && IdsFresh(TryIndex(s, id, n, fault).0)
  {
    TryIndexStages(s, id, n, fault);
    CompletedOthers(s, id, n, if fault.AtInsert? && fault.k < n then fault.k else n);
    match fault {
      case AtDeletePoints(gone) => OthersSamePartly(s, id, n, gone, {});
      case AtUpsert(arrived) => OthersSamePartly(s, id, n, {}, arrived);
      case _ =>
    }
  }

  /** With the old points and rows gone, the new points stored and `k` rows in, and marked as indexed or not. */
  lemma CompletedOthers(s: Stores, id: nat, n: nat, k: nat)
    requires IdsFresh(s) && id in s.notes && k <= n
    ensures var upserted := Upsert(DeletePoints(s, id), id, n);
      && OthersSame(s, upserted, id) && IdsFresh(upserted)
      && var inserted := InsertRows(DeleteRows(upserted, id), id, s.nextPoint, k);
      && OthersSame(s, inserted, id) && IdsFresh(inserted) && id in inserted.notes
      && OthersSame(s, Mark(inserted, id, Current, n), id) && IdsFresh(Mark(inserted, id, Current, n))
  {
    LateOthers(s, id, n, k);
    MarkOthers(s, InsertRows(DeleteRows(Upsert(DeletePoints(s, id), id, n), id), id, s.nextPoint, k), id, n);
  }

  /** Chunk rows for exactly the fresh points make the stores agree. */
  lemma AgreeFromFacts(s: Stores, sNext: Stores, id: nat, n: nat)
    requires PointsReplaced(s, sNext, id, n) && id in sNext.notes && sNext.notes[id].chunkCount == n
    requires |RowsOf(sNext.rows, id)| == n
    requires forall j :: 0 <= j < n ==> RowsOf(sNext.rows, id)[j] == ChunkRow(id, j, s.nextPoint + j)
    ensures Agree(sNext, id)
  {
  }

  /** Once every row is in, the two stores agree on the note. */
  lemma FullyInsertedAgrees(s: Stores, id: nat, n: nat)
    requires IdsFresh(s) && id in s.notes
    ensures var inserted := InsertRows(DeleteRows(Upsert(DeletePoints(s, id), id, n), id), id, s.nextPoint, n);
      id in inserted.notes && Agree(Mark(inserted, id, Current, n), id)
  {
    ReplacePoints(s, id, n);
    var dropped := DeleteRows(Upsert(DeletePoints(s, id), id, n), id);
    DropRowsOf(s.rows, id, id);
    InsertRowsFrame(dropped, id, s.nextPoint, n);
    InsertRowsOwn(dropped, id, s.nextPoint, n);
    AgreeFromFacts(s, Mark(InsertRows(dropped, id, s.nextPoint, n), id, Current, n), id, n);
  }

  lemma AgreeFrame(s: Stores, sNext: Stores, id: nat, m: nat)
    requires OthersSame(s, sNext, id) && m != id && m in s.notes && Agree(s, m)
    ensures Agree(sNext, m)
  {
  }

  /** One indexing call, raising anywhere, keeps agreement for current notes and leaves the others alone. */
  lemma IndexKeeps(s: Stores, id: nat, n: nat, fault: Fault)
    requires Inv(s)
    ensures Inv(Index(s, id, n, fault, true).0) && OthersSame(s, Index(s, id, n, fault, true).0, id)
    ensures id in s.notes ==>
              var (sNext, outcome) := Index(s, id, n, fault, true);
              && sNext.notes[id].deleted == s.notes[id].deleted
              && match outcome
                 case Noop => s.notes[id].deleted && sNext == s
                 case Indexed =>
                   !s.notes[id].deleted && sNext.notes[id].state.Current? && sNext.notes[id].chunkCount == n
                 case Raised => !s.notes[id].deleted && sNext.notes[id].state.Failed?
  {
    if id in s.notes && !s.notes[id].deleted {
      var (tried, ok) := TryIndex(s, id, n, fault);
      TryIndexOthers(s, id, n, fault);
      TryIndexFrame(s, id, n, fault);
      if ok { TryIndexAgrees(s, id, n, fault); }
      forall m | m in s.notes && m != id && s.notes[m].state.Current? ensures Agree(tried, m) {
        AgreeFrame(s, tried, id, m);
      }
      KeepsFromTry(s, tried, id, ok);
    }
  }

  lemma TryIndexAgrees(s: Stores, id: nat, n: nat, fault: Fault)
    requires IdsFresh(s) && id in s.notes && TryIndex(s, id, n, fault).1
    ensures id in TryIndex(s, id, n, fault).0.notes && Agree(TryIndex(s, id, n, fault).0, id)
  {
    FullyInsertedAgrees(s, id, n);
    TryIndexFrame(s, id, n, fault);
  }

  lemma KeepsFromTry(s: Stores, tried: Stores, id: nat, ok: bool)
    requires id in s.notes && OthersSame(s, tried, id) && IdsFresh(tried)
    requires forall m :: m in s.notes && m != id && s.notes[m].state.Current? ==> Agree(tried, m)
    requires ok ==> Agree(tried, id)
    ensures var sNext := if ok then tried else Mark(tried, id, Failed, tried.notes[id].chunkCount);
      Inv(sNext) && OthersSame(s, sNext, id)
  {
    if !ok {
      var sNext := Mark(tried, id, Failed, tried.notes[id].chunkCount);
      forall m | m in sNext.notes && sNext.notes[m].state.Current? ensures Agree(sNext, m) {
        assert Agree(tried, m);
      }
    }
  }
}
