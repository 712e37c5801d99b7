/**
  The daily dispatch ceiling: concurrent reservations, each one transaction under the
  database's write lock, against the separate check and insert.
 */
module Dispatch {
  import opened Wrappers

  datatype Job = Job(jobType: string, day: int)

  /** What a caller passes; `job.day` is the day of its created_at. */
  datatype Request = Request(job: Job, ceiling: int)

  function Matches(j: Job, jobType: string, day: int): nat {
    if j.jobType == jobType && j.day == day then 1 else 0
  }

  /** SELECT COUNT(*) of one job type on one day. */
  function CountJobs(table: seq<Job>, jobType: string, day: int): nat {
    if table == [] then 0
    else CountJobs(table[..|table| - 1], jobType, day) + Matches(table[|table| - 1], jobType, day)
  }

  lemma CountNext(table: seq<Job>, j: Job, jobType: string, day: int)
    ensures CountJobs(table + [j], jobType, day) == CountJobs(table, jobType, day) + Matches(j, jobType, day)
  {
    assert (table + [j])[..|table|] == table;
  }

  // ----- one call -----

  datatype Outcome = Reserved(id: nat) | LimitReached | Raised

  /** The steps at which an exception from outside can strike. */
  datatype Fault = NoFault | AtCount | AtInsert

  class Jobs {
    var table: seq<Job>

    method CountDispatchedToday(jobType: string, today: int) returns (n: nat)
      ensures n == CountJobs(table, jobType, today)
    {
      n := 0;
      var i := 0;
      while i < |table|
        invariant 0 <= i <= |table| && n == CountJobs(table[..i], jobType, today)
      {
        assert table[..i + 1] == table[..i] + [table[i]];
        CountNext(table[..i], table[i], jobType, today);
        if table[i].jobType == jobType && table[i].day == today {
          n := n + 1;
        }
        i := i + 1;
      }
      assert table[..i] == table;
    }

    /** BEGIN IMMEDIATE, count, insert, and COMMIT or ROLLBACK. */
    method ReserveDispatchSlot(r: Request, today: int, fault: Fault) returns (outcome: Outcome)
      modifies this
      ensures outcome.Reserved? <==>
        fault == NoFault && CountJobs(old(table), r.job.jobType, today) < r.ceiling
      ensures outcome.LimitReached? <==>
        fault != AtCount && CountJobs(old(table), r.job.jobType, today) >= r.ceiling
      ensures outcome.Reserved? ==> table == old(table) + [r.job] && outcome.id == |old(table)|
      ensures !outcome.Reserved? ==> table == old(table)
    {
      var before := table;
      if fault == AtCount {
        return Raised;
      }
      var n := CountDispatchedToday(r.job.jobType, today);
      if n >= r.ceiling {
        table := before;
        return LimitReached;
      }
      var id := |table|;
      table := table + [r.job];
      if fault == AtInsert {
        table := before;
        return Raised;
      }
      outcome := Reserved(id);
    }
  }

  // ----- concurrent calls -----

  type Caller = nat

  datatype Phase = Waiting | Locked | Counted(n: nat) | Inserted | Committed | Refused | Failed

  /** The committed rows, the holder of the write lock, and where every caller is. */
  datatype State = State(table: seq<Job>, lock: Option<Caller>, phase: map<Caller, Phase>)

  /**
    BEGIN IMMEDIATE, which blocks while the lock is held and may time out; the count on a day;
    the refusal with its rollback; the insert; an exception with its rollback; the commit.
   */
  datatype Step =
    | Begin(c: Caller)
    | TimeOut(c: Caller)
    | Count(c: Caller, day: int)
    | Refuse(c: Caller)
    | Insert(c: Caller)
    | Abort(c: Caller)
    | Commit(c: Caller)

  type Requests = map<Caller, Request>

  function Enter(s: State, c: Caller, p: Phase): State {
    s.(phase := s.phase[c := p])
  }

  function Leave(s: State, c: Caller, p: Phase): State {
    s.(lock := None, phase := s.phase[c := p])
  }

  predicate Holds(s: State, c: Caller) {
    s.lock == Some(c) && c in s.phase
  }

  predicate Enabled(rs: Requests, s: State, step: Step) {
    && step.c in rs && step.c in s.phase
    && match step
       case Begin(c) => s.phase[c].Waiting? && s.lock.None?
       case TimeOut(c) => s.phase[c].Waiting? && s.lock.Some?
       case Count(c, day) => Holds(s, c) && s.phase[c].Locked?
       case Refuse(c) => Holds(s, c) && s.phase[c].Counted? && s.phase[c].n >= rs[c].ceiling
       case Insert(c) => Holds(s, c) && s.phase[c].Counted? && s.phase[c].n < rs[c].ceiling
       case Abort(c) => Holds(s, c) && (s.phase[c].Locked? || s.phase[c].Counted? || s.phase[c].Inserted?)
       case Commit(c) => Holds(s, c) && s.phase[c].Inserted?
  }

  function Take(rs: Requests, s: State, step: Step): State
    requires Enabled(rs, s, step)
  {
    match step
    case Begin(c) => Enter(s.(lock := Some(c)), c, Locked)
    case TimeOut(c) => Enter(s, c, Failed)
    case Count(c, day) => Enter(s, c, Counted(CountJobs(s.table, rs[c].job.jobType, day)))
    case Refuse(c) => Leave(s, c, Refused)
    case Insert(c) => Enter(s, c, Inserted)
    case Abort(c) => Leave(s, c, Failed)
    case Commit(c) => Leave(s.(table := s.table + [rs[c].job]), c, Committed)
  }

  predicate Valid(rs: Requests, s: State, steps: seq<Step>)
    decreases |steps|
  {
    steps == [] || (Enabled(rs, s, steps[0]) && Valid(rs, Take(rs, s, steps[0]), steps[1..]))
  }

  function Run(rs: Requests, s: State, steps: seq<Step>): State
    requires Valid(rs, s, steps)
    decreases |steps|
  {
    if steps == [] then s else Run(rs, Take(rs, s, steps[0]), steps[1..])
  }

  /** Every caller of a job type uses its one ceiling. */
  predicate Shared(rs: Requests, ceiling: string -> nat) {
    forall c | c in rs :: rs[c].ceiling == ceiling(rs[c].job.jobType)
  }

  /** A caller that is counted on the day that it writes, or that may not write at all. */
  predicate Bound(r: Request, day: int) {
    day == r.job.day || r.ceiling == 0
  }

  predicate AllBound(rs: Requests, steps: seq<Step>) {
    forall i | 0 <= i < |steps| && steps[i].Count? && steps[i].c in rs :: Bound(rs[steps[i].c], steps[i].day)
  }

  ghost predicate WithinCeilings(table: seq<Job>, ceiling: string -> nat) {
    forall jobType, day :: CountJobs(table, jobType, day) <= ceiling(jobType)
  }

  /** Inside a transaction the count still holds; outside, nobody has counted. */
  predicate Counts(rs: Requests, s: State, c: Caller) {
    c in rs && c in s.phase &&
    match s.phase[c]
    case Locked => s.lock == Some(c)
    case Counted(n) =>
      s.lock == Some(c) && (rs[c].ceiling == 0 || n == CountJobs(s.table, rs[c].job.jobType, rs[c].job.day))
    case Inserted => s.lock == Some(c) && CountJobs(s.table, rs[c].job.jobType, rs[c].job.day) < rs[c].ceiling
    case _ => true
  }

  ghost predicate Inv(rs: Requests, ceiling: string -> nat, s: State) {
    WithinCeilings(s.table, ceiling) && forall c | c in s.phase :: Counts(rs, s, c)
  }

  lemma CommitKeeps(rs: Requests, ceiling: string -> nat, s: State, c: Caller)
    requires Shared(rs, ceiling) && Inv(rs, ceiling, s) && Enabled(rs, s, Commit(c))
    ensures WithinCeilings(s.table + [rs[c].job], ceiling)
  {
    assert Counts(rs, s, c);
    forall jobType, day ensures CountJobs(s.table + [rs[c].job], jobType, day) <= ceiling(jobType) {
      CountNext(s.table, rs[c].job, jobType, day);
    }
  }

  lemma TakeKeeps(rs: Requests, ceiling: string -> nat, s: State, step: Step)
    requires Shared(rs, ceiling) && Inv(rs, ceiling, s) && Enabled(rs, s, step)
    requires step.Count? ==> Bound(rs[step.c], step.day)
    ensures Inv(rs, ceiling, Take(rs, s, step))
  {
    if step.Commit? { CommitKeeps(rs, ceiling, s, step.c); }
    var sNext := Take(rs, s, step);
    forall c | c in sNext.phase ensures Counts(rs, sNext, c) {
      assert c in s.phase ==> Counts(rs, s, c);
      assert Counts(rs, s, step.c);
    }
  }

  lemma {:induction false} RunKeeps(rs: Requests, ceiling: string -> nat, s: State, steps: seq<Step>)
    requires Shared(rs, ceiling) && Inv(rs, ceiling, s) && Valid(rs, s, steps) && AllBound(rs, steps)
    ensures Inv(rs, ceiling, Run(rs, s, steps))
    decreases |steps|
  {
    if steps != [] {
      TakeKeeps(rs, ceiling, s, steps[0]);
      assert forall i | 0 <= i < |steps[1..]| :: steps[1..][i] == steps[i + 1];
      RunKeeps(rs, ceiling, Take(rs, s, steps[0]), steps[1..]);
    }
  }

  /** Nobody has begun. */
  predicate Initial(rs: Requests, s: State) {
    s.lock.None? && s.phase.Keys == rs.Keys && forall c | c in s.phase :: s.phase[c].Waiting?
  }

  /** However the callers interleave, the committed rows of a job type and day never exceed its ceiling. */
  lemma CeilingHolds(rs: Requests, ceiling: string -> nat, s: State, steps: seq<Step>, jobType: string, day: int)
    requires Shared(rs, ceiling) && Initial(rs, s) && WithinCeilings(s.table, ceiling)
    requires Valid(rs, s, steps) && AllBound(rs, steps)
    ensures CountJobs(Run(rs, s, steps).table, jobType, day) <= ceiling(jobType)
  {
    RunKeeps(rs, ceiling, s, steps);
  }

  /** A refusal comes only when the committed rows have reached the ceiling, and leaves them alone. */
  lemma RefusedAtCeiling(rs: Requests, ceiling: string -> nat, s: State, steps: seq<Step>, c: Caller)
    requires Shared(rs, ceiling) && Initial(rs, s) && WithinCeilings(s.table, ceiling)
    requires Valid(rs, s, steps) && AllBound(rs, steps)
    requires Enabled(rs, Run(rs, s, steps), Refuse(c))
    ensures CountJobs(Run(rs, s, steps).table, rs[c].job.jobType, rs[c].job.day) == rs[c].ceiling
    ensures Take(rs, Run(rs, s, steps), Refuse(c)).table == Run(rs, s, steps).table
  {
    RunKeeps(rs, ceiling, s, steps);
    assert Counts(rs, Run(rs, s, steps), c);
  }

  // ----- which days keep the ceiling -----

  /** A reservation that is counted on another day than it writes is not bound by the ceiling. */
  lemma OtherDayOvershoots(rs: Requests, s: State, c: Caller, today: int) returns (steps: seq<Step>)
    requires Initial(rs, s) && c in rs && today != rs[c].job.day
    requires CountJobs(s.table, rs[c].job.jobType, today) < rs[c].ceiling
    requires CountJobs(s.table, rs[c].job.jobType, rs[c].job.day) == rs[c].ceiling
    ensures Valid(rs, s, steps)
    ensures steps == [Begin(c), Count(c, today), Insert(c), Commit(c)]
    ensures CountJobs(Run(rs, s, steps).table, rs[c].job.jobType, rs[c].job.day) == rs[c].ceiling + 1
  {
    var s1 := Take(rs, s, Begin(c));
    var s2 := Take(rs, s1, Count(c, today));
    var s3 := Take(rs, s2, Insert(c));
    Prepend(rs, s3, Commit(c), []);
    Prepend(rs, s2, Insert(c), [Commit(c)]);
    Prepend(rs, s1, Count(c, today), [Insert(c)] + [Commit(c)]);
    steps := [Begin(c)] + ([Count(c, today)] + ([Insert(c)] + [Commit(c)]));
    Prepend(rs, s, Begin(c), steps[1..]);
    assert [Commit(c)] + [] == [Commit(c)];
    CountNext(s.table, rs[c].job, rs[c].job.jobType, rs[c].job.day);
  }

  lemma Prepend(rs: Requests, s: State, step: Step, rest: seq<Step>)
    requires Enabled(rs, s, step) && Valid(rs, Take(rs, s, step), rest)
    ensures Valid(rs, s, [step] + rest)
    ensures Run(rs, s, [step] + rest) == Run(rs, Take(rs, s, step), rest)
  {
    assert ([step] + rest)[1..] == rest;
  }

  /** `n` rows of one job. */
  function Filled(j: Job, n: nat): seq<Job> {
    seq(n, _ => j)
  }

  lemma {:induction false} FilledCount(j: Job, n: nat, jobType: string, day: int)
    ensures CountJobs(Filled(j, n), jobType, day) == n * Matches(j, jobType, day)
  {
    if n > 0 {
      assert Filled(j, n)[..n - 1] == Filled(j, n - 1);
      FilledCount(j, n - 1, jobType, day);
    }
  }

  lemma FilledWithin(ceiling: string -> nat, j: Job, n: nat)
    requires n <= ceiling(j.jobType)
    ensures WithinCeilings(Filled(j, n), ceiling) && CountJobs(Filled(j, n), j.jobType, j.day) == n
  {
    forall jobType, day ensures CountJobs(Filled(j, n), jobType, day) <= ceiling(jobType) {
      FilledCount(j, n, jobType, day);
    }
    FilledCount(j, n, j.jobType, j.day);
  }

  /** Each caller counts on its own fixed day. */
  predicate CountsOn(steps: seq<Step>, day: Caller -> int) {
    forall i | 0 <= i < |steps| && steps[i].Count? :: steps[i].day == day(steps[i].c)
  }

  ghost predicate CeilingsKept(rs: Requests, ceiling: string -> nat, day: Caller -> int) {
    forall s: State, steps: seq<Step> ::
      Initial(rs, s) && WithinCeilings(s.table, ceiling) && Valid(rs, s, steps) && CountsOn(steps, day) ==>
        WithinCeilings(Run(rs, s, steps).table, ceiling)
  }

  /** A caller with a positive ceiling that counts on another day can pass it, from a day that is full. */
  lemma OtherDayPasses(rs: Requests, ceiling: string -> nat, day: Caller -> int, c: Caller)
    requires Shared(rs, ceiling) && c in rs && !Bound(rs[c], day(c))
    ensures !CeilingsKept(rs, ceiling, day)
  {
    var j := rs[c].job;
    var s := State(Filled(j, rs[c].ceiling), None, map k | k in rs :: Waiting);
    FilledWithin(ceiling, j, rs[c].ceiling);
    FilledCount(j, rs[c].ceiling, j.jobType, day(c));
    var steps := OtherDayOvershoots(rs, s, c, day(c));
    assert CountJobs(Run(rs, s, steps).table, j.jobType, j.day) > ceiling(j.jobType);
    assert Initial(rs, s) && Valid(rs, s, steps) && CountsOn(steps, day);
  }

  /** The ceilings hold in every run if and only if every caller counts on its own day or has ceiling zero. */
  lemma CeilingsKeptIff(rs: Requests, ceiling: string -> nat, day: Caller -> int)
    requires Shared(rs, ceiling)
    ensures CeilingsKept(rs, ceiling, day) <==> forall c :: c in rs ==> Bound(rs[c], day(c))
  {
    if c :| c in rs && !Bound(rs[c], day(c)) {
      OtherDayPasses(rs, ceiling, day, c);
    } else {
      forall s: State, steps: seq<Step> |
        Initial(rs, s) && WithinCeilings(s.table, ceiling) && Valid(rs, s, steps) && CountsOn(steps, day)
        ensures WithinCeilings(Run(rs, s, steps).table, ceiling)
      {
        RunKeeps(rs, ceiling, s, steps);
      }
    }
  }

  // ----- the check and the insert as two statements -----

  datatype LooseStep = Check(c: Caller, day: int) | LooseInsert(c: Caller)

  /** `passed`: the callers whose check has passed and whose insert is still to come. */
  datatype Loose = Loose(table: seq<Job>, passed: set<Caller>)

  predicate LooseEnabled(rs: Requests, s: Loose, step: LooseStep) {
    step.c in rs &&
    match step
    case Check(c, day) => CountJobs(s.table, rs[c].job.jobType, day) < rs[c].ceiling
    case LooseInsert(c) => c in s.passed
  }

  function LooseTake(rs: Requests, s: Loose, step: LooseStep): Loose
    requires LooseEnabled(rs, s, step)
  {
    match step
    case Check(c, day) => s.(passed := s.passed + {c})
    case LooseInsert(c) => Loose(s.table + [rs[c].job], s.passed - {c})
  }

  predicate LooseValid(rs: Requests, s: Loose, steps: seq<LooseStep>)
    decreases |steps|
  {
    steps == [] || (LooseEnabled(rs, s, steps[0]) && LooseValid(rs, LooseTake(rs, s, steps[0]), steps[1..]))
  }

  function LooseRun(rs: Requests, s: Loose, steps: seq<LooseStep>): Loose
    requires LooseValid(rs, s, steps)
    decreases |steps|
  {
    if steps == [] then s else LooseRun(rs, LooseTake(rs, s, steps[0]), steps[1..])
  }

  /** Callers `k` to `n` check one after the other. */
  function Checks(k: nat, n: nat, day: int): seq<LooseStep>
    requires k <= n
    decreases n - k
  {
    if k == n then [] else [Check(k, day)] + Checks(k + 1, n, day)
  }

  function Inserts(k: nat, n: nat): seq<LooseStep>
    requires k <= n
    decreases n - k
  {
    if k == n then [] else [LooseInsert(k)] + Inserts(k + 1, n)
  }

  predicate AllAsk(rs: Requests, n: nat, job: Job, ceiling: int) {
    forall c | 0 <= c < n :: c in rs && rs[c] == Request(job, ceiling)
  }

  lemma LoosePrepend(rs: Requests, s: Loose, step: LooseStep, rest: seq<LooseStep>, next: Loose)
    requires LooseEnabled(rs, s, step) && next == LooseTake(rs, s, step) && LooseValid(rs, next, rest)
    ensures LooseValid(rs, s, [step] + rest)
    ensures LooseRun(rs, s, [step] + rest) == LooseRun(rs, next, rest)
  {
    assert ([step] + rest)[1..] == rest;
  }

  predicate AllPassed(s: Loose, k: nat, n: nat) {
    forall c | k <= c < n :: c in s.passed
  }

  /** Inserting the job once more. */
  lemma InsertNext(rs: Requests, s: Loose, k: nat, n: nat, job: Job, ceiling: int) returns (next: Loose)
    requires k < n && AllAsk(rs, n, job, ceiling) && AllPassed(s, k, n)
    ensures LooseEnabled(rs, s, LooseInsert(k)) && next == LooseTake(rs, s, LooseInsert(k))
    ensures AllPassed(next, k + 1, n)
    ensures CountJobs(next.table, job.jobType, job.day) == CountJobs(s.table, job.jobType, job.day) + 1
  {
    next := Loose(s.table + [job], s.passed - {k});
    CountNext(s.table, job, job.jobType, job.day);
  }

  lemma {:induction false} InsertsRun(rs: Requests, s: Loose, k: nat, n: nat, job: Job, ceiling: int,
                                      steps: seq<LooseStep>)
    requires k <= n && AllAsk(rs, n, job, ceiling) && AllPassed(s, k, n) && steps == Inserts(k, n)
    ensures LooseValid(rs, s, steps)
    ensures CountJobs(LooseRun(rs, s, steps).table, job.jobType, job.day)
         == CountJobs(s.table, job.jobType, job.day) + (n - k)
    decreases n - k
  {
    if k < n {
      var rest := Inserts(k + 1, n);
      var next := InsertNext(rs, s, k, n, job, ceiling);
      InsertsRun(rs, next, k + 1, n, job, ceiling, rest);
      LoosePrepend(rs, s, LooseInsert(k), rest, next);
    }
  }

  lemma {:induction false} ChecksRun(rs: Requests, s: Loose, k: nat, n: nat, job: Job, ceiling: int)
    requires k <= n && AllAsk(rs, n, job, ceiling) && CountJobs(s.table, job.jobType, job.day) < ceiling
    requires forall c: Caller :: c < k ==> c in s.passed
    ensures LooseValid(rs, s, Checks(k, n, job.day) + Inserts(0, n))
    ensures CountJobs(LooseRun(rs, s, Checks(k, n, job.day) + Inserts(0, n)).table, job.jobType, job.day)
         == CountJobs(s.table, job.jobType, job.day) + n
    decreases n - k
  {
    var steps := Checks(k, n, job.day) + Inserts(0, n);
    if k == n {
      assert steps == Inserts(0, n);
      InsertsRun(rs, s, 0, n, job, ceiling, Inserts(0, n));
    } else {
      var next, rest := s.(passed := s.passed + {k}), Checks(k + 1, n, job.day) + Inserts(0, n);
      assert steps == [Check(k, job.day)] + rest;
      ChecksRun(rs, next, k + 1, n, job, ceiling);
      LoosePrepend(rs, s, Check(k, job.day), rest, next);
    }
  }

  /** With the separate pair, any number of callers can pass the check before any of them inserts. */
  lemma CheckThenInsertOvershoots(rs: Requests, n: nat, job: Job, ceiling: int, table: seq<Job>)
    returns (steps: seq<LooseStep>)
    requires AllAsk(rs, n, job, ceiling) && CountJobs(table, job.jobType, job.day) < ceiling
    ensures LooseValid(rs, Loose(table, {}), steps)
    ensures CountJobs(LooseRun(rs, Loose(table, {}), steps).table, job.jobType, job.day)
         == CountJobs(table, job.jobType, job.day) + n
  {
    ChecksRun(rs, Loose(table, {}), 0, n, job, ceiling);
    steps := Checks(0, n, job.day) + Inserts(0, n);
  }

  /** Every check is on the day that its caller writes. */
  predicate OwnDays(rs: Requests, steps: seq<LooseStep>) {
    forall i | 0 <= i < |steps| && steps[i].Check? && steps[i].c in rs :: steps[i].day == rs[steps[i].c].job.day
  }

  ghost predicate LooseKept(rs: Requests, ceiling: string -> nat) {
    forall table: seq<Job>, steps: seq<LooseStep> ::
      WithinCeilings(table, ceiling) && LooseValid(rs, Loose(table, {}), steps) && OwnDays(rs, steps) ==>
        WithinCeilings(LooseRun(rs, Loose(table, {}), steps).table, ceiling)
  }

  /** Two callers with one job and a positive ceiling. */
  predicate Rivals(rs: Requests, a: Caller, b: Caller) {
    a in rs && b in rs && a != b && rs[a].job == rs[b].job && rs[a].ceiling > 0
  }

  /** Whoever has passed the check still has room. */
  ghost predicate Room(rs: Requests, ceiling: string -> nat, s: Loose) {
    && WithinCeilings(s.table, ceiling)
    && forall c :: c in s.passed ==>
         c in rs && CountJobs(s.table, rs[c].job.jobType, rs[c].job.day) < rs[c].ceiling
  }

  lemma LooseTakeKeeps(rs: Requests, ceiling: string -> nat, s: Loose, step: LooseStep)
    requires Shared(rs, ceiling) && (forall a, b :: !Rivals(rs, a, b)) && Room(rs, ceiling, s)
    requires LooseEnabled(rs, s, step) && (step.Check? ==> step.day == rs[step.c].job.day)
    ensures Room(rs, ceiling, LooseTake(rs, s, step))
  {
    if step.LooseInsert? {
      var j := rs[step.c].job;
      forall jobType, day ensures CountJobs(s.table + [j], jobType, day) <= ceiling(jobType) {
        CountNext(s.table, j, jobType, day);
      }
      forall c | c in s.passed - {step.c}
        ensures CountJobs(s.table + [j], rs[c].job.jobType, rs[c].job.day) < rs[c].ceiling
      {
        assert !Rivals(rs, c, step.c);
        CountNext(s.table, j, rs[c].job.jobType, rs[c].job.day);
      }
    }
  }

  lemma {:induction false} LooseRunKeeps(rs: Requests, ceiling: string -> nat, s: Loose, steps: seq<LooseStep>)
    requires Shared(rs, ceiling) && (forall a, b :: !Rivals(rs, a, b)) && Room(rs, ceiling, s)
    requires LooseValid(rs, s, steps) && OwnDays(rs, steps)
    ensures Room(rs, ceiling, LooseRun(rs, s, steps))
    decreases |steps|
  {
    if steps != [] {
      LooseTakeKeeps(rs, ceiling, s, steps[0]);
      assert forall i | 0 <= i < |steps[1..]| :: steps[1..][i] == steps[i + 1];
      LooseRunKeeps(rs, ceiling, LooseTake(rs, s, steps[0]), steps[1..]);
    }
  }

  /** Both check, then both insert. */
  lemma BothPass(rs: Requests, a: Caller, b: Caller, table: seq<Job>) returns (steps: seq<LooseStep>)
    requires Rivals(rs, a, b) && rs[b].ceiling == rs[a].ceiling
    requires CountJobs(table, rs[a].job.jobType, rs[a].job.day) < rs[a].ceiling
    ensures LooseValid(rs, Loose(table, {}), steps) && OwnDays(rs, steps)
    ensures LooseRun(rs, Loose(table, {}), steps).table == table + [rs[a].job] + [rs[a].job]
  {
    var j := rs[a].job;
    var s1, s2 := Loose(table, {a}), Loose(table, {a, b});
    var s3, s4 := Loose(table + [j], {b}), Loose(table + [j] + [j], {});
    var last := [LooseInsert(b)] + [];
    LoosePrepend(rs, s3, LooseInsert(b), [], s4);
    LoosePrepend(rs, s2, LooseInsert(a), last, s3);
    LoosePrepend(rs, s1, Check(b, j.day), [LooseInsert(a)] + last, s2);
    steps := [Check(a, j.day)] + ([Check(b, j.day)] + ([LooseInsert(a)] + last));
    LoosePrepend(rs, Loose(table, {}), Check(a, j.day), [Check(b, j.day)] + ([LooseInsert(a)] + last), s1);
  }

  /** One row short of the ceiling, two rivals overshoot it. */
  lemma RivalsOvershoot(rs: Requests, ceiling: string -> nat, a: Caller, b: Caller)
    requires Shared(rs, ceiling) && Rivals(rs, a, b)
    ensures !LooseKept(rs, ceiling)
  {
    var j := rs[a].job;
    var table := Filled(j, rs[a].ceiling - 1);
    FilledWithin(ceiling, j, rs[a].ceiling - 1);
    var steps := BothPass(rs, a, b, table);
    CountNext(table, j, j.jobType, j.day);
    CountNext(table + [j], j, j.jobType, j.day);
    assert CountJobs(LooseRun(rs, Loose(table, {}), steps).table, j.jobType, j.day) > ceiling(j.jobType);
  }

  /** The separate pair keeps the ceilings in every run if and only if no two callers are rivals. */
  lemma LooseKeptIff(rs: Requests, ceiling: string -> nat)
    requires Shared(rs, ceiling)
    ensures LooseKept(rs, ceiling) <==> forall a, b :: !Rivals(rs, a, b)
  {
    if a, b :| Rivals(rs, a, b) {
      RivalsOvershoot(rs, ceiling, a, b);
    } else {
      forall table: seq<Job>, steps: seq<LooseStep> |
        WithinCeilings(table, ceiling) && LooseValid(rs, Loose(table, {}), steps) && OwnDays(rs, steps)
        ensures WithinCeilings(LooseRun(rs, Loose(table, {}), steps).table, ceiling)
      {
        LooseRunKeeps(rs, ceiling, Loose(table, {}), steps);
      }
    }
  }
}
