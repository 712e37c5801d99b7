/** What the reservations of a day add up to: no slot is lost, and none is left empty while a caller asks for it. */
module DispatchTotals {
  import opened Wrappers
  import opened Dispatch

  // ----- what the count counts -----

  function PlacesOf(table: seq<Job>, job: Job): set<nat> {
    set i: nat | i < |table| && table[i] == job
  }

  /** The count of a job type and day is the number of its rows. */
  lemma {:induction false} CountIsSize(table: seq<Job>, job: Job)
    ensures CountJobs(table, job.jobType, job.day) == |PlacesOf(table, job)|
  {
    if table != [] {
      var n := |table| - 1;
      CountIsSize(table[..n], job);
      assert PlacesOf(table, job) == PlacesOf(table[..n], job) + if table[n] == job then {n} else {};
    }
  }

  // ----- the account of a run -----

  function Asking(rs: Requests, job: Job): set<Caller> {
    set c | c in rs && rs[c].job == job
  }

  function CommittedFor(rs: Requests, s: State, job: Job): set<Caller> {
    set c | c in s.phase && s.phase[c].Committed? && c in rs && rs[c].job == job
  }

  /** The rows of a job are those that were there and one for each caller that committed. */
  ghost predicate Tallied(rs: Requests, start: seq<Job>, s: State, job: Job) {
    CountJobs(s.table, job.jobType, job.day) ==
    CountJobs(start, job.jobType, job.day) + |CommittedFor(rs, s, job)|
  }

  /** Nobody was refused while there was room. */
  predicate RefusedWhenFull(rs: Requests, s: State, c: Caller) {
    c in s.phase && s.phase[c].Refused? ==>
      c in rs && CountJobs(s.table, rs[c].job.jobType, rs[c].job.day) >= rs[c].ceiling
  }

  ghost predicate Account(rs: Requests, start: seq<Job>, s: State) {
    && s.phase.Keys == rs.Keys
    && (forall job :: Tallied(rs, start, s, job))
    && (forall c :: RefusedWhenFull(rs, s, c))
  }

  lemma CommitTallies(rs: Requests, start: seq<Job>, s: State, c: Caller, job: Job)
    requires Enabled(rs, s, Commit(c)) && Tallied(rs, start, s, job)
    ensures Tallied(rs, start, Take(rs, s, Commit(c)), job)
    ensures CountJobs(Take(rs, s, Commit(c)).table, job.jobType, job.day) >= CountJobs(s.table, job.jobType, job.day)
  {
    var next := Take(rs, s, Commit(c));
    CountNext(s.table, rs[c].job, job.jobType, job.day);
    assert CommittedFor(rs, next, job) == CommittedFor(rs, s, job) + if rs[c].job == job then {c} else {};
  }

  lemma TallyStep(rs: Requests, start: seq<Job>, s: State, step: Step, job: Job)
    requires Enabled(rs, s, step) && Tallied(rs, start, s, job)
    ensures Tallied(rs, start, Take(rs, s, step), job)
    ensures CountJobs(Take(rs, s, step).table, job.jobType, job.day) >= CountJobs(s.table, job.jobType, job.day)
  {
    if step.Commit? {
      CommitTallies(rs, start, s, step.c, job);
    } else {
      var next := Take(rs, s, step);
      SameCommitted(rs, s, next, step.c, next.phase[step.c], job);
    }
  }

  /** Whoever takes another step is not among those who have committed, and does not join them. */
  lemma SameCommitted(rs: Requests, s: State, next: State, c: Caller, p: Phase, job: Job)
    requires c in s.phase && !s.phase[c].Committed? && !p.Committed? && next.phase == s.phase[c := p]
    ensures CommittedFor(rs, next, job) == CommittedFor(rs, s, job)
  {
  }

  lemma AccountStep(rs: Requests, ceiling: string -> nat, start: seq<Job>, s: State, step: Step)
    requires Inv(rs, ceiling, s) && Account(rs, start, s) && Enabled(rs, s, step)
    ensures Account(rs, start, Take(rs, s, step))
  {
    var next := Take(rs, s, step);
    forall job ensures Tallied(rs, start, next, job) { TallyStep(rs, start, s, step, job); }
    forall c ensures RefusedWhenFull(rs, next, c) {
      assert RefusedWhenFull(rs, s, c);
      if c in rs { TallyStep(rs, start, s, step, rs[c].job); }
      if step == Refuse(c) { assert Counts(rs, s, c); }
    }
  }

  lemma {:induction false} AccountRun(rs: Requests, ceiling: string -> nat, start: seq<Job>, s: State, steps: seq<Step>)
    requires Shared(rs, ceiling) && Inv(rs, ceiling, s) && Account(rs, start, s)
    requires Valid(rs, s, steps) && AllBound(rs, steps)
    ensures Account(rs, start, Run(rs, s, steps))
    decreases |steps|
  {
    if steps != [] {
      AccountStep(rs, ceiling, start, s, steps[0]);
      TakeKeeps(rs, ceiling, s, steps[0]);
      assert forall i | 0 <= i < |steps[1..]| :: steps[1..][i] == steps[i + 1];
      AccountRun(rs, ceiling, start, Take(rs, s, steps[0]), steps[1..]);
    }
  }

  lemma StartAccount(rs: Requests, s: State)
    requires Initial(rs, s)
    ensures Account(rs, s.table, s)
  {
    forall job ensures Tallied(rs, s.table, s, job) { assert CommittedFor(rs, s, job) == {}; }
  }

  /** In every interleaving, the rows of a job are those from before and exactly one for each caller that committed. */
  lemma NoSlotIsLost(rs: Requests, ceiling: string -> nat, s: State, steps: seq<Step>, job: Job)
    requires Shared(rs, ceiling) && Initial(rs, s) && WithinCeilings(s.table, ceiling)
    requires Valid(rs, s, steps) && AllBound(rs, steps)
    ensures |PlacesOf(Run(rs, s, steps).table, job)| ==
            |PlacesOf(s.table, job)| + |CommittedFor(rs, Run(rs, s, steps), job)|
  {
    StartAccount(rs, s);
    AccountRun(rs, ceiling, s.table, s, steps);
    assert Tallied(rs, s.table, Run(rs, s, steps), job);
    CountIsSize(s.table, job);
    CountIsSize(Run(rs, s, steps).table, job);
  }

  // ----- when everybody has an answer -----

  /** The caller was told, without an exception. */
  predicate Answered(s: State, c: Caller) {
    c in s.phase && (s.phase[c].Committed? || s.phase[c].Refused?)
  }

  function Min(a: int, b: int): int { if a < b then a else b }

  /**
    Once all callers of a job have been answered, its rows are all that were asked for, or as many as the
    ceiling allows: the order in which they came makes no difference to the total.
   */
  lemma EverySlotIsTaken(rs: Requests, ceiling: string -> nat, s: State, steps: seq<Step>, job: Job)
    requires Shared(rs, ceiling) && Initial(rs, s) && WithinCeilings(s.table, ceiling)
    requires Valid(rs, s, steps) && AllBound(rs, steps)
    requires forall c :: c in Asking(rs, job) ==> Answered(Run(rs, s, steps), c)
    ensures |PlacesOf(Run(rs, s, steps).table, job)| ==
            Min(ceiling(job.jobType), |PlacesOf(s.table, job)| + |Asking(rs, job)|)
  {
    var end := Run(rs, s, steps);
    StartAccount(rs, s);
    AccountRun(rs, ceiling, s.table, s, steps);
    NoSlotIsLost(rs, ceiling, s, steps, job);
    CeilingHolds(rs, ceiling, s, steps, job.jobType, job.day);
    CountIsSize(end.table, job);
    var asking, committed := Asking(rs, job), CommittedFor(rs, end, job);
    if c :| c in asking && end.phase[c].Refused? {
      assert RefusedWhenFull(rs, end, c);
      assert committed <= asking;
      SmallerSet(committed, asking);
    } else {
      assert committed == asking;
    }
  }

  lemma SmallerSet(a: set<Caller>, b: set<Caller>)
    requires a <= b
    ensures |a| <= |b|
  {
    assert b == a + (b - a);
  }

  /** An exception from outside struck the caller: waiting for the lock took too long, or its transaction broke. */
  predicate Struck(steps: seq<Step>, c: Caller) {
    exists i :: 0 <= i < |steps| && (steps[i] == TimeOut(c) || steps[i] == Abort(c))
  }

  /** A caller fails only if an exception strikes it; a refusal is an answer. */
  lemma {:induction false} FailedWasStruck(rs: Requests, s: State, steps: seq<Step>, c: Caller)
    requires Valid(rs, s, steps) && c in s.phase
    ensures var end := Run(rs, s, steps);
      c in end.phase && (end.phase[c].Failed? ==> s.phase[c].Failed? || Struck(steps, c))
    decreases |steps|
  {
    if steps != [] {
      var rest := steps[1..];
      FailedWasStruck(rs, Take(rs, s, steps[0]), rest, c);
      if i :| 0 <= i < |rest| && (rest[i] == TimeOut(c) || rest[i] == Abort(c)) { assert steps[i + 1] == rest[i]; }
    }
  }

  // ----- nobody waits for ever -----

  predicate Ended(s: State, c: Caller) {
    c in s.phase && (s.phase[c].Committed? || s.phase[c].Refused? || s.phase[c].Failed?)
  }

  /** The lock is held by a caller that is in the middle of its transaction. */
  predicate LockHeld(s: State) {
    s.lock.Some? ==> s.lock.value in s.phase && !Ended(s, s.lock.value) && !s.phase[s.lock.value].Waiting?
  }

  lemma LockHeldStep(rs: Requests, s: State, step: Step)
    requires LockHeld(s) && Enabled(rs, s, step)
    ensures LockHeld(Take(rs, s, step))
  {
  }

  lemma {:induction false} LockHeldRun(rs: Requests, s: State, steps: seq<Step>)
    requires LockHeld(s) && Valid(rs, s, steps)
    ensures LockHeld(Run(rs, s, steps)) && Run(rs, s, steps).phase.Keys == s.phase.Keys
    decreases |steps|
  {
    if steps != [] {
      LockHeldStep(rs, s, steps[0]);
      LockHeldRun(rs, Take(rs, s, steps[0]), steps[1..]);
    }
  }

  /** As long as some caller has no answer, the holder of the lock can go on, or the lock is there for the taking. */
  lemma NeverStuck(rs: Requests, ceiling: string -> nat, s: State, steps: seq<Step>, c: Caller, day: int)
    returns (step: Step)
    requires Shared(rs, ceiling) && Initial(rs, s) && WithinCeilings(s.table, ceiling)
    requires Valid(rs, s, steps) && AllBound(rs, steps) && c in rs && !Ended(Run(rs, s, steps), c)
    ensures Enabled(rs, Run(rs, s, steps), step) && !step.TimeOut? && !step.Abort?
  {
    var now := Run(rs, s, steps);
    LockHeldRun(rs, s, steps);
    RunKeeps(rs, ceiling, s, steps);
    if now.lock.None? {
      assert Counts(rs, now, c);
      step := Begin(c);
    } else {
      var h := now.lock.value;
      assert Counts(rs, now, h);
      match now.phase[h] {
        case Locked => step := Count(h, day);
        case Counted(n) => step := if n >= rs[h].ceiling then Refuse(h) else Insert(h);
        case Inserted => step := Commit(h);
      }
    }
  }
}
