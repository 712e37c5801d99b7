/** The watcher's state told by the run that led to it, and what becomes of an event that is left in peace. */
module DebounceRuns {
  import opened Wrappers
  import opened Watcher
  import opened Debounce

  predicate Records(a: Action, path: Path) {
    a.DoRecord? && a.path == path
  }

  // ----- started or not -----

  /** The last call of start or stop. */
  predicate LastSwitch(actions: seq<Action>, k: nat) {
    && k < |actions| && (actions[k].DoStart? || actions[k].DoStop?)
    && forall m :: k < m < |actions| ==> !actions[m].DoStart? && !actions[m].DoStop?
  }

  lemma LastSwitchNext(actions: seq<Action>, a: Action, k: nat)
    ensures LastSwitch(actions + [a], k) <==>
            if a.DoStart? || a.DoStop? then k == |actions| else LastSwitch(actions, k)
  {
    var more := actions + [a];
    assert more[|actions|] == a;
    assert forall m :: 0 <= m < |actions| ==> more[m] == actions[m];
  }

  /** The watcher runs if and only if the last of its calls of start and stop was a start. */
  lemma {:induction false} StartedIff(actions: seq<Action>)
    ensures Run(INITIAL, actions).started <==> exists k: nat :: LastSwitch(actions, k) && actions[k].DoStart?
  {
    if actions != [] {
      var init, a := actions[..|actions| - 1], actions[|actions| - 1];
      assert actions == init + [a];
      StartedIff(init);
      forall k: nat { LastSwitchNext(init, a, k); }
      if a.DoStart? || a.DoStop? {
        assert LastSwitch(actions, |init|);
      } else if k: nat :| LastSwitch(init, k) && init[k].DoStart? {
        assert LastSwitch(actions, k) && actions[k] == init[k];
      }
    }
  }

  // ----- the time of the last event -----

  /** Action `k` is the last event for the path. */
  predicate LastRecord(actions: seq<Action>, path: Path, k: nat) {
    k < |actions| && Records(actions[k], path) && forall m :: k < m < |actions| ==> !Records(actions[m], path)
  }

  ghost predicate SeenAt(actions: seq<Action>, path: Path, now: int) {
    exists k: nat :: LastRecord(actions, path, k) && actions[k].now == now
  }

  lemma SeenNext(actions: seq<Action>, a: Action, path: Path, now: int)
    requires if Records(a, path) then now == a.now else SeenAt(actions, path, now)
    ensures SeenAt(actions + [a], path, now)
  {
    var more := actions + [a];
    if Records(a, path) {
      assert LastRecord(more, path, |actions|);
    } else {
      var k: nat :| LastRecord(actions, path, k) && actions[k].now == now;
      assert LastRecord(more, path, k) && more[k] == actions[k];
    }
  }

  /** The time kept for a pending path is that of its last event. */
  lemma {:induction false} LastSeenIsLatest(actions: seq<Action>, path: Path)
    ensures var seen := Run(INITIAL, actions).core.lastSeen; path in seen ==> SeenAt(actions, path, seen[path])
  {
    if actions != [] {
      var init, a := actions[..|actions| - 1], actions[|actions| - 1];
      assert actions == init + [a];
      LastSeenIsLatest(init, path);
      var seen := Run(INITIAL, actions).core.lastSeen;
      if path in seen { SeenNext(init, a, path, seen[path]); }
    }
  }

  // ----- timers -----

  /** A cancelled timer does not wait any more, so it can never start to run. */
  ghost predicate CancelledRest(w: State) {
    forall s :: s in w.cancelled ==> s !in w.waiting
  }

  lemma {:induction false} CancelledNeverRuns(actions: seq<Action>, s: nat)
    ensures CancelledRest(Run(INITIAL, actions))
    ensures var w := Run(INITIAL, actions); s in w.cancelled && s !in w.running ==> s !in Step(w, DoExpire(s)).running
  {
    if actions != [] {
      CancelledNeverRuns(actions[..|actions| - 1], s);
    }
  }

  /** A new event takes over from the pending one of its path, whose timer is to be cancelled, and from no other. */
  lemma RecordSupersedes(w: State, path: Path, now: int)
    ensures var next := Step(w, DoRecord(path, now));
      var gone := if path in w.core.pending then {w.core.pending[path]} else {};
      && next.core.pending == w.core.pending[path := w.core.nextSequence + 1]
      && next.superseded == w.superseded + gone && next.toCancel == w.toCancel + gone
      && next.claims == w.claims && next.dropped == w.dropped
  {
  }

  ghost predicate HeldBy(w: State, s: nat) {
    exists path :: path in w.core.pending && w.core.pending[path] == s
  }

  /** Stopping a running watcher drops exactly the pending numbers and cancels their timers. */
  lemma StopDropsPending(w: State)
    requires w.started
    ensures var next := Step(w, DoStop);
      && next.core.pending == map[] && next.core.lastSeen == map[] && !next.started
      && (forall s :: s in next.dropped <==> s in w.dropped || HeldBy(w, s))
      && (forall s :: s in next.toCancel <==> s in w.toCancel || HeldBy(w, s))
  {
  }

  /** A pending number's timer, once started and run out, is running. */
  lemma TimerGetsToRun(w: State, s: nat)
    requires Inv(w) && Pending(w, s)
    ensures var late := Step(Step(w, DoStartTimer(s)), DoExpire(s));
      && s in late.running && late.core == w.core && late.issued == w.issued && late.claims == w.claims
      && late.called == w.called && late.toCall == w.toCall
  {
    if s in w.cancelled { CancelledNotPending(w, s); }
  }

  /** A running timer of a pending number claims it, and its callback follows. */
  lemma RunningClaims(w: State, s: nat)
    requires Pending(w, s) && s in w.running && s !in w.toCall
    ensures var fired := Step(w, DoFire(s));
      && fired.claims == w.claims + [s] && w.issued[s - 1] !in fired.core.pending
      && Step(fired, DoCallback(s)).called == w.called + [s]
      && Step(fired, DoCallback(s)).core == fired.core
  {
  }

  /**
    An event that no later event for its path and no stop disturbs is called back: when its timer has been
    started, has run out and has fired, in any state of the watcher that can come about.
   */
  lemma PendingIsCalled(w: State, s: nat)
    requires Reachable(w) && Pending(w, s)
    ensures var calm := [DoStartTimer(s), DoExpire(s), DoFire(s), DoCallback(s)];
      && Run(w, calm[..3]).claims == w.claims + [s] && Run(w, calm).called == w.called + [s]
      && w.issued[s - 1] !in Run(w, calm).core.pending
  {
    ReachableInv(w);
    assert OneFate(w, s);
    TimerGetsToRun(w, s);
    var late := Step(Step(w, DoStartTimer(s)), DoExpire(s));
    RunningClaims(late, s);
    FourSteps(w, [DoStartTimer(s), DoExpire(s), DoFire(s), DoCallback(s)]);
  }

  lemma FourSteps(w: State, a: seq<Action>)
    requires |a| == 4
    ensures Run(w, a[..3]) == Step(Step(Step(w, a[0]), a[1]), a[2])
    ensures Run(w, a) == Step(Run(w, a[..3]), a[3])
  {
    assert a[..3][..2] == a[..2] && a[..2][..1] == a[..1] && a[..1][..0] == [];
    assert Run(w, a[..1]) == Step(w, a[0]);
    assert Run(w, a[..2]) == Step(Run(w, a[..1]), a[1]);
  }
}
