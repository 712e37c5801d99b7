/** What every interleaving of the watcher's threads guarantees. */
module Debounce {
  import opened Watcher

  lemma InitialOk()
    ensures Inv(INITIAL)
  {
  }

  ghost predicate Reachable(w: State) {
    exists actions :: w == Run(INITIAL, actions)
  }

  lemma ReachableInv(w: State)
    requires Reachable(w)
    ensures Inv(w)
  {
    var actions :| w == Run(INITIAL, actions);
    InitialOk();
    RunKeeps(INITIAL, actions);
  }

  /** The numbers of `numbers` that were issued for `path`. */
  ghost function For(w: State, path: Path, numbers: set<nat>): set<nat> {
    set s | s in numbers && Issued(w, s) && w.issued[s - 1] == path
  }

  function NumbersTo(n: nat): (r: set<nat>)
    ensures forall s :: s in r <==> 1 <= s <= n
  {
    if n == 0 then {} else NumbersTo(n - 1) + {n}
  }

  ghost function PendingFor(w: State, path: Path): set<nat> {
    if path in w.core.pending then {w.core.pending[path]} else {}
  }

  /** A number of the path is in exactly one of the four sets. */
  lemma FateOfNumber(w: State, path: Path, s: nat)
    requires Inv(w)
    ensures var claimed := set q | q in w.claims;
      var a, b, c, d := For(w, path, w.superseded), For(w, path, claimed), For(w, path, w.dropped), PendingFor(w, path);
      && (s in For(w, path, NumbersTo(|w.issued|)) <==> s in a || s in b || s in c || s in d)
      && (s in a ==> s !in b && s !in c && s !in d) && (s in b ==> s !in c && s !in d) && (s in c ==> s !in d)
  {
    if Issued(w, s) { assert OneFate(w, s); }
  }

  /** Per path: events recorded = superseded + claimed + dropped by stop + still pending. */
  lemma Conservation(w: State, path: Path)
    requires Reachable(w)
    ensures |For(w, path, NumbersTo(|w.issued|))| ==
              |For(w, path, w.superseded)| + |For(w, path, set s | s in w.claims)| + |For(w, path, w.dropped)|
              + if path in w.core.pending then 1 else 0
  {
    ReachableInv(w);
    var claimed := set s | s in w.claims;
    forall s { FateOfNumber(w, path, s); }
    DisjointSizes(For(w, path, NumbersTo(|w.issued|)), For(w, path, w.superseded), For(w, path, claimed),
                  For(w, path, w.dropped), PendingFor(w, path));
  }

  lemma DisjointSizes(all: set<nat>, a: set<nat>, b: set<nat>, c: set<nat>, d: set<nat>)
    requires forall s :: s in all <==> s in a || s in b || s in c || s in d
    requires forall s :: (s in a ==> s !in b && s !in c && s !in d) && (s in b ==> s !in c && s !in d)
                         && (s in c ==> s !in d)
    ensures |all| == |a| + |b| + |c| + |d|
  {
    assert all == a + b + c + d;
  }

  /** The last-seen map is kept for exactly the pending paths. */
  lemma LastSeenMatchesPending(w: State)
    requires Reachable(w)
    ensures w.core.pending.Keys == w.core.lastSeen.Keys
  {
    ReachableInv(w);
  }

  /** A claim takes the newest number of its path, once, and never one that stop dropped. */
  lemma ClaimsNewestOnce(w: State, s: nat)
    requires Reachable(w) && |Step(w, DoFire(s)).claims| > |w.claims|
    ensures Newest(w, s)
    ensures s !in w.claims && s !in w.dropped && s !in w.superseded
  {
    ReachableInv(w);
    assert Pending(w, s) && OneFate(w, s);
  }

  /** An event that is pending has a timer that is yet to start, waiting or running: it cannot be lost. */
  lemma NoLostEvent(w: State, path: Path)
    requires Reachable(w) && path in w.core.pending
    ensures var s := w.core.pending[path];
      (s in w.toStart || s in w.waiting || s in w.running) && s !in w.cancelled && s !in w.toCancel
  {
    ReachableInv(w);
    var s := w.core.pending[path];
    assert Pending(w, s) && OneFate(w, s);
  }

  /** Once all timers have run out, every recorded event was superseded, claimed or dropped. */
  lemma QuietMeansSettled(w: State)
    requires Reachable(w) && w.toStart == {} && w.waiting == {} && w.running == {}
    ensures w.core.pending == map[]
  {
    if path :| path in w.core.pending { NoLostEvent(w, path); }
  }

  /** No path is called back twice for one claim. */
  lemma CalledOncePerClaim(w: State)
    requires Reachable(w)
    ensures forall i, j :: 0 <= i < j < |w.called| ==> w.called[i] != w.called[j]
    ensures forall s :: s in w.called ==> s in w.claims && s !in w.toCall
  {
    ReachableInv(w);
  }

  ghost predicate NoEvents(actions: seq<Action>) {
    forall k :: 0 <= k < |actions| ==> !actions[k].DoRecord?
  }

  /** `wNext` has claimed nothing, and is about to claim nothing, that was issued by the time of `w`. */
  ghost predicate OnlyLater(w: State, wNext: State) {
    && w.issued <= wNext.issued
    && (forall p :: p in wNext.core.pending ==> wNext.core.pending[p] > |w.issued|)
    && (forall s :: s in wNext.claims ==> s in w.claims || s > |w.issued|)
    && (forall s :: s in wNext.called || s in wNext.toCall ==> s in w.called || s in w.toCall || s > |w.issued|)
  }

  lemma OnlyLaterClaim(w: State, before: State, s: nat)
    requires MapsOk(before) && OnlyLater(w, before) && s in before.running && Pending(before, s)
    ensures OnlyLater(w, Step(before, DoFire(s)))
  {
    var after := Step(before, DoFire(s));
    assert s > |w.issued|;
    assert forall q :: q in after.claims ==> q in before.claims || q == s;
  }

  lemma OnlyLaterCallback(w: State, before: State, s: nat)
    requires OnlyLater(w, before)
    ensures OnlyLater(w, Step(before, DoCallback(s)))
  {
    var after := Step(before, DoCallback(s));
    assert s in before.toCall ==> forall q :: q in after.called ==> q in before.called || q == s;
  }

  lemma OnlyLaterStep(w: State, before: State, a: Action)
    requires MapsOk(before) && OnlyLater(w, before)
    ensures OnlyLater(w, Step(before, a))
  {
    if a.DoCallback? {
      OnlyLaterCallback(w, before, a.s);
    } else if a.DoFire? {
      if a.s in before.running && Pending(before, a.s) { OnlyLaterClaim(w, before, a.s); }
    } else {
      assert Step(before, a).claims == before.claims && Step(before, a).called == before.called;
    }
  }

  /** Once stop has cleared the maps, no number issued so far is claimed any more, whatever happens next. */
  lemma {:induction false} StopIsFinal(w: State, actions: seq<Action>)
    requires Inv(w) && w.core.pending == map[]
    ensures OnlyLater(w, Run(w, actions))
  {
    if actions != [] {
      StopIsFinal(w, actions[..|actions| - 1]);
      RunKeeps(w, actions[..|actions| - 1]);
      OnlyLaterStep(w, Run(w, actions[..|actions| - 1]), actions[|actions| - 1]);
    }
  }

  /** As long as no event arrives after the clear, nothing at all is claimed. */
  lemma {:induction false} StopSilencesTimers(w: State, actions: seq<Action>)
    requires Inv(w) && w.core.pending == map[] && NoEvents(actions)
    ensures var wNext := Run(w, actions);
      && wNext.claims == w.claims && wNext.core.pending == map[] && wNext.toCall <= w.toCall
      && (w.toCall == {} ==> wNext.called == w.called)
  {
    if actions != [] {
      StopSilencesTimers(w, actions[..|actions| - 1]);
      assert !actions[|actions| - 1].DoRecord?;
    }
  }

  /** No callback comes after the clear, in every run without a late event, if and only if no claim is on its way. */
  lemma StoppedIsSilentIff(w: State)
    requires Inv(w) && w.core.pending == map[]
    ensures (forall actions :: NoEvents(actions) ==> Run(w, actions).called == w.called) <==> w.toCall == {}
  {
    if s :| s in w.toCall {
      var actions := [DoCallback(s)];
      assert actions[..|actions| - 1] == [] && Run(w, []) == w;
      assert Run(w, actions) == Step(w, DoCallback(s));
      assert Run(w, actions).called == w.called + [s];
      assert NoEvents(actions);
    } else {
      forall actions | NoEvents(actions) ensures Run(w, actions).called == w.called {
        StopSilencesTimers(w, actions);
      }
    }
  }

  /** An event after the clear, which the observer can deliver when its join times out, is claimed as any other. */
  lemma LateEventIsClaimed(w: State, path: Path, now: int)
    requires Inv(w) && w.core.pending == map[]
    ensures var s := |w.issued| + 1;
      var late := [DoRecord(path, now), DoStartTimer(s), DoExpire(s), DoFire(s), DoCallback(s)];
      Run(w, late[..4]).claims == w.claims + [s] && Run(w, late).called == w.called + [s]
  {
    var s := |w.issued| + 1;
    var late := [DoRecord(path, now), DoStartTimer(s), DoExpire(s), DoFire(s), DoCallback(s)];
    assert late[..4][..3] == late[..3] && late[..3][..2] == late[..2];
    assert late[..2][..1] == late[..1] && late[..1][..0] == [];
    assert !Issued(w, s);
    assert s !in w.claims && s !in w.superseded && s !in w.dropped;
    assert s !in w.cancelled && s !in w.toCall;
    assert Run(w, late[..1]) == Step(w, late[0]);
    assert Run(w, late[..2]) == Step(Run(w, late[..1]), late[1]);
    assert Run(w, late[..3]) == Step(Run(w, late[..2]), late[2]);
    assert Run(w, late[..4]) == Step(Run(w, late[..3]), late[3]);
    assert Run(w, late) == Step(Run(w, late[..4]), late[4]);
  }

  /** A concrete run in which a callback comes after stop has returned: it was claimed before. */
  lemma CallbackAfterStop()
    ensures var before := [DoStart, DoRecord("note.md", 0), DoStartTimer(1), DoExpire(1), DoFire(1), DoStop];
      var stopped := Run(INITIAL, before);
      && !stopped.started && stopped.core.pending == map[] && stopped.toCancel == {} && stopped.called == []
      && Step(stopped, DoCallback(1)).called == [1]
  {
    var before := [DoStart, DoRecord("note.md", 0), DoStartTimer(1), DoExpire(1), DoFire(1), DoStop];
    var w1 := Step(INITIAL, DoStart);
    var w2 := Step(w1, DoRecord("note.md", 0));
    var w3 := Step(w2, DoStartTimer(1));
    var w4 := Step(w3, DoExpire(1));
    var w5 := Step(w4, DoFire(1));
    var w6 := Step(w5, DoStop);
    RunUnrolls(before);
    assert w6.core.pending == map[] && w6.toCancel == {};
  }

  /** A run of six actions, one step at a time. */
  lemma RunUnrolls(a: seq<Action>)
    requires |a| == 6
    ensures Run(INITIAL, a) == Step(Step(Step(Step(Step(Step(INITIAL, a[0]), a[1]), a[2]), a[3]), a[4]), a[5])
  {
    assert a[..5][..4] == a[..4] && a[..4][..3] == a[..3] && a[..3][..2] == a[..2] && a[..2][..1] == a[..1];
    assert a[..1][..0] == [];
    assert Run(INITIAL, a[..1]) == Step(INITIAL, a[0]);
    assert Run(INITIAL, a[..2]) == Step(Run(INITIAL, a[..1]), a[1]);
    assert Run(INITIAL, a[..3]) == Step(Run(INITIAL, a[..2]), a[2]);
    assert Run(INITIAL, a[..4]) == Step(Run(INITIAL, a[..3]), a[3]);
    assert Run(INITIAL, a[..5]) == Step(Run(INITIAL, a[..4]), a[4]);
  }
}
