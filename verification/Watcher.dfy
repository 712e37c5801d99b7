/**
  The debouncing watcher as interleaved steps: an event, a timer that starts,
  is cancelled, expires or fires, a callback, and stop.  Each region under the
  lock is one atomic step; cancelling and starting timers and calling back
  happen outside it and are steps of their own.
 */
module Watcher {
  import opened Wrappers

  type Path = string

  /** The fields that the lock guards. */
  datatype Core = Core(pending: map<Path, nat>, lastSeen: map<Path, int>, nextSequence: nat)

  /** The locked region of _record_event. */
  function Record(c: Core, path: Path, now: int): Core {
    Core(c.pending[path := c.nextSequence + 1], c.lastSeen[path := now], c.nextSequence + 1)
  }

  predicate Claims(c: Core, path: Path, sequence: nat) {
    path in c.pending && c.pending[path] == sequence
  }

  /** The locked region of _fire. */
  function Fire(c: Core, path: Path, sequence: nat): Core {
    if Claims(c, path, sequence) then c.(pending := c.pending - {path}, lastSeen := c.lastSeen - {path}) else c
  }

  /** The locked region of stop. */
  function Clear(c: Core): Core {
    c.(pending := map[], lastSeen := map[])
  }

  class VaultWatcher {
    var pending: map<Path, nat>
    var lastSeen: map<Path, int>
    var nextSequence: nat
    var started: bool

    ghost function View(): Core
      reads this
    {
      Core(pending, lastSeen, nextSequence)
    }

    constructor ()
      ensures View() == Core(map[], map[], 0) && !started
    {
      pending, lastSeen, nextSequence, started := map[], map[], 0, false;
    }

    method Start()
      modifies this
      ensures started && View() == old(View())
    {
      if started { return; }
      started := true;
    }

    /** Answers the timer to start and the superseded timer to cancel. */
    method RecordEvent(path: Path, now: int) returns (sequence: nat, previous: Option<nat>)
      modifies this
      ensures View() == Record(old(View()), path, now) && started == old(started)
      ensures sequence == nextSequence
      ensures previous == if path in old(pending) then Some(old(pending)[path]) else None
    {
      lastSeen := lastSeen[path := now];
      nextSequence := nextSequence + 1;
      sequence := nextSequence;
      previous := if path in pending then Some(pending[path]) else None;
      pending := pending[path := sequence];
    }

    /** Answers whether the caller goes on to call back. */
    method FireTimer(path: Path, sequence: nat) returns (claimed: bool)
      modifies this
      ensures View() == Fire(old(View()), path, sequence) && started == old(started)
      ensures claimed <==> Claims(old(View()), path, sequence)
    {
      if path !in pending || pending[path] != sequence { return false; }
      pending := pending - {path};
      lastSeen := lastSeen - {path};
      return true;
    }

    /** Answers the timers that it dropped and is about to cancel. */
    method Stop() returns (entries: set<nat>)
      modifies this
      ensures !started
      ensures !old(started) ==> View() == old(View()) && entries == {}
      ensures old(started) ==> View() == Clear(old(View())) && entries == old(pending).Values
    {
      if !started { return {}; }
      entries := pending.Values;
      pending := map[];
      lastSeen := map[];
      started := false;
    }
  }

  // ----- the interleavings -----

  /**
    The watcher, its timer threads, and what became of every sequence number:
    number `s` was issued for path `issued[s - 1]`.
   */
  datatype State = State(
    core: Core, started: bool,
    toStart: set<nat>, toCancel: set<nat>, waiting: set<nat>, cancelled: set<nat>, running: set<nat>,
    issued: seq<Path>,
    superseded: set<nat>, claims: seq<nat>, dropped: set<nat>,
    toCall: set<nat>, called: seq<nat>)

  datatype Action =
    | DoStart
    | DoRecord(path: Path, now: int)
    | DoStartTimer(s: nat)
    | DoCancelTimer(s: nat)
    | DoExpire(s: nat)
    | DoFire(s: nat)
    | DoCallback(s: nat)
    | DoStop

  const INITIAL := State(Core(map[], map[], 0), false, {}, {}, {}, {}, {}, [], {}, [], {}, {}, [])

  /** A step that is not enabled leaves the state as it is. */
  function Step(w: State, a: Action): State {
    match a
    case DoStart => w.(started := true)
    case DoRecord(path, now) =>
      var previous := if path in w.core.pending then {w.core.pending[path]} else {};
      var core := Record(w.core, path, now);
      w.(core := core, issued := w.issued + [path], toStart := w.toStart + {core.nextSequence},
         superseded := w.superseded + previous, toCancel := w.toCancel + previous)
    case DoStartTimer(s) =>
      if s !in w.toStart then w
      else w.(toStart := w.toStart - {s}, waiting := if s in w.cancelled then w.waiting else w.waiting + {s})
    case DoCancelTimer(s) =>
      if s !in w.toCancel then w
      else w.(toCancel := w.toCancel - {s}, cancelled := w.cancelled + {s}, waiting := w.waiting - {s})
    case DoExpire(s) =>
      if s !in w.waiting then w else w.(waiting := w.waiting - {s}, running := w.running + {s})
    case DoFire(s) =>
      if s !in w.running || s == 0 || s > |w.issued| then w
      else
        var wNext := w.(running := w.running - {s}, core := Fire(w.core, w.issued[s - 1], s));
        if Claims(w.core, w.issued[s - 1], s) then wNext.(claims := w.claims + [s], toCall := w.toCall + {s}) else wNext
    case DoCallback(s) =>
      if s !in w.toCall then w else w.(toCall := w.toCall - {s}, called := w.called + [s])
    case DoStop =>
      if !w.started then w
      else
        var entries := w.core.pending.Values;
        w.(started := false, core := Clear(w.core), dropped := w.dropped + entries, toCancel := w.toCancel + entries)
  }

  function Run(w: State, actions: seq<Action>): State {
    if actions == [] then w else Step(Run(w, actions[..|actions| - 1]), actions[|actions| - 1])
  }

  predicate Issued(w: State, s: nat) {
    1 <= s <= |w.issued|
  }

  /** `s` is the number that the debounce map holds for its path. */
  predicate Pending(w: State, s: nat) {
    Issued(w, s) && Claims(w.core, w.issued[s - 1], s)
  }

  /** No later event for the path of `s`. */
  ghost predicate Newest(w: State, s: nat) {
    Issued(w, s) && forall j :: s <= j < |w.issued| ==> w.issued[j] != w.issued[s - 1]
  }

  /** Each issued number has exactly one fate. */
  ghost predicate OneFate(w: State, s: nat) {
    && (Pending(w, s) || s in w.superseded || s in w.claims || s in w.dropped)
    && (Pending(w, s) ==> s !in w.superseded && s !in w.claims && s !in w.dropped)
    && (s in w.superseded ==> s !in w.claims && s !in w.dropped)
    && (s in w.claims ==> s !in w.dropped)
  }

  ghost predicate MapsOk(w: State) {
    && w.core.nextSequence == |w.issued|
    && w.core.pending.Keys == w.core.lastSeen.Keys
    && (forall p :: p in w.core.pending ==>
          Issued(w, w.core.pending[p]) && w.issued[w.core.pending[p] - 1] == p && Newest(w, w.core.pending[p]))
  }

  ghost predicate FatesOk(w: State) {
    && (forall s :: Issued(w, s) ==> OneFate(w, s))
    && (forall s :: s in w.superseded || s in w.claims || s in w.dropped ==> Issued(w, s))
    && (forall i, j :: 0 <= i < j < |w.claims| ==> w.claims[i] != w.claims[j])
  }

  /** Only superseded and dropped timers are ever cancelled, so no pending event can be lost. */
  ghost predicate TimersOk(w: State) {
    && (forall s :: s in w.toCancel || s in w.cancelled ==> s in w.superseded || s in w.dropped)
    && (forall s :: Issued(w, s) && Pending(w, s) ==> s in w.toStart || s in w.waiting || s in w.running)
    && (forall s :: s in w.toStart || s in w.waiting || s in w.running ==> Issued(w, s))
  }

  /** Callbacks are made once per claim. */
  ghost predicate CallsOk(w: State) {
    && (forall s :: s in w.claims <==> s in w.toCall || s in w.called)
    && (forall s :: s in w.toCall ==> s !in w.called)
    && (forall i, j :: 0 <= i < j < |w.called| ==> w.called[i] != w.called[j])
  }

  ghost predicate Inv(w: State) {
    MapsOk(w) && FatesOk(w) && TimersOk(w) && CallsOk(w)
  }

  lemma RecordKeepsMaps(w: State, path: Path, now: int)
    requires MapsOk(w)
    ensures MapsOk(Step(w, DoRecord(path, now)))
  {
    var wNext := Step(w, DoRecord(path, now));
    forall p | p in wNext.core.pending
      ensures Issued(wNext, wNext.core.pending[p])
      ensures wNext.issued[wNext.core.pending[p] - 1] == p && Newest(wNext, wNext.core.pending[p])
    {
      if p != path {
        var s := w.core.pending[p];
        assert Newest(w, s);
      }
    }
  }

  lemma RecordKeepsFates(w: State, path: Path, now: int)
    requires MapsOk(w) && FatesOk(w) && TimersOk(w)
    ensures FatesOk(Step(w, DoRecord(path, now))) && TimersOk(Step(w, DoRecord(path, now)))
  {
    var wNext := Step(w, DoRecord(path, now));
    forall s | Issued(wNext, s)
      ensures OneFate(wNext, s)
      ensures Pending(wNext, s) ==> s in wNext.toStart || s in wNext.waiting || s in wNext.running
    {
      if s != |w.issued| + 1 {
        assert Issued(w, s) && OneFate(w, s) && wNext.issued[s - 1] == w.issued[s - 1];
      }
    }
  }

  /** A step that decides no fate. */
  ghost predicate SameFates(w: State, wNext: State) {
    && wNext.core == w.core && wNext.issued == w.issued
    && wNext.superseded == w.superseded && wNext.claims == w.claims && wNext.dropped == w.dropped
  }

  lemma SameFatesKeeps(w: State, wNext: State)
    requires SameFates(w, wNext) && MapsOk(w) && FatesOk(w)
    ensures MapsOk(wNext) && FatesOk(wNext)
  {
    forall p | p in wNext.core.pending ensures Newest(wNext, wNext.core.pending[p]) {
      assert Newest(w, w.core.pending[p]);
    }
    forall s | Issued(wNext, s) ensures OneFate(wNext, s) { assert OneFate(w, s); }
  }

  lemma CallbackKeeps(w: State, s: nat)
    requires Inv(w)
    ensures Inv(Step(w, DoCallback(s)))
  {
    SameFatesKeeps(w, Step(w, DoCallback(s)));
  }

  /** A timer that is or will be cancelled holds no pending event. */
  lemma CancelledNotPending(w: State, s: nat)
    requires FatesOk(w) && TimersOk(w) && (s in w.toCancel || s in w.cancelled)
    ensures !Pending(w, s)
  {
    assert Issued(w, s) ==> OneFate(w, s);
  }

  lemma TimerStepKeepsTimers(w: State, a: Action)
    requires FatesOk(w) && TimersOk(w) && (a.DoStart? || a.DoStartTimer? || a.DoCancelTimer? || a.DoExpire?)
    ensures TimersOk(Step(w, a))
  {
    var wNext := Step(w, a);
    forall s | Issued(wNext, s) && Pending(wNext, s)
      ensures s in wNext.toStart || s in wNext.waiting || s in wNext.running
    {
      assert Pending(w, s);
      if s in w.toCancel || s in w.cancelled { CancelledNotPending(w, s); }
    }
  }

  lemma TimerStepKeeps(w: State, a: Action)
    requires Inv(w) && (a.DoStart? || a.DoStartTimer? || a.DoCancelTimer? || a.DoExpire?)
    ensures Inv(Step(w, a))
  {
    SameFatesKeeps(w, Step(w, a));
    TimerStepKeepsTimers(w, a);
  }

  lemma ClaimKeepsMaps(w: State, s: nat)
    requires MapsOk(w) && s in w.running && Pending(w, s)
    ensures MapsOk(Step(w, DoFire(s)))
  {
    var wNext, path := Step(w, DoFire(s)), w.issued[s - 1];
    assert wNext.core == Core(w.core.pending - {path}, w.core.lastSeen - {path}, w.core.nextSequence);
    WithoutPath(w, wNext, path);
  }

  /** Taking a path out of both maps leaves the rest in order. */
  lemma WithoutPath(w: State, wNext: State, path: Path)
    requires MapsOk(w) && wNext.issued == w.issued
    requires wNext.core == Core(w.core.pending - {path}, w.core.lastSeen - {path}, w.core.nextSequence)
    ensures MapsOk(wNext)
  {
    forall p | p in wNext.core.pending ensures Newest(wNext, wNext.core.pending[p]) {
      assert Newest(w, w.core.pending[p]);
    }
  }

  /** A claim settles its own number and no other. */
  lemma ClaimSettlesOne(w: State, s: nat, q: nat)
    requires s in w.running && Pending(w, s) && Issued(w, q)
    ensures var wNext := Step(w, DoFire(s));
      && (Pending(wNext, q) <==> Pending(w, q) && q != s)
      && (q in wNext.claims <==> q in w.claims || q == s)
  {
  }

  lemma ClaimKeepsFate(w: State, s: nat, q: nat)
    requires FatesOk(w) && s in w.running && Pending(w, s) && Issued(w, q)
    ensures OneFate(Step(w, DoFire(s)), q)
  {
    ClaimSettlesOne(w, s, q);
    assert OneFate(w, q);
  }

  lemma ClaimKeepsFates(w: State, s: nat)
    requires MapsOk(w) && FatesOk(w) && s in w.running && Pending(w, s)
    ensures FatesOk(Step(w, DoFire(s)))
  {
    var wNext := Step(w, DoFire(s));
    forall q | Issued(wNext, q) ensures OneFate(wNext, q) { ClaimKeepsFate(w, s, q); }
    assert OneFate(w, s);
    assert wNext.claims == w.claims + [s];
  }

  lemma ClaimKeepsTimers(w: State, s: nat)
    requires FatesOk(w) && TimersOk(w) && CallsOk(w) && s in w.running && Pending(w, s)
    ensures TimersOk(Step(w, DoFire(s))) && CallsOk(Step(w, DoFire(s)))
  {
    var wNext := Step(w, DoFire(s));
    assert OneFate(w, s);
    assert forall q :: q in wNext.claims <==> q in w.claims || q == s;
  }

  lemma ClaimKeeps(w: State, s: nat)
    requires Inv(w) && s in w.running && Pending(w, s)
    ensures Inv(Step(w, DoFire(s)))
  {
    ClaimKeepsMaps(w, s);
    ClaimKeepsFates(w, s);
    ClaimKeepsTimers(w, s);
  }

  /** A timer whose number is not pending any more only ends. */
  lemma NoClaimKeeps(w: State, s: nat)
    requires Inv(w) && s in w.running && !Pending(w, s)
    ensures Inv(Step(w, DoFire(s)))
  {
    SameFatesKeeps(w, Step(w, DoFire(s)));
  }

  lemma FireKeeps(w: State, s: nat)
    requires Inv(w)
    ensures Inv(Step(w, DoFire(s)))
  {
    if s in w.running {
      if Pending(w, s) { ClaimKeeps(w, s); } else { NoClaimKeeps(w, s); }
    }
  }

  lemma StopKeeps(w: State)
    requires Inv(w)
    ensures Inv(Step(w, DoStop))
  {
    var wNext := Step(w, DoStop);
    forall s | Issued(wNext, s) ensures OneFate(wNext, s) {
      assert OneFate(w, s);
      assert w.started && Pending(w, s) ==> s in w.core.pending.Values;
    }
  }

  lemma StepKeeps(w: State, a: Action)
    requires Inv(w)
    ensures Inv(Step(w, a))
  {
    match a {
      case DoRecord(path, now) =>
        RecordKeepsMaps(w, path, now);
        RecordKeepsFates(w, path, now);
      case DoFire(s) => FireKeeps(w, s);
      case DoStop => StopKeeps(w);
      case DoCallback(s) => CallbackKeeps(w, s);
      case _ => TimerStepKeeps(w, a);
    }
  }

  lemma {:induction false} RunKeeps(w: State, actions: seq<Action>)
    requires Inv(w)
    ensures Inv(Run(w, actions))
  {
    if actions != [] {
      RunKeeps(w, actions[..|actions| - 1]);
      StepKeeps(Run(w, actions[..|actions| - 1]), actions[|actions| - 1]);
    }
  }
}
