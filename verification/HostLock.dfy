/** The host role of one data directory (`claim_host_role`, `start_local` and `stop_local` of
    `apps/desktop/src/remote_control.rs`), with any number of processes interleaving their steps.
    Assumed of the operating system: a lock has one holder, and a process that dies loses both its
    lock and its listener. */
module HostLock {

  /** Where a process stands between the steps that are not atomic. */
  datatype Phase = Idle | Claimed | Dropped

  /** `lingering`: the accept task of a dropped handle has been aborted but not yet reaped. */
  datatype Process = Process(holdsLock: bool, bound: bool, phase: Phase, lingering: bool)

  type World = seq<Process>

  datatype Step =
    | Claim(p: nat, readable: bool)   // start_local: take the role; the lock file may be unreadable
    | Bind(p: nat, binds: bool)       // start_local: bind the listener
    | DropListener(p: nat)            // stop_local: the listener goes first ...
    | Release(p: nat)                 // ... then the role
    | Reap(p: nat)                    // the runtime drops an aborted accept task
    | Die(p: nat)

  predicate LockIsFree(w: World) {
    forall q :: 0 <= q < |w| ==> !w[q].holdsLock
  }

  function Next(w: World, step: Step): (r: World)
    ensures |r| == |w|
  {
    var p := step.p;
    if p >= |w| then w
    else
      match step
      case Claim(_, readable) =>
        if w[p].phase != Idle then w
        else if w[p].holdsLock then w[p := w[p].(phase := Claimed)]
        else if readable && LockIsFree(w) then w[p := w[p].(holdsLock := true, phase := Claimed)]
        else w
      case Bind(_, binds) =>
        if w[p].phase != Claimed then w
        else if binds then w[p := w[p].(bound := true, lingering := w[p].lingering || w[p].bound, phase := Idle)]
        else w[p := w[p].(phase := Idle)]
      case DropListener(_) =>
        if w[p].phase != Idle then w
        else w[p := w[p].(bound := false, lingering := w[p].lingering || w[p].bound, phase := Dropped)]
      case Release(_) =>
        if w[p].phase != Dropped then w else w[p := w[p].(holdsLock := false, phase := Idle)]
      case Reap(_) => w[p := w[p].(lingering := false)]
      case Die(_) => w[p := Process(false, false, Idle, false)]
  }

  function Run(w: World, steps: seq<Step>): (r: World)
    ensures |r| == |w|
    decreases |steps|
  {
    if steps == [] then w else Run(Next(w, steps[0]), steps[1..])
  }

  function Start(n: nat): World { seq(n, _ => Process(false, false, Idle, false)) }

  /** A process is a host only under the lock, and the lock has one holder. */
  ghost predicate Safe(w: World) {
    && (forall p :: 0 <= p < |w| && (w[p].bound || w[p].phase == Claimed) ==> w[p].holdsLock)
    && (forall p :: 0 <= p < |w| && w[p].phase == Dropped ==> !w[p].bound)
    && (forall p, q :: 0 <= p < |w| && 0 <= q < |w| && w[p].holdsLock && w[q].holdsLock ==> p == q)
  }

  lemma {:induction false} RunIsSafe(w: World, steps: seq<Step>)
    requires Safe(w)
    ensures Safe(Run(w, steps))
    decreases |steps|
  {
    if steps != [] {
      assert Safe(Next(w, steps[0]));
      RunIsSafe(Next(w, steps[0]), steps[1..]);
    }
  }

  /** In every interleaving a bound listener implies the lock, so no two processes have one bound. */
  lemma OneHostAtATime(n: nat, steps: seq<Step>, p: nat, q: nat)
    requires p < n && q < n
    ensures var w := Run(Start(n), steps);
            && (w[p].bound ==> w[p].holdsLock)
            && (w[p].bound && w[q].bound ==> p == q)
  {
    RunIsSafe(Start(n), steps);
  }

  lemma {:induction false} OthersLeaveHolderAlone(w: World, q: nat, steps: seq<Step>)
    requires Safe(w) && q < |w| && w[q].holdsLock && forall i :: 0 <= i < |steps| ==> steps[i].p != q
    ensures Safe(Run(w, steps)) && Run(w, steps)[q] == w[q]
    decreases |steps|
  {
    if steps != [] {
      assert steps[0].p != q;
      assert Safe(Next(w, steps[0])) && Next(w, steps[0])[q] == w[q];
      OthersLeaveHolderAlone(Next(w, steps[0]), q, steps[1..]);
    }
  }

  /** However long a holder does nothing, no other process gets the role or binds a listener, and the
      holder's own claim, on the next toggle, still succeeds. */
  lemma {:induction false} HolderKeepsTheRole(n: nat, before: seq<Step>, q: nat, steps: seq<Step>, readable: bool)
    requires q < n && Run(Start(n), before)[q].holdsLock && forall i :: 0 <= i < |steps| ==> steps[i].p != q
    ensures var w := Run(Run(Start(n), before), steps);
            && w[q] == Run(Start(n), before)[q]
            && (forall p :: 0 <= p < n && p != q ==> !w[p].holdsLock && !w[p].bound)
            && (w[q].phase == Idle ==> Next(w, Claim(q, readable))[q] == w[q].(phase := Claimed))
  {
    RunIsSafe(Start(n), before);
    OthersLeaveHolderAlone(Run(Start(n), before), q, steps);
  }

  /** Once a holder has stopped, the role can be taken again by anyone. */
  lemma StopFreesTheRole(n: nat, steps: seq<Step>, p: nat, q: nat)
    requires p < n && q < n
    requires var w := Run(Start(n), steps); w[p].holdsLock && w[p].phase == Idle && w[q].phase == Idle
    ensures var w := Next(Next(Run(Start(n), steps), DropListener(p)), Release(p));
            !w[p].bound && LockIsFree(w) && Next(w, Claim(q, true))[q].holdsLock
  {
    RunIsSafe(Start(n), steps);
  }

  lemma TwoSteps(w: World, x: Step, y: Step)
    ensures Run(w, [x, y]) == Next(Next(w, x), y)
  {
    assert [x, y][1..] == [y];
    assert Run(Next(w, x), [y]) == Next(Next(w, x), y);
  }

  predicate SameButFor(w: World, v: World, q: nat) {
    |v| == |w| && forall p :: 0 <= p < |w| && p != q ==> v[p] == w[p]
  }

  /** What a start comes to: the role is had if it was before, or if the lock could be read and no other
      process holds it; the listener is there if it was before, or if the role was had and it could be
      bound. No other process notices. */
  lemma StartComesTo(n: nat, before: seq<Step>, q: nat, readable: bool, binds: bool)
    requires q < n && Run(Start(n), before)[q].phase == Idle
    ensures var w := Run(Start(n), before);
            var v := Run(w, [Claim(q, readable), Bind(q, binds)]);
            var granted := w[q].holdsLock || (readable && forall p :: 0 <= p < n && p != q ==> !w[p].holdsLock);
            && v[q] == Process(granted, w[q].bound || (granted && binds), Idle, w[q].lingering || (w[q].bound && binds))
            && SameButFor(w, v, q)
  {
    var w := Run(Start(n), before);
    RunIsSafe(Start(n), before);
    TwoSteps(w, Claim(q, readable), Bind(q, binds));
    assert w[q].holdsLock || (LockIsFree(w) <==> forall p :: 0 <= p < n && p != q ==> !w[p].holdsLock);
  }

  /** A stop, or the end of the process, gives up lock and listener. No other process notices, and if the
      role was held it is free. */
  lemma StopOrDeathComesTo(n: nat, before: seq<Step>, p: nat)
    requires p < n
    ensures var w := Run(Start(n), before);
            var stopped, dead := Run(w, [DropListener(p), Release(p)]), Next(w, Die(p));
            && SameButFor(w, stopped, p) && SameButFor(w, dead, p)
            && dead[p] == Process(false, false, Idle, false)
            && (w[p].phase == Idle ==> stopped[p] == Process(false, false, Idle, w[p].lingering || w[p].bound))
            && (w[p].holdsLock ==> LockIsFree(dead) && (w[p].phase == Idle ==> LockIsFree(stopped)))
  {
    RunIsSafe(Start(n), before);
    TwoSteps(Run(Start(n), before), DropListener(p), Release(p));
  }

  // ---------- Aborted accept tasks ----------

  predicate Serves(x: Process) { x.bound || x.lingering }

  ghost predicate Overlaps(w: World) {
    exists p, q :: 0 <= p < q < |w| && Serves(w[p]) && Serves(w[q])
  }

  /** No role is released while the accept task of a dropped listener still lingers. */
  predicate WaitsForTasks(w: World, steps: seq<Step>)
    decreases |steps|
  {
    steps == [] || (
      && (steps[0].Release? && steps[0].p < |w| && w[steps[0].p].phase == Dropped ==> !w[steps[0].p].lingering)
      && WaitsForTasks(Next(w, steps[0]), steps[1..]))
  }

  /** Lingering tasks, too, live only under the lock. */
  ghost predicate Contained(w: World) {
    Safe(w) && forall p :: 0 <= p < |w| && w[p].lingering ==> w[p].holdsLock
  }

  lemma {:induction false} WaitingContains(w: World, steps: seq<Step>)
    requires Contained(w) && WaitsForTasks(w, steps)
    ensures Contained(Run(w, steps)) && !Overlaps(Run(w, steps))
    decreases |steps|
  {
    if steps != [] {
      assert Contained(Next(w, steps[0]));
      WaitingContains(Next(w, steps[0]), steps[1..]);
    }
  }

  /** If every release waits for the aborted task, two processes never serve at once. */
  lemma NoOverlapWhenReleasesWait(n: nat, steps: seq<Step>)
    requires WaitsForTasks(Start(n), steps)
    ensures !Overlaps(Run(Start(n), steps))
  {
    WaitingContains(Start(n), steps);
  }

  /** What another process does with a role released too early. */
  function TakeOver(w: World, q: nat): seq<Step>
    requires q < |w|
  {
    (if w[q].phase == Dropped then [Release(q)] else []) + [Claim(q, true), Bind(q, true)]
  }

  lemma EarlyReleaseOverlaps(w: World, p: nat, q: nat)
    requires Contained(w) && p < |w| && q < |w| && p != q && w[p].phase == Dropped && w[p].lingering
    ensures var v := Next(w, Release(p));
            WaitsForTasks(v, TakeOver(v, q)) && Overlaps(Run(v, TakeOver(v, q)))
  {
    var v := Next(w, Release(p));
    var v1 := if v[q].phase == Dropped then Next(v, Release(q)) else v;
    assert LockIsFree(v) && v[q].phase != Claimed && !v[q].lingering;
    var v2 := Next(v1, Claim(q, true));
    var v3 := Next(v2, Bind(q, true));
    assert LockIsFree(v1) && v1[q].phase == Idle;
    assert v3[p].lingering && v3[q].bound;
    var last := [Claim(q, true), Bind(q, true)];
    assert last[1..] == [Bind(q, true)];
    assert Run(v2, [Bind(q, true)]) == v3;
    assert WaitsForTasks(v2, [Bind(q, true)]);
    assert Run(v1, last) == v3 && WaitsForTasks(v1, last);
    var steps := TakeOver(v, q);
    if v[q].phase == Dropped { assert steps[1..] == last; } else { assert steps == last; }
    assert Run(v, steps) == v3 && WaitsForTasks(v, steps);
  }

  /** With every release of the run waiting. */
  ghost predicate CanOverlap(w: World) {
    exists steps :: WaitsForTasks(w, steps) && Overlaps(Run(w, steps))
  }

  /** Exactly then: among processes that have waited so far, a release makes an overlap possible, with
      every later release waiting, if and only if the released process's own task still lingers. */
  lemma {:induction false} OverlapIffReleasedEarly(n: nat, before: seq<Step>, p: nat)
    requires 1 < n && p < n && WaitsForTasks(Start(n), before) && Run(Start(n), before)[p].phase == Dropped
    ensures var w := Run(Start(n), before);
            w[p].lingering <==> CanOverlap(Next(w, Release(p)))
  {
    var w := Run(Start(n), before);
    WaitingContains(Start(n), before);
    var v := Next(w, Release(p));
    if w[p].lingering {
      var q := if p == 0 then 1 else 0;
      EarlyReleaseOverlaps(w, p, q);
      assert WaitsForTasks(v, TakeOver(v, q)) && Overlaps(Run(v, TakeOver(v, q)));
    } else {
      assert Contained(v);
      forall steps | WaitsForTasks(v, steps)
        ensures !Overlaps(Run(v, steps))
      {
        WaitingContains(v, steps);
      }
    }
  }

  lemma {:induction false} OneMoreStep(w: World, steps: seq<Step>, step: Step)
    ensures Run(w, steps + [step]) == Next(Run(w, steps), step)
    ensures WaitsForTasks(w, steps) && !step.Release? ==> WaitsForTasks(w, steps + [step])
    decreases |steps|
  {
    var all := steps + [step];
    if steps == [] {
      assert all == [step];
      assert Run(Next(w, step), []) == Next(w, step);
    } else {
      assert all[1..] == steps[1..] + [step];
      OneMoreStep(Next(w, steps[0]), steps[1..], step);
    }
  }

  /** Waiting is enough: once the task has been reaped, releasing makes no overlap possible. */
  lemma {:induction false} ReapedReleaseIsSafe(n: nat, before: seq<Step>, p: nat)
    requires 1 < n && p < n && WaitsForTasks(Start(n), before) && Run(Start(n), before)[p].phase == Dropped
    ensures !CanOverlap(Next(Next(Run(Start(n), before), Reap(p)), Release(p)))
  {
    OneMoreStep(Start(n), before, Reap(p));
    OverlapIffReleasedEarly(n, before + [Reap(p)], p);
  }

  /** The source's release does not wait, so the lingering state is one a stop can really meet: after
      any run, a process with its listener bound has a lingering task when it comes to release. */
  lemma StopReleasesEarly(n: nat, before: seq<Step>, p: nat)
    requires p < n && Run(Start(n), before)[p].bound && Run(Start(n), before)[p].phase == Idle
    ensures var w := Next(Run(Start(n), before), DropListener(p));
            w[p].phase == Dropped && w[p].holdsLock && w[p].lingering
  {
    RunIsSafe(Start(n), before);
  }
}
