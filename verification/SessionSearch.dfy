/** The lifecycle of the search indexer, `apps/desktop/src/session_search_service.rs`: toggles from the
    UI thread, a Clear job on a background thread, and the indexer threads, in any interleaving.
    Assumed: a spawned thread does not end before the `previous` it was handed has been joined. A thread
    may fail to spawn. */
module SessionSearch {
  import opened Results

  /** An indexer thread: waiting for its predecessor, with the index open, or gone. */
  datatype Phase = Waiting | Open | Done

  /** `next` is what the thread first waits for; `stop` is its stop flag. */
  datatype Thread = Thread(previous: Option<nat>, phase: Phase, stop: bool)

  /** A Clear job: joining its handles one by one, then deleting the files, then finished. */
  datatype Job = Joining(handles: seq<nat>) | Deleting | Finished

  /** Handles are thread numbers, in the order the threads were started. */
  datatype Service = Service(hasPath: bool, handle: Option<nat>, retired: Option<nat>, clearing: bool)

  datatype World = World(service: Service, threads: seq<Thread>, job: Option<Job>)

  // ---------- The service's methods ----------

  function Signalled(ts: seq<Thread>, h: nat): seq<Thread> {
    if h < |ts| then ts[h := ts[h].(stop := true)] else ts
  }

  /** A thread that could not be spawned counts as ended at once, and the predecessor it was to join is
      dropped, which only signals it. */
  function Started(ts: seq<Thread>, previous: Option<nat>, spawns: bool): seq<Thread> {
    if spawns then ts + [Thread(previous, Waiting, false)]
    else (if previous.Some? then Signalled(ts, previous.value) else ts) + [Thread(previous, Done, false)]
  }

  function AfterSetEnabled(w: World, enabled: bool, spawns: bool): World {
    var s := w.service;
    if s.clearing then w
    else if enabled && s.handle.None? then
      if !s.hasPath then w
      else World(s.(handle := Some(|w.threads|), retired := None), Started(w.threads, s.retired, spawns), w.job)
    else if !enabled && s.handle.Some? then
      World(s.(handle := None, retired := s.handle), Signalled(w.threads, s.handle.value), w.job)
    else w
  }

  function Handles(s: Service): seq<nat> {
    (if s.handle.Some? then [s.handle.value] else []) + (if s.retired.Some? then [s.retired.value] else [])
  }

  function AfterBeginClear(w: World): World {
    var s := w.service;
    if s.clearing then w
    else World(s.(handle := None, retired := None, clearing := true), w.threads, Some(Joining(Handles(s))))
  }

  function AfterResume(w: World, enabled: bool, spawns: bool): World {
    AfterSetEnabled(World(w.service.(clearing := false), w.threads, None), enabled, spawns)
  }

  // ---------- Every step of the system ----------

  datatype Step =
    | Toggle(enabled: bool, spawns: bool)
    | Clear                       // from any window
    | JobSignals                  // the job stops the next handle ...
    | JobJoins                    // ... and returns from joining it
    | JobFinishes                 // the files are gone (or could not be deleted)
    | Resumed(enabled: bool, spawns: bool)  // back on the UI thread, with the setting as it is now
    | OpensIndex(t: nat)          // a thread has joined its predecessor
    | Ends(t: nat)

  predicate IsDone(ts: seq<Thread>, h: Option<nat>) {
    h.None? || h.value >= |ts| || ts[h.value].phase == Done
  }

  function Next(w: World, step: Step): World {
    match step
    case Toggle(enabled, spawns) => AfterSetEnabled(w, enabled, spawns)
    case Clear => AfterBeginClear(w)
    case JobSignals =>
      if w.job.Some? && w.job.value.Joining? && w.job.value.handles != []
      then w.(threads := Signalled(w.threads, w.job.value.handles[0])) else w
    case JobJoins =>
      if w.job.Some? && w.job.value.Joining? then
        var hs := w.job.value.handles;
        if hs == [] then w.(job := Some(Deleting))
        else if IsDone(w.threads, Some(hs[0])) then w.(job := Some(Joining(hs[1..])))
        else w
      else w
    case JobFinishes => if w.job == Some(Deleting) then w.(job := Some(Finished)) else w
    case Resumed(enabled, spawns) => if w.job == Some(Finished) then AfterResume(w, enabled, spawns) else w
    case OpensIndex(t) =>
      if t < |w.threads| && w.threads[t].phase == Waiting && IsDone(w.threads, w.threads[t].previous)
      then w.(threads := w.threads[t := w.threads[t].(phase := Open)]) else w
    case Ends(t) =>
      if t < |w.threads| && IsDone(w.threads, w.threads[t].previous)
      then w.(threads := w.threads[t := w.threads[t].(phase := Done)]) else w
  }

  function Run(w: World, steps: seq<Step>): World
    decreases |steps|
  {
    if steps == [] then w else Run(Next(w, steps[0]), steps[1..])
  }

  function Boot(hasPath: bool): World { World(Service(hasPath, None, None, false), [], None) }

  // ---------- The invariants ----------

  predicate IsLast(w: World, h: nat) { h + 1 == |w.threads| }

  ghost predicate AllDone(w: World) {
    forall t :: 0 <= t < |w.threads| ==> w.threads[t].phase == Done
  }

  /** `t` is the running indexer, or the one a Clear job is about to stop. */
  predicate IsHeld(w: World, t: nat) {
    w.service.handle == Some(t) || (w.job.Some? && w.job.value.Joining? && w.job.value.handles == [t])
  }

  /** Each thread waits for the one before it, if for any. */
  ghost predicate Chained(ts: seq<Thread>) {
    forall t :: 0 <= t < |ts| ==> ts[t].previous == None || ts[t].previous == Some(t - 1)
  }

  /** What every run keeps: only the last thread is in anyone's hands, all others have been stopped. */
  ghost predicate Orderly(w: World) {
    var s := w.service;
    && Chained(w.threads)
    && (forall t :: 0 <= t < |w.threads| && w.threads[t].phase != Done ==> w.threads[t].stop || IsHeld(w, t))
    && (s.handle.Some? ==> s.hasPath && IsLast(w, s.handle.value) && s.retired.None? && !w.threads[s.handle.value].stop)
    && (s.retired.Some? ==> IsLast(w, s.retired.value))
    && (s.clearing <==> w.job.Some?)
    && (s.clearing ==> s.handle.None? && s.retired.None?)
    && (w.job.Some? && w.job.value.Joining? ==> w.job.value.handles == [] || (|w.job.value.handles| == 1 && IsLast(w, w.job.value.handles[0])))
  }

  /** What runs keep in which every lost start comes after its predecessor has ended. */
  ghost predicate Safe(w: World) {
    && Orderly(w)
    && (forall i, j :: 0 <= i < j < |w.threads| && (w.threads[j].phase != Waiting || w.threads[j].previous.None?) ==>
          w.threads[i].phase == Done)
    && (w.service.handle.None? && w.service.retired.None? ==>
          AllDone(w) || (w.job.Some? && w.job.value.Joining? && |w.job.value.handles| == 1))
  }

  lemma SetEnabledIsOrderly(w: World, enabled: bool, spawns: bool)
    requires Orderly(w)
    ensures Orderly(AfterSetEnabled(w, enabled, spawns))
  {
  }

  lemma NextIsOrderly(w: World, step: Step)
    requires Orderly(w)
    ensures Orderly(Next(w, step)) && Next(w, step).service.hasPath == w.service.hasPath
  {
    match step
    case Toggle(enabled, spawns) => SetEnabledIsOrderly(w, enabled, spawns);
    case Clear =>
    case JobSignals =>
    case JobJoins =>
    case JobFinishes =>
    case Resumed(enabled, spawns) =>
      if w.job == Some(Finished) { SetEnabledIsOrderly(World(w.service.(clearing := false), w.threads, None), enabled, spawns); }
    case OpensIndex(t) =>
    case Ends(t) =>
  }

  lemma {:induction false} RunIsOrderly(w: World, steps: seq<Step>)
    requires Orderly(w)
    ensures Orderly(Run(w, steps)) && Run(w, steps).service.hasPath == w.service.hasPath
    decreases |steps|
  {
    if steps != [] {
      NextIsOrderly(w, steps[0]);
      RunIsOrderly(Next(w, steps[0]), steps[1..]);
    }
  }

  /** The setting decides, also when threads fail to spawn: after a toggle outside a Clear, and after
      every Clear, there is a handle exactly when it is on and there is somewhere to keep the index;
      never a running and a retired one together, and neither while a Clear runs. */
  lemma SettingIsFollowed(hasPath: bool, steps: seq<Step>, enabled: bool, spawns: bool)
    ensures var w := Run(Boot(hasPath), steps);
      && (!w.service.clearing ==> (Next(w, Toggle(enabled, spawns)).service.handle.Some? <==> enabled && hasPath))
      && (w.job == Some(Finished) ==> (Next(w, Resumed(enabled, spawns)).service.handle.Some? <==> enabled && hasPath))
      && (w.service.clearing ==> Next(w, Toggle(enabled, spawns)) == w && Next(w, Clear) == w)
      && !(w.service.handle.Some? && w.service.retired.Some?)
      && (w.service.clearing ==> w.service.handle.None? && w.service.retired.None?)
  {
    RunIsOrderly(Boot(hasPath), steps);
  }

  /** A toggle to the state in force changes nothing. Any other outside a Clear starts or stops one
      indexer: a start leaves the threads there are alone, a stop only tells the running one. */
  lemma ToggleChangesOneIndexer(hasPath: bool, steps: seq<Step>, enabled: bool, spawns: bool)
    ensures var w := Run(Boot(hasPath), steps);
            var v := Next(w, Toggle(enabled, spawns));
      && (enabled == w.service.handle.Some? ==> v == w)
      && (|v.threads| == |w.threads| || |v.threads| == |w.threads| + 1)
      && (forall t :: 0 <= t < |w.threads| ==>
            && v.threads[t].phase == w.threads[t].phase && v.threads[t].previous == w.threads[t].previous
            && (v.threads[t].stop <==> w.threads[t].stop || (v != w && (w.service.handle == Some(t) || (!spawns && w.service.retired == Some(t))))))
      && (|v.threads| > |w.threads| ==>
            && v.service.handle == Some(|w.threads|)
            && v.threads[|w.threads|] == Thread(w.service.retired, if spawns then Waiting else Done, false))
      && (v != w && !enabled ==> v.service.retired == w.service.handle && |v.threads| == |w.threads|)
  {
    RunIsOrderly(Boot(hasPath), steps);
  }

  /** A Clear takes both handles at once, leaving the threads alone; when it is over it has left no trace
      but what the setting then asks for. */
  lemma ClearTakesTheHandles(hasPath: bool, steps: seq<Step>, spawns: bool)
    ensures var w := Run(Boot(hasPath), steps);
            var v := Next(w, Clear);
      && (!w.service.clearing ==>
            && v.service == Service(hasPath, None, None, true) && v.threads == w.threads
            && v.job.Some? && v.job.value.Joining?
            && forall h :: h in v.job.value.handles <==> w.service.handle == Some(h) || w.service.retired == Some(h))
      && (w.job == Some(Finished) ==>
            && Next(w, Resumed(false, spawns)) == World(Service(hasPath, None, None, false), w.threads, None)
            && Next(w, Resumed(true, spawns)) == Next(Next(w, Resumed(false, spawns)), Toggle(true, spawns)))
  {
    RunIsOrderly(Boot(hasPath), steps);
  }

  // ---------- One indexer at a time ----------

  /** A start that is lost while the indexer it was to join still runs. */
  predicate IsLostStart(w: World, step: Step) {
    var s := w.service;
    && step == Toggle(true, false) && !s.clearing && s.handle.None? && s.hasPath
    && !IsDone(w.threads, s.retired)
  }

  predicate NoLostStart(w: World, steps: seq<Step>)
    decreases |steps|
  {
    steps == [] || (!IsLostStart(w, steps[0]) && NoLostStart(Next(w, steps[0]), steps[1..]))
  }

  lemma LastDoneMeansAllDone(w: World)
    requires Safe(w) && |w.threads| > 0 && w.threads[|w.threads| - 1].phase == Done
    ensures AllDone(w)
  {
  }

  lemma SetEnabledIsSafe(w: World, enabled: bool, spawns: bool)
    requires Safe(w)
    ensures Safe(AfterSetEnabled(w, enabled, spawns)) <==> !IsLostStart(w, Toggle(enabled, spawns))
  {
    SetEnabledIsOrderly(w, enabled, spawns);
    var v := AfterSetEnabled(w, enabled, spawns);
    if IsLostStart(w, Toggle(enabled, spawns)) {
      var r := w.service.retired.value;
      assert v.threads[r].phase != Done && v.threads[r + 1].phase == Done;
    } else if enabled && w.service.handle.None? && w.service.retired.Some? && w.threads[w.service.retired.value].phase == Done {
      LastDoneMeansAllDone(w);
    }
  }

  lemma ResumeIsSafe(w: World, enabled: bool, spawns: bool)
    requires Safe(w) && w.job == Some(Finished)
    ensures Safe(AfterResume(w, enabled, spawns))
  {
    var v := World(w.service.(clearing := false), w.threads, None);
    assert AllDone(v);
    assert Safe(v);
    SetEnabledIsSafe(v, enabled, spawns);
  }

  lemma NextIsSafe(w: World, step: Step)
    requires Safe(w) && !IsLostStart(w, step)
    ensures Safe(Next(w, step))
  {
    NextIsOrderly(w, step);
    match step
    case Toggle(enabled, spawns) => SetEnabledIsSafe(w, enabled, spawns);
    case Clear =>
    case JobSignals =>
    case JobJoins =>
      if w.job.Some? && w.job.value.Joining? && w.job.value.handles != [] && IsDone(w.threads, Some(w.job.value.handles[0])) {
        LastDoneMeansAllDone(w);
      }
    case JobFinishes =>
    case Resumed(enabled, spawns) => if w.job == Some(Finished) { ResumeIsSafe(w, enabled, spawns); }
    case OpensIndex(t) => PhaseStepIsSafe(w, t, Open);
    case Ends(t) => PhaseStepIsSafe(w, t, Done);
  }

  lemma PhaseStepIsSafe(w: World, t: nat, phase: Phase)
    requires Safe(w) && phase != Waiting
    ensures t < |w.threads| && IsDone(w.threads, w.threads[t].previous) && (phase == Open ==> w.threads[t].phase == Waiting) ==>
      Safe(w.(threads := w.threads[t := w.threads[t].(phase := phase)]))
  {
  }

  lemma {:induction false} RunIsSafe(w: World, steps: seq<Step>)
    requires Safe(w) && NoLostStart(w, steps)
    ensures Safe(Run(w, steps))
    decreases |steps|
  {
    if steps != [] {
      NextIsSafe(w, steps[0]);
      RunIsSafe(Next(w, steps[0]), steps[1..]);
    }
  }

  ghost predicate DeletesUnderOpenIndex(w: World) {
    w.job == Some(Deleting) && exists t :: 0 <= t < |w.threads| && w.threads[t].phase == Open
  }

  /** In every interleaving without a lost start: one index open at most, none while the files are being
      deleted, and no thread left running that nobody has stopped or holds. */
  lemma OneIndexerAtATime(hasPath: bool, steps: seq<Step>)
    requires NoLostStart(Boot(hasPath), steps)
    ensures var w := Run(Boot(hasPath), steps);
      && (forall i, j :: 0 <= i < |w.threads| && 0 <= j < |w.threads| ==>
            w.threads[i].phase == Open && w.threads[j].phase == Open ==> i == j)
      && (w.job == Some(Deleting) ==> AllDone(w))
      && (forall t :: 0 <= t < |w.threads| && w.threads[t].phase != Done ==> w.threads[t].stop || IsHeld(w, t))
  {
    RunIsSafe(Boot(hasPath), steps);
  }

  // ---------- Runs put together ----------

  /** Indexers end as their loop does: with the index open, and only after being told to stop. */
  predicate EndsOnlyStopped(w: World, steps: seq<Step>)
    decreases |steps|
  {
    steps == [] || (
      && (steps[0].Ends? ==> steps[0].t < |w.threads| && w.threads[steps[0].t].phase == Open && w.threads[steps[0].t].stop)
      && EndsOnlyStopped(Next(w, steps[0]), steps[1..]))
  }

  lemma {:induction false} RunJoin(w: World, a: seq<Step>, b: seq<Step>)
    ensures Run(w, a + b) == Run(Run(w, a), b)
    ensures NoLostStart(w, a + b) <==> NoLostStart(w, a) && NoLostStart(Run(w, a), b)
    ensures EndsOnlyStopped(w, a + b) <==> EndsOnlyStopped(w, a) && EndsOnlyStopped(Run(w, a), b)
    decreases |a|
  {
    if a == [] {
      assert a + b == b;
    } else {
      assert (a + b)[1..] == a[1..] + b;
      RunJoin(Next(w, a[0]), a[1..], b);
    }
  }

  lemma RunOneMore(w: World, steps: seq<Step>, step: Step)
    ensures Run(w, steps + [step]) == Next(Run(w, steps), step)
    ensures NoLostStart(w, steps + [step]) <==> NoLostStart(w, steps) && !IsLostStart(Run(w, steps), step)
    ensures EndsOnlyStopped(w, steps + [step]) <==> EndsOnlyStopped(w, steps) && EndsOnlyStopped(Run(w, steps), [step])
  {
    RunJoin(w, steps, [step]);
    var v := Run(w, steps);
    assert Run(v, [step]) == Next(v, step);
    assert NoLostStart(v, [step]) <==> !IsLostStart(v, step);
  }

  /** The steps by which one thread, its predecessor gone and itself stopped, comes to its end. */
  function Winding(t: nat, phase: Phase): seq<Step> {
    if phase == Done then [] else if phase == Open then [Ends(t)] else [OpensIndex(t), Ends(t)]
  }

  lemma WindsDown(w: World, t: nat)
    requires t < |w.threads| && IsDone(w.threads, w.threads[t].previous)
    requires w.threads[t].phase != Done ==> w.threads[t].stop
    ensures var steps := Winding(t, w.threads[t].phase);
            && Run(w, steps) == w.(threads := w.threads[t := w.threads[t].(phase := Done)])
            && EndsOnlyStopped(w, steps) && NoLostStart(w, steps)
  {
    var v := Next(w, OpensIndex(t));
    var both := [OpensIndex(t), Ends(t)];
    assert both[1..] == [Ends(t)];
    if w.threads[t].phase == Waiting {
      assert IsDone(v.threads, v.threads[t].previous);
      assert Run(v, [Ends(t)]) == Next(v, Ends(t)) && EndsOnlyStopped(v, [Ends(t)]) && NoLostStart(v, [Ends(t)]);
      assert Run(w, both) == Next(v, Ends(t));
    }
  }

  /** The first `n` threads, all stopped, end in order; nothing else changes. */
  lemma {:induction false} EndInOrder(w: World, n: nat) returns (steps: seq<Step>)
    requires Chained(w.threads) && n <= |w.threads|
    requires forall t :: 0 <= t < n && w.threads[t].phase != Done ==> w.threads[t].stop
    ensures var v := Run(w, steps);
            && v == w.(threads := v.threads) && |v.threads| == |w.threads|
            && (forall t :: 0 <= t < n ==> v.threads[t].phase == Done)
            && (forall t :: n <= t < |w.threads| ==> v.threads[t] == w.threads[t])
    ensures EndsOnlyStopped(w, steps) && NoLostStart(w, steps)
    decreases n
  {
    if n == 0 {
      steps := [];
    } else {
      var before := EndInOrder(w, n - 1);
      var v := Run(w, before);
      WindsDown(v, n - 1);
      var more := Winding(n - 1, v.threads[n - 1].phase);
      RunJoin(w, before, more);
      steps := before + more;
    }
  }

  // ---------- A Clear can always finish ----------

  /** No deadlock: whatever has happened, a Clear under way can still reach its end, by signalling first
      and with every indexer ending only because it was told to. */
  lemma ClearCanFinish(hasPath: bool, before: seq<Step>) returns (steps: seq<Step>)
    requires Run(Boot(hasPath), before).service.clearing
    ensures Run(Boot(hasPath), before + steps).job == Some(Finished)
    ensures EndsOnlyStopped(Run(Boot(hasPath), before), steps)
  {
    var w := Run(Boot(hasPath), before);
    RunIsOrderly(Boot(hasPath), before);
    var w1 := Next(w, JobSignals);
    NextIsOrderly(w, JobSignals);
    var ends := EndInOrder(w1, |w1.threads|);
    var v := Run(w1, ends);
    var last := FinishJoined(v);
    RunJoin(w1, ends, last);
    steps := [JobSignals] + (ends + last);
    assert steps[1..] == ends + last;
    RunJoin(Boot(hasPath), before, steps);
  }

  lemma FinishJoined(v: World) returns (steps: seq<Step>)
    requires AllDone(v) && v.job.Some? && (v.job.value.Joining? ==> |v.job.value.handles| <= 1)
    ensures Run(v, steps).job == Some(Finished) && EndsOnlyStopped(v, steps)
  {
    var v1 := Next(v, JobJoins);
    var v2 := Next(v1, JobJoins);
    var v3 := Next(v2, JobFinishes);
    steps := [JobJoins, JobJoins, JobFinishes];
    assert steps[1..] == [JobJoins, JobFinishes];
    assert steps[1..][1..] == [JobFinishes];
    assert Run(v2, [JobFinishes]) == v3 && EndsOnlyStopped(v2, [JobFinishes]);
    assert Run(v1, steps[1..]) == v3 && EndsOnlyStopped(v1, steps[1..]);
    assert Run(v, steps) == v3;
  }

  // ---------- Only lost starts break it ----------

  /** From here, without a further lost start and with indexers ending only when told to, the files can
      be deleted under an open index. */
  ghost predicate CanDeleteUnderOpenIndex(w: World) {
    exists steps :: NoLostStart(w, steps) && EndsOnlyStopped(w, steps) && DeletesUnderOpenIndex(Run(w, steps))
  }

  /** A Clear sees only the handle of the thread that never ran. */
  lemma ClearMissesRetired(v: World, r: nat) returns (steps: seq<Step>)
    requires |v.threads| == r + 2 && v.threads[r].phase == Open && v.threads[r + 1].phase == Done
    requires !v.service.clearing && v.service.handle == Some(r + 1) && v.service.retired.None?
    ensures NoLostStart(v, steps) && EndsOnlyStopped(v, steps) && DeletesUnderOpenIndex(Run(v, steps))
  {
    steps := [Clear, JobSignals, JobJoins, JobJoins];
    assert steps[..1] + [JobSignals] == steps[..2] && steps[..2] + [JobJoins] == steps[..3] && steps[..3] + [JobJoins] == steps;
    assert [] + [Clear] == steps[..1];
    RunOneMore(v, [], Clear);
    RunOneMore(v, steps[..1], JobSignals);
    RunOneMore(v, steps[..2], JobJoins);
    RunOneMore(v, steps[..3], JobJoins);
    var v1 := Next(v, Clear);
    assert v1.job.value.handles == [r + 1];
    var v2 := Next(v1, JobSignals);
    assert v2.threads[r + 1].phase == Done;
    var v3 := Next(v2, JobJoins);
    assert v3.job.value.handles == [];
    assert Run(v, steps).threads[r].phase == Open;
  }

  lemma LostStartBreaksClear(w: World) returns (steps: seq<Step>)
    requires Safe(w) && IsLostStart(w, Toggle(true, false))
    ensures var v := Next(w, Toggle(true, false));
            NoLostStart(v, steps) && EndsOnlyStopped(v, steps) && DeletesUnderOpenIndex(Run(v, steps))
  {
    var v := Next(w, Toggle(true, false));
    SetEnabledIsOrderly(w, true, false);
    var r := w.service.retired.value;
    var ends := EndInOrder(v, r);
    var v1 := Run(v, ends);
    assert v1.threads[r] == v.threads[r] && v1.threads[r + 1] == v.threads[r + 1];
    var open: seq<Step> := if v1.threads[r].phase == Waiting then [OpensIndex(r)] else [];
    var v2 := Next(v1, OpensIndex(r));
    assert v2.threads[r].phase == Open;
    assert Run(v1, open) == v2 && NoLostStart(v1, open) && EndsOnlyStopped(v1, open);
    var last := ClearMissesRetired(v2, r);
    RunJoin(v1, open, last);
    RunJoin(v, ends, open + last);
    steps := ends + (open + last);
  }

  /** Exactly then: after any run without a lost start, a start whose thread does not spawn opens the way
      to a deletion under an open index if and only if there is a retired indexer and it still runs. */
  lemma {:induction false} BreaksIffLostStart(hasPath: bool, before: seq<Step>)
    requires NoLostStart(Boot(hasPath), before)
    ensures var w := Run(Boot(hasPath), before);
            IsLostStart(w, Toggle(true, false)) <==> CanDeleteUnderOpenIndex(Next(w, Toggle(true, false)))
  {
    var w := Run(Boot(hasPath), before);
    RunIsSafe(Boot(hasPath), before);
    var v := Next(w, Toggle(true, false));
    if IsLostStart(w, Toggle(true, false)) {
      var steps := LostStartBreaksClear(w);
      assert DeletesUnderOpenIndex(Run(v, steps));
    } else {
      NextIsSafe(w, Toggle(true, false));
      forall steps | NoLostStart(v, steps)
        ensures !DeletesUnderOpenIndex(Run(v, steps))
      {
        RunIsSafe(v, steps);
      }
    }
  }

  // ---------- The service object ----------

  class SessionSearchService {
    const hasPath: bool
    var handle: Option<nat>
    var retired: Option<nat>
    var clearing: bool
    /** The indexer threads started so far, and the Clear job handed out: the service's surroundings. */
    var threads: seq<Thread>
    var job: Option<Job>

    constructor (hasPath: bool)
      ensures State() == Boot(hasPath)
    {
      this.hasPath := hasPath;
      handle, retired, clearing := None, None, false;
      threads, job := [], None;
    }

    function State(): World
      reads this
    {
      World(Service(hasPath, handle, retired, clearing), threads, job)
    }

    method StartIndexer(previous: Option<nat>, spawns: bool) returns (h: nat)
      modifies this`threads
      ensures h == |old(threads)| && threads == Started(old(threads), previous, spawns)
    {
      h := |threads|;
      if spawns {
        threads := threads + [Thread(previous, Waiting, false)];
      } else {
        if previous.Some? {
          threads := Signalled(threads, previous.value);
        }
        threads := threads + [Thread(previous, Done, false)];
      }
    }

    method SetEnabled(enabled: bool, spawns: bool)
      modifies this
      ensures State() == AfterSetEnabled(old(State()), enabled, spawns)
    {
      if clearing {
        return;
      }
      if enabled && handle.None? {
        if hasPath {
          var previous := retired;
          retired := None;
          var h := StartIndexer(previous, spawns);
          handle := Some(h);
        }
      } else if !enabled && handle.Some? {
        var h := handle;
        handle := None;
        threads := Signalled(threads, h.value);
        retired := h;
      }
    }

    method BeginClear() returns (started: Option<Job>)
      modifies this
      ensures State() == AfterBeginClear(old(State()))
      ensures started == if old(clearing) then None else job
    {
      if clearing {
        return None;
      }
      clearing := true;
      var handles: seq<nat> := [];
      if handle.Some? {
        handles := handles + [handle.value];
      }
      if retired.Some? {
        handles := handles + [retired.value];
      }
      assert handles == Handles(Service(hasPath, handle, retired, clearing));
      handle, retired := None, None;
      job := Some(Joining(handles));
      started := job;
    }

    method Resume(enabled: bool, spawns: bool)
      modifies this
      ensures State() == AfterResume(old(State()), enabled, spawns)
    {
      clearing := false;
      job := None;
      SetEnabled(enabled, spawns);
    }

    /** Block until thread `h` has ended, all having been told to stop. Which threads run meanwhile is
        the scheduler's choice; here they end oldest first. */
    method Join(h: nat) returns (ghost steps: seq<Step>)
      requires Safe(State()) && h < |threads|
      requires forall t :: 0 <= t <= h && threads[t].phase != Done ==> threads[t].stop
      modifies this`threads
      ensures State() == Run(old(State()), steps) && Safe(State()) && EndsOnlyStopped(old(State()), steps)
      ensures |threads| == |old(threads)| && threads[h].phase == Done
    {
      steps := [];
      for t := 0 to h + 1
        invariant State() == Run(old(State()), steps) && Safe(State()) && |threads| == |old(threads)|
        invariant EndsOnlyStopped(old(State()), steps)
        invariant forall i :: 0 <= i < t ==> threads[i].phase == Done
        invariant forall i :: t <= i <= h ==> threads[i] == old(threads)[i]
      {
        ghost var more := Winding(t, threads[t].phase);
        WindsDown(State(), t);
        RunIsSafe(State(), more);
        RunJoin(old(State()), steps, more);
        threads := threads[t := threads[t].(phase := Done)];
        steps := steps + more;
      }
    }

    /** Signal the thread of the job's next handle, then wait for it. */
    method Stop(h: nat) returns (ghost steps: seq<Step>)
      requires Safe(State()) && job.Some? && job.value.Joining? && job.value.handles != [] && job.value.handles[0] == h
      modifies this`threads
      ensures State() == Run(old(State()), steps) && Safe(State()) && EndsOnlyStopped(old(State()), steps)
      ensures |threads| == |old(threads)| && h < |threads| && threads[h].phase == Done
    {
      NextIsSafe(State(), JobSignals);
      RunOneMore(old(State()), [], JobSignals);
      threads := Signalled(threads, h);
      ghost var joined := Join(h);
      RunJoin(old(State()), [] + [JobSignals], joined);
      steps := [] + [JobSignals] + joined;
    }

    /** The detached half of a Clear, as one of the runs above: stop every handle, then delete. */
    method RunClearJob() returns (ghost steps: seq<Step>)
      requires Safe(State()) && job.Some? && job.value.Joining?
      modifies this`threads, this`job
      ensures State() == Run(old(State()), steps) && EndsOnlyStopped(old(State()), steps)
      ensures job == Some(Finished) && AllDone(State())
    {
      steps := [];
      while job.value.handles != []
        invariant job.Some? && job.value.Joining? && Safe(State())
        invariant State() == Run(old(State()), steps) && EndsOnlyStopped(old(State()), steps)
        decreases |job.value.handles|
      {
        ghost var stopped := Stop(job.value.handles[0]);
        RunJoin(old(State()), steps, stopped);
        steps := steps + stopped;
        NextIsSafe(State(), JobJoins);
        RunOneMore(old(State()), steps, JobJoins);
        job := Some(Joining(job.value.handles[1..]));
        steps := steps + [JobJoins];
      }
      NextIsSafe(State(), JobJoins);
      RunOneMore(old(State()), steps, JobJoins);
      job := Some(Deleting);
      steps := steps + [JobJoins];
      RunOneMore(old(State()), steps, JobFinishes);
      job := Some(Finished);
      steps := steps + [JobFinishes];
    }
  }
}
