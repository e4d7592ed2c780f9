/**
 The debounced persistence protocol as a small-step concurrent system
 (vault/internal/tokens/store.go, lines 453-564). Each step is one critical
 section or one file write; steps of different threads interleave freely. The
 store's successive states are `history`, and a file's content is named by the
 position in `history` of the state it encodes.
 */
module PersistProtocol {
  import opened Wrappers
  import opened PersistControl

  /** Where a doPersist call stands: due but not entered, entered, snapshot taken, roles written. */
  datatype Phase = Ready | Begun | Snapped(version: int) | RolesWritten(version: int)

  /** `flusher`: the caller is Flush, which goes on to wait; else a timer callback. */
  datatype Job = Job(phase: Phase, flusher: bool)

  datatype Sys<S> = Sys(
    paths: bool,                 // both file paths are set
    ctl: Ctl,
    history: seq<S>,             // every store state so far; the last is current
    mutated: map<nat, nat>,      // threads between their mutation and schedulePersist, and the version they made
    work: map<nat, Job>,         // threads due to run, or running, doPersist
    waiting: set<nat>,           // Flush and Shutdown callers in persistWG.Wait
    scheduled: int,              // newest version whose schedulePersist has armed a timer, or loaded from the files
    snapped: int,                // newest version a doPersist has read, or loaded from the files
    rolesFile: Option<int>,      // version in each file, once there
    tokensFile: Option<int>
  )

  datatype Step<S> =
    | Mutate(thread: nat, state: S)
    | Schedule(thread: nat)
    | Skip(thread: nat)                     // a mutation that never schedules
    | Fire(timer: nat)
    | Callback(timer: nat, thread: nat)
    | Begin(thread: nat)                    // persistWG.Add
    | Snapshot(thread: nat)
    | WriteRoles(thread: nat, ok: bool)
    | WriteTokens(thread: nat, ok: bool)    // and persistWG.Done
    | FlushLock(thread: nat)
    | ShutdownLock(thread: nat)
    | Return(thread: nat)                   // persistWG.Wait returns

  function Version<S>(s: Sys<S>): int { |s.history| - 1 }

  predicate Active(p: Phase) { !p.Ready? }

  ghost predicate Idle<S>(s: Sys<S>) {
    forall t :: t in s.work ==> !Active(s.work[t].phase)
  }

  predicate FreeThread<S>(s: Sys<S>, t: nat) {
    t !in s.mutated && t !in s.work && t !in s.waiting
  }

  predicate InPhase<S>(s: Sys<S>, t: nat, p: Phase) {
    t in s.work && s.work[t].phase == p
  }

  ghost predicate Enabled<S>(s: Sys<S>, step: Step<S>) {
    match step
    case Mutate(t, _) => FreeThread(s, t)
    case Schedule(t) => t in s.mutated
    case Skip(t) => t in s.mutated
    case Fire(i) => i < |s.ctl.timers| && s.ctl.timers[i] == Armed
    case Callback(i, t) => i < |s.ctl.timers| && s.ctl.timers[i] == Fired && FreeThread(s, t)
    case Begin(t) => InPhase(s, t, Ready)
    case Snapshot(t) => InPhase(s, t, Begun)
    case WriteRoles(t, _) => t in s.work && s.work[t].phase.Snapped?
    case WriteTokens(t, _) => t in s.work && s.work[t].phase.RolesWritten?
    case FlushLock(t) => FreeThread(s, t)
    case ShutdownLock(t) => FreeThread(s, t)
    case Return(t) => t in s.waiting && Idle(s)
  }

  function Newer(a: int, b: int): int { if a > b then a else b }

  function Put<S>(s: Sys<S>, t: nat, p: Phase): Sys<S>
    requires t in s.work
  {
    s.(work := s.work[t := s.work[t].(phase := p)])
  }

  function Do<S>(s: Sys<S>, step: Step<S>): Sys<S>
    requires Enabled(s, step)
  {
    match step
    case Mutate(t, state) => s.(history := s.history + [state], mutated := s.mutated[t := |s.history|])
    case Schedule(t) =>
      s.(ctl := PersistControl.Schedule(s.ctl, s.paths),
         mutated := s.mutated - {t},
         scheduled := if s.ctl.closed || !s.paths then s.scheduled else Newer(s.scheduled, s.mutated[t]))
    case Skip(t) => s.(mutated := s.mutated - {t})
    case Fire(i) => s.(ctl := PersistControl.Fire(s.ctl, i))
    case Callback(i, t) =>
      s.(ctl := PersistControl.Callback(s.ctl, i),
         work := if s.ctl.closed then s.work else s.work[t := Job(Ready, false)])
    case Begin(t) => Put(s, t, Begun)
    case Snapshot(t) => Put(s, t, Snapped(|s.history| - 1)).(snapped := Version(s))
    case WriteRoles(t, ok) =>
      var v := s.work[t].phase.version;
      Put(s, t, RolesWritten(v)).(rolesFile := if ok then Some(v) else s.rolesFile)
    case WriteTokens(t, ok) =>
      var job := s.work[t];
      s.(work := s.work - {t},
         tokensFile := if ok then Some(job.phase.version) else s.tokensFile,
         waiting := if job.flusher then s.waiting + {t} else s.waiting)
    case FlushLock(t) =>
      if HandleArmed(s.ctl) then
        s.(ctl := FlushLocked(s.ctl), work := s.work[t := Job(Ready, true)])
      else s.(ctl := FlushLocked(s.ctl), waiting := s.waiting + {t})
    case ShutdownLock(t) => s.(ctl := ShutdownLocked(s.ctl), waiting := s.waiting + {t})
    case Return(t) => s.(waiting := s.waiting - {t})
  }

  ghost predicate CanRun<S>(s: Sys<S>, run: seq<Step<S>>)
    decreases |run|
  {
    run == [] || (Enabled(s, run[0]) && CanRun(Do(s, run[0]), run[1..]))
  }

  ghost function After<S>(s: Sys<S>, run: seq<Step<S>>): Sys<S>
    requires CanRun(s, run)
    decreases |run|
  {
    if run == [] then s else After(Do(s, run[0]), run[1..])
  }

  /**
   The system after LoadFromFiles: one state, which both files hold, or with a
   schedulePersist by thread 0 still to come because a file was missing.
   */
  function Start<S>(paths: bool, loaded: S, missing: bool): Sys<S> {
    if missing then Sys(paths, Ctl(false, None, []), [loaded], map[0 := 0], map[], {}, -1, -1, None, None)
    else Sys(paths, Ctl(false, None, []), [loaded], map[], map[], {}, 0, 0, Some(0), Some(0))
  }

  // ---- invariants ----------------------------------------------------------

  ghost predicate Sane<S>(s: Sys<S>) {
    && s.history != []
    && WellFormed(s.ctl)
    && -1 <= s.scheduled <= Version(s)
    && -1 <= s.snapped <= Version(s)
    && (forall t :: t in s.mutated ==> s.mutated[t] < |s.history|)
    && (forall t :: t in s.work && (s.work[t].phase.Snapped? || s.work[t].phase.RolesWritten?) ==>
          0 <= s.work[t].phase.version <= s.snapped)
    && (forall t :: t in s.waiting ==> t !in s.work)
  }

  /** Somebody still owes a snapshot: a live timer, or a doPersist that has not read the store yet. */
  ghost predicate TimerOwes<S>(s: Sys<S>) {
    exists i :: 0 <= i < |s.ctl.timers| && s.ctl.timers[i] != Spent
  }

  ghost predicate JobOwes<S>(s: Sys<S>) {
    exists t :: t in s.work && (s.work[t].phase.Ready? || s.work[t].phase.Begun?)
  }

  ghost predicate NothingForgotten<S>(s: Sys<S>) {
    s.paths && !s.ctl.closed ==> s.scheduled <= s.snapped || TimerOwes(s) || JobOwes(s)
  }

  lemma SaneStep<S>(s: Sys<S>, step: Step<S>)
    requires Sane(s) && Enabled(s, step)
    ensures Sane(Do(s, step))
    ensures Do(s, step).paths == s.paths
    ensures s.history <= Do(s, step).history
    ensures s.snapped <= Do(s, step).snapped && s.scheduled <= Do(s, step).scheduled
  {
  }

  lemma NothingForgottenStep<S>(s: Sys<S>, step: Step<S>)
    requires Sane(s) && Enabled(s, step) && NothingForgotten(s)
    ensures NothingForgotten(Do(s, step))
  {
    var s' := Do(s, step);
    if s'.paths && !s'.ctl.closed && s.scheduled > s.snapped {
      if TimerOwes(s) {
        var i :| 0 <= i < |s.ctl.timers| && s.ctl.timers[i] != Spent;
        TimerWitness(s, step, i);
      } else {
        var t :| t in s.work && (s.work[t].phase.Ready? || s.work[t].phase.Begun?);
        assert t in s'.work;
      }
    }
    if step.Schedule? && s'.paths && !s'.ctl.closed {
      assert s'.ctl.timers[|s'.ctl.timers| - 1] == Armed;
    }
  }

  /** A live timer stays live, or hands its debt on, or the store closes. */
  lemma TimerWitness<S>(s: Sys<S>, step: Step<S>, i: nat)
    requires Sane(s) && Enabled(s, step)
    requires i < |s.ctl.timers| && s.ctl.timers[i] != Spent
    ensures var s' := Do(s, step); s'.ctl.closed || TimerOwes(s') || JobOwes(s')
  {
    var s' := Do(s, step);
    match step
    case Schedule(t) =>
      if !s.ctl.closed && s.paths { assert s'.ctl.timers[|s'.ctl.timers| - 1] == Armed; } else { assert s'.ctl.timers[i] != Spent; }
    case Fire(j) => assert s'.ctl.timers[j] == Fired;
    case Callback(j, t) => if !s.ctl.closed { assert s'.work[t].phase.Ready?; }
    case FlushLock(t) =>
      if HandleArmed(s.ctl) { assert s'.work[t].phase.Ready?; } else { assert s'.ctl.timers[i] != Spent; }
    case ShutdownLock(_) =>
    case _ => assert s'.ctl.timers[i] != Spent;
  }

  lemma {:induction false} SaneRun<S>(s: Sys<S>, run: seq<Step<S>>)
    requires Sane(s) && CanRun(s, run)
    ensures Sane(After(s, run)) && s.history <= After(s, run).history
    decreases |run|
  {
    if run != [] {
      SaneStep(s, run[0]);
      SaneRun(Do(s, run[0]), run[1..]);
    }
  }

  /**
   No mutation is forgotten: in every interleaving, while the store is open,
   a version whose schedulePersist has returned has been read by a doPersist,
   or a live timer or a doPersist that has yet to read still owes a snapshot.
   */
  lemma {:induction false} NoMutationForgotten<S>(s: Sys<S>, run: seq<Step<S>>)
    requires Sane(s) && NothingForgotten(s) && CanRun(s, run)
    ensures Sane(After(s, run)) && NothingForgotten(After(s, run))
    ensures After(s, run).paths == s.paths
    ensures s.snapped <= After(s, run).snapped && s.scheduled <= After(s, run).scheduled
    decreases |run|
  {
    if run != [] {
      SaneStep(s, run[0]);
      NothingForgottenStep(s, run[0]);
      NoMutationForgotten(Do(s, run[0]), run[1..]);
    }
  }

  /** ... stated for one mutator: its version, from its schedulePersist on. */
  lemma MutationSurvives<S>(s: Sys<S>, thread: nat, run: seq<Step<S>>)
    requires Sane(s) && NothingForgotten(s)
    requires s.paths && !s.ctl.closed && thread in s.mutated
    requires CanRun(s, [Step<S>.Schedule(thread)] + run)
    ensures var e := After(s, [Step<S>.Schedule(thread)] + run);
            e.ctl.closed || s.mutated[thread] <= e.snapped || TimerOwes(e) || JobOwes(e)
  {
    var step := Step<S>.Schedule(thread);
    assert ([step] + run)[1..] == run;
    SaneStep(s, step);
    NothingForgottenStep(s, step);
    NoMutationForgotten(Do(s, step), run);
  }

  // ---- what is on disk -----------------------------------------------------

  /** Steps of runs whose doPersist calls do not overlap and whose writes succeed. */
  ghost predicate SerialStep<S>(s: Sys<S>, step: Step<S>) {
    match step
    case Begin(_) => Idle(s)
    case WriteRoles(_, ok) => ok
    case WriteTokens(_, ok) => ok
    case _ => true
  }

  ghost predicate SerialRun<S>(s: Sys<S>, run: seq<Step<S>>)
    requires CanRun(s, run)
    decreases |run|
  {
    run == [] || (SerialStep(s, run[0]) && SerialRun(Do(s, run[0]), run[1..]))
  }

  ghost predicate FilesAt<S>(s: Sys<S>, version: int) {
    s.rolesFile == Some(version) && s.tokensFile == Some(version)
  }

  ghost predicate NoneBegun<S>(s: Sys<S>) {
    forall t :: t in s.work ==> !s.work[t].phase.Begun?
  }

  ghost predicate AnySnapped<S>(s: Sys<S>) {
    exists t :: t in s.work && s.work[t].phase.Snapped?
  }

  /** Every doPersist that runs holds this snapshot. */
  ghost predicate AllHold<S>(s: Sys<S>, version: int) {
    forall t :: t in s.work && Active(s.work[t].phase) ==> !s.work[t].phase.Begun? && s.work[t].phase.version == version
  }

  /**
   The files will agree: nothing runs and they hold the newest snapshot; or one
   doPersist runs and has yet to read; or all that run hold the newest
   snapshot, and the roles file holds it or is still to be written.
   */
  ghost predicate Settles<S>(s: Sys<S>) {
    if Idle(s) then s.snapped >= 0 ==> FilesAt(s, s.snapped)
    else if NoneBegun(s) then AllHold(s, s.snapped) && (s.rolesFile == Some(s.snapped) || AnySnapped(s))
    else OneActive(s)
  }

  ghost predicate OneActive<S>(s: Sys<S>) {
    forall t, u :: t in s.work && u in s.work && Active(s.work[t].phase) && Active(s.work[u].phase) ==> t == u
  }

  lemma SettlesStep<S>(s: Sys<S>, step: Step<S>)
    requires Settles(s) && Enabled(s, step) && SerialStep(s, step)
    ensures Settles(Do(s, step))
  {
    match step
    case Begin(t) => SettlesBegin(s, t);
    case Snapshot(t) => SettlesSnapshot(s, t);
    case WriteRoles(t, _) => SettlesRoles(s, t);
    case WriteTokens(t, _) => SettlesTokens(s, t);
    case _ => SettlesOther(s, step);
  }

  lemma SettlesBegin<S>(s: Sys<S>, t: nat)
    requires Idle(s) && Enabled(s, Step<S>.Begin(t))
    ensures Settles(Do(s, Step<S>.Begin(t)))
  {
    assert InPhase(Do(s, Step<S>.Begin(t)), t, Begun);
  }

  lemma SettlesSnapshot<S>(s: Sys<S>, t: nat)
    requires Settles(s) && Enabled(s, Step<S>.Snapshot(t))
    ensures Settles(Do(s, Step<S>.Snapshot(t)))
  {
    assert !NoneBegun(s) && !Idle(s);
    var s' := Do(s, Step<S>.Snapshot(t));
    assert s'.work[t].phase.Snapped?;
  }

  lemma NoneBegunBeside<S>(s: Sys<S>, t: nat)
    requires Settles(s) && t in s.work && Active(s.work[t].phase) && !s.work[t].phase.Begun?
    ensures NoneBegun(s)
  {
    if u :| u in s.work && s.work[u].phase.Begun? {
      assert false;
    }
  }

  lemma SettlesRoles<S>(s: Sys<S>, t: nat)
    requires Settles(s) && Enabled(s, Step<S>.WriteRoles(t, true))
    ensures Settles(Do(s, Step<S>.WriteRoles(t, true)))
  {
    var s' := Do(s, Step<S>.WriteRoles(t, true));
    assert Active(s.work[t].phase) && Active(s'.work[t].phase);
    NoneBegunBeside(s, t);
  }

  lemma SettlesTokens<S>(s: Sys<S>, t: nat)
    requires Settles(s) && Enabled(s, Step<S>.WriteTokens(t, true))
    ensures Settles(Do(s, Step<S>.WriteTokens(t, true)))
  {
    var s' := Do(s, Step<S>.WriteTokens(t, true));
    assert Active(s.work[t].phase);
    NoneBegunBeside(s, t);
    if AnySnapped(s) {
      var u :| u in s.work && s.work[u].phase.Snapped?;
      assert u in s'.work && s'.work[u].phase.Snapped?;
    }
  }

  /** The other steps leave the calls that run, the newest snapshot and the files alone. */
  lemma SettlesOther<S>(s: Sys<S>, step: Step<S>)
    requires Settles(s) && Enabled(s, step)
    requires !step.Begin? && !step.Snapshot? && !step.WriteRoles? && !step.WriteTokens?
    ensures Settles(Do(s, step))
  {
    var s' := Do(s, step);
    assert forall t :: t in s.work ==> t in s'.work && s'.work[t] == s.work[t];
    assert forall t :: t in s'.work && t !in s.work ==> s'.work[t].phase.Ready?;
    assert Idle(s) <==> Idle(s');
    assert NoneBegun(s) <==> NoneBegun(s');
    assert AnySnapped(s) ==> AnySnapped(s');
  }

  lemma {:induction false} SettlesRun<S>(s: Sys<S>, run: seq<Step<S>>)
    requires Settles(s)
    requires CanRun(s, run) && SerialRun(s, run)
    ensures Settles(After(s, run))
    decreases |run|
  {
    if run != [] {
      SettlesStep(s, run[0]);
      SettlesRun(Do(s, run[0]), run[1..]);
    }
  }

  /** No timer is live and no doPersist is due or running. */
  ghost predicate Quiet<S>(s: Sys<S>) {
    !TimerOwes(s) && s.work == map[]
  }

  /**
   Quiescence. After a run from the start whose doPersist calls did not overlap
   and whose writes succeeded, with the store open and some version scheduled:
   once nothing is live, both files hold one version, no older than any whose
   schedulePersist returned.
   */
  lemma QuiescentFiles<S>(paths: bool, loaded: S, missing: bool, run: seq<Step<S>>)
    requires CanRun(Start(paths, loaded, missing), run) && SerialRun(Start(paths, loaded, missing), run)
    requires var e := After(Start(paths, loaded, missing), run);
             paths && !e.ctl.closed && Quiet(e) && e.scheduled >= 0
    ensures var e := After(Start(paths, loaded, missing), run);
            e.scheduled <= e.snapped && FilesAt(e, e.snapped)
  {
    NoMutationForgotten(Start(paths, loaded, missing), run);
    SettlesRun(Start(paths, loaded, missing), run);
  }

  /** The newest version is scheduled, or its mutator has yet to schedule it. */
  ghost predicate NewestCovered<S>(s: Sys<S>) {
    s.paths && !s.ctl.closed ==>
      || s.scheduled == Version(s)
      || exists t :: t in s.mutated && s.mutated[t] == Version(s)
  }

  ghost predicate NoSkips<S>(run: seq<Step<S>>) {
    forall i :: 0 <= i < |run| ==> !run[i].Skip?
  }

  lemma NewestStep<S>(s: Sys<S>, step: Step<S>)
    requires Sane(s) && NewestCovered(s) && Enabled(s, step) && !step.Skip?
    ensures NewestCovered(Do(s, step))
  {
    var s' := Do(s, step);
    if s'.paths && !s'.ctl.closed {
      if step.Mutate? {
        assert s'.mutated[step.thread] == Version(s');
      } else if t :| t in s.mutated && s.mutated[t] == Version(s) {
        assert t in s'.mutated || (step == Schedule(t) && s'.scheduled == Version(s'));
      }
    }
  }

  lemma {:induction false} NewestRun<S>(s: Sys<S>, run: seq<Step<S>>)
    requires Sane(s) && NewestCovered(s) && CanRun(s, run) && NoSkips(run)
    ensures NewestCovered(After(s, run))
    decreases |run|
  {
    if run != [] {
      SaneStep(s, run[0]);
      NewestStep(s, run[0]);
      NewestRun(Do(s, run[0]), run[1..]);
    }
  }

  /** When moreover every mutation went on to schedule, the files hold the current state. */
  lemma QuiescentFilesCurrent<S>(paths: bool, loaded: S, missing: bool, run: seq<Step<S>>)
    requires CanRun(Start(paths, loaded, missing), run) && SerialRun(Start(paths, loaded, missing), run)
    requires NoSkips(run)
    requires var e := After(Start(paths, loaded, missing), run);
             paths && !e.ctl.closed && Quiet(e) && e.mutated == map[]
    ensures var e := After(Start(paths, loaded, missing), run); FilesAt(e, Version(e))
  {
    var s := Start(paths, loaded, missing);
    NoMutationForgotten(s, run);
    assert missing ==> 0 in s.mutated && s.mutated[0] == 0;
    NewestRun(s, run);
    QuiescentFiles(paths, loaded, missing, run);
  }

  // ---- shutdown ------------------------------------------------------------

  ghost function ReadyThreads<S>(s: Sys<S>): set<nat> {
    set t | t in s.work && s.work[t].phase.Ready?
  }

  ghost function Begins<S>(run: seq<Step<S>>): nat {
    if run == [] then 0 else (if run[0].Begin? then 1 else 0) + Begins(run[1..])
  }

  lemma ClosedStep<S>(s: Sys<S>, step: Step<S>)
    requires Sane(s) && s.ctl.closed && Enabled(s, step)
    ensures Do(s, step).ctl.closed
    ensures ReadyThreads(Do(s, step)) == if step.Begin? then ReadyThreads(s) - {step.thread} else ReadyThreads(s)
    ensures step.Begin? ==> step.thread in ReadyThreads(s)
    ensures Do(s, step).work.Keys <= s.work.Keys
  {
  }

  /**
   Shutdown safety. Once the store is closed, the doPersist calls that begin
   are exactly drawn from those already due then: callbacks past their closed
   check and Flush callers that had stopped a timer. Each begins at most once,
   and no timer, with or without a handle, adds another.
   */
  lemma {:induction false} ClosedBegins<S>(s: Sys<S>, run: seq<Step<S>>)
    requires Sane(s) && s.ctl.closed && CanRun(s, run)
    ensures var e := After(s, run);
            && e.ctl.closed
            && ReadyThreads(e) <= ReadyThreads(s)
            && Begins(run) + |ReadyThreads(e)| == |ReadyThreads(s)|
    decreases |run|
  {
    if run != [] {
      SaneStep(s, run[0]);
      ClosedStep(s, run[0]);
      ClosedBegins(Do(s, run[0]), run[1..]);
    }
  }

  ghost predicate Writes<S>(run: seq<Step<S>>) {
    exists i :: 0 <= i < |run| && (run[i].WriteRoles? || run[i].WriteTokens?)
  }

  lemma {:induction false} NoWorkNoWrites<S>(s: Sys<S>, run: seq<Step<S>>)
    requires Sane(s) && s.ctl.closed && CanRun(s, run) && s.work == map[]
    ensures !Writes(run)
    decreases |run|
  {
    if run != [] {
      SaneStep(s, run[0]);
      ClosedStep(s, run[0]);
      assert Do(s, run[0]).work == map[];
      NoWorkNoWrites(Do(s, run[0]), run[1..]);
      forall i | 0 <= i < |run| ensures !(run[i].WriteRoles? || run[i].WriteTokens?) {
        if i > 0 { assert run[i] == run[1..][i - 1]; }
      }
    }
  }

  /** Any doPersist that is due or running can go on to write. */
  lemma WorkCanWrite<S>(s: Sys<S>, t: nat) returns (run: seq<Step<S>>)
    requires Sane(s) && t in s.work
    ensures CanRun(s, run) && Writes(run)
    decreases if s.work[t].phase.Ready? then 2 else if s.work[t].phase.Begun? then 1 else 0
  {
    var phase := s.work[t].phase;
    if phase.Snapped? || phase.RolesWritten? {
      run := [if phase.Snapped? then WriteRoles(t, true) else WriteTokens(t, true)];
      assert CanRun(Do(s, run[0]), run[1..]) && (run[0].WriteRoles? || run[0].WriteTokens?);
      return;
    }
    var step: Step<S> := if phase.Ready? then Begin(t) else Snapshot(t);
    SaneStep(s, step);
    var rest := WorkCanWrite(Do(s, step), t);
    run := [step] + rest;
    assert run[1..] == rest;
    var i :| 0 <= i < |rest| && (rest[i].WriteRoles? || rest[i].WriteTokens?);
    assert run[i + 1] == rest[i];
  }

  /**
   After closing, the files are final exactly when no doPersist is due or
   running. Shutdown waits only for those that have begun, so its return alone
   does not make them final.
   */
  lemma FilesFinalIff<S>(s: Sys<S>)
    requires Sane(s) && s.ctl.closed
    ensures (exists run: seq<Step<S>> :: CanRun(s, run) && Writes(run)) <==> s.work != map[]
  {
    if s.work == map[] {
      forall run: seq<Step<S>> | CanRun(s, run) ensures !Writes(run) { NoWorkNoWrites(s, run); }
    } else {
      var t :| t in s.work;
      var run := WorkCanWrite(s, t);
    }
  }

  // ---- calls that overlap ------------------------------------------------------

  lemma {:induction false} Concat<S>(s: Sys<S>, run: seq<Step<S>>, more: seq<Step<S>>)
    requires CanRun(s, run) && CanRun(After(s, run), more)
    ensures CanRun(s, run + more) && After(s, run + more) == After(After(s, run), more)
    decreases |run|
  {
    if run == [] {
      assert run + more == more;
    } else {
      assert (run + more)[1..] == run[1..] + more;
      Concat(Do(s, run[0]), run[1..], more);
    }
  }

  /** No doPersist begins and every write succeeds. */
  ghost predicate Clean<S>(run: seq<Step<S>>) {
    forall i :: 0 <= i < |run| ==> CleanStep(run[i])
  }

  predicate CleanStep<S>(step: Step<S>) {
    !step.Begin? && (step.WriteRoles? || step.WriteTokens? ==> step.ok)
  }

  /** What a doPersist that runs will write, if it reads now. */
  function VersionOf<S>(s: Sys<S>, t: nat): int
    requires t in s.work && Active(s.work[t].phase)
  {
    if s.work[t].phase.Begun? then Version(s) else s.work[t].phase.version
  }

  /** A doPersist call that has begun can finish without anything else happening. */
  lemma Finish<S>(s: Sys<S>, t: nat) returns (run: seq<Step<S>>)
    requires Sane(s) && t in s.work && Active(s.work[t].phase)
    ensures CanRun(s, run) && Clean(run)
    ensures var e := After(s, run);
            && Sane(e) && e.work == s.work - {t} && s.waiting <= e.waiting && e.history == s.history
            && e.tokensFile == Some(VersionOf(s, t))
            && e.snapped == (if s.work[t].phase.Begun? then Version(s) else s.snapped)
            && (s.work[t].phase.RolesWritten? ==> e.rolesFile == s.rolesFile)
    decreases if s.work[t].phase.Begun? then 2 else if s.work[t].phase.Snapped? then 1 else 0
  {
    var step: Step<S> := match s.work[t].phase
      case Begun => Snapshot(t)
      case Snapped(_) => WriteRoles(t, true)
      case _ => WriteTokens(t, true);
    SaneStep(s, step);
    run := [step];
    assert [step][1..] == [];
    if !step.WriteTokens? {
      var rest := Finish(Do(s, step), t);
      Concat(s, [step], rest);
      run := [step] + rest;
    }
  }

  /** So can all calls that have begun, except those to keep; those only due stay due. */
  lemma Drain<S>(s: Sys<S>, keep: set<nat>) returns (run: seq<Step<S>>)
    requires Sane(s)
    ensures CanRun(s, run) && Clean(run)
    ensures Drained(s, After(s, run), keep)
    decreases s.work.Keys
  {
    if t :| t in s.work && Active(s.work[t].phase) && t !in keep {
      var first := Finish(s, t);
      var s1 := After(s, first);
      assert s1.work.Keys < s.work.Keys;
      var rest := Drain(s1, keep);
      Concat(s, first, rest);
      run := first + rest;
      DrainedStep(s, t, s1, After(s1, rest), keep);
    } else {
      run := [];
    }
  }

  ghost predicate Drained<S>(s: Sys<S>, e: Sys<S>, keep: set<nat>) {
    && Sane(e) && s.waiting <= e.waiting && e.history == s.history
    && (forall t :: t in e.work ==> t in s.work && e.work[t] == s.work[t] && (Active(e.work[t].phase) ==> t in keep))
    && (forall t :: t in s.work && (s.work[t].phase.Ready? || t in keep) ==> t in e.work)
    && (NoneBegunBut(s, keep) ==> e.snapped == s.snapped)
    && (NoneBegunBut(s, keep) && !AnySnapped(s) ==> e.rolesFile == s.rolesFile)
  }

  ghost predicate NoneBegunBut<S>(s: Sys<S>, keep: set<nat>) {
    forall t :: t in s.work && t !in keep ==> !s.work[t].phase.Begun?
  }

  lemma DrainedStep<S>(s: Sys<S>, t: nat, s1: Sys<S>, e: Sys<S>, keep: set<nat>)
    requires t in s.work && Active(s.work[t].phase) && t !in keep
    requires s1.work == s.work - {t} && s.waiting <= s1.waiting && s1.history == s.history
    requires !s.work[t].phase.Begun? ==> s1.snapped == s.snapped
    requires s.work[t].phase.RolesWritten? ==> s1.rolesFile == s.rolesFile
    requires Drained(s1, e, keep)
    ensures Drained(s, e, keep)
  {
    assert NoneBegunBut(s, keep) ==> NoneBegunBut(s1, keep);
    assert AnySnapped(s1) ==> AnySnapped(s);
  }

  /** Whatever else happens without a further doPersist, the files end up with the newest snapshot. */
  ghost predicate SettlePromise<S(!new)>(s: Sys<S>) {
    forall run: seq<Step<S>> :: CanRun(s, run) && Clean(run) && Idle(After(s, run)) && After(s, run).snapped >= 0 ==>
      FilesAt(After(s, run), After(s, run).snapped)
  }

  lemma {:induction false} CleanIsSerial<S>(s: Sys<S>, run: seq<Step<S>>)
    requires CanRun(s, run) && Clean(run)
    ensures SerialRun(s, run)
    decreases |run|
  {
    if run != [] {
      assert CleanStep(run[0]);
      assert Clean(run[1..]) by {
        forall i | 0 <= i < |run| - 1 ensures CleanStep(run[1..][i]) { assert CleanStep(run[i + 1]); }
      }
      CleanIsSerial(Do(s, run[0]), run[1..]);
    }
  }

  lemma One<S>(s: Sys<S>, step: Step<S>)
    requires Enabled(s, step)
    ensures CanRun(s, [step]) && After(s, [step]) == Do(s, step)
  {
    assert [step][1..] == [];
    assert CanRun(Do(s, step), [step][1..]);
  }

  lemma CleanAppend<S>(run: seq<Step<S>>, more: seq<Step<S>>)
    requires Clean(run) && Clean(more)
    ensures Clean(run + more)
  {
    forall i | 0 <= i < |run + more| ensures CleanStep((run + more)[i]) {
      if i >= |run| { assert CleanStep(more[i - |run|]); }
    }
  }

  /** A call holding an old snapshot can write last. */
  lemma OldWins<S>(s: Sys<S>, t: nat) returns (run: seq<Step<S>>)
    requires Sane(s) && NoneBegun(s) && t in s.work && Active(s.work[t].phase) && s.work[t].phase.version < s.snapped
    ensures CanRun(s, run) && Clean(run)
    ensures var e := After(s, run); Idle(e) && e.snapped >= 0 && e.tokensFile != Some(e.snapped)
  {
    var first := Drain(s, {t});
    var s1 := After(s, first);
    var last := Finish(s1, t);
    Concat(s, first, last);
    CleanAppend(first, last);
    run := first + last;
  }

  /** Of two calls, one yet to read, the other can read or have read first, and write last. */
  lemma TwoCross<S>(s: Sys<S>, a: nat, b: nat) returns (run: seq<Step<S>>)
    requires Sane(s) && a != b && InPhase(s, b, Begun) && a in s.work && Active(s.work[a].phase)
    requires forall t :: t in s.work && Active(s.work[t].phase) ==> t == a || t == b
    requires !s.work[a].phase.Begun?
    ensures CanRun(s, run) && Clean(run)
    ensures var e := After(s, run); Idle(e) && e.snapped >= 0 && e.tokensFile != Some(e.snapped)
  {
    var t := Unused(s.mutated.Keys + s.work.Keys + s.waiting);
    var step := Step<S>.Mutate(t, s.history[Version(s)]);
    assert Enabled(s, step);
    SaneStep(s, step);
    var s1 := Do(s, step);
    var first := Finish(s1, b);
    var s2 := After(s1, first);
    var last := Finish(s2, a);
    Concat(s1, first, last);
    CleanAppend(first, last);
    One(s, step);
    Concat(s, [step], first + last);
    CleanAppend([step], first + last);
    run := [step] + (first + last);
  }

  /** Bring two crossing calls to that point. */
  lemma Cross<S>(s: Sys<S>, a: nat, b: nat) returns (run: seq<Step<S>>)
    requires Sane(s) && a != b && InPhase(s, b, Begun) && a in s.work && Active(s.work[a].phase)
    ensures CanRun(s, run) && Clean(run)
    ensures var e := After(s, run); Idle(e) && e.snapped >= 0 && e.tokensFile != Some(e.snapped)
  {
    var first := Drain(s, {a, b});
    var s1 := After(s, first);
    if s1.work[a].phase.Begun? {
      var step := Step<S>.Snapshot(a);
      SaneStep(s1, step);
      One(s1, step);
      Concat(s, first, [step]);
      CleanAppend(first, [step]);
      first := first + [step];
    }
    var rest := TwoCross(After(s, first), a, b);
    Concat(s, first, rest);
    CleanAppend(first, rest);
    run := first + rest;
  }

  lemma Unsettled<S>(s: Sys<S>) returns (run: seq<Step<S>>)
    requires Sane(s) && !Settles(s)
    ensures CanRun(s, run) && Clean(run)
    ensures var e := After(s, run); Idle(e) && e.snapped >= 0 && !FilesAt(e, e.snapped)
  {
    if Idle(s) {
      run := [];
    } else if !NoneBegun(s) {
      var b :| b in s.work && s.work[b].phase.Begun?;
      var t, u :| t in s.work && u in s.work && Active(s.work[t].phase) && Active(s.work[u].phase) && t != u;
      run := Cross(s, if t != b then t else u, b);
    } else if t :| t in s.work && Active(s.work[t].phase) && s.work[t].phase.version != s.snapped {
      run := OldWins(s, t);
    } else {
      run := Drain(s, {});
    }
  }

  /**
   When overlapping calls do no harm. Whatever follows, short of another
   doPersist and of failing writes, leaves both files at the newest snapshot
   exactly when nothing runs and they are, or the one call that runs has yet to
   read, or all that run hold the newest snapshot and the roles file holds it
   or is still to be written.
   */
  lemma SettlesIff<S(!new)>(s: Sys<S>)
    requires Sane(s)
    ensures SettlePromise(s) <==> Settles(s)
  {
    if Settles(s) {
      forall run: seq<Step<S>> | CanRun(s, run) && Clean(run) && Idle(After(s, run)) && After(s, run).snapped >= 0
        ensures FilesAt(After(s, run), After(s, run).snapped)
      {
        CleanIsSerial(s, run);
        SettlesRun(s, run);
      }
    } else {
      var run := Unsettled(s);
    }
  }

  // ---- flush ---------------------------------------------------------------

  /** Whenever the Flush call that thread t starts in `s` returns, all it found scheduled has been read. */
  ghost predicate FlushPromise<S(!new)>(s: Sys<S>, t: nat)
    requires FreeThread(s, t)
  {
    var s' := Do(s, Step<S>.FlushLock(t));
    forall run: seq<Step<S>> :: CanRun(s', run) && Enabled(After(s', run), Step<S>.Return(t)) ==>
      s.scheduled <= After(s', run).snapped
  }

  ghost predicate Owing<S>(s: Sys<S>, t: nat, b: nat, target: int) {
    || target <= s.snapped
    || InPhase(s, t, Ready) || InPhase(s, t, Begun)
    || InPhase(s, b, Begun)
  }

  lemma {:induction false} OwingRun<S>(s: Sys<S>, run: seq<Step<S>>, t: nat, b: nat, target: int)
    requires Sane(s) && CanRun(s, run)
    requires target <= Version(s) && Owing(s, t, b, target)
    ensures Sane(After(s, run)) && Owing(After(s, run), t, b, target)
    decreases |run|
  {
    if run != [] {
      SaneStep(s, run[0]);
      OwingRun(Do(s, run[0]), run[1..], t, b, target);
    }
  }

  /**
   When Flush keeps its word. It returns only after everything scheduled before
   it has been read, in every continuation, exactly when that had been read
   already, or it stops the timer behind the handle, or a doPersist has begun
   and not read yet. A live timer without a handle, or a callback that fired
   but has not begun, is not enough.
   */
  lemma FlushCompleteIff<S(!new)>(s: Sys<S>, t: nat)
    requires Sane(s) && FreeThread(s, t)
    ensures FlushPromise(s, t) <==>
            s.scheduled <= s.snapped || HandleArmed(s.ctl) || exists b :: InPhase(s, b, Begun)
  {
    var step := Step<S>.FlushLock(t);
    var s' := Do(s, step);
    SaneStep(s, step);
    if s.scheduled <= s.snapped || HandleArmed(s.ctl) || exists b :: InPhase(s, b, Begun) {
      var b :| (exists b :: InPhase(s, b, Begun)) ==> InPhase(s, b, Begun);
      forall run: seq<Step<S>> | CanRun(s', run) && Enabled(After(s', run), Step<S>.Return(t))
        ensures s.scheduled <= After(s', run).snapped
      {
        OwingRun(s', run, t, b, s.scheduled);
      }
    } else {
      assert forall u :: u in s.work ==> !InPhase(s, u, Begun);
      var run := Drain(s', {});
      assert Enabled(After(s', run), Step<S>.Return(t));
    }
  }

  /** The handle always names the one armed timer. */
  ghost predicate HandleKnown<S>(s: Sys<S>) {
    forall i :: 0 <= i < |s.ctl.timers| && s.ctl.timers[i] == Armed ==> s.ctl.handle == Some(i)
  }

  /** No callback runs while the handle names another timer. */
  ghost predicate PunctualRun<S>(s: Sys<S>, run: seq<Step<S>>)
    requires CanRun(s, run)
    decreases |run|
  {
    run != [] ==>
      && (run[0].Callback? ==> s.ctl.handle == None || s.ctl.handle == Some(run[0].timer))
      && PunctualRun(Do(s, run[0]), run[1..])
  }

  /** Debouncing works as long as callbacks are punctual: at most one timer is armed, and it has the handle. */
  lemma {:induction false} PunctualKeepsHandle<S>(s: Sys<S>, run: seq<Step<S>>)
    requires Sane(s) && HandleKnown(s)
    requires CanRun(s, run) && PunctualRun(s, run)
    ensures HandleKnown(After(s, run))
    decreases |run|
  {
    if run != [] {
      SaneStep(s, run[0]);
      HandleKnownStep(s, run[0]);
      PunctualKeepsHandle(Do(s, run[0]), run[1..]);
    }
  }

  lemma HandleKnownStep<S>(s: Sys<S>, step: Step<S>)
    requires Sane(s) && HandleKnown(s) && Enabled(s, step)
    requires step.Callback? ==> s.ctl.handle == None || s.ctl.handle == Some(step.timer)
    ensures HandleKnown(Do(s, step))
  {
  }

  /**
   Flush as its comment promises: after any run with punctual callbacks, with
   the store open and no callback on its way, Flush returns only once
   everything scheduled before it has been read.
   */
  lemma FlushCompletesPunctual<S(!new)>(loaded: S, missing: bool, run: seq<Step<S>>, t: nat)
    requires CanRun(Start(true, loaded, missing), run) && PunctualRun(Start(true, loaded, missing), run)
    requires var e := After(Start(true, loaded, missing), run);
             && !e.ctl.closed && FreeThread(e, t)
             && (forall i :: 0 <= i < |e.ctl.timers| ==> e.ctl.timers[i] != Fired)
             && (forall u :: u in e.work ==> !e.work[u].phase.Ready?)
    ensures FlushPromise(After(Start(true, loaded, missing), run), t)
  {
    var s := Start(true, loaded, missing);
    var e := After(s, run);
    NoMutationForgotten(s, run);
    PunctualKeepsHandle(s, run);
    FlushCompleteIff(e, t);
    if JobOwes(e) {
      var u :| u in e.work && (e.work[u].phase.Ready? || e.work[u].phase.Begun?);
      assert InPhase(e, u, Begun);
    } else if TimerOwes(e) {
      var i :| 0 <= i < |e.ctl.timers| && e.ctl.timers[i] != Spent;
      assert HandleArmed(e.ctl);
    }
  }

  // ---- what Shutdown promises ------------------------------------------------

  /** Whenever the Shutdown call that thread t starts in `s` returns, no file write follows. */
  ghost predicate ShutdownPromise<S(!new)>(s: Sys<S>, t: nat)
    requires FreeThread(s, t)
  {
    var s' := Do(s, Step<S>.ShutdownLock(t));
    forall run: seq<Step<S>>, more: seq<Step<S>> ::
      CanRun(s', run) && Enabled(After(s', run), Step<S>.Return(t)) && CanRun(After(s', run), more) ==> !Writes(more)
  }

  /**
   When Shutdown keeps its word. It returns only after the last file write, in
   every continuation, exactly when at its call no callback is past its closed
   check, and no Flush caller has stopped a timer, without having begun to
   persist. Timers, armed or fired, do no harm, and calls that have begun are
   waited for.
   */
  lemma ShutdownCompleteIff<S(!new)>(s: Sys<S>, t: nat)
    requires Sane(s) && FreeThread(s, t)
    ensures ShutdownPromise(s, t) <==> ReadyThreads(s) == {}
  {
    var step := Step<S>.ShutdownLock(t);
    var s' := Do(s, step);
    SaneStep(s, step);
    assert ReadyThreads(s') == ReadyThreads(s);
    if ReadyThreads(s) == {} {
      forall run: seq<Step<S>>, more: seq<Step<S>>
        | CanRun(s', run) && Enabled(After(s', run), Step<S>.Return(t)) && CanRun(After(s', run), more)
        ensures !Writes(more)
      {
        var e := After(s', run);
        SaneRun(s', run);
        ClosedBegins(s', run);
        assert forall u :: u in e.work ==> u in ReadyThreads(e);
        FilesFinalIff(e);
      }
    } else {
      var run := Drain(s', {});
      var e := After(s', run);
      SaneRun(s', run);
      ClosedBegins(s', run);
      var u :| u in ReadyThreads(e);
      var more := WorkCanWrite(e, u);
      assert Enabled(e, Step<S>.Return(t));
    }
  }

  // ---- failing writes ---------------------------------------------------------------

  /** A file changes only by a write that succeeds, to the version its doPersist read. */
  lemma FilesChange<S>(s: Sys<S>, step: Step<S>)
    requires Enabled(s, step)
    ensures var e := Do(s, step);
            && (e.rolesFile == s.rolesFile || (step.WriteRoles? && step.ok && s.work[step.thread].phase == Snapped(VersionIn(e.rolesFile))))
            && (e.tokensFile == s.tokensFile
                || (step.WriteTokens? && step.ok && s.work[step.thread].phase == RolesWritten(VersionIn(e.tokensFile))))
    ensures step.WriteRoles? && step.ok ==> Do(s, step).rolesFile == Some(s.work[step.thread].phase.version)
    ensures step.WriteTokens? && step.ok ==> Do(s, step).tokensFile == Some(s.work[step.thread].phase.version)
  {
  }

  function VersionIn(file: Option<int>): int { if file.Some? then file.value else -1 }

  /** A run in which every write fails leaves both files as they were. */
  lemma {:induction false} FailingWritesKeep<S>(s: Sys<S>, run: seq<Step<S>>)
    requires CanRun(s, run)
    requires forall i :: 0 <= i < |run| ==> (run[i].WriteRoles? || run[i].WriteTokens? ==> !run[i].ok)
    ensures After(s, run).rolesFile == s.rolesFile && After(s, run).tokensFile == s.tokensFile
    decreases |run|
  {
    if run != [] {
      FilesChange(s, run[0]);
      FailingWritesKeep(Do(s, run[0]), run[1..]);
    }
  }

  // ---- both can return ---------------------------------------------------------------

  /** No step of the run begins another thread's doPersist. */
  ghost predicate OwnBegins<S>(run: seq<Step<S>>, t: nat) {
    forall i :: 0 <= i < |run| && run[i].Begin? ==> run[i].thread == t
  }

  /**
   Neither waits for more than it has to: from every state, a Flush or Shutdown
   call can return once its own doPersist and those that run have finished.
   */
  lemma CanReturn<S>(s: Sys<S>, t: nat, step: Step<S>) returns (run: seq<Step<S>>)
    requires Sane(s) && FreeThread(s, t) && (step == FlushLock(t) || step == ShutdownLock(t))
    ensures CanRun(Do(s, step), run) && OwnBegins(run, t) && Enabled(After(Do(s, step), run), Step<S>.Return(t))
  {
    SaneStep(s, step);
    var s1 := Do(s, step);
    if t in s1.waiting {
      run := DrainAround(s1, t);
    } else {
      var begin := Step<S>.Begin(t);
      SaneStep(s1, begin);
      var s2 := Do(s1, begin);
      var mine := FlusherFinishes(s2, t);
      var s3 := After(s2, mine);
      SaneRun(s2, mine);
      var rest := DrainAround(s3, t);
      Concat(s2, mine, rest);
      One(s1, begin);
      Concat(s1, [begin], mine + rest);
      run := [begin] + (mine + rest);
      CleanOwn(mine, t);
      OwnAppend(mine, rest, t);
      OwnAppend([begin], mine + rest, t);
    }
  }

  lemma DrainAround<S>(s: Sys<S>, t: nat) returns (run: seq<Step<S>>)
    requires Sane(s) && t in s.waiting
    ensures CanRun(s, run) && OwnBegins(run, t) && Enabled(After(s, run), Step<S>.Return(t))
  {
    run := Drain(s, {});
    CleanOwn(run, t);
  }

  lemma CleanOwn<S>(run: seq<Step<S>>, t: nat)
    requires Clean(run)
    ensures OwnBegins(run, t)
  {
    assert forall i :: 0 <= i < |run| ==> CleanStep(run[i]);
  }

  lemma OwnAppend<S>(run: seq<Step<S>>, more: seq<Step<S>>, t: nat)
    requires OwnBegins(run, t) && OwnBegins(more, t)
    ensures OwnBegins(run + more, t)
  {
  }

  /** A flusher that has begun goes on to wait. */
  lemma FlusherFinishes<S>(s: Sys<S>, t: nat) returns (run: seq<Step<S>>)
    requires Sane(s) && InPhase(s, t, Begun) && s.work[t].flusher
    ensures CanRun(s, run) && Clean(run) && t in After(s, run).waiting
  {
    var s1 := Do(s, Snapshot(t));
    var s2 := Do(s1, WriteRoles(t, true));
    run := [WriteTokens(t, true)];
    One(s2, WriteTokens(t, true));
    One(s1, WriteRoles(t, true));
    Concat(s1, [WriteRoles(t, true)], run);
    One(s, Snapshot(t));
    Concat(s, [Snapshot(t)], [WriteRoles(t, true)] + run);
    run := [Snapshot(t)] + ([WriteRoles(t, true)] + run);
  }

  // ---- without paths ---------------------------------------------------------------

  /** A store without both paths never arms a timer, never persists and leaves the files as they were. */
  lemma {:induction false} NoPathsNoPersist<S>(s: Sys<S>, run: seq<Step<S>>)
    requires !s.paths && s.ctl.timers == [] && s.ctl.handle == None && s.work == map[] && CanRun(s, run)
    ensures var e := After(s, run);
            && e.ctl.timers == [] && e.work == map[] && e.snapped == s.snapped
            && e.rolesFile == s.rolesFile && e.tokensFile == s.tokensFile
    decreases |run|
  {
    if run != [] {
      var e := Do(s, run[0]);
      assert !e.paths && e.ctl.timers == [] && e.ctl.handle == None && e.work == map[];
      NoPathsNoPersist(e, run[1..]);
    }
  }

  // ---- runs that show what does not hold ---------------------------------

  lemma {:induction false} Extend<S>(s: Sys<S>, run: seq<Step<S>>, step: Step<S>)
    requires CanRun(s, run) && Enabled(After(s, run), step)
    ensures CanRun(s, run + [step]) && After(s, run + [step]) == Do(After(s, run), step)
    decreases |run|
  {
    if run == [] {
      assert run + [step] == [step] && [step][1..] == [];
    } else {
      assert (run + [step])[1..] == run[1..] + [step];
      Extend(Do(s, run[0]), run[1..], step);
    }
  }

  /** A callback that fires while a newer mutation is being scheduled clears the newer timer's handle. */
  lemma HandleLost<S>(a: S, b: S, c: S) returns (run: seq<Step<S>>, e: Sys<S>)
    ensures CanRun(Start(true, a, false), run) && e == After(Start(true, a, false), run)
    ensures e == Sys(true, Ctl(false, None, [Spent, Armed]), [a, b, c], map[], map[3 := Job(Ready, false)], {}, 2, 0, Some(0), Some(0))
  {
    var s := Start(true, a, false);
    run, e := [], s;
    Extend(s, run, Mutate(1, b)); run, e := run + [Mutate(1, b)], Do(e, Mutate(1, b));
    Extend(s, run, Schedule(1)); run, e := run + [Schedule(1)], Do(e, Schedule(1));
    assert e == Sys(true, Ctl(false, Some(0), [Armed]), [a, b], map[], map[], {}, 1, 0, Some(0), Some(0));
    Extend(s, run, Fire(0)); run, e := run + [Fire(0)], Do(e, Fire(0));
    Extend(s, run, Mutate(2, c)); run, e := run + [Mutate(2, c)], Do(e, Mutate(2, c));
    Extend(s, run, Schedule(2)); run, e := run + [Schedule(2)], Do(e, Schedule(2));
    assert e == Sys(true, Ctl(false, Some(1), [Fired, Armed]), [a, b, c], map[], map[], {}, 2, 0, Some(0), Some(0));
    Extend(s, run, Callback(0, 3)); run, e := run + [Callback(0, 3)], Do(e, Callback(0, 3));
  }

  /** In such a run Flush returns although nothing scheduled has been read. */
  lemma FlushCanReturnEarly<S>(a: S, b: S, c: S) returns (run: seq<Step<S>>, e: Sys<S>)
    ensures CanRun(Start(true, a, false), run) && e == After(Start(true, a, false), run)
    ensures run != [] && run[|run| - 1] == Step<S>.Return(4)
    ensures e.scheduled == 2 == Version(e) && e.snapped == 0 && FilesAt(e, 0)
  {
    run, e := HandleLost(a, b, c);
    var s := Start(true, a, false);
    Extend(s, run, FlushLock(4)); run, e := run + [FlushLock(4)], Do(e, FlushLock(4));
    Extend(s, run, Return(4)); run, e := run + [Return(4)], Do(e, Return(4));
  }

  /** And Shutdown returns although a doPersist will still begin and write. */
  lemma ShutdownCanReturnEarly<S>(a: S, b: S, c: S) returns (run: seq<Step<S>>, e: Sys<S>)
    ensures CanRun(Start(true, a, false), run) && e == After(Start(true, a, false), run)
    ensures run != [] && run[|run| - 1] == Step<S>.Return(4)
    ensures e.ctl.closed && e.waiting == {}
    ensures exists more: seq<Step<S>> :: CanRun(e, more) && Writes(more)
  {
    run, e := HandleLost(a, b, c);
    var s := Start(true, a, false);
    Extend(s, run, ShutdownLock(4)); run, e := run + [ShutdownLock(4)], Do(e, ShutdownLock(4));
    Extend(s, run, Return(4)); run, e := run + [Return(4)], Do(e, Return(4));
    assert 3 in e.work;
    FilesFinalIff(e);
  }

  lemma OneSnapshot<S>(a: S, b: S) returns (run: seq<Step<S>>, e: Sys<S>)
    ensures CanRun(Start(true, a, false), run) && e == After(Start(true, a, false), run)
    ensures e == Sys(true, Ctl(false, None, [Spent]), [a, b], map[], map[2 := Job(Snapped(1), false)], {}, 1, 1, Some(0), Some(0))
  {
    var s := Start(true, a, false);
    run, e := [], s;
    Extend(s, run, Mutate(1, b)); run, e := run + [Mutate(1, b)], Do(e, Mutate(1, b));
    Extend(s, run, Schedule(1)); run, e := run + [Schedule(1)], Do(e, Schedule(1));
    Extend(s, run, Fire(0)); run, e := run + [Fire(0)], Do(e, Fire(0));
    Extend(s, run, Callback(0, 2)); run, e := run + [Callback(0, 2)], Do(e, Callback(0, 2));
    Extend(s, run, Begin(2)); run, e := run + [Begin(2)], Do(e, Begin(2));
    Extend(s, run, Snapshot(2)); run, e := run + [Snapshot(2)], Do(e, Snapshot(2));
  }

  lemma SecondFired<S>(a: S, b: S, c: S) returns (run: seq<Step<S>>, e: Sys<S>)
    ensures CanRun(Start(true, a, false), run) && e == After(Start(true, a, false), run)
    ensures e == Sys(true, Ctl(false, Some(1), [Spent, Fired]), [a, b, c], map[],
                     map[2 := Job(Snapped(1), false)], {}, 2, 1, Some(0), Some(0))
  {
    run, e := OneSnapshot(a, b);
    var s := Start(true, a, false);
    Extend(s, run, Mutate(3, c)); run, e := run + [Mutate(3, c)], Do(e, Mutate(3, c));
    Extend(s, run, Schedule(3)); run, e := run + [Schedule(3)], Do(e, Schedule(3));
    Extend(s, run, Fire(1)); run, e := run + [Fire(1)], Do(e, Fire(1));
  }

  lemma TwoSnapshots<S>(a: S, b: S, c: S) returns (run: seq<Step<S>>, e: Sys<S>)
    ensures CanRun(Start(true, a, false), run) && e == After(Start(true, a, false), run)
    ensures e == Sys(true, Ctl(false, None, [Spent, Spent]), [a, b, c], map[],
                     map[2 := Job(Snapped(1), false), 4 := Job(Snapped(2), false)], {}, 2, 2, Some(0), Some(0))
  {
    run, e := SecondFired(a, b, c);
    var s := Start(true, a, false);
    Extend(s, run, Callback(1, 4)); run, e := run + [Callback(1, 4)], Do(e, Callback(1, 4));
    Extend(s, run, Begin(4)); run, e := run + [Begin(4)], Do(e, Begin(4));
    Extend(s, run, Snapshot(4)); run, e := run + [Snapshot(4)], Do(e, Snapshot(4));
  }

  /** Without the no-overlap condition the older of two snapshots can be written last and stay. */
  lemma OverlapKeepsOldState<S>(a: S, b: S, c: S) returns (run: seq<Step<S>>, e: Sys<S>)
    ensures CanRun(Start(true, a, false), run) && e == After(Start(true, a, false), run)
    ensures Quiet(e) && !e.ctl.closed && e.scheduled == Version(e) == 2 && FilesAt(e, 1)
  {
    run, e := TwoSnapshots(a, b, c);
    var s := Start(true, a, false);
    Extend(s, run, WriteRoles(4, true)); run, e := run + [WriteRoles(4, true)], Do(e, WriteRoles(4, true));
    Extend(s, run, WriteTokens(4, true)); run, e := run + [WriteTokens(4, true)], Do(e, WriteTokens(4, true));
    Extend(s, run, WriteRoles(2, true)); run, e := run + [WriteRoles(2, true)], Do(e, WriteRoles(2, true));
    Extend(s, run, WriteTokens(2, true)); run, e := run + [WriteTokens(2, true)], Do(e, WriteTokens(2, true));
  }
}
