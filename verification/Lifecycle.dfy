/** The relay's lifecycle under its mutex: StartOutboxRelay, RunOutboxRelay, the end of a loop, and
    Shutdown, interleaved at every point where the mutex is free. */
module Lifecycle {
  import opened Wrappers

  /** A relay loop: running, returned or panicked, and past the deferred cleanup. */
  datatype Loop = Looping | Ended | Cleaned

  /** A Shutdown call: `stopped` is set; relayCancel has been read; it has been called; the wait succeeded. */
  datatype ShutdownPhase = Flagged | Grabbed(cancel: Option<nat>) | Fired | Waited

  /** `starting`: a StartOutboxRelay call holds the mutex past its checks. `checked`: RunOutboxRelay calls
      that have found `stopped` unset and not yet taken the mutex. `loops`: those the WaitGroup counts. */
  datatype State = State(
    stopped: bool, running: bool, cancel: Option<nat>, starting: bool, checked: set<nat>,
    loops: map<nat, Loop>, nextLoop: nat, canceled: set<nat>, shutdowns: map<nat, ShutdownPhase>)
  {
    predicate Active(id: nat) { id in loops && !loops[id].Cleaned? }
    ghost predicate SomeLoopRuns() { exists id: nat :: id in loops && loops[id].Looping? }
  }

  datatype Step =
    | StartCheck           // StartOutboxRelay takes the mutex and passes its checks
    | StartCommit          // ... sets the fields, adds to the WaitGroup and lets go
    | RunCheck(call: nat)  // RunOutboxRelay reads `stopped`, outside the mutex
    | RunLeave(call: nat)  // ... refuses its arguments
    | RunEnter(call: nat)  // ... or later takes the mutex
    | Exit(id: nat)        // the loop returns or panics
    | Cleanup(id: nat)     // its deferred function, under the mutex
    | Done(id: nat)        // the WaitGroup stops counting it
    | Flag(c: nat)         // Shutdown stores `stopped`
    | Grab(c: nat)         // stopOutboxRelay reads relayCancel under the mutex
    | Fire(c: nat)         // ... and calls it
    | Wait(c: nat)         // waitOutboxRelay finds the WaitGroup at zero

  const INITIAL := State(false, false, None, false, {}, map[], 0, {}, map[])

  predicate Enabled(s: State, step: Step) {
    match step
    case StartCheck => !s.starting && !s.stopped && !s.running
    case StartCommit => s.starting
    case RunCheck(call) => !s.stopped && call !in s.checked
    case RunLeave(call) => call in s.checked
    case RunEnter(call) => !s.starting && call in s.checked
    case Exit(id) => id in s.loops && s.loops[id].Looping?
    case Cleanup(id) => !s.starting && id in s.loops && s.loops[id].Ended?
    case Done(id) => id in s.loops && s.loops[id].Cleaned?
    case Flag(c) => c !in s.shutdowns
    case Grab(c) => !s.starting && c in s.shutdowns && s.shutdowns[c].Flagged?
    case Fire(c) => c in s.shutdowns && s.shutdowns[c].Grabbed?
    case Wait(c) => c in s.shutdowns && s.shutdowns[c].Fired? && s.loops == map[]
  }

  function NewLoop(s: State): State {
    s.(running := true, cancel := Some(s.nextLoop), loops := s.loops[s.nextLoop := Looping], nextLoop := s.nextLoop + 1)
  }

  function Apply(s: State, step: Step): State
    requires Enabled(s, step)
  {
    match step
    case StartCheck => s.(starting := true)
    case StartCommit => NewLoop(s).(starting := false)
    case RunCheck(call) => s.(checked := s.checked + {call})
    case RunLeave(call) => s.(checked := s.checked - {call})
    case RunEnter(call) =>
      var s' := s.(checked := s.checked - {call});
      if s.running then s' else NewLoop(s')
    case Exit(id) => s.(loops := s.loops[id := Ended])
    case Cleanup(id) => s.(running := false, cancel := None, loops := s.loops[id := Cleaned])
    case Done(id) => s.(loops := s.loops - {id})
    case Flag(c) => s.(stopped := true, shutdowns := s.shutdowns[c := Flagged])
    case Grab(c) => s.(shutdowns := s.shutdowns[c := Grabbed(s.cancel)])
    case Fire(c) =>
      var cancel := s.shutdowns[c].cancel;
      s.(canceled := if cancel.Some? then s.canceled + {cancel.value} else s.canceled,
         shutdowns := s.shutdowns[c := Fired])
    case Wait(c) => s.(shutdowns := s.shutdowns[c := Waited])
  }

  predicate Allowed(s: State, steps: seq<Step>)
    decreases |steps|
  {
    steps == [] || (Enabled(s, steps[0]) && Allowed(Apply(s, steps[0]), steps[1..]))
  }

  function Exec(s: State, steps: seq<Step>): State
    requires Allowed(s, steps)
    decreases |steps|
  {
    if steps == [] then s else Exec(Apply(s, steps[0]), steps[1..])
  }

  ghost predicate Reachable(s: State) {
    exists steps :: Allowed(INITIAL, steps) && Exec(INITIAL, steps) == s
  }

  lemma {:induction false} OneMore(s: State, steps: seq<Step>, step: Step)
    requires Allowed(s, steps) && Enabled(Exec(s, steps), step)
    ensures Allowed(s, steps + [step]) && Exec(s, steps + [step]) == Apply(Exec(s, steps), step)
    decreases |steps|
  {
    if steps == [] {
      assert (steps + [step])[1..] == [];
    } else {
      assert (steps + [step])[1..] == steps[1..] + [step];
      OneMore(Apply(s, steps[0]), steps[1..], step);
    }
  }

  // --- The invariant ---

  /** relayRunning agrees with relayCancel, and both with the one loop that is not yet cleaned up. */
  ghost predicate OneLoop(s: State) {
    && (s.running <==> s.cancel.Some?)
    && (forall id: nat :: s.Active(id) <==> s.cancel == Some(id))
    && (s.starting ==> !s.running)
    && (forall id :: id in s.loops ==> id < s.nextLoop)
  }

  /** Once a Shutdown has read relayCancel, no StartOutboxRelay call is or gets past its checks. */
  ghost predicate NoStarts(s: State) {
    forall c :: c in s.shutdowns ==> s.stopped && (s.shutdowns[c].Flagged? || !s.starting)
  }

  ghost predicate Inv(s: State) {
    OneLoop(s) && NoStarts(s)
  }

  lemma StepKeeps(s: State, step: Step)
    requires Inv(s) && Enabled(s, step)
    ensures Inv(Apply(s, step))
  {
    var s' := Apply(s, step);
    forall id: nat ensures s'.Active(id) <==> s'.cancel == Some(id) {
      assert s.Active(id) <==> s.cancel == Some(id);
      match step {
        case Cleanup(loop) => assert s.Active(loop);
        case _ =>
      }
    }
  }

  lemma {:induction false} RunKeeps(s: State, steps: seq<Step>)
    requires Inv(s) && Allowed(s, steps)
    ensures Inv(Exec(s, steps))
    decreases |steps|
  {
    if steps != [] {
      StepKeeps(s, steps[0]);
      RunKeeps(Apply(s, steps[0]), steps[1..]);
    }
  }

  /** In every interleaving at most one relay loop runs, and relayRunning is set exactly while
      relayCancel is, which is from a loop's start to its cleanup. */
  lemma AtMostOneLoop(s: State, a: nat, b: nat)
    requires Reachable(s)
    ensures s.running <==> s.cancel.Some?
    ensures s.running <==> exists id :: s.Active(id)
    ensures s.Active(a) && s.Active(b) ==> a == b
  {
    var steps :| Allowed(INITIAL, steps) && Exec(INITIAL, steps) == s;
    RunKeeps(INITIAL, steps);
    if s.cancel.Some? {
      assert s.Active(s.cancel.value);
    }
  }

  lemma ReachableInv(s: State)
    requires Reachable(s)
    ensures Inv(s)
  {
    var steps :| Allowed(INITIAL, steps) && Exec(INITIAL, steps) == s;
    RunKeeps(INITIAL, steps);
  }

  // --- After a shutdown ---

  ghost predicate PastGrab(s: State) {
    exists c :: c in s.shutdowns && !s.shutdowns[c].Flagged?
  }

  /** A Shutdown has read relayCancel, nothing runs, and no RunOutboxRelay call is on its way in. */
  ghost predicate Settled(s: State) {
    Inv(s) && PastGrab(s) && !s.SomeLoopRuns() && s.checked == {}
  }

  lemma SettledKeeps(s: State, step: Step)
    requires Settled(s) && Enabled(s, step)
    ensures Settled(Apply(s, step))
  {
    StepKeeps(s, step);
    var c :| c in s.shutdowns && !s.shutdowns[c].Flagged?;
    assert c in Apply(s, step).shutdowns && !Apply(s, step).shutdowns[c].Flagged?;
    assert s.stopped && !s.starting;
    var s' := Apply(s, step);
    forall id: nat | id in s'.loops ensures !s'.loops[id].Looping? {
      assert id in s.loops && !s.loops[id].Looping?;
    }
  }

  lemma {:induction false} SettledRun(s: State, steps: seq<Step>)
    requires Settled(s) && Allowed(s, steps)
    ensures Settled(Exec(s, steps))
    decreases |steps|
  {
    if steps != [] {
      SettledKeeps(s, steps[0]);
      SettledRun(Apply(s, steps[0]), steps[1..]);
    }
  }

  /** Some continuation of `s` has a relay loop running. */
  ghost predicate CanStillRun(s: State) {
    exists steps :: Allowed(s, steps) && Exec(s, steps).SomeLoopRuns()
  }

  /** After a Shutdown that waited successfully, a relay loop can still run if and only if some
      RunOutboxRelay call has passed its check, and either has its loop already or can still enter. */
  lemma RunsAfterShutdownIff(s: State, c: nat)
    requires Reachable(s) && c in s.shutdowns && s.shutdowns[c].Waited?
    ensures CanStillRun(s) <==> s.SomeLoopRuns() || s.checked != {}
  {
    ReachableInv(s);
    if s.SomeLoopRuns() {
      assert Allowed(s, []) && Exec(s, []) == s;
    } else if s.checked != {} {
      var call :| call in s.checked;
      if s.running {
        LateEntry(s, call);
      } else {
        EntryAtOnce(s, call);
      }
    } else if CanStillRun(s) {
      assert Settled(s);
      var steps :| Allowed(s, steps) && Exec(s, steps).SomeLoopRuns();
      SettledRun(s, steps);
    }
  }

  lemma EntryAtOnce(s: State, call: nat)
    requires call in s.checked && !s.running && !s.starting
    ensures CanStillRun(s)
  {
    var s' := Apply(s, RunEnter(call));
    assert s'.loops[s.nextLoop].Looping?;
    Prepend(s, RunEnter(call), []);
  }

  lemma LateEntry(s: State, call: nat)
    requires Inv(s) && call in s.checked && s.running && !s.starting && !s.SomeLoopRuns()
    ensures CanStillRun(s)
  {
    var id := s.cancel.value;
    assert s.Active(id);
    var s' := Apply(s, Cleanup(id));
    EntryAtOnce(s', call);
    var rest :| Allowed(s', rest) && Exec(s', rest).SomeLoopRuns();
    Prepend(s, Cleanup(id), rest);
  }

  predicate NoRunCalls(steps: seq<Step>) {
    forall i :: 0 <= i < |steps| ==> !steps[i].RunCheck?
  }

  /** With StartOutboxRelay alone: after the wait nothing runs, and before it whatever runs is canceled
      as soon as the Shutdown has called what it read. */
  ghost predicate Contained(s: State) {
    && s.checked == {}
    && (forall c :: c in s.shutdowns ==>
          match s.shutdowns[c]
          case Flagged => true
          case Grabbed(cancel) => forall id: nat :: id in s.loops && s.loops[id].Looping? ==> cancel == Some(id)
          case Fired => forall id: nat :: id in s.loops && s.loops[id].Looping? ==> id in s.canceled
          case Waited => s.loops == map[])
  }

  lemma ContainedKeeps(s: State, step: Step)
    requires Inv(s) && Contained(s) && Enabled(s, step) && !step.RunCheck?
    ensures Contained(Apply(s, step))
  {
    var s' := Apply(s, step);
    forall c | c in s'.shutdowns && s'.shutdowns[c].Grabbed?
      ensures forall id: nat :: id in s'.loops && s'.loops[id].Looping? ==> s'.shutdowns[c].cancel == Some(id)
    {
      forall id: nat | id in s'.loops && s'.loops[id].Looping? ensures s'.shutdowns[c].cancel == Some(id) {
        if step == Grab(c) {
          assert s.Active(id);
        } else {
          assert id in s.loops && s.loops[id].Looping?;
        }
      }
    }
  }

  lemma {:induction false} ContainedRun(s: State, steps: seq<Step>)
    requires Inv(s) && Contained(s) && Allowed(s, steps) && NoRunCalls(steps)
    ensures Inv(Exec(s, steps)) && Contained(Exec(s, steps))
    decreases |steps|
  {
    if steps != [] {
      StepKeeps(s, steps[0]);
      ContainedKeeps(s, steps[0]);
      ContainedRun(Apply(s, steps[0]), steps[1..]);
    }
  }

  /** When only StartOutboxRelay is used, no loop runs once a Shutdown's wait has succeeded, nor ever
      again; and a Shutdown that has called relayCancel has canceled whatever runs. */
  lemma StartedRelaysStop(steps: seq<Step>, c: nat)
    requires Allowed(INITIAL, steps) && NoRunCalls(steps)
    ensures var s := Exec(INITIAL, steps);
            c in s.shutdowns ==>
              && (s.shutdowns[c].Waited? ==> s.loops == map[] && !CanStillRun(s))
              && (s.shutdowns[c].Fired? ==>
                    forall id: nat :: id in s.loops && s.loops[id].Looping? ==> id in s.canceled)
  {
    ContainedRun(INITIAL, steps);
    var s := Exec(INITIAL, steps);
    if c in s.shutdowns && s.shutdowns[c].Waited? {
      assert Reachable(s);
      RunsAfterShutdownIff(s, c);
    }
  }

  /** RunOutboxRelay checks `stopped` before it takes the mutex: a call caught in between outlives a
      successful Shutdown, uncanceled. */
  lemma RunOutlivesShutdown()
    ensures var steps := [RunCheck(0), Flag(0), Grab(0), Fire(0), Wait(0), RunEnter(0)];
            && Allowed(INITIAL, steps)
            && var s := Exec(INITIAL, steps);
               s.shutdowns[0].Waited? && s.SomeLoopRuns() && s.canceled == {}
  {
    var s1 := Apply(INITIAL, RunCheck(0));
    var s2 := Apply(s1, Flag(0));
    var s3 := Apply(s2, Grab(0));
    var s4 := Apply(s3, Fire(0));
    var s5 := Apply(s4, Wait(0));
    var s6 := Apply(s5, RunEnter(0));
    assert s6.loops[0].Looping?;
    Prepend(s5, RunEnter(0), []);
    Prepend(s4, Wait(0), [RunEnter(0)]);
    Prepend(s3, Fire(0), [Wait(0), RunEnter(0)]);
    Prepend(s2, Grab(0), [Fire(0), Wait(0), RunEnter(0)]);
    Prepend(s1, Flag(0), [Grab(0), Fire(0), Wait(0), RunEnter(0)]);
    Prepend(INITIAL, RunCheck(0), [Flag(0), Grab(0), Fire(0), Wait(0), RunEnter(0)]);
    assert [RunCheck(0)] + [Flag(0), Grab(0), Fire(0), Wait(0), RunEnter(0)]
        == [RunCheck(0), Flag(0), Grab(0), Fire(0), Wait(0), RunEnter(0)];
    assert [Flag(0)] + [Grab(0), Fire(0), Wait(0), RunEnter(0)] == [Flag(0), Grab(0), Fire(0), Wait(0), RunEnter(0)];
    assert [Grab(0)] + [Fire(0), Wait(0), RunEnter(0)] == [Grab(0), Fire(0), Wait(0), RunEnter(0)];
    assert [Fire(0)] + [Wait(0), RunEnter(0)] == [Fire(0), Wait(0), RunEnter(0)];
    assert [Wait(0)] + [RunEnter(0)] == [Wait(0), RunEnter(0)] && [RunEnter(0)] + [] == [RunEnter(0)];
  }

  lemma Prepend(s: State, step: Step, rest: seq<Step>)
    requires Enabled(s, step) && Allowed(Apply(s, step), rest)
    ensures Allowed(s, [step] + rest) && Exec(s, [step] + rest) == Exec(Apply(s, step), rest)
  {
    assert ([step] + rest)[1..] == rest;
  }

  // --- The Syncer ---

  /** The fields the calls share. `startOnly`: nobody calls RunOutboxRelay. */
  class Syncer {
    const startOnly: bool
    var stopped: bool
    var relayRunning: bool
    var relayCancel: Option<nat>
    var relayWG: nat
    var nextLoop: nat
    ghost var run: seq<Step>  // the steps taken so far, by everybody
    ghost var st: State       // the state they lead to

    constructor (startOnly: bool)
      ensures Free() && this.startOnly == startOnly && st == INITIAL
    {
      this.startOnly := startOnly;
      stopped, relayRunning, relayCancel, relayWG, nextLoop := false, false, None, 0, 0;
      run, st := [], INITIAL;
    }

    ghost predicate Legal()
      reads this
    {
      Allowed(INITIAL, run) && Exec(INITIAL, run) == st && Inv(st) && (startOnly ==> Contained(st))
    }

    ghost predicate Valid()
      reads this
    {
      && Legal() && st.stopped == stopped && st.running == relayRunning && st.cancel == relayCancel
      && |st.loops| == relayWG && st.nextLoop == nextLoop
    }

    /** The mutex is free. */
    ghost predicate Free()
      reads this
    {
      Valid() && !st.starting
    }

    /** This call takes one step; it does the same to the fields. */
    ghost method Take(step: Step)
      requires Legal() && Enabled(st, step) && !(startOnly && step.RunCheck?)
      modifies this`st, this`run
      ensures Legal() && st == Apply(old(st), step) && run == old(run) + [step]
    {
      OneMore(INITIAL, run, step);
      StepKeeps(st, step);
      if startOnly {
        ContainedKeeps(st, step);
      }
      st, run := Apply(st, step), run + [step];
    }

    /** What other calls may do between two steps of this one: any steps, except in the name of this
        call's own check, loop or Shutdown, and except for taking a mutex that this call holds. */
    method Others(ghost call: Option<nat>, ghost loop: Option<nat>, ghost shutdown: Option<nat>)
      requires Valid()
      modifies this
      ensures Valid() && old(run) <= run && st.starting == old(st.starting) && (old(stopped) ==> stopped)
      ensures st.starting ==> relayRunning == old(relayRunning) && nextLoop == old(nextLoop)
      ensures call.Some? && call.value in old(st.checked) ==> call.value in st.checked
      ensures loop.Some? && loop.value in old(st.loops) ==>
                loop.value in st.loops && st.loops[loop.value] == old(st.loops)[loop.value]
      ensures shutdown.Some? && shutdown.value in old(st.shutdowns) ==>
                shutdown.value in st.shutdowns && st.shutdowns[shutdown.value] == old(st.shutdowns)[shutdown.value]
    {
    }

    /** `stopped` is read under the mutex here, but Shutdown may still set it before the loop starts. */
    method StartOutboxRelay(usable: bool) returns (err: Option<string>)
      requires Free()
      modifies this
      ensures Free() && old(run) <= run
      ensures err.Some? <==> old(stopped) || (!old(relayRunning) && !usable)
      ensures err.Some? || old(relayRunning) ==> st == old(st)
      ensures err.None? ==> relayRunning && relayCancel.Some?
      ensures err.None? && !old(relayRunning) ==>
                && relayCancel == Some(old(nextLoop))
                && relayCancel.value in st.loops && st.loops[relayCancel.value].Looping?
    {
      if stopped {
        return Some("stopped");
      }
      if relayRunning {
        return None;
      }
      if !usable {
        return Some("nil context, nil db or no outbox store");
      }
      Take(StartCheck);
      Others(None, None, None);
      NewLoopCounts(st);
      Take(StartCommit);
      relayCancel, relayRunning, relayWG, nextLoop := Some(nextLoop), true, relayWG + 1, nextLoop + 1;
      err := None;
    }

    /** From the start of a loop to the end of its deferred functions. */
    method RunLoop(id: nat)
      requires Free() && id in st.loops && st.loops[id].Looping?
      modifies this
      ensures Free() && old(run) <= run && id !in st.loops && (old(stopped) ==> stopped)
    {
      Others(None, Some(id), None);
      LoopCounts(st.loops, id, Ended);
      Take(Exit(id));
      Others(None, Some(id), None);
      EndLoop(id);
    }

    /** The deferred functions: the fields first, then the WaitGroup. */
    method EndLoop(id: nat)
      requires Free() && id in st.loops && st.loops[id].Ended?
      modifies this
      ensures Free() && old(run) <= run && id !in st.loops && (old(stopped) ==> stopped)
    {
      LoopCounts(st.loops, id, Cleaned);
      Take(Cleanup(id));
      relayRunning, relayCancel := false, None;
      Others(None, Some(id), None);
      LoopCounts(st.loops, id, Cleaned);
      Take(Done(id));
      relayWG := relayWG - 1;
    }

    /** `at` is where this call took the mutex in the run. It is refused exactly if a relay was running then,
        and only after its loop has ended does it return otherwise. */
    method RunOutboxRelay(ghost call: nat, usable: bool) returns (err: Option<string>, ghost at: nat)
      requires Free() && !startOnly && call !in st.checked
      modifies this
      ensures Free() && old(run) <= run
      ensures old(stopped) ==> err.Some? && st == old(st)
      ensures !usable ==> err.Some?
      ensures !old(stopped) && usable ==> EnteredAt(run, call, at) && |old(run)| < at
      ensures !old(stopped) && usable ==> (err.Some? <==> Exec(INITIAL, run[..at]).running)
      ensures !old(stopped) && usable && err.Some? ==> at == |run| - 1
    {
      at := |run|;
      if stopped {
        return Some("stopped"), at;
      }
      Take(RunCheck(call));
      if !usable {
        Take(RunLeave(call));
        return Some("nil context, nil db or no outbox store"), at;
      }
      Others(Some(call), None, None);
      at := |run|;
      ghost var before := run;
      assert run[..at] == run;
      var id := EnterRelay(call);
      assert run[..at] == before && run[at] == RunEnter(call);
      if id.None? {
        return Some("outbox relay already running"), at;
      }
      ghost var entered := run;
      RunLoop(id.value);
      assert run[..at] == entered[..at] && run[at] == entered[at];
      err := None;
    }

    /** RunOutboxRelay under the mutex, where it does not look at `stopped` again. */
    method EnterRelay(ghost call: nat) returns (id: Option<nat>)
      requires Free() && call in st.checked
      modifies this
      ensures Free() && run == old(run) + [RunEnter(call)] && stopped == old(stopped)
      ensures id.None? <==> old(relayRunning)
      ensures id.Some? ==> relayCancel == id && id.value in st.loops && st.loops[id.value].Looping?
    {
      NewLoopCounts(st);
      Take(RunEnter(call));
      if relayRunning {
        return None;
      }
      id := Some(nextLoop);
      relayCancel, relayRunning, relayWG, nextLoop := id, true, relayWG + 1, nextLoop + 1;
    }

    method StopOutboxRelay(ghost c: nat)
      requires Free() && c in st.shutdowns && st.shutdowns[c].Flagged?
      modifies this
      ensures Free() && old(run) <= run && c in st.shutdowns && st.shutdowns[c].Fired? && (old(stopped) ==> stopped)
    {
      Take(Grab(c));
      Others(None, None, Some(c));
      Take(Fire(c));
    }

    /** `expired`: the context ends before the loop does. */
    method WaitOutboxRelay(ghost c: nat, usable: bool, expired: bool) returns (err: Option<string>)
      requires Free() && c in st.shutdowns && st.shutdowns[c].Fired?
      modifies this
      ensures Free() && old(run) <= run && c in st.shutdowns && (old(stopped) ==> stopped)
      ensures st.shutdowns[c] == if err.None? then Waited else Fired
      ensures err.None? <==> usable && !expired && relayWG == 0
    {
      if !usable {
        return Some("nil context");
      }
      Others(None, None, Some(c));
      if relayWG > 0 || expired {
        return Some("shutdown relay");
      }
      Take(Wait(c));
      err := None;
    }

    /** The relay's part of Shutdown. */
    method Shutdown(ghost c: nat, usable: bool, expired: bool) returns (err: Option<string>)
      requires Free() && c !in st.shutdowns
      modifies this
      ensures Free() && old(run) <= run && stopped
      ensures c in st.shutdowns && st.shutdowns[c] == if err.None? then Waited else Fired
      ensures err.None? <==> usable && !expired && relayWG == 0
      ensures startOnly && err.None? ==> st.loops == map[] && !CanStillRun(st)
      ensures startOnly ==> forall id: nat :: id in st.loops && st.loops[id].Looping? ==> id in st.canceled
    {
      stopped := true;
      Take(Flag(c));
      Others(None, None, Some(c));
      StopOutboxRelay(c);
      err := WaitOutboxRelay(c, usable, expired);
      if startOnly && err.None? {
        RunsAfterShutdownIff(st, c);
      }
    }
  }

  /** The step at this position is the call's taking of the mutex. */
  ghost predicate EnteredAt(run: seq<Step>, call: nat, at: nat) {
    at < |run| && run[at] == RunEnter(call) && Allowed(INITIAL, run[..at])
  }

  lemma LoopCounts(loops: map<nat, Loop>, id: nat, loop: Loop)
    requires id in loops
    ensures |loops[id := loop]| == |loops|
    ensures |loops - {id}| == |loops| - 1
  {
    assert loops[id := loop].Keys == loops.Keys;
    assert (loops - {id}).Keys == loops.Keys - {id};
  }

  lemma NewLoopCounts(s: State)
    requires Inv(s)
    ensures |NewLoop(s).loops| == |s.loops| + 1
  {
    assert NewLoop(s).loops.Keys == s.loops.Keys + {s.nextLoop};
  }
}
