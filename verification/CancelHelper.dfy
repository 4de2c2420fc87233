/** The cancel helper: interrupting threads that break a call, and the destructor that ends the breaks, as
    interleaved steps. */
module CancelHelper {

  /** Where the thread that owns the helper is: from its construction to the return of its destructor. */
  datatype OwnerPc = Constructing | Registered | Unregistered | Clearing | Cleared | Returned

  /** Where an interrupting thread is: it copies the callback, and runs the copy at any later time. */
  datatype ThreadPc = Idle | Copied | Locked | Breaking | Broken

  datatype Holder = Nobody | Owner | Thread(t: nat)

  /** The shared state lives as long as anyone refers to it; `service` tells whether it still has its handles, and
      `handles` whether those handles still exist. */
  datatype State = State(owner: OwnerPc, threads: seq<ThreadPc>, lock: Holder, service: bool, handles: bool)

  datatype Step =
    | Register | Unregister | OwnerLock | OwnerClear | OwnerUnlock | FreeHandles
    | Copy(t: nat) | ThreadLock(t: nat) | StartBreak(t: nat) | EndBreak(t: nat) | ThreadUnlock(t: nat)

  function Init(threads: nat): State {
    State(Constructing, seq(threads, _ => Idle), Nobody, true, true)
  }

  predicate At(s: State, t: nat, pc: ThreadPc) {
    t < |s.threads| && s.threads[t] == pc
  }

  /** The step can be the next one. */
  predicate Enabled(s: State, step: Step) {
    match step
    case Register => s.owner == Constructing
    case Unregister => s.owner == Registered
    case OwnerLock => s.owner == Unregistered && s.lock == Nobody
    case OwnerClear => s.owner == Clearing
    case OwnerUnlock => s.owner == Cleared
    case FreeHandles => s.owner == Returned
    case Copy(t) => s.owner == Registered && At(s, t, Idle)
    case ThreadLock(t) => At(s, t, Copied) && s.lock == Nobody
    case StartBreak(t) => At(s, t, Locked) && s.service
    case EndBreak(t) => At(s, t, Breaking)
    case ThreadUnlock(t) => At(s, t, Broken) || (At(s, t, Locked) && !s.service)
  }

  function Move(s: State, t: nat, pc: ThreadPc): State
    requires t < |s.threads|
  {
    s.(threads := s.threads[t := pc])
  }

  function Do(s: State, step: Step): State
    requires Enabled(s, step)
  {
    match step
    case Register => s.(owner := Registered)
    case Unregister => s.(owner := Unregistered)
    case OwnerLock => s.(owner := Clearing, lock := Owner)
    case OwnerClear => s.(owner := Cleared, service := false)
    case OwnerUnlock => s.(owner := Returned, lock := Nobody)
    case FreeHandles => s.(handles := false)
    case Copy(t) => Move(s, t, Copied)
    case ThreadLock(t) => Move(s, t, Locked).(lock := Thread(t))
    case StartBreak(t) => Move(s, t, Breaking)
    case EndBreak(t) => Move(s, t, Broken)
    case ThreadUnlock(t) => Move(s, t, Idle).(lock := Nobody)
  }

  /** A run of steps, each of which is enabled when it happens. */
  predicate IsRun(s: State, steps: seq<Step>)
    decreases steps
  {
    steps != [] ==> Enabled(s, steps[0]) && IsRun(Do(s, steps[0]), steps[1..])
  }

  function After(s: State, steps: seq<Step>): State
    requires IsRun(s, steps)
    decreases steps
  {
    if steps == [] then s else After(Do(s, steps[0]), steps[1..])
  }

  predicate Holding(pc: ThreadPc) {
    pc in {Locked, Breaking, Broken}
  }

  /** What every step of every run keeps: exactly the holder of the lock is in its critical section, the shared state
      has its handles until they are cleared under the lock, and the handles exist until the destructor returns. */
  predicate Inv(s: State) {
    && (forall t :: 0 <= t < |s.threads| ==> (Holding(s.threads[t]) <==> s.lock == Thread(t)))
    && (s.lock.Thread? ==> s.lock.t < |s.threads|)
    && (s.lock == Owner <==> s.owner in {Clearing, Cleared})
    && (s.service <==> s.owner !in {Cleared, Returned})
    && (forall t :: 0 <= t < |s.threads| && s.threads[t] == Breaking ==> s.service)
    && (s.owner != Returned ==> s.handles)
  }

  lemma StepKeepsInv(s: State, step: Step)
    requires Inv(s) && Enabled(s, step)
    ensures Inv(Do(s, step))
  {
    if step == OwnerClear {
      assert forall t :: 0 <= t < |s.threads| ==> !Holding(s.threads[t]);
    }
  }

  lemma {:induction false} RunKeepsInv(s: State, steps: seq<Step>)
    requires Inv(s) && IsRun(s, steps)
    ensures Inv(After(s, steps))
    decreases steps
  {
    if steps != [] {
      StepKeepsInv(s, steps[0]);
      RunKeepsInv(Do(s, steps[0]), steps[1..]);
    }
  }

  /** A prefix of a run is a run, and the rest goes on from where it ends. */
  lemma {:induction false} RunSplits(s: State, steps: seq<Step>, i: nat)
    requires IsRun(s, steps) && i <= |steps|
    ensures IsRun(s, steps[..i]) && IsRun(After(s, steps[..i]), steps[i..])
    ensures After(s, steps) == After(After(s, steps[..i]), steps[i..])
    decreases steps
  {
    if i > 0 {
      RunSplits(Do(s, steps[0]), steps[1..], i - 1);
      assert steps[..i][1..] == steps[1..][..i - 1] && steps[i..] == steps[1..][i - 1..];
    } else {
      assert steps[..0] == [] && steps[0..] == steps;
    }
  }

  lemma {:induction false} StaysReturned(s: State, steps: seq<Step>)
    requires IsRun(s, steps) && s.owner == Returned
    ensures After(s, steps).owner == Returned
    decreases steps
  {
    if steps != [] {
      StaysReturned(Do(s, steps[0]), steps[1..]);
    }
  }

  /** The next step of a run is enabled in the state that the steps before it lead to. */
  lemma NextEnabled(s: State, steps: seq<Step>, j: nat)
    requires IsRun(s, steps) && j < |steps|
    ensures IsRun(s, steps[..j]) && Enabled(After(s, steps[..j]), steps[j])
  {
    RunSplits(s, steps, j);
    assert steps[j..][0] == steps[j];
  }

  lemma QuietWhenReturned(s: State)
    requires Inv(s) && s.owner == Returned
    ensures forall t :: !At(s, t, Breaking) && !Enabled(s, StartBreak(t))
  {
  }

  lemma BreaksHaveHandles(s: State)
    requires Inv(s)
    ensures forall t :: At(s, t, Breaking) ==> s.handles && s.service
  {
  }

  /** In every run of any number of threads, once the destructor has returned no break is in progress, and none
      starts; so no break ever uses a handle that no longer exists. */
  lemma NoBreakAfterReturn(threads: nat, steps: seq<Step>, i: nat, j: nat)
    requires IsRun(Init(threads), steps) && i <= j <= |steps|
    ensures IsRun(Init(threads), steps[..i]) && IsRun(Init(threads), steps[..j])
    ensures After(Init(threads), steps[..i]).owner == Returned ==>
      && (forall t :: !At(After(Init(threads), steps[..j]), t, Breaking))
      && (j < |steps| ==> !steps[j].StartBreak?)
    ensures var s := After(Init(threads), steps[..j]); forall t :: At(s, t, Breaking) ==> s.handles && s.service
  {
    var init := Init(threads);
    assert Inv(init);
    hide *;
    RunSplits(init, steps, i);
    RunSplits(init, steps, j);
    RunSplits(init, steps[..j], i);
    assert steps[..j][..i] == steps[..i];
    var s := After(init, steps[..j]);
    RunKeepsInv(init, steps[..j]);
    BreaksHaveHandles(s);
    if After(init, steps[..i]).owner == Returned {
      StaysReturned(After(init, steps[..i]), steps[..j][i..]);
      QuietWhenReturned(s);
      if j < |steps| {
        NextEnabled(init, steps, j);
      }
    }
  }

  /** While a break is in progress the destructor cannot pass its lock: it waits for the break to end. */
  lemma DestructorWaits(s: State, t: nat)
    requires Inv(s) && At(s, t, Breaking)
    ensures !Enabled(s, OwnerLock) && !Enabled(s, OwnerClear) && !Enabled(s, OwnerUnlock)
    ensures Enabled(s, EndBreak(t)) && Enabled(Do(s, EndBreak(t)), ThreadUnlock(t))
    ensures Do(Do(s, EndBreak(t)), ThreadUnlock(t)).lock == Nobody
  {
  }

  /* ---- An interrupt reaches a break ---- */

  lemma {:induction false} RunsJoin(s: State, a: seq<Step>, b: seq<Step>)
    requires IsRun(s, a) && IsRun(After(s, a), b)
    ensures IsRun(s, a + b) && After(s, a + b) == After(After(s, a), b)
    decreases a
  {
    if a == [] {
      assert a + b == b;
    } else {
      RunsJoin(Do(s, a[0]), a[1..], b);
      assert (a + b)[1..] == a[1..] + b;
    }
  }

  lemma OneStep(s: State, step: Step)
    requires Enabled(s, step)
    ensures IsRun(s, [step]) && After(s, [step]) == Do(s, step)
  {
    assert [step][1..] == [];
    assert IsRun(Do(s, step), []);
  }

  /** How many steps the thread that holds the lock has left in its critical section. */
  function Remaining(s: State): nat {
    if !s.lock.Thread? then 0
    else if At(s, s.lock.t, Locked) then 3
    else if At(s, s.lock.t, Breaking) then 2
    else 1
  }

  /** While the helper is registered, the thread that holds its lock can finish. */
  lemma LockIsFreed(s: State) returns (steps: seq<Step>)
    requires Inv(s) && s.owner == Registered
    ensures IsRun(s, steps)
    ensures var s' := After(s, steps);
      && Inv(s') && s'.owner == Registered && s'.lock == Nobody && |s'.threads| == |s.threads|
      && forall t :: 0 <= t < |s.threads| && !Holding(s.threads[t]) ==> s'.threads[t] == s.threads[t]
    decreases Remaining(s)
  {
    steps := [];
    if s.lock.Thread? {
      var t := s.lock.t;
      assert Holding(s.threads[t]);
      var step := if s.threads[t] == Locked then StartBreak(t) else if s.threads[t] == Breaking then EndBreak(t)
                  else ThreadUnlock(t);
      StepKeepsInv(s, step);
      OneStep(s, step);
      var rest := LockIsFreed(Do(s, step));
      RunsJoin(s, [step], rest);
      steps := [step] + rest;
    }
  }

  lemma FreeLockTaken(s: State, t: nat)
    requires Inv(s) && s.owner == Registered && s.lock == Nobody && At(s, t, Idle)
    ensures var steps := [Copy(t), ThreadLock(t), StartBreak(t)];
      IsRun(s, steps) && At(After(s, steps), t, Breaking) && After(s, steps).handles
  {
    var s1 := Do(s, Copy(t));
    var s2 := Do(s1, ThreadLock(t));
    OneStep(s, Copy(t));
    OneStep(s1, ThreadLock(t));
    OneStep(s2, StartBreak(t));
    RunsJoin(s1, [ThreadLock(t)], [StartBreak(t)]);
    RunsJoin(s, [Copy(t)], [ThreadLock(t)] + [StartBreak(t)]);
    assert [Copy(t)] + ([ThreadLock(t)] + [StartBreak(t)]) == [Copy(t), ThreadLock(t), StartBreak(t)];
  }

  /** From every reachable state in which the helper is registered, an interrupt by an idle thread can reach a break. */
  lemma InterruptCanBreak(threads: nat, steps: seq<Step>, t: nat) returns (more: seq<Step>)
    requires IsRun(Init(threads), steps)
    requires After(Init(threads), steps).owner == Registered && At(After(Init(threads), steps), t, Idle)
    ensures IsRun(Init(threads), steps + more) && At(After(Init(threads), steps + more), t, Breaking)
  {
    var init := Init(threads);
    assert Inv(init);
    RunKeepsInv(init, steps);
    hide *;
    var s := After(init, steps);
    var free := LockIsFreed(s);
    var s' := After(s, free);
    IdleStays(s, s', t);
    FreeLockTaken(s', t);
    var last := [Copy(t), ThreadLock(t), StartBreak(t)];
    RunsJoin(s, free, last);
    RunsJoin(init, steps, free + last);
    more := free + last;
  }

  lemma IdleStays(s: State, s': State, t: nat)
    requires At(s, t, Idle) && |s'.threads| == |s.threads|
    requires forall t :: 0 <= t < |s.threads| && !Holding(s.threads[t]) ==> s'.threads[t] == s.threads[t]
    ensures At(s', t, Idle)
  {
  }
}
