/**
 Waiting on the guest mailbox, as an interleaved step system.

 One caller at a time waits for a status flag under `control_lock`; the interrupt handler
 runs in its own thread, arbitrarily late after the device raised the line; the device
 changes its status whenever it likes, and `remove` may tear the bridge down.  The line is
 raised whenever `status & mask` becomes nonzero, and one raise starts the handler once.
 Any MMIO access after the driver let go of the device sets `fault`.
 */
module Mailbox {

  datatype Flag = RxReady | TxSpace | Closed | Error

  /** The waiter in `wait_status`; Sleeping is inside `schedule`, queued for a wakeup. */
  datatype Waiter =
    | Out                                 // not in a call: control_lock is free
    | TestDead(wanted: Flag)              // top of the loop
    | TestStatus(wanted: Flag)            // reads MB_STATUS
    | ReadGeneration(wanted: Flag)
    | Arm(wanted: Flag, armed: nat)       // writes wanted | CLOSED to MB_MASK
    | Check(wanted: Flag, armed: nat)     // evaluates the wait condition, already queued
    | Sleeping(wanted: Flag, armed: nat)
    | Disarm(wanted: Flag, signal: bool)  // writes 0 to MB_MASK
    | Returned(result: Result)

  datatype Result = Ready | Pipe | NoDevice | Interrupted

  /** `bridge_irq` for a mailbox: mask the source, count, wake. */
  datatype Handler = Idle | Mask | Advance | Wake

  /** `bridge_remove`: publish dead, wake, then take control_lock and let go of the device. */
  datatype Remover = Present | Dying | Waking | Gone

  datatype State = State(
    status: set<Flag>,
    mask: set<Flag>,
    generation: nat,
    raised: bool,      // the interrupt is raised and its handler has not started
    dead: bool,
    waiter: Waiter,
    handler: Handler,
    remover: Remover,
    fault: bool)

  datatype Step =
    | Device(status: set<Flag>)
    | Call(wanted: Flag)     // a reader or writer takes control_lock
    | Wait                   // the waiter's next step
    | Signal                 // a signal is delivered to the sleeping waiter
    | Leave                  // the caller drops control_lock
    | Irq                    // the handler's next step
    | Remove                 // the remover's next step

  function Init(): State {
    State({}, {}, 0, false, false, Out, Idle, Present, false)
  }

  /** The line follows `status & mask`. */
  function Line(s: State): State {
    if s.status * s.mask != {} then s.(raised := true) else s
  }

  function SetMask(s: State, mask: set<Flag>): State {
    if s.remover.Gone? then s.(fault := true) else Line(s.(mask := mask))
  }

  /** `hyper_io_wait_ready` on the current registers. */
  predicate WaitReady(s: State, wanted: Flag, armed: nat) {
    s.status * {wanted, Closed} != {} || armed != s.generation
  }

  function RunWaiter(s: State): State {
    match s.waiter
    case Out => s
    case TestDead(wanted) =>
      s.(waiter := if s.dead then Returned(NoDevice) else TestStatus(wanted))
    case TestStatus(wanted) =>
      if s.remover.Gone? then s.(fault := true)
      else if Closed in s.status then s.(waiter := Returned(Pipe))
      else if wanted in s.status then s.(waiter := Returned(Ready))
      else s.(waiter := ReadGeneration(wanted))
    case ReadGeneration(wanted) => s.(waiter := Arm(wanted, s.generation))
    case Arm(wanted, armed) => SetMask(s.(waiter := Check(wanted, armed)), {wanted, Closed})
    case Check(wanted, armed) =>
      if s.remover.Gone? then s.(fault := true)
      else if s.dead || WaitReady(s, wanted, armed) then s.(waiter := Disarm(wanted, false))
      else s.(waiter := Sleeping(wanted, armed))
    case Sleeping(_, _) => s
    case Disarm(wanted, signal) =>
      SetMask(s.(waiter := if signal then Returned(Interrupted) else TestDead(wanted)), {})
    case Returned(_) => s
  }

  /** A wakeup puts a sleeping waiter back to evaluating its condition. */
  function WakeUp(s: State): State {
    if s.waiter.Sleeping? then s.(waiter := Check(s.waiter.wanted, s.waiter.armed)) else s
  }

  function RunHandler(s: State): State {
    match s.handler
    case Idle => if s.raised && !s.remover.Gone? then s.(handler := Mask, raised := false) else s
    case Mask => SetMask(s.(handler := Advance), {})
    case Advance => s.(generation := s.generation + 1, handler := Wake)
    case Wake => WakeUp(s.(handler := Idle))
  }

  /** Freeing the interrupt waits for a running handler, and the lock for a waiter. */
  function RunRemover(s: State): State {
    match s.remover
    case Present => s.(dead := true, remover := Dying)
    case Dying => WakeUp(s.(remover := Waking))
    case Waking =>
      if s.waiter.Out? && s.handler.Idle? then s.(mask := {}, raised := false, remover := Gone) else s
    case Gone => s
  }

  function Apply(s: State, step: Step): State {
    match step
    case Device(status) => Line(s.(status := status))
    case Call(wanted) => if s.waiter.Out? then s.(waiter := TestDead(wanted)) else s
    case Wait => RunWaiter(s)
    case Signal => if s.waiter.Sleeping? then s.(waiter := Disarm(s.waiter.wanted, true)) else s
    case Leave => if s.waiter.Returned? then s.(waiter := Out) else s
    case Irq => RunHandler(s)
    case Remove => RunRemover(s)
  }

  function Exec(s: State, steps: seq<Step>): State
    decreases |steps|
  {
    if steps == [] then s else Exec(Apply(s, steps[0]), steps[1..])
  }

  // ----- what every state keeps -----------------------------------------------------

  /** Some step that wakes the waiter is on its way. */
  predicate WakePending(s: State) {
    s.raised || !s.handler.Idle? || s.remover.Dying?
  }

  /** The mask a waiter between arming and disarming relies on. */
  predicate StillArmed(s: State, wanted: Flag) {
    s.mask == {wanted, Closed} && (s.status * s.mask != {} ==> s.raised || s.handler.Mask?)
  }

  predicate Inv(s: State) {
    && !s.fault
    && (s.dead <==> !s.remover.Present?)
    && (s.remover.Gone? ==>
          && s.handler.Idle? && !s.raised && s.mask == {}
          && (s.waiter.Out? || s.waiter.TestDead? || s.waiter.Returned?))
    && (s.waiter.Arm? ==> s.waiter.armed <= s.generation)
    && (s.waiter.Check? || s.waiter.Sleeping? ==>
          && s.waiter.armed <= s.generation
          && (s.waiter.armed == s.generation ==> StillArmed(s, s.waiter.wanted) || s.handler.Advance?))
    && (s.waiter.Sleeping? && s.waiter.armed != s.generation ==> s.handler.Wake?)
    && (s.waiter.Sleeping? && s.dead ==> s.remover.Dying?)
  }

  lemma {:induction false} DeviceKeepsInv(s: State, status: set<Flag>)
    requires Inv(s)
    ensures Inv(Line(s.(status := status)))
  {
  }

  lemma {:induction false} WaiterKeepsInv(s: State)
    requires Inv(s)
    ensures Inv(RunWaiter(s))
  {
  }

  lemma {:induction false} HandlerKeepsInv(s: State)
    requires Inv(s)
    ensures Inv(RunHandler(s))
  {
  }

  lemma {:induction false} RemoverKeepsInv(s: State)
    requires Inv(s)
    ensures Inv(RunRemover(s))
  {
  }

  lemma {:induction false} StepKeepsInv(s: State, step: Step)
    requires Inv(s)
    ensures Inv(Apply(s, step))
  {
    match step
    case Device(status) => DeviceKeepsInv(s, status);
    case Wait => WaiterKeepsInv(s);
    case Irq => HandlerKeepsInv(s);
    case Remove => RemoverKeepsInv(s);
    case _ =>
  }

  lemma {:induction false} ExecKeepsInv(s: State, steps: seq<Step>)
    requires Inv(s)
    ensures Inv(Exec(s, steps))
    decreases |steps|
  {
    if steps != [] {
      StepKeepsInv(s, steps[0]);
      ExecKeepsInv(Apply(s, steps[0]), steps[1..]);
    }
  }

  // ----- what holds in every run ----------------------------------------------------

  /** The driver never touches the device after removal let go of it. */
  lemma {:induction false} NoAccessAfterRemoval(steps: seq<Step>)
    ensures !Exec(Init(), steps).fault
  {
    ExecKeepsInv(Init(), steps);
  }

  /** No lost wakeup.  Asleep, the wait condition is still false and the mask is armed, so that
      the next status change raises the interrupt; or a step that wakes the waiter is pending. */
  lemma {:induction false} NoLostWakeup(steps: seq<Step>)
    requires Exec(Init(), steps).waiter.Sleeping?
    ensures var s := Exec(Init(), steps);
            || WakePending(s)
            || (!s.dead && !WaitReady(s, s.waiter.wanted, s.waiter.armed) && s.mask == {s.waiter.wanted, Closed})
  {
    ExecKeepsInv(Init(), steps);
  }

  /** The steps of the driver itself: waiter, handler and remover. */
  predicate Internal(step: Step) {
    step.Wait? || step.Irq? || step.Remove?
  }

  predicate InCall(s: State) {
    !s.waiter.Out? && !s.waiter.Returned?
  }

  /** There is something to return to the waiter. */
  predicate Stirred(s: State) {
    InCall(s) && (s.dead || s.status * {s.waiter.wanted, Closed} != {})
  }

  function WaiterRank(s: State): nat
    requires InCall(s)
  {
    match s.waiter
    case TestStatus(wanted) => if s.status * {wanted, Closed} != {} then 1 else 8
    case TestDead(_) => 2
    case Disarm(_, _) => 3
    case Check(_, _) => 4
    case Sleeping(_, _) => 5
    case Arm(_, _) => 6
    case ReadGeneration(_) => 7
  }

  function Rank(s: State): nat
    requires InCall(s)
  {
    10 * WaiterRank(s)
    + (if s.raised then 4 else 0)
    + (match s.handler case Idle => 0 case Mask => 3 case Advance => 2 case Wake => 1)
    + (match s.remover case Present => 3 case Dying => 2 case Waking => 1 case Gone => 0)
  }

  /** Once there is something to return, every step the driver takes brings the return nearer. */
  lemma {:induction false} StepApproachesReturn(s: State, step: Step)
    requires Inv(s) && Stirred(s) && Internal(step) && Apply(s, step) != s
    ensures var r := Apply(s, step); r.waiter.Returned? || (Stirred(r) && Rank(r) < Rank(s))
  {
    match step
    case Wait => WaiterApproaches(s);
    case Irq => HandlerApproaches(s);
    case Remove => RemoverApproaches(s);
  }

  lemma {:induction false} WaiterApproaches(s: State)
    requires Inv(s) && Stirred(s) && RunWaiter(s) != s
    ensures var r := RunWaiter(s); r.waiter.Returned? || (Stirred(r) && Rank(r) < Rank(s))
  {
  }

  lemma {:induction false} HandlerApproaches(s: State)
    requires Inv(s) && Stirred(s) && RunHandler(s) != s
    ensures var r := RunHandler(s); r.waiter.Returned? || (Stirred(r) && Rank(r) < Rank(s))
  {
  }

  lemma {:induction false} RemoverApproaches(s: State)
    requires Inv(s) && Stirred(s) && RunRemover(s) != s
    ensures var r := RunRemover(s); r.waiter.Returned? || (Stirred(r) && Rank(r) < Rank(s))
  {
  }

  /** And some step is always open, so the waiter cannot be left asleep. */
  lemma {:induction false} SomeStepIsOpen(s: State)
    requires Inv(s) && Stirred(s)
    ensures Apply(s, Wait) != s || Apply(s, Irq) != s || Apply(s, Remove) != s
  {
    if s.waiter.Sleeping? && s.waiter.armed == s.generation && !s.dead && !s.handler.Advance? {
      assert StillArmed(s, s.waiter.wanted);
    }
  }

  /** A schedule of driver steps each of which does something, with the waiter in its call. */
  predicate Busy(s: State, steps: seq<Step>)
    decreases |steps|
  {
    InCall(s) && (steps != [] ==>
      Internal(steps[0]) && Apply(s, steps[0]) != s && Busy(Apply(s, steps[0]), steps[1..]))
  }

  /** Whatever the scheduler does, a waiter with something to return is back within Rank steps. */
  lemma {:induction false} EveryScheduleReturns(s: State, steps: seq<Step>)
    requires Inv(s) && Stirred(s) && Busy(s, steps)
    ensures |steps| <= Rank(s)
    decreases |steps|
  {
    if steps != [] {
      StepKeepsInv(s, steps[0]);
      StepApproachesReturn(s, steps[0]);
      EveryScheduleReturns(Apply(s, steps[0]), steps[1..]);
    }
  }

  /** Why the generation is part of the wait condition: a handler that was delayed from an
      earlier transaction masks the new arm although no status is set.  The waiter is left
      with nothing armed and nothing pending but the changed generation, and so arms again. */
  lemma {:induction false} DelayedHandlerForcesRearm(s: State)
    requires Inv(s) && s.waiter.Sleeping? && s.handler.Mask? && !s.raised && !s.dead
    requires s.status * {s.waiter.wanted, Closed} == {}
    ensures var r := Exec(s, [Irq, Irq, Irq]);
            && r.waiter == Check(s.waiter.wanted, s.waiter.armed) && r.mask == {} && !r.raised && r.handler.Idle?
            && r.status * {s.waiter.wanted, Closed} == {}
            && WaitReady(r, s.waiter.wanted, s.waiter.armed)
            && var q := Exec(r, [Wait, Wait, Wait, Wait, Wait, Wait]);
               q.waiter == Check(s.waiter.wanted, q.generation) && q.mask == {s.waiter.wanted, Closed}
  {
    var wanted := s.waiter.wanted;
    assert wanted in s.status ==> wanted in s.status * {wanted, Closed};
    assert Closed in s.status ==> Closed in s.status * {wanted, Closed};
    var a := Apply(s, Irq);
    var b := Apply(a, Irq);
    var r := Apply(b, Irq);
    assert Exec(s, [Irq, Irq, Irq]) == r;
    var c1 := Apply(r, Wait);
    var c2 := Apply(c1, Wait);
    var c3 := Apply(c2, Wait);
    assert Exec(c3, [Wait, Wait, Wait]) == Apply(Apply(Apply(c3, Wait), Wait), Wait);
    assert Exec(r, [Wait, Wait, Wait, Wait, Wait, Wait]) == Exec(c3, [Wait, Wait, Wait]);
  }

  // ----- what a wait returns ------------------------------------------------------------

  lemma {:induction false} ExecOneMore(s: State, steps: seq<Step>, step: Step)
    ensures Exec(s, steps + [step]) == Apply(Exec(s, steps), step)
    decreases |steps|
  {
    if steps != [] {
      assert (steps + [step])[1..] == steps[1..] + [step];
      ExecOneMore(Apply(s, steps[0]), steps[1..], step);
    }
  }

  /** The flag a waiter inside its call waits for. */
  predicate WaitsFor(s: State, wanted: Flag) {
    match s.waiter
    case Out => false
    case Returned(_) => false
    case TestDead(w) => w == wanted
    case TestStatus(w) => w == wanted
    case ReadGeneration(w) => w == wanted
    case Arm(w, _) => w == wanted
    case Check(w, _) => w == wanted
    case Sleeping(w, _) => w == wanted
    case Disarm(w, _) => w == wanted
  }

  /** A waiter that a signal took out of its sleep and that only has to disarm. */
  predicate Signalled(s: State) { s.waiter.Disarm? && s.waiter.signal }

  /** The result of the call, by what the waiter found in state s with its last step: the bridge
      dead at the test, the status it read (while the device was still there), or a signal. */
  predicate ResultOf(s: State, wanted: Flag, result: Result) {
    && (result == NoDevice <==> s.waiter == TestDead(wanted))
    && (result == NoDevice ==> s.dead)
    && (result == Pipe <==> s.waiter == TestStatus(wanted) && Closed in s.status)
    && (result == Ready <==> s.waiter == TestStatus(wanted) && wanted in s.status && Closed !in s.status)
    && (result == Pipe || result == Ready ==> !s.remover.Gone?)
    && (result == Interrupted <==> Signalled(s))
  }

  /** Each step of a call keeps its flag, or ends it with the result that fits. */
  lemma {:induction false} CallStep(s: State, step: Step, wanted: Flag)
    requires Inv(s) && WaitsFor(s, wanted)
    ensures var r := Apply(s, step);
            WaitsFor(r, wanted) || (step == Wait && r.waiter.Returned? && ResultOf(s, wanted, r.waiter.result))
  {
  }

  /** And whatever the waiter finds does end it: the tests are not skipped. */
  lemma {:induction false} TestsDecide(s: State, wanted: Flag)
    requires Inv(s)
    ensures s.waiter == TestDead(wanted) ==> (Apply(s, Wait).waiter.Returned? <==> s.dead)
    ensures s.waiter == TestStatus(wanted) ==>
              (Apply(s, Wait).waiter.Returned? <==> wanted in s.status || Closed in s.status)
    ensures Signalled(s) ==> Apply(s, Wait).waiter.Returned?
  {
  }

  /** The steps of a call up to the one with which it returns. */
  predicate Calling(s: State, steps: seq<Step>)
    decreases |steps|
  {
    && steps != [] && InCall(s)
    && if |steps| == 1 then Apply(s, steps[0]).waiter.Returned? else Calling(Apply(s, steps[0]), steps[1..])
  }

  lemma {:induction false} CallRun(s: State, steps: seq<Step>, wanted: Flag)
    requires Inv(s) && WaitsFor(s, wanted) && Calling(s, steps)
    ensures var last := Exec(s, steps[..|steps| - 1]);
            var r := Exec(s, steps);
            Inv(last) && WaitsFor(last, wanted) && r.waiter.Returned? && ResultOf(last, wanted, r.waiter.result)
    decreases |steps|
  {
    var r := Apply(s, steps[0]);
    StepKeepsInv(s, steps[0]);
    CallStep(s, steps[0], wanted);
    if |steps| == 1 {
      assert Exec(s, steps) == r && steps[..0] == [];
    } else {
      CallRun(r, steps[1..], wanted);
      assert steps[..|steps| - 1][1..] == steps[1..][..|steps| - 2];
      assert steps[..|steps| - 1][0] == steps[0];
    }
  }

  /** In every run, a call that waits for a flag returns what it found last: 0 exactly when it read
      the flag without CLOSED, EPIPE exactly when it read CLOSED, ENODEV only when the bridge was
      dead, EINTR exactly when a signal had hit its sleep. */
  lemma {:induction false} CallReturnsWhatItFound(before: seq<Step>, wanted: Flag, steps: seq<Step>)
    requires Exec(Init(), before).waiter.Out? && Calling(Apply(Exec(Init(), before), Call(wanted)), steps)
    ensures var s := Apply(Exec(Init(), before), Call(wanted));
            var last := Exec(s, steps[..|steps| - 1]);
            var r := Exec(s, steps);
            r.waiter.Returned? && ResultOf(last, wanted, r.waiter.result)
  {
    ExecKeepsInv(Init(), before);
    var s := Exec(Init(), before);
    StepKeepsInv(s, Call(wanted));
    CallRun(Apply(s, Call(wanted)), steps, wanted);
  }

  /** Where a signalled waiter comes from: a signal in its sleep, and since then no step of its own. */
  lemma {:induction false} SignalledBySignal(steps: seq<Step>) returns (j: nat)
    requires Signalled(Exec(Init(), steps))
    ensures j < |steps| && steps[j] == Signal && Exec(Init(), steps[..j]).waiter.Sleeping?
    ensures forall n :: j < n < |steps| ==> steps[n] != Wait
    decreases |steps|
  {
    var n := |steps| - 1;
    assert steps[..n] + [steps[n]] == steps;
    ExecOneMore(Init(), steps[..n], steps[n]);
    var s := Exec(Init(), steps[..n]);
    ExecKeepsInv(Init(), steps[..n]);
    SignalStep(s, steps[n]);
    if steps[n] == Signal && s.waiter.Sleeping? {
      j := n;
    } else {
      j := SignalledBySignal(steps[..n]);
      assert steps[..n][..j] == steps[..j];
    }
  }

  lemma {:induction false} SignalStep(s: State, step: Step)
    requires Inv(s)
    ensures Signalled(Apply(s, step)) ==> (step == Signal && s.waiter.Sleeping?) || (Signalled(s) && step != Wait)
    ensures step == Signal && s.waiter.Sleeping? ==> Signalled(Apply(s, step))
    ensures Signalled(s) && step != Wait ==> Signalled(Apply(s, step))
  {
  }

  /** A waiter that is about to read the status found the bridge alive, and has not moved since. */
  lemma {:induction false} TestedAlive(steps: seq<Step>) returns (j: nat)
    requires Exec(Init(), steps).waiter.TestStatus?
    ensures j < |steps| && steps[j] == Wait
    ensures Exec(Init(), steps[..j]).waiter.TestDead? && !Exec(Init(), steps[..j]).dead
    ensures forall n :: j < n < |steps| ==> steps[n] != Wait
    decreases |steps|
  {
    var n := |steps| - 1;
    assert steps[..n] + [steps[n]] == steps;
    ExecOneMore(Init(), steps[..n], steps[n]);
    ExecKeepsInv(Init(), steps[..n]);
    TestStep(Exec(Init(), steps[..n]), steps[n]);
    if steps[n] == Wait {
      j := n;
    } else {
      j := TestedAlive(steps[..n]);
      assert steps[..n][..j] == steps[..j];
    }
  }

  lemma {:induction false} TestStep(s: State, step: Step)
    requires Inv(s) && Apply(s, step).waiter.TestStatus?
    ensures if step == Wait then s.waiter.TestDead? && !s.dead else s.waiter.TestStatus?
  {
  }

  /** The bridge may die between the two tests, so a successful wait does not mean it is alive. */
  lemma {:induction false} ReadyMayBeDying()
    ensures var s := Exec(Init(), [Device({RxReady}), Call(RxReady), Wait, Remove, Wait]);
            s.waiter == Returned(Ready) && s.dead
  {
    var s1 := Apply(Init(), Device({RxReady}));
    var s2 := Apply(s1, Call(RxReady));
    var s3 := Apply(s2, Wait);
    var s4 := Apply(s3, Remove);
    var s5 := Apply(s4, Wait);
    assert Exec(s3, [Remove, Wait]) == Exec(s4, [Wait]) == s5;
    assert Exec(s1, [Call(RxReady), Wait, Remove, Wait]) == Exec(s2, [Wait, Remove, Wait]) == Exec(s3, [Remove, Wait]);
  }
}
