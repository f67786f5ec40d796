/**
 The session protocol of one control endpoint: binding generations, device epochs, strictly
 increasing transactions and the exact-reply replay cache (include/hyper_io_session.h and the
 loop of `serve`), apart from what a dispatched request does to the backend.
 */
module Session {
  import opened Wrappers
  import opened Layout
  import opened Backend

  const HELLO: nat := 1
  const ACTIVATE: nat := 2
  const RESET: nat := 3
  const STOP_QUEUE: nat := 4
  const PREPARE_MEMORY: nat := 5
  const RELEASE_MEMORY: nat := 6
  const NETWORK_HELLO: nat := 7
  const NETWORK_ACTIVATE: nat := 8
  const NETWORK_RESET: nat := 9
  const NETWORK_STOP_QUEUE: nat := 10
  const BLOCK_HELLO: nat := 11
  const BLOCK_ENUM: nat := 12
  const BLOCK_READ: nat := 13
  const BLOCK_BIND: nat := 14

  const U32: nat := 0x1_0000_0000

  /** What follows the header, decoded as the operation and the size call for. */
  datatype Body =
    | Plain(bytes: seq<nat>)
    | Memory(memory: MemoryRequest)
    | Queues(queues: QueueRequest)
    | Stop(queue: nat, reserved: nat)

  /** A control record whose magic, version, length and flags are as required. */
  datatype Message = Message(operation: nat, size: nat, binding: Word, epoch: Word, transaction: Word, body: Body)

  datatype Reply = Reply(message: Message, status: Status, length: nat)

  /** Which service this is. */
  datatype Config =
    Config(managed: bool, blocks: bool, disk: bool, network: bool, requestQueues: nat, notification: seq<bool>)

  /** `struct hyper_io_session` as a value. */
  datatype View = View(binding: nat, epochs: seq<nat>, retired: bool)

  predicate ViewOk(v: View) { |v.epochs| == 2 }

  /** `hyper_io_session_preparable`. */
  predicate Preparable(v: View) { v.binding != 0 && !v.retired }

  /** `hyper_io_session_admit`: the new session and -1, 0 or 1. */
  function Admit(v: View, binding: nat, epoch: nat, hello: bool, idle: bool, device: nat): (View, int)
    requires ViewOk(v)
  {
    if binding == 0 || epoch == 0 || epoch >= U32 || device > 1 then (v, -1)
    else if v.binding != binding then
      if !hello || !idle || binding <= v.binding then (v, -1)
      else (View(binding, [0, 0][device := epoch], false), 1)
    else if epoch < v.epochs[device] then (v, -1)
    else (v, 0)
  }

  /** The header checks whose failure ends the service loop. */
  predicate Serviceable(m: Message) {
    m.binding != 0 && m.transaction != 0 && m.epoch != 0 && m.epoch < U32
  }

  function Primary(c: Config): nat { if c.blocks || c.disk then 0 else 1 }

  function Device(c: Config, m: Message): (d: nat)
    ensures d < 2
  {
    if m.operation == PREPARE_MEMORY || m.operation == RELEASE_MEMORY then Primary(c)
    else if NETWORK_HELLO <= m.operation <= NETWORK_STOP_QUEUE then 1
    else 0
  }

  predicate IsHello(c: Config, m: Message) {
    m.size == 40 && m.operation == (if c.blocks then BLOCK_HELLO else if Primary(c) == 1 then NETWORK_HELLO else HELLO)
  }

  predicate IsRelease(c: Config, m: Message) {
    m.operation == RELEASE_MEMORY && m.size == 40 && c.managed
  }

  /** The length of a reply: only some successful replies carry more than a status. */
  function ReplyLength(operation: nat, status: Status): (n: nat)
    ensures n == 48 || n == 64 || n == 80
  {
    if status != OK then 48
    else if operation == HELLO || operation == BLOCK_HELLO then 64
    else if operation == NETWORK_HELLO || operation == BLOCK_ENUM then 80
    else 48
  }

  /** The loop's variables: session, last transaction, and the last executed message with its reply. */
  datatype Front = Front(view: View, last: nat, cache: Option<Reply>)

  const START := Front(View(0, [0, 0], false), 0, None)

  datatype Kind = Rejected | Replayed | Executed

  /** What the environment contributes to one turn: the record, whether the backend was idle, the
      status the backend gives the request if it is asked, and whether the disk's SCSI target is
      published. */
  datatype Input = Input(message: Message, idle: bool, answer: Status, ready: bool)

  datatype Event = Event(kind: Kind, reply: Reply)

  /** `dispatch` as far as the session is concerned. */
  function Dispatch(c: Config, v: View, m: Message, answer: Status): (View, Status) {
    if IsRelease(c, m) then (if answer == OK then v.(retired := true) else v, answer)
    else if !Preparable(v) then (v, INVALID)
    else (v, answer)
  }

  /** What running record m on the backend's answer makes of the loop's variables. */
  predicate Executes(c: Config, f: Front, m: Message, answer: Status, g: Front, reply: Reply)
    requires ViewOk(f.view)
  {
    var (after, status) := Dispatch(c, f.view, m, answer);
    && reply == Reply(m, status, ReplyLength(m.operation, status))
    && g == Front(after.(epochs := after.epochs[Device(c, m) := m.epoch]), m.transaction, Some(reply))
  }

  /** The loop's variables after admission; a new binding starts with an empty cache. */
  function Admitted(c: Config, f: Front, m: Message, idle: bool): (r: (Front, int))
    requires ViewOk(f.view)
    ensures ViewOk(r.0.view)
  {
    var (view, admission) :=
      Admit(f.view, m.binding, m.epoch, IsHello(c, m), if c.managed then idle else f.view.binding == 0, Device(c, m));
    if admission > 0 then (Front(view, 0, None), admission) else (f, admission)
  }

  /** One turn of the loop in `serve`. */
  function Step(c: Config, f: Front, i: Input): (r: (Front, Event))
    requires ViewOk(f.view)
    ensures ViewOk(r.0.view)
  {
    var m := i.message;
    var (g, admission) := Admitted(c, f, m, i.idle);
    if admission >= 0 && m.transaction == g.last && g.cache.Some? && g.cache.value.message == m then
      (g, Event(Replayed, g.cache.value))
    else if admission >= 0 && m.transaction > g.last then
      var (after, status) := Dispatch(c, g.view, m, i.answer);
      var reply := Reply(m, status, ReplyLength(m.operation, status));
      var current := after.(epochs := after.epochs[Device(c, m) := m.epoch]);
      (Front(current, m.transaction, Some(reply)), Event(Executed, reply))
    else
      (g, Event(Rejected, Reply(m, INVALID, 48)))
  }

  /** The three ways a turn can go, from the variables after admission. */
  lemma {:induction false} TurnRuns(c: Config, f: Front, i: Input, g: Front, h: Front, reply: Reply)
    requires ViewOk(f.view) && g == Admitted(c, f, i.message, i.idle).0 && Admitted(c, f, i.message, i.idle).1 >= 0
    requires i.message.transaction > g.last && Executes(c, g, i.message, i.answer, h, reply)
    ensures Step(c, f, i) == (h, Event(Executed, reply))
  {
  }

  lemma {:induction false} TurnReplays(c: Config, f: Front, i: Input, g: Front)
    requires ViewOk(f.view) && g == Admitted(c, f, i.message, i.idle).0 && Admitted(c, f, i.message, i.idle).1 >= 0
    requires i.message.transaction == g.last && g.cache.Some? && g.cache.value.message == i.message
    ensures Step(c, f, i) == (g, Event(Replayed, g.cache.value))
  {
  }

  lemma {:induction false} TurnRejects(c: Config, f: Front, i: Input, g: Front)
    requires ViewOk(f.view) && g == Admitted(c, f, i.message, i.idle).0
    requires Admitted(c, f, i.message, i.idle).1 < 0 || i.message.transaction <= g.last
    requires !(i.message.transaction == g.last && g.cache.Some? && g.cache.value.message == i.message)
             || Admitted(c, f, i.message, i.idle).1 < 0
    ensures Step(c, f, i) == (g, Event(Rejected, Reply(i.message, INVALID, 48)))
  {
  }

  /** The states before each input, and the last one. */
  function Run(c: Config, f: Front, inputs: seq<Input>): (fs: seq<Front>)
    requires ViewOk(f.view)
    ensures |fs| == |inputs| + 1 && fs[0] == f && forall k :: 0 <= k < |fs| ==> ViewOk(fs[k].view)
    decreases |inputs|
  {
    if inputs == [] then [f] else [f] + Run(c, Step(c, f, inputs[0]).0, inputs[1..])
  }

  /** The event of turn k of a run. */
  function EventAt(c: Config, f: Front, inputs: seq<Input>, k: nat): Event
    requires ViewOk(f.view) && k < |inputs|
  {
    Step(c, Run(c, f, inputs)[k], inputs[k]).1
  }

  lemma {:induction false} RunStep(c: Config, f: Front, inputs: seq<Input>, k: nat)
    requires ViewOk(f.view) && k < |inputs|
    ensures Run(c, f, inputs)[k + 1] == Step(c, Run(c, f, inputs)[k], inputs[k]).0
    decreases |inputs|
  {
    if k > 0 {
      RunStep(c, Step(c, f, inputs[0]).0, inputs[1..], k - 1);
    }
  }

  /** One more turn extends the run. */
  lemma {:induction false} RunAppend(c: Config, f: Front, inputs: seq<Input>, i: Input)
    requires ViewOk(f.view)
    ensures Run(c, f, inputs + [i]) == Run(c, f, inputs) + [Step(c, Run(c, f, inputs)[|inputs|], i).0]
    decreases |inputs|
  {
    if inputs != [] {
      assert (inputs + [i])[1..] == inputs[1..] + [i];
      RunAppend(c, Step(c, f, inputs[0]).0, inputs[1..], i);
    }
  }

  predicate Real(inputs: seq<Input>) { forall k :: 0 <= k < |inputs| ==> Serviceable(inputs[k].message) }

  // ----- one turn -------------------------------------------------------------------

  /** A rejected record changes nothing. */
  lemma {:induction false} RejectionChangesNothing(c: Config, f: Front, i: Input)
    requires ViewOk(f.view) && Serviceable(i.message) && Step(c, f, i).1.kind == Rejected
    ensures Step(c, f, i).0 == f
    ensures Step(c, f, i).1.reply == Reply(i.message, INVALID, 48)
  {
  }

  /** What the cache always holds: the last executed message, of this binding. */
  predicate CacheOk(f: Front) {
    && ViewOk(f.view)
    && (f.cache.None? ==> f.last == 0)
    && (f.cache.Some? ==>
          && f.cache.value.message.transaction == f.last != 0
          && f.cache.value.message.binding == f.view.binding)
  }

  /** The epoch of the cached message is its device's. */
  predicate CacheCurrent(c: Config, f: Front) {
    f.cache.Some? && ViewOk(f.view) ==> f.view.epochs[Device(c, f.cache.value.message)] == f.cache.value.message.epoch
  }

  lemma {:induction false} StepKeepsCache(c: Config, f: Front, i: Input)
    requires CacheOk(f) && CacheCurrent(c, f) && Serviceable(i.message)
    ensures CacheOk(Step(c, f, i).0) && CacheCurrent(c, Step(c, f, i).0)
  {
  }

  /** Repeating the message just executed, byte for byte, gets the same reply and changes
      nothing, whatever the backend is doing. */
  lemma {:induction false} RepeatIsReplayed(c: Config, f: Front, i: Input, again: Input)
    requires CacheOk(f) && Serviceable(i.message) && Step(c, f, i).1.kind == Executed
    requires again.message == i.message
    ensures var g := Step(c, f, i).0; Step(c, g, again) == (g, Event(Replayed, Step(c, f, i).1.reply))
  {
  }

  /** How one turn moves the pair (binding, last transaction). */
  lemma {:induction false} StepAdvances(c: Config, f: Front, i: Input)
    requires CacheOk(f) && Serviceable(i.message)
    ensures var (g, e) := Step(c, f, i);
            && (e.kind == Executed ==> Less(f.view.binding, f.last, g.view.binding, g.last)
                                       && g.view.binding == i.message.binding && g.last == i.message.transaction)
            && (e.kind != Executed ==> g == f)
  {
  }

  predicate Less(b0: nat, t0: nat, b1: nat, t1: nat) { b0 < b1 || (b0 == b1 && t0 < t1) }

  // ----- whole runs -----------------------------------------------------------------

  lemma {:induction false} RunKeepsCache(c: Config, inputs: seq<Input>, k: nat)
    requires Real(inputs) && k <= |inputs|
    ensures var f := Run(c, START, inputs)[k]; CacheOk(f) && CacheCurrent(c, f)
    decreases k
  {
    if k > 0 {
      RunKeepsCache(c, inputs, k - 1);
      RunStep(c, START, inputs, k - 1);
      StepKeepsCache(c, Run(c, START, inputs)[k - 1], inputs[k - 1]);
    }
  }

  /** (binding, last transaction) never goes back. */
  lemma {:induction false} PairNeverDecreases(c: Config, inputs: seq<Input>, j: nat, k: nat)
    requires Real(inputs) && j <= k <= |inputs|
    ensures var fs := Run(c, START, inputs);
            fs[j] == fs[k] || Less(fs[j].view.binding, fs[j].last, fs[k].view.binding, fs[k].last)
    decreases k
  {
    if j < k {
      PairNeverDecreases(c, inputs, j, k - 1);
      RunKeepsCache(c, inputs, k - 1);
      RunStep(c, START, inputs, k - 1);
      StepAdvances(c, Run(c, START, inputs)[k - 1], inputs[k - 1]);
    }
  }

  /** The executed (binding, transaction) pairs are strictly increasing over the whole run, so
      none is executed twice. */
  lemma {:induction false} ExecutedPairsIncrease(c: Config, inputs: seq<Input>, j: nat, k: nat)
    requires Real(inputs) && j < k < |inputs|
    requires EventAt(c, START, inputs, j).kind == Executed && EventAt(c, START, inputs, k).kind == Executed
    ensures var a, b := inputs[j].message, inputs[k].message; Less(a.binding, a.transaction, b.binding, b.transaction)
  {
    RunKeepsCache(c, inputs, j);
    RunStep(c, START, inputs, j);
    StepAdvances(c, Run(c, START, inputs)[j], inputs[j]);
    PairNeverDecreases(c, inputs, j + 1, k);
    RunKeepsCache(c, inputs, k);
    StepAdvances(c, Run(c, START, inputs)[k], inputs[k]);
  }

  /** Turn j executed its record, and no turn since then, up to turn k, executed one. */
  predicate LastExecuted(c: Config, inputs: seq<Input>, j: nat, k: nat)
    requires j < k <= |inputs|
  {
    && EventAt(c, START, inputs, j).kind == Executed
    && forall n :: j < n < k ==> EventAt(c, START, inputs, n).kind != Executed
  }

  /** Records that are rejected or replayed leave the loop's variables alone. */
  lemma {:induction false} FrontStays(c: Config, inputs: seq<Input>, j: nat, k: nat)
    requires Real(inputs) && j <= k <= |inputs|
    requires forall n :: j <= n < k ==> EventAt(c, START, inputs, n).kind != Executed
    ensures Run(c, START, inputs)[k] == Run(c, START, inputs)[j]
    decreases k
  {
    if j < k {
      FrontStays(c, inputs, j, k - 1);
      assert EventAt(c, START, inputs, k - 1).kind != Executed;
      RunKeepsCache(c, inputs, k - 1);
      RunStep(c, START, inputs, k - 1);
      StepAdvances(c, Run(c, START, inputs)[k - 1], inputs[k - 1]);
    }
  }

  /** Over every message sequence: repeating the last executed message, after any number of other
      records that were not executed, gets the identical reply and changes nothing. */
  lemma {:induction false} RepeatIsReplayedInRun(c: Config, inputs: seq<Input>, j: nat, k: nat)
    requires Real(inputs) && j < k < |inputs| && LastExecuted(c, inputs, j, k)
    requires inputs[k].message == inputs[j].message
    ensures EventAt(c, START, inputs, k) == Event(Replayed, EventAt(c, START, inputs, j).reply)
    ensures Run(c, START, inputs)[k + 1] == Run(c, START, inputs)[k]
  {
    RunKeepsCache(c, inputs, j);
    RunStep(c, START, inputs, j);
    FrontStays(c, inputs, j + 1, k);
    RepeatIsReplayed(c, Run(c, START, inputs)[j], inputs[j], inputs[k]);
    RunStep(c, START, inputs, k);
  }

  /** The cache comes from the last executed turn. */
  lemma {:induction false} CacheIsLast(c: Config, inputs: seq<Input>, k: nat) returns (j: nat)
    requires Real(inputs) && k <= |inputs| && Run(c, START, inputs)[k].cache.Some?
    ensures j < k && LastExecuted(c, inputs, j, k)
    ensures Run(c, START, inputs)[k].cache.value == EventAt(c, START, inputs, j).reply
    decreases k
  {
    RunStep(c, START, inputs, k - 1);
    if EventAt(c, START, inputs, k - 1).kind == Executed {
      j := k - 1;
    } else {
      RunKeepsCache(c, inputs, k - 1);
      StepAdvances(c, Run(c, START, inputs)[k - 1], inputs[k - 1]);
      j := CacheIsLast(c, inputs, k - 1);
    }
  }

  /** And nothing else is ever replayed. */
  lemma {:induction false} OnlyRepeatsAreReplayed(c: Config, inputs: seq<Input>, k: nat) returns (j: nat)
    requires Real(inputs) && k < |inputs| && EventAt(c, START, inputs, k).kind == Replayed
    ensures j < k && LastExecuted(c, inputs, j, k) && inputs[k].message == inputs[j].message
    ensures EventAt(c, START, inputs, k).reply == EventAt(c, START, inputs, j).reply
  {
    RunKeepsCache(c, inputs, k);
    j := CacheIsLast(c, inputs, k);
  }

  /** Device epochs never decrease while the binding stays. */
  lemma {:induction false} EpochsNeverDecrease(c: Config, inputs: seq<Input>, j: nat, k: nat, d: nat)
    requires Real(inputs) && j <= k <= |inputs| && d < 2
    requires var fs := Run(c, START, inputs); fs[j].view.binding == fs[k].view.binding
    ensures var fs := Run(c, START, inputs); fs[j].view.epochs[d] <= fs[k].view.epochs[d]
    decreases k
  {
    if j < k {
      BindingNeverDecreases(c, inputs, j, k - 1);
      BindingNeverDecreases(c, inputs, k - 1, k);
      EpochsNeverDecrease(c, inputs, j, k - 1, d);
      RunStep(c, START, inputs, k - 1);
      StepKeepsEpochs(c, Run(c, START, inputs)[k - 1], inputs[k - 1], d);
    }
  }

  lemma {:induction false} StepKeepsEpochs(c: Config, f: Front, i: Input, d: nat)
    requires ViewOk(f.view) && d < 2 && Step(c, f, i).0.view.binding == f.view.binding
    ensures f.view.epochs[d] <= Step(c, f, i).0.view.epochs[d]
  {
  }

  lemma {:induction false} BindingNeverDecreases(c: Config, inputs: seq<Input>, j: nat, k: nat)
    requires Real(inputs) && j <= k <= |inputs|
    ensures var fs := Run(c, START, inputs); fs[j].view.binding <= fs[k].view.binding
  {
    PairNeverDecreases(c, inputs, j, k);
  }

  /** A new binding comes with a larger generation, by the service's own HELLO, and in a managed
      service only from an idle backend; a standalone service never changes its first one. */
  lemma {:induction false} NewBindingNeedsIdle(c: Config, f: Front, i: Input)
    requires ViewOk(f.view) && Step(c, f, i).0.view.binding != f.view.binding
    ensures IsHello(c, i.message) && Step(c, f, i).0.view.binding == i.message.binding > f.view.binding
    ensures if c.managed then i.idle else f.view.binding == 0
  {
  }

  /** A record for one device leaves the other device's epoch alone. */
  lemma {:induction false} OtherEpochStays(c: Config, f: Front, i: Input, d: nat)
    requires ViewOk(f.view) && d < 2 && d != Device(c, i.message) && Step(c, f, i).0.view.binding == f.view.binding
    ensures Step(c, f, i).0.view.epochs[d] == f.view.epochs[d]
  {
  }

  // ----- which records are executed -----------------------------------------------------

  /** Turn j executed its record. */
  predicate Ran(c: Config, inputs: seq<Input>, j: nat)
    requires j < |inputs|
  {
    EventAt(c, START, inputs, j).kind == Executed
  }

  /** The record that opens a binding: the HELLO of the block owner, of the disk, or, in a service
      with neither, of the network. */
  predicate ServiceHello(c: Config, m: Message) {
    && m.size == 40
    && (if c.blocks then m.operation == 11 else if c.disk then m.operation == 1 else m.operation == 7)
  }

  /** A binding newer than all that ran before, opened when nothing is left of the old one. */
  ghost predicate OpensBinding(c: Config, inputs: seq<Input>, k: nat)
    requires k < |inputs|
  {
    && ServiceHello(c, inputs[k].message)
    && (forall j :: 0 <= j < k && Ran(c, inputs, j) ==> inputs[j].message.binding < inputs[k].message.binding)
    && (if c.managed then inputs[k].idle else forall j :: 0 <= j < k ==> !Ran(c, inputs, j))
  }

  /** The record at turn i ran for the same binding and device as that of turn k. */
  predicate Companion(c: Config, inputs: seq<Input>, i: nat, k: nat)
    requires i < |inputs| && k < |inputs|
  {
    && Ran(c, inputs, i) && inputs[i].message.binding == inputs[k].message.binding
    && (ForNetwork(c, inputs[i].message) <==> ForNetwork(c, inputs[k].message))
  }

  /** The records of the network device: its own requests, and the memory requests of a service
      that has no other device. */
  predicate ForNetwork(c: Config, m: Message) {
    m.operation in {7, 8, 9, 10} || (m.operation in {5, 6} && !c.blocks && !c.disk)
  }

  lemma {:induction false} DeviceIsNetwork(c: Config, m: Message)
    ensures Device(c, m) == (if ForNetwork(c, m) then 1 else 0)
  {
  }

  /** The next record of the current binding: a transaction above the last that ran, an epoch not
      below any that ran for its device. */
  ghost predicate Continues(c: Config, inputs: seq<Input>, k: nat)
    requires k < |inputs|
  {
    && (exists j :: 0 <= j < k && LastExecuted(c, inputs, j, k)
          && inputs[j].message.binding == inputs[k].message.binding
          && inputs[j].message.transaction < inputs[k].message.transaction)
    && forall i :: 0 <= i < k && Companion(c, inputs, i, k) ==> inputs[i].message.epoch <= inputs[k].message.epoch
  }

  lemma {:induction false} StepExecutesIff(c: Config, f: Front, i: Input)
    requires CacheOk(f) && Serviceable(i.message)
    ensures var m := i.message;
            Step(c, f, i).1.kind == Executed <==>
              if m.binding == f.view.binding then m.epoch >= f.view.epochs[Device(c, m)] && m.transaction > f.last
              else
                && ServiceHello(c, m) && m.binding > f.view.binding
                && (if c.managed then i.idle else f.view.binding == 0)
  {
  }

  /** What turn k makes of the loop's variables, as far as binding and transaction go. */
  lemma {:induction false} TurnMoves(c: Config, inputs: seq<Input>, k: nat)
    requires Real(inputs) && k < |inputs|
    ensures var fs := Run(c, START, inputs);
            if Ran(c, inputs, k) then
              fs[k + 1].view.binding == inputs[k].message.binding && fs[k + 1].last == inputs[k].message.transaction
            else fs[k + 1] == fs[k]
  {
    RunKeepsCache(c, inputs, k);
    RunStep(c, START, inputs, k);
    StepAdvances(c, Run(c, START, inputs)[k], inputs[k]);
  }

  /** Before turn k either nothing ran, or there is a last turn that ran. */
  lemma {:induction false} LastTurn(c: Config, inputs: seq<Input>, k: nat) returns (j: int)
    requires k <= |inputs|
    ensures j < k
    ensures j < 0 ==> forall n :: 0 <= n < k ==> !Ran(c, inputs, n)
    ensures j >= 0 ==> LastExecuted(c, inputs, j, k)
    decreases k
  {
    if k == 0 {
      j := -1;
    } else if Ran(c, inputs, k - 1) {
      j := k - 1;
    } else {
      j := LastTurn(c, inputs, k - 1);
    }
  }

  /** And the loop's variables are what it left. */
  lemma {:induction false} LastTurnLeft(c: Config, inputs: seq<Input>, k: nat, last: int)
    requires Real(inputs) && k <= |inputs| && last < k
    requires last < 0 ==> forall n :: 0 <= n < k ==> !Ran(c, inputs, n)
    requires last >= 0 ==> LastExecuted(c, inputs, last, k)
    ensures last < 0 ==> Run(c, START, inputs)[k] == START
    ensures last >= 0 ==>
              && Run(c, START, inputs)[k].view.binding == inputs[last].message.binding
              && Run(c, START, inputs)[k].last == inputs[last].message.transaction
  {
    if last < 0 {
      forall n | 0 <= n < k ensures EventAt(c, START, inputs, n).kind != Executed { assert !Ran(c, inputs, n); }
      FrontStays(c, inputs, 0, k);
    } else {
      assert Ran(c, inputs, last);
      TurnMoves(c, inputs, last);
      FrontStays(c, inputs, last + 1, k);
    }
  }

  /** Everything that ran has a binding up to the current one. */
  lemma {:induction false} RanBelow(c: Config, inputs: seq<Input>, j: nat, k: nat)
    requires Real(inputs) && j < k <= |inputs| && Ran(c, inputs, j)
    ensures inputs[j].message.binding <= Run(c, START, inputs)[k].view.binding
  {
    RunKeepsCache(c, inputs, j);
    RunStep(c, START, inputs, j);
    StepAdvances(c, Run(c, START, inputs)[j], inputs[j]);
    BindingNeverDecreases(c, inputs, j + 1, k);
  }

  /** Turn i ran for device d in the binding that is current at turn k. */
  predicate RanFor(c: Config, inputs: seq<Input>, i: nat, k: nat, d: nat)
    requires i < |inputs| && k <= |inputs|
  {
    && Ran(c, inputs, i) && inputs[i].message.binding == Run(c, START, inputs)[k].view.binding
    && Device(c, inputs[i].message) == d
  }

  /** The epoch of a device is the largest that ran for it in the current binding. */
  ghost predicate EpochIs(c: Config, inputs: seq<Input>, k: nat, d: nat)
    requires k <= |inputs| && d < 2
  {
    var epoch := Run(c, START, inputs)[k].view.epochs[d];
    && (forall i :: 0 <= i < k && RanFor(c, inputs, i, k, d) ==> inputs[i].message.epoch <= epoch)
    && (epoch == 0 || exists i :: 0 <= i < k && RanFor(c, inputs, i, k, d) && inputs[i].message.epoch == epoch)
  }

  lemma {:induction false} EpochsOfRun(c: Config, inputs: seq<Input>, k: nat, d: nat)
    requires Real(inputs) && k <= |inputs| && d < 2
    ensures EpochIs(c, inputs, k, d)
    decreases k
  {
    if k > 0 {
      EpochsOfRun(c, inputs, k - 1, d);
      RunKeepsCache(c, inputs, k - 1);
      RunStep(c, START, inputs, k - 1);
      EpochsStep(c, inputs, k - 1, d);
    }
  }

  lemma {:induction false} EpochsStep(c: Config, inputs: seq<Input>, k: nat, d: nat)
    requires Real(inputs) && k < |inputs| && d < 2 && EpochIs(c, inputs, k, d) && CacheOk(Run(c, START, inputs)[k])
    requires Run(c, START, inputs)[k + 1] == Step(c, Run(c, START, inputs)[k], inputs[k]).0
    ensures EpochIs(c, inputs, k + 1, d)
  {
    var f, g := Run(c, START, inputs)[k], Run(c, START, inputs)[k + 1];
    StepAdvances(c, f, inputs[k]);
    StepEpochs(c, f, inputs[k], d);
    forall i | 0 <= i < k && Ran(c, inputs, i) ensures inputs[i].message.binding <= f.view.binding {
      RanBelow(c, inputs, i, k);
    }
    if !(Ran(c, inputs, k) && Device(c, inputs[k].message) == d) && g.view.binding == f.view.binding {
      EpochKept(c, inputs, k, d);
    } else {
      EpochSet(c, inputs, k, d);
    }
  }

  /** A turn that neither runs for device d nor changes the binding keeps its epoch. */
  lemma {:induction false} EpochKept(c: Config, inputs: seq<Input>, k: nat, d: nat)
    requires k < |inputs| && d < 2 && EpochIs(c, inputs, k, d)
    requires !(Ran(c, inputs, k) && Device(c, inputs[k].message) == d)
    requires var fs := Run(c, START, inputs);
             fs[k + 1].view.binding == fs[k].view.binding && fs[k + 1].view.epochs[d] == fs[k].view.epochs[d]
    ensures EpochIs(c, inputs, k + 1, d)
  {
    var f := Run(c, START, inputs)[k];
    forall i | 0 <= i < k + 1 && RanFor(c, inputs, i, k + 1, d) ensures i < k && RanFor(c, inputs, i, k, d) { }
    if f.view.epochs[d] != 0 {
      var i :| 0 <= i < k && RanFor(c, inputs, i, k, d) && inputs[i].message.epoch == f.view.epochs[d];
      assert RanFor(c, inputs, i, k + 1, d);
    }
  }

  /** A turn that runs for device d sets its epoch; one that opens a binding clears the other's. */
  lemma {:induction false} EpochSet(c: Config, inputs: seq<Input>, k: nat, d: nat)
    requires k < |inputs| && d < 2 && EpochIs(c, inputs, k, d) && Ran(c, inputs, k)
    requires forall i :: 0 <= i < k && Ran(c, inputs, i) ==>
               inputs[i].message.binding <= Run(c, START, inputs)[k].view.binding
    requires var f, g := Run(c, START, inputs)[k], Run(c, START, inputs)[k + 1];
             && g.view.binding == inputs[k].message.binding >= f.view.binding
             && (if Device(c, inputs[k].message) == d then
                   && g.view.epochs[d] == inputs[k].message.epoch
                   && (g.view.binding == f.view.binding ==> f.view.epochs[d] <= g.view.epochs[d])
                 else g.view.binding > f.view.binding && g.view.epochs[d] == 0)
    ensures EpochIs(c, inputs, k + 1, d)
  {
    var n := k + 1;
    if Device(c, inputs[k].message) == d {
      assert RanFor(c, inputs, k, n, d);
      forall i | 0 <= i < k && RanFor(c, inputs, i, n, d) ensures RanFor(c, inputs, i, k, d) { }
    } else {
      assert forall i :: 0 <= i < n ==> !RanFor(c, inputs, i, n, d);
    }
  }

  /** What one executed turn does to the epochs. */
  lemma {:induction false} StepEpochs(c: Config, f: Front, i: Input, d: nat)
    requires CacheOk(f) && Serviceable(i.message) && d < 2
    ensures var (g, e) := Step(c, f, i);
            && (e.kind != Executed ==> g == f)
            && (e.kind == Executed && Device(c, i.message) == d ==> g.view.epochs[d] == i.message.epoch)
            && (e.kind == Executed && g.view.binding == f.view.binding ==> f.view.epochs[d] <= g.view.epochs[d])
            && (e.kind == Executed && Device(c, i.message) != d ==>
                  g.view.epochs[d] == if g.view.binding == f.view.binding then f.view.epochs[d] else 0)
  {
  }

  /** Over every message sequence a well-formed record is executed if and only if it opens a
      binding or continues the current one. */
  lemma {:induction false} ExecutedIff(c: Config, inputs: seq<Input>, k: nat)
    requires Real(inputs) && k < |inputs|
    ensures Ran(c, inputs, k) <==> OpensBinding(c, inputs, k) || Continues(c, inputs, k)
  {
    var f, m := Run(c, START, inputs)[k], inputs[k].message;
    RunKeepsCache(c, inputs, k);
    StepExecutesIff(c, f, inputs[k]);
    forall j | 0 <= j < k && Ran(c, inputs, j) ensures inputs[j].message.binding <= f.view.binding {
      RanBelow(c, inputs, j, k);
    }
    var last := LastTurn(c, inputs, k);
    LastTurnLeft(c, inputs, k, last);
    if last >= 0 { assert Ran(c, inputs, last); }
    ContinuesIff(c, inputs, k, last);
  }

  lemma {:induction false} ContinuesIff(c: Config, inputs: seq<Input>, k: nat, last: int)
    requires Real(inputs) && k < |inputs| && last < k
    requires last < 0 ==> Run(c, START, inputs)[k] == START && forall n :: 0 <= n < k ==> !Ran(c, inputs, n)
    requires last >= 0 ==>
               && LastExecuted(c, inputs, last, k)
               && Run(c, START, inputs)[k].view.binding == inputs[last].message.binding
               && Run(c, START, inputs)[k].last == inputs[last].message.transaction
    ensures var f, m := Run(c, START, inputs)[k], inputs[k].message;
            Continues(c, inputs, k) <==>
              m.binding == f.view.binding && m.epoch >= f.view.epochs[Device(c, m)] && m.transaction > f.last
  {
    var f, m := Run(c, START, inputs)[k], inputs[k].message;
    EpochsOfRun(c, inputs, k, Device(c, m));
    forall j | 0 <= j < k && LastExecuted(c, inputs, j, k) ensures j == last {
      assert Ran(c, inputs, j);
    }
    if m.binding == f.view.binding {
      DeviceIsNetwork(c, m);
      forall i | 0 <= i < k ensures Companion(c, inputs, i, k) <==> RanFor(c, inputs, i, k, Device(c, m)) {
        DeviceIsNetwork(c, inputs[i].message);
      }
    }
  }

  /** Turn j ran a RELEASE_MEMORY of a managed service, and it succeeded. */
  predicate ReleasedAt(c: Config, inputs: seq<Input>, j: nat)
    requires j < |inputs|
  {
    && Ran(c, inputs, j) && c.managed && inputs[j].message.operation == 6 && inputs[j].message.size == 40
    && EventAt(c, START, inputs, j).reply.status == OK
  }

  lemma {:induction false} StepRetires(c: Config, f: Front, i: Input)
    requires CacheOk(f) && Serviceable(i.message)
    ensures var (g, e) := Step(c, f, i);
            && (e.kind != Executed ==> g == f)
            && (e.kind == Executed ==>
                  (g.view.retired <==>
                     || (g.view.binding == f.view.binding && f.view.retired)
                     || (c.managed && i.message.operation == 6 && i.message.size == 40 && e.reply.status == OK)))
  {
  }

  /** Over every message sequence the session is retired exactly when a release of its current
      binding has succeeded. */
  lemma {:induction false} RetiredIff(c: Config, inputs: seq<Input>, k: nat)
    requires Real(inputs) && k <= |inputs|
    ensures Run(c, START, inputs)[k].view.retired <==> ReleasedBefore(c, inputs, k)
    decreases k
  {
    if k > 0 {
      RetiredIff(c, inputs, k - 1);
      var f, g := Run(c, START, inputs)[k - 1], Run(c, START, inputs)[k];
      RunKeepsCache(c, inputs, k - 1);
      RunStep(c, START, inputs, k - 1);
      StepAdvances(c, f, inputs[k - 1]);
      StepRetires(c, f, inputs[k - 1]);
      forall j | 0 <= j < k - 1 && Ran(c, inputs, j) ensures inputs[j].message.binding <= f.view.binding {
        RanBelow(c, inputs, j, k - 1);
      }
      RetiredStep(c, inputs, k - 1);
    }
  }

  /** The current binding has been released before turn k. */
  ghost predicate ReleasedBefore(c: Config, inputs: seq<Input>, k: nat)
    requires k <= |inputs|
  {
    exists j :: 0 <= j < k && ReleasedAt(c, inputs, j)
                && inputs[j].message.binding == Run(c, START, inputs)[k].view.binding
  }

  lemma {:induction false} RetiredStep(c: Config, inputs: seq<Input>, k: nat)
    requires k < |inputs|
    requires forall j :: 0 <= j < k && Ran(c, inputs, j) ==>
               inputs[j].message.binding <= Run(c, START, inputs)[k].view.binding
    requires var f, g := Run(c, START, inputs)[k], Run(c, START, inputs)[k + 1];
             if Ran(c, inputs, k) then g.view.binding == inputs[k].message.binding >= f.view.binding else g == f
    ensures var f, g := Run(c, START, inputs)[k], Run(c, START, inputs)[k + 1];
            ReleasedBefore(c, inputs, k + 1) <==>
              (g.view.binding == f.view.binding && ReleasedBefore(c, inputs, k)) || ReleasedAt(c, inputs, k)
  {
    var f, g, n := Run(c, START, inputs)[k], Run(c, START, inputs)[k + 1], k + 1;
    if ReleasedBefore(c, inputs, n) {
      var j :| 0 <= j < n && ReleasedAt(c, inputs, j) && inputs[j].message.binding == g.view.binding;
      assert j < k ==> Ran(c, inputs, j);
    }
    if g.view.binding == f.view.binding && ReleasedBefore(c, inputs, k) {
      var j :| 0 <= j < k && ReleasedAt(c, inputs, j) && inputs[j].message.binding == f.view.binding;
      assert inputs[j].message.binding == g.view.binding;
    }
    if ReleasedAt(c, inputs, k) { assert inputs[k].message.binding == g.view.binding; }
  }

  /** What an executed record is answered: the backend's word, except that a session which may not
      prepare refuses everything but a release. */
  lemma {:induction false} AnswerOf(c: Config, inputs: seq<Input>, k: nat)
    requires Real(inputs) && k < |inputs| && Ran(c, inputs, k)
    ensures var reply := EventAt(c, START, inputs, k).reply;
            var m := inputs[k].message;
            var retired := Run(c, START, inputs)[k].view.binding == m.binding && Run(c, START, inputs)[k].view.retired;
            && reply.message == m
            && reply.status == (if retired && !(c.managed && m.operation == 6 && m.size == 40) then INVALID
                                else inputs[k].answer)
            && reply.length == 48 + Sum(Payload(m.operation, reply.status))
  {
    RunKeepsCache(c, inputs, k);
    PayloadSizes();
  }

  lemma {:induction false} PayloadSizes()
    ensures Sum([8, 4, 4]) == 16 && Sum([8, 4, 4, 6, 2, 8]) == 32 && Sum([8, 8, 4, 4, 4, 4]) == 32 && Sum([]) == 0
  {
    assert [8, 4, 4][1..] == [4, 4] && [4, 4][1..] == [4] && [4][1..] == [];
    assert [8, 4, 4, 6, 2, 8][1..] == [4, 4, 6, 2, 8] && [4, 4, 6, 2, 8][1..] == [4, 6, 2, 8];
    assert [4, 6, 2, 8][1..] == [6, 2, 8] && [6, 2, 8][1..] == [2, 8] && [2, 8][1..] == [8] && [8][1..] == [];
    assert [8, 8, 4, 4, 4, 4][1..] == [8, 4, 4, 4, 4] && [8, 4, 4, 4, 4][1..] == [4, 4, 4, 4];
    assert [4, 4, 4, 4][1..] == [4, 4, 4] && [4, 4, 4][1..] == [4, 4];
  }

  /** The sizes of the fields a reply carries after header, status and padding: features, queues
      and queue bound for a HELLO, further the MAC address, MTU and a reserved word for the
      network's, and a disk's ID, size, sectors, flags and next cursor for an enumeration. */
  function Payload(operation: nat, status: Status): seq<nat> {
    if status != OK then []
    else
      match operation
      case 1 => [8, 4, 4]
      case 11 => [8, 4, 4]
      case 7 => [8, 4, 4, 6, 2, 8]
      case 12 => [8, 8, 4, 4, 4, 4]
      case _ => []
  }

  function Sum(sizes: seq<nat>): nat { if sizes == [] then 0 else sizes[0] + Sum(sizes[1..]) }

  /** In a retired session the cache holds no success but a RELEASE. */
  predicate Silent(c: Config, f: Front) {
    f.view.retired && f.cache.Some? && f.cache.value.status == OK ==> IsRelease(c, f.cache.value.message)
  }

  lemma {:induction false} StepKeepsSilent(c: Config, f: Front, i: Input)
    requires ViewOk(f.view) && Silent(c, f)
    ensures Silent(c, Step(c, f, i).0)
  {
  }

  lemma {:induction false} RunKeepsSilent(c: Config, inputs: seq<Input>, k: nat)
    requires k <= |inputs|
    ensures Silent(c, Run(c, START, inputs)[k])
    decreases k
  {
    if k > 0 {
      RunKeepsSilent(c, inputs, k - 1);
      RunStep(c, START, inputs, k - 1);
      StepKeepsSilent(c, Run(c, START, inputs)[k - 1], inputs[k - 1]);
    }
  }

  /** After a successful release, until a HELLO brings a new binding, no reply says OK except to
      a RELEASE, whether it is executed or replayed. */
  lemma {:induction false} RetiredSessionOnlyReleases(c: Config, inputs: seq<Input>, k: nat)
    requires Real(inputs) && k < |inputs| && Run(c, START, inputs)[k].view.retired
    requires Run(c, START, inputs)[k + 1].view.binding == Run(c, START, inputs)[k].view.binding
    requires EventAt(c, START, inputs, k).reply.status == OK
    ensures IsRelease(c, inputs[k].message)
  {
    RunKeepsSilent(c, inputs, k);
    RunStep(c, START, inputs, k);
  }

  /** And it stays retired until then. */
  lemma {:induction false} RetiredUntilNewBinding(c: Config, f: Front, i: Input)
    requires ViewOk(f.view) && f.view.retired && Step(c, f, i).0.view.binding == f.view.binding
    ensures Step(c, f, i).0.view.retired
  {
  }
}
