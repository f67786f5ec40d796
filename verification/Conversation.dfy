/**
 What the replies of the service mean (service/hyper-io-service.c): the effect of every request
 on the backend and the Linux state behind it, and what holds of whole conversations.
 */
module Conversation {
  import opened Wrappers
  import opened Layout
  import Rings
  import opened Backend
  import opened Session

  /** A successful RELEASE_MEMORY reply. */
  predicate Released(c: Config, r: Reply) { IsRelease(c, r.message) && r.status == OK }

  /** Nothing of any grant is in use, and every token the host admitted has been retired. */
  ghost predicate NothingLeft(l: Linux) {
    && l.ends == [CLOSED, CLOSED] && !l.tap && !l.file && l.vmas == 0 && !l.granules
    && forall t :: t in l.admitted <==> t in Tokens(l.proofs)
  }

  /** No token is admitted twice or retired twice, and every retirement was a safe one. */
  ghost predicate BooksOk(l: Linux) {
    && Distinct(l.admitted) && Distinct(Tokens(l.proofs))
    && forall p :: p in l.proofs ==> Safe(p) && p.token in l.admitted
  }

  /** An endpoint is open, bound or attached only while the memory is mapped from its open file. */
  predicate BorrowsMapped(l: Linux) {
    && |l.ends| == 2 && (l.tap ==> Open(l.ends[NET]))
    && forall d :: 0 <= d < 2 && (Open(l.ends[d]) || l.ends[d].attached) ==> l.vmas == 1 && l.file
  }

  /** The books only grow. */
  predicate Grows(before: Linux, after: Linux) { before.admitted <= after.admitted && before.proofs <= after.proofs }

  // ----- what a reply means -----------------------------------------------------------

  const DISK_REQUESTS := {RESET, STOP_QUEUE, ACTIVATE}
  const NETWORK_REQUESTS := {NETWORK_RESET, NETWORK_STOP_QUEUE, NETWORK_ACTIVATE}

  /** The size of a record of each operation that has only one. */
  function SizeOf(operation: nat): Option<nat> {
    if operation in {HELLO, RESET, NETWORK_HELLO, NETWORK_RESET} then Some(40)
    else if operation in {STOP_QUEUE, NETWORK_STOP_QUEUE} then Some(48)
    else if operation == PREPARE_MEMORY then Some(72)
    else if operation == ACTIVATE then Some(240)
    else if operation == NETWORK_ACTIVATE then Some(112)
    else None
  }

  /** The requests `dispatch` refuses without a system call, and how. */
  function Refusal(c: Config, m: Message): Option<Status> {
    var network := m.operation >= NETWORK_HELLO;
    if BLOCK_HELLO <= m.operation <= BLOCK_BIND then (if c.blocks then None else Some(UNSUPPORTED))
    else if SizeOf(m.operation).None? then Some(UNSUPPORTED)
    else if m.size != SizeOf(m.operation).value then Some(INVALID)
    else if m.operation == PREPARE_MEMORY then (if c.managed then None else Some(INVALID))
    else if !(if network then c.network else c.disk) then Some(UNSUPPORTED)
    else if m.size == 48 && m.body.Stop?
         && (m.body.reserved != 0 || m.body.queue >= (if network then 2 else Rings.QUEUES)) then Some(INVALID)
    else None
  }

  /** HELLO succeeds, the disk's once its target is published. */
  predicate HelloMeans(m: Message, ready: bool, status: Status) {
    && (m.operation == HELLO ==> status == if ready then OK else BUSY)
    && (m.operation == NETWORK_HELLO ==> status == OK)
  }

  /** A request changes its own device, or the memory, and nothing else. */
  predicate OwnOnly(m: Message, before: World, after: World)
    requires |before.linux.ends| == |after.linux.ends| == 2
  {
    var ends := after.linux.ends;
    if m.operation in DISK_REQUESTS then
      && after == before.(linux := before.linux.(ends := ends), calls := after.calls)
      && ends[NET] == before.linux.ends[NET]
    else if m.operation in NETWORK_REQUESTS then
      && after == before.(linux := before.linux.(ends := ends, tap := after.linux.tap), calls := after.calls)
      && ends[DISK] == before.linux.ends[DISK]
    else if m.operation == PREPARE_MEMORY then ends == before.linux.ends && after.linux.tap == before.linux.tap
    else after == before
  }

  /** RESET and STOP_QUEUE issue exactly the unfinished calls of their device's drain; OK means the
      device is closed, QUIESCENCE_FAILED that it is open and as far as the drain got. */
  predicate DrainMeans(m: Message, status: Status, before: World, after: World)
    requires |before.linux.ends| == |after.linux.ends| == 2
  {
    var a, b := before.linux, after.linux;
    && (m.operation in {RESET, STOP_QUEUE} ==>
          && EndStep(a.ends[DISK], b.ends[DISK])
          && status == (if b.ends[DISK] == CLOSED then OK else QUIESCENCE_FAILED)
          && after.calls == before.calls + DrainLog(DISK, a.ends[DISK], b.ends[DISK]))
    && (m.operation in {NETWORK_RESET, NETWORK_STOP_QUEUE} ==>
          && EndStep(a.ends[NET], b.ends[NET])
          && status == (if b.ends[NET] == CLOSED then OK else QUIESCENCE_FAILED)
          && b.tap == (a.tap && b.ends[NET] != CLOSED)
          && after.calls == before.calls + DrainLog(NET, a.ends[NET], b.ends[NET]) + TapLog(a.tap, b.tap))
  }

  /** The activations the devices take up, by features and by queues they do not offer. */
  predicate DiskTakes(c: Config, r: QueueRequest) {
    && |r.queues| == 6 && r.features == {32}
    && forall i :: c.requestQueues + 2 <= i < 6 ==> r.queues[i] == Rings.Queue(0, 0, 0, 0, 0)
  }

  predicate NetworkTakes(r: QueueRequest) {
    && 32 in r.features && r.features <= {0, 5, 11, 12, 32}
    && (11 in r.features || 12 in r.features ==> 0 in r.features)
  }

  /** The disk is activated with exactly the requested queues, or left as it was, or closed, or the
      reply says that it could not be closed; it is refused exactly when its target is not
      published, it is in use, or the request cannot be placed. */
  ghost predicate ActivateMeans(c: Config, r: QueueRequest, ready: bool, status: Status, before: World, after: World)
    requires |before.linux.ends| == |after.linux.ends| == 2 && |c.notification| == 2
    requires |r.queues| == 6 && c.requestQueues <= 4
  {
    var open := Open(before.linux.ends[DISK]);
    var fits := Places(before, c.notification[DISK], r.epoch, r.queues[..c.requestQueues + 2], 3);
    && (status == BUSY <==> !ready || (DiskTakes(c, r) && open))
    && (status == INVALID <==> ready && !(DiskTakes(c, r) && (open || fits)))
    && (status == BUSY || status == INVALID ==> after == before)
    && (status == OK ==> after.linux.ends[DISK] == Serving(r.queues) && after.calls == before.calls)
    && (status == BACKEND_FAILURE ==> after.linux.ends[DISK] == CLOSED)
    && (status == QUIESCENCE_FAILED ==> Open(after.linux.ends[DISK]))
    && status != UNSUPPORTED
  }

  /** The same for the network and its TAP. */
  ghost predicate ActivateNetMeans(c: Config, r: QueueRequest, status: Status, before: World, after: World)
    requires |before.linux.ends| == |after.linux.ends| == 2 && |c.notification| == 2
  {
    var open := Open(before.linux.ends[NET]) || before.linux.tap;
    var fits := Places(before, c.notification[NET], r.epoch, r.queues, 2);
    && (status == BUSY <==> NetworkTakes(r) && open)
    && (status == INVALID <==> !(NetworkTakes(r) && (open || fits)))
    && (status == BUSY || status == INVALID ==> after == before)
    && (status == OK ==>
          after.linux.ends[NET] == Serving(r.queues) && after.linux.tap && after.calls == before.calls)
    && (status == BACKEND_FAILURE ==> after.linux.ends[NET] == CLOSED && !after.linux.tap)
    && (status == QUIESCENCE_FAILED ==> Open(after.linux.ends[NET]))
    && status != UNSUPPORTED
  }

  /** The page table is the flattening of extents that tile the grant. */
  ghost predicate Granted(grant: seq<nat>, length: Word) {
    exists answers: seq<Answer> :: Tiles(answers, length) && grant == Flatten(answers)
  }

  /** Admitted, and not yet retired. */
  predicate Outstanding(l: Linux, t: Word) { t in l.admitted && t !in Tokens(l.proofs) }

  /** The memory requests that are taken up, in numbers. */
  predicate Takable(blocks: bool, r: MemoryRequest) {
    && r.length > 0 && r.length % 4096 == 0 && r.base % 4096 == 0 && r.base + r.length < 0x1_0000_0000_0000_0000
    && (blocks ==> r.length <= 0x10_0000 && r.token == 0)
    && (r.token != 0 ==> r.alias == 0 && r.length <= 0x1_0000_0000)
  }

  /** What a successful PREPARE_MEMORY leaves. */
  ghost predicate Prepares(r: MemoryRequest, before: World, after: World) {
    var a, b := before.linux, after.linux;
    && after.memory.Some? && after.base == r.base && after.length == r.length && after.token == r.token
    && b.vmas == 1 && b.file && b.granules == (r.token != 0) && b.proofs == a.proofs && after.calls == before.calls
    && b.admitted == a.admitted + (if r.token != 0 then [r.token] else [])
    && (r.token != 0 ==> Outstanding(b, r.token) && Granted(b.grant, r.length))
  }

  /** What PREPARE_MEMORY leaves for each status. */
  ghost predicate PrepareMeans(blocks: bool, r: MemoryRequest, status: Status, before: World, after: World) {
    && (status == BUSY <==> before.memory.Some? || before.linux.file || before.token != 0)
    && (status == BUSY || (status == INVALID && !Takable(blocks, r)) ==> after == before)
    && (status != BUSY && !Takable(blocks, r) ==> status == INVALID)
    && (status == INVALID && Takable(blocks, r) ==>
          && r.token != 0
          && (after == before || after == before.(linux := AdmitsAndRetires(before.linux, r.token))))
    && (status == OK ==> Prepares(r, before, after))
    && (status == BACKEND_FAILURE ==> NothingLeft(after.linux) && after.token == 0)
    && (status == QUIESCENCE_FAILED ==>
          after.linux.vmas == 0 && after.token == r.token && (r.token != 0 ==> Outstanding(after.linux, r.token)))
    && status != UNSUPPORTED
  }

  /** The bodies that the fixed sizes call for. */
  predicate Bodied(m: Message) {
    && (m.operation == PREPARE_MEMORY ==> m.body.Memory?)
    && (m.operation == ACTIVATE ==> m.body.Queues? && |m.body.queues.queues| == 6)
    && (m.operation == NETWORK_ACTIVATE ==> m.body.Queues?)
  }

  /** What a request other than RELEASE_MEMORY does. */
  ghost predicate RequestMeans(c: Config, m: Message, ready: bool, status: Status, before: World, after: World) {
    && |before.linux.ends| == |after.linux.ends| == 2 && |c.notification| == 2 && c.requestQueues <= 4
    && OwnOnly(m, before, after)
    && if Refusal(c, m).Some? then status == Refusal(c, m).value && after == before
       else
         && HelloMeans(m, ready, status) && DrainMeans(m, status, before, after)
         && (Bodied(m) ==>
               && (m.operation == PREPARE_MEMORY ==> PrepareMeans(c.blocks, m.body.memory, status, before, after))
               && (m.operation == ACTIVATE ==> ActivateMeans(c, m.body.queues, ready, status, before, after))
               && (m.operation == NETWORK_ACTIVATE ==> ActivateNetMeans(c, m.body.queues, status, before, after)))
  }

  /** For each kind of request only its own clause of RequestMeans matters. */
  lemma {:induction false} ActivationIs(c: Config, m: Message, ready: bool, status: Status, before: World, after: World)
    requires |before.linux.ends| == |after.linux.ends| == 2 && |c.notification| == 2 && c.requestQueues <= 4
    requires m.operation == ACTIVATE && Refusal(c, m).None? && Bodied(m) && OwnOnly(m, before, after)
    requires ActivateMeans(c, m.body.queues, ready, status, before, after)
    ensures RequestMeans(c, m, ready, status, before, after)
  {
  }

  lemma {:induction false} NetActivationIs(c: Config, m: Message, ready: bool, status: Status,
                                           before: World, after: World)
    requires |before.linux.ends| == |after.linux.ends| == 2 && |c.notification| == 2 && c.requestQueues <= 4
    requires m.operation == NETWORK_ACTIVATE && Refusal(c, m).None? && Bodied(m) && OwnOnly(m, before, after)
    requires ActivateNetMeans(c, m.body.queues, status, before, after)
    ensures RequestMeans(c, m, ready, status, before, after)
  {
  }

  lemma {:induction false} PreparationIs(c: Config, m: Message, ready: bool, status: Status,
                                         before: World, after: World)
    requires |before.linux.ends| == |after.linux.ends| == 2 && |c.notification| == 2 && c.requestQueues <= 4
    requires m.operation == PREPARE_MEMORY && Refusal(c, m).None? && Bodied(m) && OwnOnly(m, before, after)
    requires PrepareMeans(c.blocks, m.body.memory, status, before, after)
    ensures RequestMeans(c, m, ready, status, before, after)
  {
  }

  /** What RELEASE_MEMORY does: it issues exactly the unfinished calls as far as it gets, and keeps
      whatever the stages it did not finish need. */
  ghost predicate ReleaseMeans(status: Status, before: World, after: World) {
    && ReleaseStep(StageOf(before), StageOf(after))
    && after.calls == before.calls + ReleaseLog(true, StageOf(before), StageOf(after))
    && after.linux.admitted == before.linux.admitted
    && (status == OK ==> NothingLeft(after.linux) && after.token == 0 && after.base == 0 && after.length == 0)
    && (status != OK ==>
          && status == QUIESCENCE_FAILED && after.linux.proofs == before.linux.proofs && after.token == before.token
          && after.base == before.base && after.length == before.length && after.linux.grant == before.linux.grant
          && (after.memory.Some? ==> after.memory == before.memory)
          && (after.linux.ends != [CLOSED, CLOSED] ==>
                && after.memory == before.memory && after.linux.vmas == before.linux.vmas
                && after.linux.file == before.linux.file && after.linux.granules == before.linux.granules))
  }

  /** What executing a record does; a session that may not prepare gets INVALID and no effect. */
  ghost predicate Effect(c: Config, v: View, m: Message, ready: bool, status: Status, before: World, after: World) {
    if IsRelease(c, m) then ReleaseMeans(status, before, after)
    else if Preparable(v) then RequestMeans(c, m, ready, status, before, after)
    else status == INVALID && after == before
  }

  lemma {:induction false} RequestHasEffect(c: Config, v: View, m: Message, ready: bool, status: Status,
                                            before: World, after: World)
    requires !IsRelease(c, m) && Preparable(v) && RequestMeans(c, m, ready, status, before, after)
    ensures Effect(c, v, m, ready, status, before, after)
  {
  }

  /** One turn: the loop's variables go from f to g as the protocol says, and the backend changes
      only if the record is executed, and then as its reply says. */
  ghost predicate Turned(c: Config, f: Front, i: Input, g: Front, reply: Reply, before: World, after: World)
    requires ViewOk(f.view)
  {
    var step := Step(c, f, i);
    && step.0 == g && step.1.reply == reply
    && (step.1.kind != Executed ==> after == before)
    && (step.1.kind == Executed ==>
          Effect(c, Admitted(c, f, i.message, i.idle).0.view, i.message, i.ready, reply.status, before, after))
  }

  /** What one turn promises about the backend before and after it. */
  ghost predicate TurnOk(c: Config, f: Front, i: Input, before: World, after: World)
    requires ViewOk(f.view)
  {
    var step := Step(c, f, i);
    && Turned(c, f, i, step.0, step.1.reply, before, after)
    && BooksOk(after.linux) && BorrowsMapped(after.linux) && Grows(before.linux, after.linux)
    && (Released(c, step.1.reply) ==> NothingLeft(after.linux))
    && (c.managed && step.0.view.binding != f.view.binding ==> NothingLeft(before.linux))
  }

  /** A turn that runs its record, from the variables after admission. */
  lemma {:induction false} RunsTurn(c: Config, f: Front, i: Input, h: Front, g: Front, reply: Reply,
                                    before: World, after: World)
    requires ViewOk(f.view) && h == Admitted(c, f, i.message, i.idle).0 && Admitted(c, f, i.message, i.idle).1 >= 0
    requires i.message.transaction > h.last && Executes(c, h, i.message, i.answer, g, reply)
    requires Effect(c, h.view, i.message, i.ready, reply.status, before, after)
    ensures Turned(c, f, i, g, reply, before, after)
  {
    TurnRuns(c, f, i, h, g, reply);
  }

  /** A turn that does not: the backend stays. */
  lemma {:induction false} IdleTurn(c: Config, f: Front, i: Input, g: Front, reply: Reply, world: World)
    requires ViewOk(f.view) && Step(c, f, i).0 == g
    requires Step(c, f, i).1.reply == reply && Step(c, f, i).1.kind != Executed
    ensures Turned(c, f, i, g, reply, world, world)
  {
  }

  // ----- whole conversations ------------------------------------------------------------

  /** The records taken, the replies given, and the backend before, between and after the turns. */
  datatype Talk = Talk(config: Config, inputs: seq<Input>, replies: seq<Reply>, trace: seq<World>)

  function Fronts(t: Talk): (fs: seq<Front>)
    ensures |fs| == |t.inputs| + 1 && forall k :: 0 <= k < |fs| ==> ViewOk(fs[k].view)
  {
    Session.Run(t.config, START, t.inputs)
  }

  /** A run of the session protocol whose every turn keeps its promise. */
  ghost predicate History(t: Talk) {
    && |t.replies| == |t.inputs| && |t.trace| == |t.inputs| + 1 && Real(t.inputs)
    && (forall k :: 0 <= k < |t.inputs| ==> t.replies[k] == EventAt(t.config, START, t.inputs, k).reply)
    && (forall k :: 0 <= k < |t.inputs| ==> TurnOk(t.config, Fronts(t)[k], t.inputs[k], t.trace[k], t.trace[k + 1]))
  }

  function Longer(t: Talk, input: Input, reply: Reply, after: World): Talk {
    t.(inputs := t.inputs + [input], replies := t.replies + [reply], trace := t.trace + [after])
  }

  lemma {:induction false} HistoryGrows(t: Talk, f: Front, input: Input, reply: Reply, before: World, after: World)
    requires History(t) && Serviceable(input.message) && f == Fronts(t)[|t.inputs|] && before == t.trace[|t.inputs|]
    requires reply == Step(t.config, f, input).1.reply && TurnOk(t.config, f, input, before, after)
    ensures var r := Longer(t, input, reply, after);
            History(r) && Fronts(r)[|t.inputs| + 1] == Step(t.config, f, input).0
  {
    var r := Longer(t, input, reply, after);
    RunAppend(t.config, START, t.inputs, input);
    forall k | 0 <= k < |r.inputs|
      ensures TurnOk(t.config, Fronts(r)[k], r.inputs[k], r.trace[k], r.trace[k + 1])
    {
      assert Fronts(r)[k] == Fronts(t)[k];
    }
  }

  lemma {:induction false} BooksGrow(t: Talk, j: nat, k: nat)
    requires History(t) && j <= k <= |t.inputs|
    ensures Grows(t.trace[j].linux, t.trace[k].linux)
    decreases k
  {
    if j < k {
      BooksGrow(t, j, k - 1);
      assert TurnOk(t.config, Fronts(t)[k - 1], t.inputs[k - 1], t.trace[k - 1], t.trace[k]);
    }
  }

  /** Between two turns of different bindings lies one that finds nothing left. */
  lemma {:induction false} SwitchFindsNothing(t: Talk, j: nat, k: nat) returns (m: nat)
    requires History(t) && j <= k <= |t.inputs| && t.config.managed
    requires Fronts(t)[j].view.binding != Fronts(t)[k].view.binding
    ensures j <= m < k && NothingLeft(t.trace[m].linux)
    decreases k
  {
    var fs := Fronts(t);
    RunStep(t.config, START, t.inputs, k - 1);
    assert TurnOk(t.config, fs[k - 1], t.inputs[k - 1], t.trace[k - 1], t.trace[k]);
    if fs[k - 1].view.binding != fs[k].view.binding {
      assert fs[k] == Step(t.config, fs[k - 1], t.inputs[k - 1]).0;
      m := k - 1;
    } else {
      m := SwitchFindsNothing(t, j, k - 1);
    }
  }

  /** Every token admitted under one binding is retired before the next binding begins. */
  lemma {:induction false} EarlierTokensAreRetired(t: Talk, j: nat, k: nat, token: Word)
    requires History(t) && j <= k <= |t.inputs| && t.config.managed
    requires Fronts(t)[j].view.binding != Fronts(t)[k].view.binding
    requires token in t.trace[j].linux.admitted
    ensures token in Tokens(t.trace[k].linux.proofs)
  {
    var m := SwitchFindsNothing(t, j, k);
    BooksGrow(t, j, m);
    BooksGrow(t, m, k);
    var x, y, z := t.trace[j].linux, t.trace[m].linux, t.trace[k].linux;
    var a :| 0 <= a < |x.admitted| && x.admitted[a] == token;
    assert y.admitted[a] == token;
    assert token in Tokens(y.proofs);
    var i :| 0 <= i < |Tokens(y.proofs)| && Tokens(y.proofs)[i] == token;
    assert Tokens(z.proofs)[i] == token;
  }

  /** A token retired once is never retired again, nor admitted again, in the whole conversation. */
  lemma {:induction false} RetiredOnce(t: Talk, j: nat, k: nat, token: Word)
    requires History(t) && 0 < j <= k <= |t.inputs| && token in Tokens(t.trace[j].linux.proofs)
    ensures var x, y := t.trace[j].linux, t.trace[k].linux;
            && token in x.admitted && Grows(x, y)
            && token !in y.admitted[|x.admitted|..] && token !in Tokens(y.proofs)[|x.proofs|..]
  {
    BooksGrow(t, j, k);
    assert TurnOk(t.config, Fronts(t)[j - 1], t.inputs[j - 1], t.trace[j - 1], t.trace[j]);
    assert TurnOk(t.config, Fronts(t)[k - 1], t.inputs[k - 1], t.trace[k - 1], t.trace[k]);
    var x, y := t.trace[j].linux, t.trace[k].linux;
    var i :| 0 <= i < |Tokens(x.proofs)| && Tokens(x.proofs)[i] == token;
    assert x.proofs[i] in x.proofs;
    var a :| 0 <= a < |x.admitted| && x.admitted[a] == token;
    assert y.admitted[a] == token && Tokens(y.proofs)[i] == token;
  }

  /** The device whose epoch a request carries is the one it touches. */
  lemma {:induction false} TouchesItsDevice(c: Config, m: Message, before: World, after: World, d: nat)
    requires |before.linux.ends| == |after.linux.ends| == 2 && d < 2 && OwnOnly(m, before, after)
    requires after.linux.ends[d] != before.linux.ends[d]
    ensures Device(c, m) == d
  {
  }

  /** The request that opens device d. */
  predicate Opens(m: Message, d: nat) { m.operation == (if d == DISK then ACTIVATE else NETWORK_ACTIVATE) }

  predicate ClosedAt(w: World, d: nat) { d < |w.linux.ends| == 2 && w.linux.ends[d] == CLOSED }

  /** Nothing but its own activation opens an endpoint. */
  lemma {:induction false} OnlyActivationOpens(c: Config, f: Front, i: Input, before: World, after: World, d: nat)
    requires ViewOk(f.view) && TurnOk(c, f, i, before, after) && ClosedAt(before, d)
    requires !(Opens(i.message, d) && Step(c, f, i).1.kind == Executed)
    ensures ClosedAt(after, d)
  {
  }

  /** A closed endpoint stays closed through the conversation until its next activation runs. */
  lemma {:induction false} ClosedUntilActivated(t: Talk, j: nat, k: nat, d: nat)
    requires History(t) && j <= k <= |t.inputs| && ClosedAt(t.trace[j], d)
    requires forall n :: j <= n < k && EventAt(t.config, START, t.inputs, n).kind == Executed ==>
               !Opens(t.inputs[n].message, d)
    ensures ClosedAt(t.trace[k], d)
    decreases k
  {
    if j < k {
      ClosedUntilActivated(t, j, k - 1, d);
      var f := Fronts(t)[k - 1];
      assert TurnOk(t.config, f, t.inputs[k - 1], t.trace[k - 1], t.trace[k]);
      assert EventAt(t.config, START, t.inputs, k - 1) == Step(t.config, f, t.inputs[k - 1]).1;
      OnlyActivationOpens(t.config, f, t.inputs[k - 1], t.trace[k - 1], t.trace[k], d);
    }
  }

  /** Queues that are not there are not used. */
  lemma {:induction false} UsedPrefix(queues: seq<Rings.Queue>, n: nat)
    requires n <= |queues| && forall i :: n <= i < |queues| ==> queues[i] == NO_QUEUE
    ensures Used(queues[..n]) == Used(queues)
  {
  }
}
