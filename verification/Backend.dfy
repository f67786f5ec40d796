/**
 The backend of one client service: endpoints, shared memory and the host's grant token
 (service/vhost.c, service/network.c, service/memory.c), over a model of the Linux and host
 state its system calls act on.

 Every system call may fail whenever it likes.  `Linux` is the truth; the fields of `Backend`
 are what the service believes, and `Valid` says among other things that the two agree.
 */
module Backend {
  import opened Wrappers
  import opened Layout
  import Rings

  datatype Status = OK | UNSUPPORTED | INVALID | BUSY | BACKEND_FAILURE | QUIESCENCE_FAILED

  const DISK: nat := 0
  const NET: nat := 1

  /** `struct endpoint`: the vhost fd, the notification binding, the attached backend, and
      the queues whose eventfds are open. */
  datatype Endpoint = Endpoint(fd: bool, bound: bool, attached: bool, kick: set<nat>, call: set<nat>)

  const CLOSED := Endpoint(false, false, false, {}, {})

  /** One write to the quiescence register, and what was still in use at that moment. */
  datatype Proof = Proof(token: Word, ends: seq<Endpoint>, tap: bool, file: bool, vmas: nat, granules: bool)

  /** The kernel and host side: what is really open, mapped, admitted and retired. */
  datatype Linux = Linux(
    ends: seq<Endpoint>,
    tap: bool,
    file: bool,             // the guest-memory file is open
    vmas: nat,
    granules: bool,         // the grant holds granule references
    grant: seq<nat>,        // the page table of the prepared grant
    admitted: seq<Word>,    // tokens the host changed from Created to Admitted for this route
    proofs: seq<Proof>)

  /** Nothing of the grant is reachable: this is when the host may revoke it. */
  predicate Safe(p: Proof) {
    p.ends == [CLOSED, CLOSED] && !p.tap && !p.file && p.vmas == 0 && !p.granules
  }

  predicate Distinct(s: seq<Word>) { forall i, j :: 0 <= i < j < |s| ==> s[i] != s[j] }

  function Tokens(proofs: seq<Proof>): (ts: seq<Word>)
    ensures |ts| == |proofs| && forall i :: 0 <= i < |ts| ==> ts[i] == proofs[i].token
  {
    seq(|proofs|, i requires 0 <= i < |proofs| => proofs[i].token)
  }

  /** The host's books: tokens are admitted once and retired at most once, always safely, and
      the only admitted token not yet retired is the one the service holds. */
  ghost predicate LedgerOk(admitted: seq<Word>, proofs: seq<Proof>, token: Word) {
    && Distinct(admitted) && 0 !in admitted
    && Distinct(Tokens(proofs)) && (forall p :: p in proofs ==> Safe(p) && p.token in admitted)
    && (forall t :: t in admitted ==> (t in Tokens(proofs) <==> t != token))
    && (token != 0 ==> token in admitted)
  }

  lemma {:induction false} TokensAppend(proofs: seq<Proof>, p: Proof)
    ensures Tokens(proofs + [p]) == Tokens(proofs) + [p.token]
  {
  }

  lemma {:induction false} AdmitKeepsLedger(admitted: seq<Word>, proofs: seq<Proof>, token: Word)
    requires LedgerOk(admitted, proofs, 0) && token != 0 && token !in admitted
    ensures LedgerOk(admitted + [token], proofs, token)
  {
    forall t | t in Tokens(proofs) ensures t in admitted {
      var i :| 0 <= i < |Tokens(proofs)| && Tokens(proofs)[i] == t;
      assert proofs[i] in proofs;
    }
  }

  lemma {:induction false} RetireKeepsLedger(admitted: seq<Word>, proofs: seq<Proof>, token: Word, p: Proof)
    requires LedgerOk(admitted, proofs, token) && token != 0 && p.token == token && Safe(p)
    ensures LedgerOk(admitted, proofs + [p], 0)
  {
    TokensAppend(proofs, p);
  }

  predicate EndpointOk(e: Endpoint) {
    && (e.attached ==> e.fd && e.bound)
    && (!e.fd && !e.bound ==> e == CLOSED)
  }

  predicate Open(e: Endpoint) { e.fd || e.bound }

  /** What a drain that failed leaves: untouched if the device did not drain, otherwise only
      the binding and its eventfds. */
  predicate HalfDrained(before: Endpoint, after: Endpoint) {
    if before.attached then after == before || after == before.(attached := false, fd := false)
    else after == before.(fd := false) && before.bound
  }

  // ----- the calls that take things down ------------------------------------------------

  datatype CallKind = Drain | CloseVhost | Unbind | CloseTap | Unmap | Release | CloseFile | Quiescent

  /** One such call: on which device, and whether it succeeded. */
  datatype Call = Call(kind: CallKind, device: nat, ok: bool)

  /** What a release still has to take down. */
  datatype Stage = Stage(ends: seq<Endpoint>, tap: bool, mapped: bool, file: bool, token: Word)

  /** The calls by which a drain of device d gets its endpoint from before to after. */
  function DrainLog(d: nat, before: Endpoint, after: Endpoint): seq<Call> {
    if before.attached && after.attached then [Call(Drain, d, false)]
    else
      (if before.attached then [Call(Drain, d, true)] else [])
      + (if before.fd then [Call(CloseVhost, d, true)] else [])
      + (if before.bound then [Call(Unbind, d, !after.bound)] else [])
  }

  function TapLog(before: bool, after: bool): seq<Call> {
    if before && !after then [Call(CloseTap, NET, true)] else []
  }

  function QuiesceLog(a: Stage, b: Stage): seq<Call>
    requires |a.ends| == |b.ends| == 2
  {
    DrainLog(DISK, a.ends[DISK], b.ends[DISK]) + DrainLog(NET, a.ends[NET], b.ends[NET]) + TapLog(a.tap, b.tap)
  }

  function FileLog(managed: bool, before: bool, after: bool): seq<Call> {
    if !before then []
    else
      (if managed then [Call(Release, 0, !after)] else [])
      + (if after then [] else [Call(CloseFile, 0, true)])
  }

  function MappingLog(managed: bool, a: Stage, b: Stage): seq<Call> {
    (if a.mapped then [Call(Unmap, 0, !b.mapped)] else [])
    + (if b.mapped then [] else FileLog(managed, a.file, b.file))
  }

  function TokenLog(before: Word, after: Word): seq<Call> {
    if before != 0 then [Call(Quiescent, 0, after == 0)] else []
  }

  /** What a release calls once both devices are closed. */
  function RetireLog(managed: bool, a: Stage, b: Stage): seq<Call> {
    MappingLog(managed, a, b) + (if b.mapped || b.file then [] else TokenLog(a.token, b.token))
  }

  /** All calls of one release: both drains whatever they answer, then stage by stage as far as
      the stage before it got through. */
  function ReleaseLog(managed: bool, a: Stage, b: Stage): seq<Call>
    requires |a.ends| == |b.ends| == 2
  {
    QuiesceLog(a, b) + (if b.ends != [CLOSED, CLOSED] then [] else RetireLog(managed, a, b))
  }

  predicate StageOk(s: Stage) {
    && |s.ends| == 2 && EndpointOk(s.ends[DISK]) && EndpointOk(s.ends[NET])
    && (s.tap ==> Open(s.ends[NET])) && (s.mapped ==> s.file)
  }

  predicate EndStep(before: Endpoint, after: Endpoint) {
    after == CLOSED || (Open(after) && HalfDrained(before, after))
  }

  predicate QuiesceStep(a: Stage, b: Stage)
    requires |a.ends| == |b.ends| == 2
  {
    && EndStep(a.ends[DISK], b.ends[DISK]) && EndStep(a.ends[NET], b.ends[NET])
    && b.tap == (a.tap && b.ends[NET] != CLOSED)
  }

  /** How far one release may get. */
  predicate ReleaseStep(a: Stage, b: Stage) {
    && StageOk(a) && StageOk(b) && QuiesceStep(a, b)
    && (b.mapped ==> a.mapped && b.file == a.file) && (b.file ==> a.file && b.token == a.token)
    && (b.token == a.token || b.token == 0)
    && (b.ends != [CLOSED, CLOSED] ==> b.mapped == a.mapped && b.file == a.file && b.token == a.token)
  }

  /** Nothing is left of what this call takes down. */
  predicate Finished(s: Stage, kind: CallKind, device: nat)
    requires |s.ends| == 2
  {
    match kind
    case Drain => device < 2 ==> !s.ends[device].attached
    case CloseVhost => device < 2 ==> !s.ends[device].fd
    case Unbind => device < 2 ==> !s.ends[device].bound
    case CloseTap => !s.tap
    case Unmap => !s.mapped
    case Release => !s.file
    case CloseFile => !s.file
    case Quiescent => s.token == 0
  }

  /** The device number a call of each kind is logged with. */
  predicate Applies(kind: CallKind, device: nat) {
    match kind
    case Drain => device < 2
    case CloseVhost => device < 2
    case Unbind => device < 2
    case CloseTap => device == NET
    case _ => device == 0
  }

  /** The calls a drain logs, said of one call. */
  lemma {:induction false} DrainLogged(d: nat, before: Endpoint, after: Endpoint, x: Call)
    requires EndpointOk(before) && EndStep(before, after)
    ensures x in DrainLog(d, before, after) ==>
              && x.device == d && x.kind in {Drain, CloseVhost, Unbind}
              && (x.kind == Drain ==> before.attached && x.ok == !after.attached)
              && (x.kind == CloseVhost ==> before.fd && x.ok && !after.fd)
              && (x.kind == Unbind ==> before.bound && x.ok == !after.bound)
    ensures before.attached && !after.attached ==> Call(Drain, d, true) in DrainLog(d, before, after)
    ensures before.fd && !after.fd ==> Call(CloseVhost, d, true) in DrainLog(d, before, after)
    ensures before.bound && !after.bound ==> Call(Unbind, d, true) in DrainLog(d, before, after)
    ensures Open(before) ==> DrainLog(d, before, after) != []
  {
  }

  /** Draining first and closing then is one drain. */
  lemma {:induction false} DrainJoins(log: seq<Call>, d: nat, before: Endpoint, drained: Endpoint, after: Endpoint)
    requires drained == before.(attached := false) && !after.attached
    ensures log + (if before.attached then [Call(Drain, d, true)] else []) + DrainLog(d, drained, after)
            == log + DrainLog(d, before, after)
  {
  }

  lemma {:induction false} QuiesceLogged(a: Stage, b: Stage, x: Call)
    requires StageOk(a) && |b.ends| == 2 && QuiesceStep(a, b)
    ensures x in QuiesceLog(a, b) ==>
              && x.device < 2 && x.kind in {Drain, CloseVhost, Unbind, CloseTap}
              && !Finished(a, x.kind, x.device) && x.ok == Finished(b, x.kind, x.device)
    ensures (&& x.device < 2 && x.kind in {Drain, CloseVhost, Unbind, CloseTap} && x.ok
             && (x.kind == CloseTap ==> x.device == NET)
             && !Finished(a, x.kind, x.device) && Finished(b, x.kind, x.device)) ==> x in QuiesceLog(a, b)
  {
    DrainLogged(DISK, a.ends[DISK], b.ends[DISK], x);
    DrainLogged(NET, a.ends[NET], b.ends[NET], x);
  }

  /** Two drains, one after the other, are one quiesce of both devices. */
  lemma {:induction false} QuiesceJoins(log: seq<Call>, a: Stage, m: Stage, b: Stage)
    requires |a.ends| == |m.ends| == |b.ends| == 2
    requires m.ends[NET] == a.ends[NET] && m.ends[DISK] == b.ends[DISK] && m.tap == a.tap
    ensures log + DrainLog(DISK, a.ends[DISK], m.ends[DISK]) + DrainLog(NET, m.ends[NET], b.ends[NET])
            + TapLog(m.tap, b.tap)
            == log + QuiesceLog(a, b)
    ensures b.ends == [CLOSED, CLOSED] <==> b.ends[DISK] == CLOSED && b.ends[NET] == CLOSED
  {
    assert b.ends == [b.ends[DISK], b.ends[NET]];
  }

  /** A release whose drains fail stops there. */
  lemma {:induction false} StopsAtDrain(managed: bool, log: seq<Call>, a: Stage, m: Stage)
    requires StageOk(a) && StageOk(m) && QuiesceStep(a, m) && m.ends != [CLOSED, CLOSED]
    requires m.mapped == a.mapped && m.file == a.file && m.token == a.token
    ensures ReleaseStep(a, m) && log + QuiesceLog(a, m) == log + ReleaseLog(managed, a, m)
  {
  }

  /** Quiescing both devices and then retiring the grant is one release. */
  lemma {:induction false} ReleaseJoins(managed: bool, log: seq<Call>, a: Stage, m: Stage, b: Stage)
    requires StageOk(a) && StageOk(m) && QuiesceStep(a, m) && m.ends == b.ends == [CLOSED, CLOSED] && m.tap == b.tap
    requires m.mapped == a.mapped && m.file == a.file && m.token == a.token && ReleaseStep(m, b)
    ensures ReleaseStep(a, b) && log + QuiesceLog(a, m) + RetireLog(managed, m, b) == log + ReleaseLog(managed, a, b)
  {
    assert QuiesceLog(a, m) == QuiesceLog(a, b) && RetireLog(managed, m, b) == RetireLog(managed, a, b);
  }

  /** A call is issued only for what is not finished, and its answer says whether it is then. */
  lemma {:induction false} IssuedIsUnfinished(managed: bool, a: Stage, b: Stage, x: Call)
    requires ReleaseStep(a, b) && x in ReleaseLog(managed, a, b)
    ensures !Finished(a, x.kind, x.device) && x.ok == Finished(b, x.kind, x.device)
  {
    QuiesceLogged(a, b, x);
  }

  /** What one release finishes, it finishes by a call that succeeds.  Only a managed service
      issues RELEASE; for the others closing the file is enough. */
  lemma {:induction false} FinishedByCall(managed: bool, a: Stage, b: Stage, kind: CallKind, device: nat)
    requires ReleaseStep(a, b) && !Finished(a, kind, device) && Finished(b, kind, device)
    requires Applies(kind, device)
    requires kind == Release ==> managed
    ensures Call(kind, device, true) in ReleaseLog(managed, a, b)
  {
    QuiesceLogged(a, b, Call(kind, device, true));
  }

  /** What is finished stays finished. */
  lemma {:induction false} FinishedStays(a: Stage, b: Stage, kind: CallKind, device: nat)
    requires ReleaseStep(a, b) && Finished(a, kind, device)
    ensures Finished(b, kind, device)
  {
  }

  /** Each open endpoint is worked on, whatever the other one answers. */
  lemma {:induction false} BothDrainsTried(managed: bool, a: Stage, b: Stage, d: nat)
    requires ReleaseStep(a, b) && d < 2 && Open(a.ends[d])
    ensures exists x :: x in ReleaseLog(managed, a, b) && x.device == d && x.kind in {Drain, CloseVhost, Unbind}
  {
    var log := DrainLog(d, a.ends[d], b.ends[d]);
    DrainLogged(d, a.ends[d], b.ends[d], Call(Drain, d, true));
    DrainLogged(d, a.ends[d], b.ends[d], log[0]);
    assert log[0] in log && log[0] in QuiesceLog(a, b);
  }

  /** A release and any number of retries. */
  predicate Retries(stages: seq<Stage>) {
    |stages| >= 1 && forall k :: 0 <= k < |stages| - 1 ==> ReleaseStep(stages[k], stages[k + 1])
  }

  lemma {:induction false} FinishedForGood(stages: seq<Stage>, i: nat, j: nat, kind: CallKind, device: nat)
    requires Retries(stages) && 0 < i <= j < |stages| && StageOk(stages[i]) && Finished(stages[i], kind, device)
    ensures StageOk(stages[j]) && Finished(stages[j], kind, device)
    decreases j
  {
    if i < j {
      assert ReleaseStep(stages[j - 1], stages[j]);
      FinishedForGood(stages, i, j - 1, kind, device);
      FinishedStays(stages[j - 1], stages[j], kind, device);
    }
  }

  /** Retries resume from exactly the unfinished stages: a call that succeeded in one of them is
      not issued again in any later one. */
  lemma {:induction false} RetriesRepeatNothing(managed: bool, stages: seq<Stage>, i: nat, j: nat, x: Call, y: Call)
    requires Retries(stages) && i < j < |stages| - 1
    requires ReleaseStep(stages[i], stages[i + 1]) && x in ReleaseLog(managed, stages[i], stages[i + 1]) && x.ok
    requires ReleaseStep(stages[j], stages[j + 1]) && y in ReleaseLog(managed, stages[j], stages[j + 1])
    ensures x.kind != y.kind || x.device != y.device
  {
    IssuedIsUnfinished(managed, stages[i], stages[i + 1], x);
    FinishedForGood(stages, i + 1, j, x.kind, x.device);
    IssuedIsUnfinished(managed, stages[j], stages[j + 1], y);
  }

  /** The order of the calls of a release. */
  function Place(x: Call): nat {
    match x.kind
    case Drain => 3 * x.device
    case CloseVhost => 3 * x.device + 1
    case Unbind => 3 * x.device + 2
    case CloseTap => 6
    case Unmap => 7
    case Release => 8
    case CloseFile => 9
    case Quiescent => 10
  }

  predicate InOrder(log: seq<Call>, from: nat, to: nat) {
    && (forall i :: 0 <= i < |log| ==> from <= Place(log[i]) < to)
    && forall i, j :: 0 <= i < j < |log| ==> Place(log[i]) < Place(log[j])
  }

  lemma {:induction false} Chain(a: seq<Call>, b: seq<Call>, from: nat, mid: nat, to: nat)
    requires InOrder(a, from, mid) && InOrder(b, mid, to) && from <= mid <= to
    ensures InOrder(a + b, from, to)
  {
  }

  lemma {:induction false} DrainInOrder(d: nat, before: Endpoint, after: Endpoint)
    ensures InOrder(DrainLog(d, before, after), 3 * d, 3 * d + 3)
  {
  }

  lemma {:induction false} QuiesceInOrder(a: Stage, b: Stage)
    requires |a.ends| == |b.ends| == 2
    ensures InOrder(QuiesceLog(a, b), 0, 7)
  {
    DrainInOrder(DISK, a.ends[DISK], b.ends[DISK]);
    DrainInOrder(NET, a.ends[NET], b.ends[NET]);
    var disk, net := DrainLog(DISK, a.ends[DISK], b.ends[DISK]), DrainLog(NET, a.ends[NET], b.ends[NET]);
    JoinInOrder(disk, net, TapLog(a.tap, b.tap));
  }

  lemma {:induction false} JoinInOrder(disk: seq<Call>, net: seq<Call>, tap: seq<Call>)
    requires InOrder(disk, 0, 3) && InOrder(net, 3, 6) && InOrder(tap, 6, 7)
    ensures InOrder(disk + net + tap, 0, 7)
  {
    Chain(disk, net, 0, 3, 6);
    Chain(disk + net, tap, 0, 6, 7);
  }

  lemma {:induction false} MappingInOrder(managed: bool, a: Stage, b: Stage)
    ensures InOrder(MappingLog(managed, a, b), 7, 10)
  {
    var unmap := if a.mapped then [Call(Unmap, 0, !b.mapped)] else [];
    var file := FileLog(managed, a.file, b.file);
    assert InOrder(file, 8, 10);
    Chain(unmap, if b.mapped then [] else file, 7, 8, 10);
  }

  lemma {:induction false} RetireInOrder(managed: bool, a: Stage, b: Stage)
    ensures InOrder(RetireLog(managed, a, b), 7, 11)
  {
    MappingInOrder(managed, a, b);
    if b.mapped || b.file {
      Chain(MappingLog(managed, a, b), [], 7, 10, 11);
    } else {
      Chain(MappingLog(managed, a, b), TokenLog(a.token, b.token), 7, 10, 11);
    }
  }

  /** Both devices are drained and unbound before the mapping goes, the mapping before the page
      references, those before the file, and the proof comes last; nothing is called twice. */
  lemma {:induction false} ReleaseInOrder(managed: bool, a: Stage, b: Stage)
    requires |a.ends| == |b.ends| == 2
    ensures InOrder(ReleaseLog(managed, a, b), 0, 11)
  {
    QuiesceInOrder(a, b);
    if b.ends == [CLOSED, CLOSED] {
      RetireInOrder(managed, a, b);
      Chain(QuiesceLog(a, b), RetireLog(managed, a, b), 0, 7, 11);
    } else {
      Chain(QuiesceLog(a, b), [], 0, 7, 11);
    }
  }

  /** Feature words as sets of bit positions. */
  const VERSION_1: nat := 32
  const MAC: nat := 5
  const CSUM: nat := 0
  const TSO: set<nat> := {11, 12}

  /** An activation message: queue epoch, negotiated features and the queue records. */
  datatype QueueRequest = QueueRequest(epoch: nat, features: set<nat>, queues: seq<Rings.Queue>)

  const NO_QUEUE := Rings.Queue(0, 0, 0, 0, 0)

  /** The queues of a record that are in use. */
  function Used(queues: seq<Rings.Queue>): set<nat> {
    set i | 0 <= i < |queues| && queues[i].size != 0
  }

  /** An endpoint that serves exactly these queues. */
  function Serving(queues: seq<Rings.Queue>): Endpoint {
    Endpoint(true, true, true, Used(queues), Used(queues))
  }

  datatype MemoryRequest = MemoryRequest(alias: Word, base: Word, length: Word, token: Word)

  /** Everything about a backend that changes, as a value. */
  datatype World =
    World(linux: Linux, calls: seq<Call>, memory: Option<Word>, base: Word, length: Word, token: Word)

  function StageOf(w: World): Stage { Stage(w.linux.ends, w.linux.tap, w.memory.Some?, w.linux.file, w.token) }

  /** What `configure_vhost` can place: memory is mapped, the notification device is open, and the
      queues conform inside the mapping. */
  ghost predicate Places(w: World, notified: bool, epoch: nat, queues: seq<Rings.Queue>, required: nat) {
    && w.memory.Some? && w.length != 0 && notified && epoch != 0 && |queues| <= 6
    && Rings.ConformingSet(Rings.Region(w.base, w.length, w.memory.value), queues, required)
  }

  class Backend {
    const managed: bool
    const disk: bool              // a SCSI target is configured
    const network: bool
    const blocks: bool            // the block owner's control endpoint
    const requestQueues: nat
    const notification: seq<bool> // which notification devices are open
    var ends: seq<Endpoint>
    var tap: bool
    var file: bool
    var memory: Option<Word>
    var base: Word
    var length: Word
    var token: Word
    var linux: Linux
    /** Every call so far that takes something down. */
    var calls: seq<Call>

    /** A managed service, or one on standby, before its first request. */
    constructor (managed: bool, disk: bool, network: bool, blocks: bool, requestQueues: nat, notification: seq<bool>)
      requires |notification| == 2 && 1 <= requestQueues <= 4
      ensures Valid() && Idle() && linux.admitted == [] && linux.proofs == []
      ensures this.managed == managed && this.disk == disk && this.network == network && this.blocks == blocks
    {
      this.managed, this.disk, this.network, this.blocks := managed, disk, network, blocks;
      this.requestQueues, this.notification := requestQueues, notification;
      ends, tap, file, memory, base, length, token := [CLOSED, CLOSED], false, false, None, 0, 0, 0;
      linux := Linux([CLOSED, CLOSED], false, false, 0, false, [], [], []);
      calls := [];
    }

    ghost predicate Valid()
      reads this
    {
      && |notification| == 2 && 1 <= requestQueues <= 4
      && |ends| == 2 && ends == linux.ends && EndpointOk(ends[DISK]) && EndpointOk(ends[NET])
      && tap == linux.tap && file == linux.file
      && (memory.Some? ==> file && linux.vmas == 1 && length > 0 && memory.value + length <= U64)
      && (memory.Some? ==> memory.value % PAGE == 0 && base % PAGE == 0)
      && (memory.None? ==> linux.vmas == 0 && !Open(ends[DISK]) && !Open(ends[NET]))
      && (tap ==> Open(ends[NET]))
      && (linux.granules ==> file)
      && (!managed ==> token == 0)
      && LedgerOk(linux.admitted, linux.proofs, token)
    }

    /** `idle`. */
    predicate Idle()
      requires |ends| == 2
      reads this
    {
      && memory.None? && !file && token == 0 && !ends[DISK].fd && !ends[DISK].bound
      && !ends[NET].fd && !ends[NET].bound && !tap
    }

    /** Idle is all the service tests, but then nothing whatever is left on the Linux side, and
        every token the host ever admitted has been retired. */
    lemma {:induction false} IdleMeansNothingLeft()
      requires Valid() && Idle()
      ensures linux.ends == [CLOSED, CLOSED] && !linux.tap && !linux.file && linux.vmas == 0 && !linux.granules
      ensures forall t :: t in linux.admitted <==> t in Tokens(linux.proofs)
    {
      assert ends == [ends[DISK], ends[NET]];
      forall t | t in Tokens(linux.proofs) ensures t in linux.admitted {
        var i :| 0 <= i < |Tokens(linux.proofs)| && Tokens(linux.proofs)[i] == t;
        assert linux.proofs[i] in linux.proofs;
      }
    }

    /** And the converse: once nothing is left on the Linux side and no token is outstanding, the
        service takes itself for idle. */
    lemma {:induction false} NothingLeftMeansIdle()
      requires Valid() && linux.ends == [CLOSED, CLOSED] && !linux.tap && !linux.file && linux.vmas == 0
      requires forall t :: t in linux.admitted ==> t in Tokens(linux.proofs)
      ensures Idle()
    {
    }

    /** A token is outstanding with the host exactly while the service holds one. */
    lemma {:induction false} OutstandingIff()
      requires Valid()
      ensures token != 0 <==> exists t :: t in linux.admitted && t !in Tokens(linux.proofs)
    {
      if token != 0 { assert token in linux.admitted && token !in Tokens(linux.proofs); }
    }

    // ----- draining -----------------------------------------------------------------

    /** UNBIND; it fails only when the notification device is gone. */
    method IoctlUnbind(d: nat) returns (ok: bool)
      requires d < |linux.ends|
      modifies this`linux, this`calls
      ensures ok ==> linux == old(linux).(ends := old(linux.ends)[d := old(linux.ends)[d].(bound := false)])
      ensures !ok ==> linux == old(linux)
      ensures calls == old(calls) + [Call(Unbind, d, ok)]
    {
      ok := *;
      calls := calls + [Call(Unbind, d, ok)];
      if ok { linux := linux.(ends := linux.ends[d := linux.ends[d].(bound := false)]); }
    }

    /** CLEAR_ENDPOINT or RESET_OWNER: a synchronous drain. */
    method IoctlDrain(d: nat) returns (ok: bool)
      requires d < |linux.ends|
      modifies this`linux, this`calls
      ensures ok ==> linux == old(linux).(ends := old(linux.ends)[d := old(linux.ends)[d].(attached := false)])
      ensures !ok ==> linux == old(linux)
      ensures calls == old(calls) + [Call(Drain, d, ok)]
    {
      ok := *;
      calls := calls + [Call(Drain, d, ok)];
      if ok { linux := linux.(ends := linux.ends[d := linux.ends[d].(attached := false)]); }
    }

    /** Both views of endpoint d change together. */
    method SetEnd(d: nat, e: Endpoint)
      requires d < |ends| == |linux.ends|
      modifies this`ends, this`linux
      ensures ends == old(ends)[d := e] && linux == old(linux).(ends := old(linux.ends)[d := e])
    {
      ends := ends[d := e];
      linux := linux.(ends := linux.ends[d := e]);
    }

    /** `endpoint_close`, after the device has drained. */
    method EndpointClose(d: nat) returns (ok: bool)
      requires Valid() && d < 2 && !ends[d].attached
      modifies this`ends, this`linux, this`calls
      ensures |ends| == 2 && calls == old(calls) + DrainLog(d, old(ends)[d], ends[d])
      ensures ok ==> ends == old(ends)[d := CLOSED]
      ensures !ok ==> old(ends)[d].bound && ends == old(ends)[d := old(ends)[d].(fd := false)]
      ensures linux == old(linux).(ends := ends)
      ensures (tap ==> Open(ends[NET])) ==> Valid()
    {
      if ends[d].fd {
        calls := calls + [Call(CloseVhost, d, true)];
        SetEnd(d, ends[d].(fd := false));
      }
      if ends[d].bound {
        ok := IoctlUnbind(d);
        if !ok { return false; }
        ends := ends[d := ends[d].(bound := false)];
      }
      SetEnd(d, ends[d].(kick := {}, call := {}));
      return true;
    }

    /** `quiesce_disk`. */
    method QuiesceDisk() returns (ok: bool)
      requires Valid()
      modifies this`ends, this`linux, this`calls
      ensures Valid() && linux == old(linux).(ends := ends) && ends[NET] == old(ends)[NET]
      ensures calls == old(calls) + DrainLog(DISK, old(ends)[DISK], ends[DISK])
      ensures if ok then ends[DISK] == CLOSED else Open(ends[DISK]) && HalfDrained(old(ends)[DISK], ends[DISK])
    {
      if ends[DISK].attached {
        ok := IoctlDrain(DISK);
        if !ok { return false; }
        ends := ends[DISK := ends[DISK].(attached := false)];
      }
      ok := EndpointClose(DISK);
    }

    /** `quiesce_network`: the TAP goes last. */
    method QuiesceNetwork() returns (ok: bool)
      requires Valid()
      modifies this`ends, this`linux, this`tap, this`calls
      ensures Valid() && linux == old(linux).(ends := ends, tap := tap) && ends[DISK] == old(ends)[DISK]
      ensures calls == old(calls) + DrainLog(NET, old(ends)[NET], ends[NET]) + TapLog(old(tap), tap)
      ensures if ok then ends[NET] == CLOSED && !tap
              else Open(ends[NET]) && HalfDrained(old(ends)[NET], ends[NET]) && tap == old(tap)
    {
      if ends[NET].attached {
        ok := IoctlDrain(NET);
        if !ok { return false; }
        ends := ends[NET := ends[NET].(attached := false)];
      }
      ghost var drained := ends[NET];
      ok := EndpointClose(NET);
      DrainJoins(old(calls), NET, old(ends)[NET], drained, ends[NET]);
      if !ok { return false; }
      if tap {
        calls := calls + [Call(CloseTap, NET, true)];
        tap := false;
        linux := linux.(tap := false);
      }
      return true;
    }

    function Snap(): World
      reads this
    {
      World(linux, calls, memory, base, length, token)
    }

    /** What a release would still have to take down. */
    function Left(): Stage
      reads this
    {
      Stage(ends, tap, memory.Some?, file, token)
    }

    /** `quiesce_all`: both drains are tried, whatever the first one says. */
    method QuiesceAll() returns (ok: bool)
      requires Valid()
      modifies this`ends, this`linux, this`tap, this`calls
      ensures Valid() && linux == old(linux).(ends := ends, tap := tap)
      ensures calls == old(calls) + QuiesceLog(old(Left()), Left())
      ensures QuiesceStep(old(Left()), Left())
      ensures ok <==> ends == [CLOSED, CLOSED]
      ensures ok ==> !tap
    {
      ghost var before, log := Left(), calls;
      var disk := QuiesceDisk();
      ghost var between := Left();
      var net := QuiesceNetwork();
      ok := disk && net;
      QuiesceJoins(log, before, between, Left());
    }

    // ----- memory -------------------------------------------------------------------

    /** The endpoint whose notification device carries the grant's token. */
    function MemoryEndpoint(): nat { if disk then DISK else NET }

    /** QUIESCENT: refused while the endpoint is bound; otherwise one write to the register. */
    method IoctlQuiescent(d: nat, t: Word) returns (ok: bool)
      requires d < |linux.ends|
      modifies this`linux, this`calls
      ensures ok ==> t != 0 && !old(linux.ends)[d].bound
      ensures calls == old(calls) + [Call(Quiescent, 0, ok)]
      ensures linux == if ok then old(linux).(proofs := old(linux.proofs) + [Snapshot(old(linux), t)]) else old(linux)
    {
      ok := *;
      if t == 0 || linux.ends[d].bound { ok := false; }
      calls := calls + [Call(Quiescent, 0, ok)];
      if ok { linux := linux.(proofs := linux.proofs + [Snapshot(linux, t)]); }
    }

    /** The RELEASE ioctl of the memory device; a VMA makes it fail. */
    method IoctlRelease() returns (ok: bool)
      modifies this`linux, this`calls
      ensures ok ==> old(linux).vmas == 0
      ensures calls == old(calls) + [Call(Release, 0, ok)]
      ensures linux == if ok then old(linux).(granules := false) else old(linux)
    {
      ok := *;
      if linux.vmas != 0 { ok := false; }
      calls := calls + [Call(Release, 0, ok)];
      if ok { linux := linux.(granules := false); }
    }

    /** The middle of `release_memory`: unmap, give the granules back, close the file. */
    method RetireMapping() returns (ok: bool)
      requires Valid() && ends == [CLOSED, CLOSED] && !tap
      modifies this`file, this`memory, this`linux, this`calls
      ensures calls == old(calls) + MappingLog(managed, old(Left()), Left())
      ensures Valid() && linux == old(linux).(file := file, vmas := linux.vmas, granules := linux.granules)
      ensures ok ==> memory.None? && !file && !linux.granules
      ensures !ok ==> file == old(file) && (memory.Some? ==> memory == old(memory)) && (memory.Some? || file)
    {
      if memory.Some? {
        var unmapped: bool := *;
        calls := calls + [Call(Unmap, 0, unmapped)];
        if !unmapped { return false; }
        memory, linux := None, linux.(vmas := 0);
      }
      if file {
        if managed {
          var released := IoctlRelease();
          if !released { return false; }
        }
        calls := calls + [Call(CloseFile, 0, true)];
        // The last close of a file without VMAs gives back whatever is still prepared.
        file, linux := false, linux.(file := false, granules := linux.granules && linux.vmas != 0);
      }
      return true;
    }

    /** The end of `release_memory`. */
    method ProveQuiescence() returns (ok: bool)
      requires Valid() && ends == [CLOSED, CLOSED] && !tap && memory.None? && !file && !linux.granules
      modifies this`token, this`linux, this`calls
      ensures calls == old(calls) + TokenLog(old(token), token)
      ensures Valid() && linux == old(linux).(proofs := linux.proofs) && old(linux.proofs) <= linux.proofs
      ensures ok ==>
                && token == 0
                && Tokens(linux.proofs) == Tokens(old(linux.proofs)) + (if old(token) != 0 then [old(token)] else [])
      ensures !ok ==> token == old(token) != 0 && linux == old(linux)
    {
      if token != 0 {
        ok := IoctlQuiescent(MemoryEndpoint(), token);
        if !ok { return false; }
        TokensAppend(old(linux.proofs), Snapshot(old(linux), token));
        RetireKeepsLedger(old(linux.admitted), old(linux.proofs), token, Snapshot(old(linux), token));
      }
      token := 0;
      return true;
    }

    /** `release_memory`: drain both devices, unmap, retire the page references, close, and only
        then prove quiescence.  Whatever stage fails keeps everything the later stages need. */
    method ReleaseMemory() returns (status: Status)
      requires Valid()
      modifies this`ends, this`tap, this`file, this`memory, this`base, this`length, this`token, this`linux, this`calls
      ensures Valid() && linux.admitted == old(linux.admitted) && old(linux.proofs) <= linux.proofs
      ensures ReleaseStep(old(Left()), Left()) && calls == old(calls) + ReleaseLog(managed, old(Left()), Left())
      ensures status == OK || status == QUIESCENCE_FAILED
      ensures status == OK ==> Idle() && base == 0 && length == 0
      ensures status == OK ==>
                Tokens(linux.proofs) == Tokens(old(linux.proofs)) + (if old(token) != 0 then [old(token)] else [])
      ensures status != OK ==> !Idle() && token == old(token) && linux.proofs == old(linux.proofs)
      ensures status != OK ==> base == old(base) && length == old(length) && linux.grant == old(linux.grant)
      ensures status != OK && ends != [CLOSED, CLOSED] ==>
                memory == old(memory) && file == old(file) && linux.granules == old(linux.granules)
      ensures status != OK && memory.Some? ==> memory == old(memory) && file
      ensures status != OK && !file ==> token != 0 && memory.None? && ends == [CLOSED, CLOSED]
    {
      ghost var before, log := Left(), calls;
      var ok := QuiesceAll();
      ghost var between := Left();
      if !ok {
        StopsAtDrain(managed, log, before, between);
        return QUIESCENCE_FAILED;
      }
      ok := RetireGrant();
      ReleaseJoins(managed, log, before, between, Left());
      if !ok { return QUIESCENCE_FAILED; }
      base, length := 0, 0;
      return OK;
    }

    /** `release_memory` once both devices are closed. */
    method RetireGrant() returns (ok: bool)
      requires Valid() && ends == [CLOSED, CLOSED] && !tap
      modifies this`file, this`memory, this`token, this`linux, this`calls
      ensures Valid() && linux.admitted == old(linux.admitted) && old(linux.proofs) <= linux.proofs
      ensures linux.ends == old(linux.ends) && linux.tap == old(linux.tap) && linux.grant == old(linux.grant)
      ensures calls == old(calls) + RetireLog(managed, old(Left()), Left())
      ensures ReleaseStep(old(Left()), Left())
      ensures ok <==> memory.None? && !file && token == 0
      ensures ok ==> Tokens(linux.proofs) == Tokens(old(linux.proofs)) + (if old(token) != 0 then [old(token)] else [])
      ensures !ok ==> token == old(token) && linux.proofs == old(linux.proofs)
      ensures memory.Some? ==> memory == old(memory)
    {
      ok := RetireMapping();
      if !ok { return false; }
      ok := ProveQuiescence();
    }

    /** ADMIT: the host admits a token it has not admitted before, or refuses.  If the admitted
        facts are not the requested ones, the driver retires the untouched token at once. */
    method IoctlAdmit(d: nat, r: MemoryRequest) returns (ok: bool, extents: nat)
      requires d < |linux.ends|
      modifies this`linux
      ensures ok ==> r.token != 0 && r.token !in old(linux.admitted) && linux == Admits(old(linux), r.token)
      ensures ok ==> 1 <= extents <= r.length / PAGE
      ensures !ok ==>
                || linux == old(linux)
                || (r.token != 0 && r.token !in old(linux.admitted) && linux == AdmitsAndRetires(old(linux), r.token))
    {
      ok, extents := false, 0;
      if linux.ends[d].bound || r.token == 0 { return; }
      var admitted: bool := *;
      if !admitted || r.token in linux.admitted { return; }
      linux := Admits(linux, r.token);
      var matches: bool := *;
      extents := *;
      if !matches || extents == 0 || extents > r.length / PAGE {
        linux := linux.(proofs := linux.proofs + [Snapshot(linux, r.token)]);
        return;
      }
      ok := true;
    }

    /** The checks of `prepare_memory` that need no system call. */
    predicate RequestOk(r: MemoryRequest) {
      && r.length != 0 && r.length % PAGE == 0 && r.base % PAGE == 0 && r.base <= U64 - 1 - r.length
      && !(blocks && (r.length > MAX_READ || r.token != 0))
      && (r.token != 0 ==> r.alias == 0 && r.length / PAGE <= MAX_GRANT_PAGES)
    }

    /** Which requests `prepare_memory` takes up: whole pages that end below 2^64, at most 1 MiB and
        without a token for the block owner, and with a token no alias and at most 4 GiB. */
    lemma {:induction false} RequestOkIff(r: MemoryRequest)
      ensures RequestOk(r) <==>
                && r.length > 0 && r.length % 4096 == 0 && r.base % 4096 == 0
                && r.base + r.length < 0x1_0000_0000_0000_0000
                && (blocks ==> r.length <= 0x10_0000 && r.token == 0)
                && (r.token != 0 ==> r.alias == 0 && r.length <= 0x1_0000_0000)
    {
    }

    predicate Unprepared()
      reads this
    {
      managed && memory.None? && !file && token == 0
    }

    /** From the opened file to the mapping; false means the caller must release. */
    method OpenAndMap(r: MemoryRequest, pages: seq<nat>) returns (ok: bool)
      requires Valid() && memory.None? && !file && !linux.granules && RequestOk(r) && token == r.token
      modifies this`file, this`memory, this`base, this`length, this`linux
      ensures Valid() && linux.admitted == old(linux.admitted)
      ensures linux.proofs == old(linux.proofs) && ends == linux.ends
      ensures ok ==> memory.Some? && file && base == r.base && length == r.length && linux.granules == (r.token != 0)
      ensures ok ==> linux.grant == pages
      ensures !ok ==> memory.None?
    {
      var gotFile: bool := *;
      if !gotFile { return false; }
      file, linux := true, linux.(file := true);
      var prepared: bool := *;
      if !prepared { return false; }
      linux := Prepared(linux, r.token, pages);
      var mapped: bool := *;
      if !mapped { return false; }
      assert 0 + r.length <= U64 && 0 % PAGE == 0;
      var user: Word :| user + r.length <= U64 && user % PAGE == 0;
      memory, linux := Some(user), linux.(vmas := 1);
      base, length := r.base, r.length;
      return true;
    }

    /** The part of `prepare_memory` for a granted token: admission and the extent walk. */
    method AdmitGrant(r: MemoryRequest)
        returns (admitted: bool, built: bool, pages: array<nat>, ghost answers: seq<Answer>)
      requires Valid() && Unprepared() && RequestOk(r) && r.token != 0
      modifies this`token, this`linux
      ensures Valid() && fresh(pages)
      ensures admitted ==> token == r.token && linux == Admits(old(linux), r.token)
      ensures !admitted ==> token == 0 && (linux == old(linux) || linux == AdmitsAndRetires(old(linux), r.token))
      ensures admitted && built ==> Tiles(answers, r.length) && pages[..] == Flatten(answers)
    {
      var extents;
      NothingOpen();
      admitted, extents := IoctlAdmit(MemoryEndpoint(), r);
      AdmitOutcome(old(linux), r.token);
      if !admitted { return false, false, new nat[0](_ => 0), []; }
      token := r.token;
      assert |seq(extents, _ => Failed)| == extents;
      var found: seq<Answer> :| |found| == extents;
      var gotTable: bool := *;
      built, pages := ReadExtents(found, r.length);
      built := built && gotTable;
      answers := found;
    }

    /** `prepare_memory`. */
    method PrepareMemory(r: MemoryRequest) returns (status: Status, ghost answers: seq<Answer>)
      requires Valid()
      modifies this`ends, this`tap, this`file, this`memory, this`base, this`length, this`token, this`linux, this`calls
      ensures Valid() && ends == old(ends) && tap == old(tap)
      ensures old(linux.admitted) <= linux.admitted && old(linux.proofs) <= linux.proofs
      ensures status == BUSY <==> !managed || old(memory.Some? || file || token != 0)
      ensures status == INVALID ==> !RequestOk(r) || r.token != 0
      ensures status == BUSY || status == INVALID ==>
                && tap == old(tap) && file == old(file) && memory == old(memory) && token == old(token)
                && base == old(base) && length == old(length)
      ensures status == BUSY ==> linux == old(linux)
      ensures status in {OK, BUSY, INVALID} ==> calls == old(calls)
      ensures status == INVALID ==> linux == old(linux) || linux == AdmitsAndRetires(old(linux), r.token)
      ensures status != BUSY && !RequestOk(r) ==> status == INVALID && linux == old(linux)
      ensures status == OK ==> memory.Some? && file && base == r.base && length == r.length && token == r.token
      ensures status == OK ==> linux.granules == (r.token != 0) && linux.proofs == old(linux.proofs)
      ensures status == OK ==> linux.admitted == old(linux.admitted) + (if r.token != 0 then [r.token] else [])
      ensures status == OK && r.token != 0 ==> Tiles(answers, r.length) && linux.grant == Flatten(answers)
      ensures status == BACKEND_FAILURE ==> Idle()
      ensures status == QUIESCENCE_FAILED ==> !Idle() && memory.None? && token == r.token
      ensures status != UNSUPPORTED
    {
      answers := [];
      if !Unprepared() { return BUSY, []; }
      if !RequestOk(r) { return INVALID, []; }
      NothingOpen();
      var pages := new nat[0](_ => 0);
      var built := true;
      if r.token != 0 {
        var admitted;
        admitted, built, pages, answers := AdmitGrant(r);
        if !admitted { return INVALID, []; }
      }
      if built { built := OpenAndMap(r, pages[..]); }
      if built { return OK, answers; }
      status := RollBack();
    }

    /** The way out of a preparation that failed: release whatever it got. */
    method RollBack() returns (status: Status)
      requires Valid() && memory.None?
      modifies this`ends, this`tap, this`file, this`memory, this`base, this`length, this`token, this`linux, this`calls
      ensures Valid() && ends == old(ends) && tap == old(tap)
      ensures linux.admitted == old(linux.admitted) && old(linux.proofs) <= linux.proofs
      ensures status == BACKEND_FAILURE ==> Idle()
      ensures status == QUIESCENCE_FAILED ==> !Idle() && memory.None? && token == old(token)
      ensures status in {BACKEND_FAILURE, QUIESCENCE_FAILED}
    {
      NothingOpen();
      status := ReleaseMemory();
      NothingOpen();
      status := if status == OK then BACKEND_FAILURE else QUIESCENCE_FAILED;
    }

    // ----- activation ---------------------------------------------------------------

    lemma {:induction false} UsedGrows(queues: seq<Rings.Queue>, i: nat)
      requires i < |queues|
      ensures Used(queues[..i + 1]) == Used(queues[..i]) + (if queues[i].size != 0 then {i} else {})
    {
    }

    /** The checks of `configure_vhost` on the backend itself. */
    predicate Configurable(d: nat, epoch: nat, count: nat)
      requires d < |notification|
      reads this
    {
      memory.Some? && length != 0 && notification[d] && epoch != 0 && count <= Rings.QUEUES
    }

    ghost predicate Placeable(d: nat, epoch: nat, queues: seq<Rings.Queue>, required: nat)
      requires d < |notification|
      reads this
    {
      Places(Snap(), notification[d], epoch, queues, required)
    }

    /** One queue: its vring ioctls and its two eventfds, any of which may fail. */
    method ConfigureQueue(d: nat, i: nat) returns (ok: bool)
      requires d < |ends| == |linux.ends| && ends[d] == linux.ends[d]
      modifies this`ends, this`linux
      ensures |ends| == |old(ends)| && ends == old(ends)[d := ends[d]]
      ensures linux == old(linux).(ends := old(linux.ends)[d := ends[d]])
      ensures ok ==> ends[d] == old(ends)[d].(kick := old(ends)[d].kick + {i}, call := old(ends)[d].call + {i})
      ensures !ok ==> ends[d] == old(ends)[d].(kick := ends[d].kick, call := ends[d].call)
    {
      ok := *;
      if !ok { return; }
      ok := *;
      if !ok { return; }
      SetEnd(d, ends[d].(kick := ends[d].kick + {i}));
      ok := *;
      if !ok { return; }
      SetEnd(d, ends[d].(call := ends[d].call + {i}));
      ok := *;
    }

    /** `configure_vhost`. */
    method ConfigureVhost(d: nat, epoch: nat, queues: seq<Rings.Queue>, required: nat) returns (status: Status)
      requires Valid() && d < 2
      modifies this`ends, this`linux
      ensures Valid() && ends == old(ends)[d := ends[d]] && linux == old(linux).(ends := ends)
      ensures status == BUSY <==> Open(old(ends)[d]) || old(ends)[d].attached
      ensures status == INVALID <==> status != BUSY && !Placeable(d, epoch, queues, required)
      ensures status == BUSY || status == INVALID ==> ends == old(ends)
      ensures status == OK ==> ends[d] == Endpoint(true, true, false, Used(queues), Used(queues))
      ensures status == OK ==>
                forall i :: i in ends[d].kick && i in ends[d].call <==> 0 <= i < |queues| && queues[i].size != 0
      ensures status == BACKEND_FAILURE ==> !ends[d].attached && !ends[d].bound && memory.Some?
      ensures status in {OK, BUSY, INVALID, BACKEND_FAILURE}
    {
      if ends[d].fd || ends[d].bound || ends[d].attached { return BUSY; }
      if !Configurable(d, epoch, |queues|) { return INVALID; }
      var acceptable, _ := Rings.Place(Rings.Region(base, length, memory.value), queues, required);
      if !acceptable { return INVALID; }
      var ok := SetUp(d, queues);
      status := if ok then OK else BACKEND_FAILURE;
    }

    /** The system calls of `configure_vhost`: open, configure every queue in use, bind. */
    method SetUp(d: nat, queues: seq<Rings.Queue>) returns (ok: bool)
      requires Valid() && d < 2 && ends[d] == CLOSED && memory.Some?
      modifies this`ends, this`linux
      ensures Valid() && ends == old(ends)[d := ends[d]] && linux == old(linux).(ends := ends)
      ensures ok ==> ends[d] == Endpoint(true, true, false, Used(queues), Used(queues))
      ensures !ok ==> !ends[d].attached && !ends[d].bound
    {
      ok := *;
      if !ok { return; }
      SetEnd(d, ends[d].(fd := true));
      ok := *;
      if !ok { return; }
      for i := 0 to |queues|
        invariant |ends| == 2 && ends == old(ends)[d := ends[d]] && linux == old(linux).(ends := ends)
        invariant ends[d] == Endpoint(true, false, false, Used(queues[..i]), Used(queues[..i]))
      {
        UsedGrows(queues, i);
        if queues[i].size == 0 { continue; }
        ok := ConfigureQueue(d, i);
        if !ok { return; }
      }
      assert queues[..|queues|] == queues;
      ok := *;
      if ok { SetEnd(d, ends[d].(bound := true)); }
    }

    /** The part of `activate_disk` before any system call. */
    predicate DiskRequestOk(r: QueueRequest) {
      && |r.queues| == Rings.QUEUES && r.features == {VERSION_1}
      && forall i :: requestQueues + 2 <= i < |r.queues| ==> r.queues[i] == NO_QUEUE
    }

    /** Which activations the disk takes up: VERSION_1 alone, and nothing in the queues it does not offer. */
    lemma {:induction false} DiskRequestIff(r: QueueRequest)
      ensures DiskRequestOk(r) <==>
                && |r.queues| == 6 && r.features == {32}
                && forall i :: requestQueues + 2 <= i < 6 ==> r.queues[i] == Rings.Queue(0, 0, 0, 0, 0)
    {
    }

    /** `activate_disk`; `ready` says whether the SCSI target is published. */
    method ActivateDisk(r: QueueRequest, ready: bool) returns (status: Status)
      requires Valid() && |r.queues| == Rings.QUEUES
      modifies this`ends, this`linux, this`calls
      ensures Valid() && ends == old(ends)[DISK := ends[DISK]] && linux == old(linux).(ends := ends)
      ensures status == UNSUPPORTED <==> !disk
      ensures status == BUSY <==> disk && (!ready || (DiskRequestOk(r) && Open(old(ends)[DISK])))
      ensures status == INVALID <==>
                && disk && ready
                && !(DiskRequestOk(r)
                     && (Open(old(ends)[DISK]) || Placeable(DISK, r.epoch, r.queues[..requestQueues + 2], 3)))
      ensures status in {UNSUPPORTED, BUSY, INVALID} ==> ends == old(ends)
      ensures status in {OK, UNSUPPORTED, BUSY, INVALID} ==> calls == old(calls)
      ensures status == OK ==>
                && ready && DiskRequestOk(r) && memory.Some?
                && Rings.ConformingSet(Rings.Region(base, length, memory.value), r.queues[..requestQueues + 2], 3)
                && ends[DISK] == Serving(r.queues[..requestQueues + 2])
      ensures status == BACKEND_FAILURE ==> ends[DISK] == CLOSED
      ensures status == QUIESCENCE_FAILED ==> Open(ends[DISK])
    {
      if !disk { return UNSUPPORTED; }
      if !ready { return BUSY; }
      if r.features != {VERSION_1} { return INVALID; }
      var absent := Unoffered(r.queues);
      if !absent { return INVALID; }
      status := ConfigureVhost(DISK, r.epoch, r.queues[..requestQueues + 2], 3);
      if status == BUSY || status == INVALID { return; }
      status := AttachDisk(status == OK);
    }

    /** The queues the disk does not offer must be absent from the record. */
    method Unoffered(queues: seq<Rings.Queue>) returns (absent: bool)
      requires |queues| == Rings.QUEUES && requestQueues <= 4
      ensures absent <==> forall i :: requestQueues + 2 <= i < |queues| ==> queues[i] == NO_QUEUE
    {
      for i := requestQueues + 2 to Rings.QUEUES
        invariant forall k :: requestQueues + 2 <= k < i ==> queues[k] == NO_QUEUE
      {
        if queues[i] != NO_QUEUE { return false; }
      }
      return true;
    }

    /** The end of `activate_disk`: SET_ENDPOINT, or the way back. */
    method AttachDisk(configured: bool) returns (status: Status)
      requires Valid() && memory.Some? && !ends[DISK].attached && (configured ==> ends[DISK].fd && ends[DISK].bound)
      modifies this`ends, this`linux, this`calls
      ensures Valid() && ends == old(ends)[DISK := ends[DISK]] && linux == old(linux).(ends := ends)
      ensures status == OK ==> configured && ends[DISK] == old(ends)[DISK].(attached := true) && calls == old(calls)
      ensures status == BACKEND_FAILURE ==> ends[DISK] == CLOSED
      ensures status == QUIESCENCE_FAILED ==> Open(ends[DISK])
      ensures status in {OK, BACKEND_FAILURE, QUIESCENCE_FAILED}
    {
      if configured {
        var attached: bool := *;
        if attached {
          SetEnd(DISK, ends[DISK].(attached := true));
          return OK;
        }
      }
      var ok := QuiesceDisk();
      status := if ok then BACKEND_FAILURE else QUIESCENCE_FAILED;
    }

    predicate NetworkFeaturesOk(features: set<nat>) {
      VERSION_1 in features && features <= {VERSION_1, MAC, CSUM} + TSO && (features * TSO != {} ==> CSUM in features)
    }

    /** Which features the network offers: VERSION_1 always, MAC, CSUM and both TSO bits at will, but
        segmentation only with checksums. */
    lemma {:induction false} NetworkFeaturesIff(features: set<nat>)
      ensures NetworkFeaturesOk(features) <==>
                32 in features && features <= {0, 5, 11, 12, 32} && (11 in features || 12 in features ==> 0 in features)
    {
      assert 11 in features ==> 11 in features * TSO;
      assert 12 in features ==> 12 in features * TSO;
      if features * TSO != {} {
        var x :| x in features * TSO;
      }
    }

    /** `create_tap`: opening it may succeed although a later step of its setup fails. */
    method CreateTap() returns (ok: bool)
      modifies this`tap, this`linux
      ensures tap == linux.tap || (!ok && tap == old(tap) && linux == old(linux))
      ensures linux == old(linux).(tap := linux.tap) && (ok ==> tap)
    {
      ok := *;
      if !ok { return; }
      tap, linux := true, linux.(tap := true);
      ok := *;
    }

    /** The TAP and its two queues, possibly only part of them. */
    method AttachTap() returns (ok: bool)
      requires Valid() && !tap && ends[NET].fd && ends[NET].bound && !ends[NET].attached && memory.Some?
      modifies this`ends, this`tap, this`linux
      ensures Valid() && ends == old(ends)[NET := ends[NET]] && linux == old(linux).(ends := ends, tap := tap)
      ensures ends[NET] == old(ends)[NET].(attached := ends[NET].attached)
      ensures ok ==> tap && ends[NET].attached
    {
      ok := CreateTap();
      if ok { ok := AttachQueues(); }
    }

    /** `activate_network`. */
    method ActivateNetwork(r: QueueRequest) returns (status: Status)
      requires Valid() && |r.queues| == 2
      modifies this`ends, this`linux, this`tap, this`calls
      ensures Valid() && ends == old(ends)[NET := ends[NET]] && linux == old(linux).(ends := ends, tap := tap)
      ensures status == UNSUPPORTED <==> !network
      ensures status == BUSY <==> network && NetworkFeaturesOk(r.features) && (Open(old(ends)[NET]) || old(tap))
      ensures status == INVALID <==>
                && network
                && !(NetworkFeaturesOk(r.features)
                     && (Open(old(ends)[NET]) || old(tap) || Placeable(NET, r.epoch, r.queues, 2)))
      ensures status in {UNSUPPORTED, BUSY, INVALID} ==> ends == old(ends) && tap == old(tap)
      ensures status in {OK, UNSUPPORTED, BUSY, INVALID} ==> calls == old(calls)
      ensures status == OK ==>
                && NetworkFeaturesOk(r.features) && tap && memory.Some?
                && Rings.ConformingSet(Rings.Region(base, length, memory.value), r.queues, 2)
                && ends[NET] == Serving(r.queues)
      ensures status == BACKEND_FAILURE ==> ends[NET] == CLOSED && !tap
      ensures status == QUIESCENCE_FAILED ==> Open(ends[NET])
    {
      if !network { return UNSUPPORTED; }
      if !NetworkFeaturesOk(r.features) { return INVALID; }
      if ends[NET].fd || ends[NET].bound || tap { return BUSY; }
      status := ConfigureVhost(NET, r.epoch, r.queues, 2);
      if status == BUSY || status == INVALID { return; }
      status := AttachNetwork(status == OK);
    }

    /** The end of `activate_network`: the TAP and its queues, or the way back. */
    method AttachNetwork(configured: bool) returns (status: Status)
      requires Valid() && memory.Some? && !tap && !ends[NET].attached
      requires configured ==> ends[NET].fd && ends[NET].bound
      modifies this`ends, this`linux, this`tap, this`calls
      ensures Valid() && ends == old(ends)[NET := ends[NET]] && linux == old(linux).(ends := ends, tap := tap)
      ensures status == OK ==>
                configured && tap && ends[NET] == old(ends)[NET].(attached := true) && calls == old(calls)
      ensures status == BACKEND_FAILURE ==> ends[NET] == CLOSED && !tap
      ensures status == QUIESCENCE_FAILED ==> Open(ends[NET])
      ensures status in {OK, BACKEND_FAILURE, QUIESCENCE_FAILED}
    {
      if configured {
        var ok := AttachTap();
        if ok { return OK; }
      }
      var ok := QuiesceNetwork();
      status := if ok then BACKEND_FAILURE else QUIESCENCE_FAILED;
    }

    /** NET_SET_BACKEND on both queues; the first success already counts as attached. */
    method AttachQueues() returns (ok: bool)
      requires |ends| == |linux.ends| == 2 && ends[NET] == linux.ends[NET]
      modifies this`ends, this`linux
      ensures |ends| == 2 && ends == old(ends)[NET := ends[NET]]
      ensures linux == old(linux).(ends := old(linux.ends)[NET := ends[NET]])
      ensures ends[NET] == old(ends)[NET] || ends[NET] == old(ends)[NET].(attached := true)
      ensures ok ==> ends[NET].attached
    {
      for i := 0 to 2
        invariant |ends| == |linux.ends| == 2 && ends[NET] == linux.ends[NET]
        invariant ends == old(ends)[NET := ends[NET]] && linux == old(linux).(ends := old(linux.ends)[NET := ends[NET]])
        invariant ends[NET] == if i == 0 then old(ends)[NET] else old(ends)[NET].(attached := true)
      {
        ok := *;
        if !ok { return false; }
        SetEnd(NET, ends[NET].(attached := true));
      }
      return true;
    }

    lemma {:induction false} NothingOpen()
      requires Valid() && memory.None?
      ensures ends == [CLOSED, CLOSED] && !tap
    {
      assert ends == [ends[DISK], ends[NET]];
    }
  }

  function Admits(l: Linux, t: Word): Linux { l.(admitted := l.admitted + [t]) }

  function AdmitsAndRetires(l: Linux, t: Word): Linux {
    Admits(l, t).(proofs := l.proofs + [Snapshot(l, t)])
  }

  function Prepared(l: Linux, t: Word, pages: seq<nat>): Linux {
    l.(granules := t != 0, grant := pages)
  }

  lemma {:induction false} AdmitOutcome(l: Linux, t: Word)
    requires LedgerOk(l.admitted, l.proofs, 0) && l.ends == [CLOSED, CLOSED]
    requires !l.tap && !l.file && l.vmas == 0 && !l.granules
    ensures t != 0 && t !in l.admitted ==>
              && LedgerOk(Admits(l, t).admitted, Admits(l, t).proofs, t)
              && LedgerOk(AdmitsAndRetires(l, t).admitted, AdmitsAndRetires(l, t).proofs, 0)
  {
    if t != 0 && t !in l.admitted {
      AdmitKeepsLedger(l.admitted, l.proofs, t);
      RetireKeepsLedger(l.admitted + [t], l.proofs, t, Snapshot(l, t));
    }
  }

  /** What a quiescence write finds. */
  function Snapshot(l: Linux, t: Word): Proof {
    Proof(t, l.ends, l.tap, l.file, l.vmas, l.granules)
  }
}
