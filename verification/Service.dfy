/**
 The service loop with its backend (service/hyper-io-service.c): the session protocol decides
 which records run, `dispatch` runs them on the backend.  What the replies mean is in module
 Conversation.
 */
module Service {
  import opened Wrappers
  import Rings
  import opened Backend
  import opened Session
  import opened Conversation

  class Service {
    const config: Config
    const backend: Backend
    /** `struct hyper_io_session`. */
    var binding: nat
    var epochs: array<nat>
    var retired: bool
    /** The loop's own variables. */
    var last: nat
    var cache: Option<Reply>

    ghost predicate Valid()
      reads this, epochs, backend
    {
      && epochs.Length == 2 && backend.Valid() && Configured()
      && CacheOk(Now())
      && (cache.Some? && Released(config, cache.value) ==> backend.Idle())
    }

    ghost predicate Configured() {
      config == Config(backend.managed, backend.blocks, backend.disk, backend.network, backend.requestQueues,
                       backend.notification)
    }

    ghost function Now(): Front
      reads this, epochs
    {
      Front(View(binding, epochs[..], retired), last, cache)
    }

    constructor (backend: Backend)
      requires backend.Valid()
      ensures Valid() && fresh(epochs) && this.backend == backend && Now() == START
    {
      this.config := Config(backend.managed, backend.blocks, backend.disk, backend.network, backend.requestQueues,
                            backend.notification);
      this.backend := backend;
      binding, retired, last, cache := 0, false, 0, None;
      epochs := new nat[2](_ => 0);
      new;
      assert epochs[..] == [0, 0];
    }

    /** `hyper_io_session_admit`. */
    method AdmitRecord(m: Message, idle: bool) returns (admission: int)
      requires epochs.Length == 2
      modifies this`binding, this`retired, epochs
      ensures (View(binding, epochs[..], retired), admission)
              == Admit(View(old(binding), old(epochs[..]), old(retired)), m.binding, m.epoch,
                       IsHello(config, m), idle, Device(config, m))
    {
      var device := Device(config, m);
      if m.binding == 0 || m.epoch == 0 || m.epoch >= U32 || device > 1 { return -1; }
      if binding != m.binding {
        if !IsHello(config, m) || !idle || m.binding <= binding { return -1; }
        binding := m.binding;
        epochs[0], epochs[1] := 0, 0;
        epochs[device] := m.epoch;
        retired := false;
        assert epochs[..] == [0, 0][device := m.epoch];
        return 1;
      }
      if m.epoch < epochs[device] { return -1; }
      return 0;
    }

    /** An activation record; its queue epoch is the header's. */
    ghost predicate Activates(m: Message, queues: nat) {
      m.body.Queues? && |m.body.queues.queues| == queues && m.body.queues.epoch == m.epoch
    }

    /** The records the bytes of a message decode to. */
    ghost predicate Typed(m: Message) {
      && (m.operation == PREPARE_MEMORY && m.size == 72 ==> m.body.Memory?)
      && (m.operation == ACTIVATE && m.size == 240 ==> Activates(m, Rings.QUEUES))
      && (m.operation == NETWORK_ACTIVATE && m.size == 112 ==> Activates(m, 2))
      && ((m.operation == STOP_QUEUE || m.operation == NETWORK_STOP_QUEUE) && m.size == 48 ==> m.body.Stop?)
    }

    /** What carrying out a request leaves. */
    ghost predicate Did(m: Message, ready: bool, status: Status, before: World)
      reads backend
    {
      && backend.Valid() && Grows(before.linux, backend.linux)
      && RequestMeans(config, m, ready, status, before, backend.Snap())
    }

    ghost predicate Ready(m: Message)
      reads backend
    {
      backend.Valid() && Typed(m) && Configured()
    }

    /** RESET and STOP_QUEUE of either device. */
    method Drain(m: Message, ghost ready: bool) returns (status: Status)
      requires Ready(m) && m.operation in {RESET, STOP_QUEUE, NETWORK_RESET, NETWORK_STOP_QUEUE}
      modifies backend
      ensures Did(m, ready, status, old(backend.Snap()))
    {
      var network := m.operation >= NETWORK_RESET;
      var stop := m.operation == STOP_QUEUE || m.operation == NETWORK_STOP_QUEUE;
      if m.size != (if stop then 48 else 40) { return INVALID; }
      if (network && !backend.network) || (!network && !backend.disk) { return UNSUPPORTED; }
      if stop && (m.body.reserved != 0 || m.body.queue >= (if network then 2 else Rings.QUEUES)) { return INVALID; }
      if network { status := DrainNetwork(m, ready); } else { status := DrainDisk(m, ready); }
    }

    method DrainDisk(m: Message, ghost ready: bool) returns (status: Status)
      requires Ready(m) && m.operation in {RESET, STOP_QUEUE} && Refusal(config, m).None?
      modifies backend
      ensures Did(m, ready, status, old(backend.Snap()))
    {
      var ok := backend.QuiesceDisk();
      return if ok then OK else QUIESCENCE_FAILED;
    }

    method DrainNetwork(m: Message, ghost ready: bool) returns (status: Status)
      requires Ready(m) && m.operation in {NETWORK_RESET, NETWORK_STOP_QUEUE} && Refusal(config, m).None?
      modifies backend
      ensures Did(m, ready, status, old(backend.Snap()))
    {
      var ok := backend.QuiesceNetwork();
      return if ok then OK else QUIESCENCE_FAILED;
    }

    /** PREPARE_MEMORY. */
    method Prepare(m: Message, ghost ready: bool) returns (status: Status)
      requires Ready(m) && m.operation == PREPARE_MEMORY
      modifies backend
      ensures Did(m, ready, status, old(backend.Snap()))
    {
      if m.size != 72 || !backend.managed { return INVALID; }
      ghost var answers;
      backend.RequestOkIff(m.body.memory);
      status, answers := backend.PrepareMemory(m.body.memory);
      if backend.Idle() { backend.IdleMeansNothingLeft(); }
      PreparationIs(config, m, ready, status, old(backend.Snap()), backend.Snap());
    }

    /** ACTIVATE. */
    method Activate(m: Message, ready: bool) returns (status: Status)
      requires Ready(m) && m.operation == ACTIVATE
      modifies backend
      ensures Did(m, ready, status, old(backend.Snap()))
    {
      if m.size != 240 { return INVALID; }
      backend.DiskRequestIff(m.body.queues);
      status := backend.ActivateDisk(m.body.queues, ready);
      if status == OK { UsedPrefix(m.body.queues.queues, backend.requestQueues + 2); }
      if backend.disk { ActivationIs(config, m, ready, status, old(backend.Snap()), backend.Snap()); }
    }

    /** NETWORK_ACTIVATE. */
    method ActivateNet(m: Message, ghost ready: bool) returns (status: Status)
      requires Ready(m) && m.operation == NETWORK_ACTIVATE
      modifies backend
      ensures Did(m, ready, status, old(backend.Snap()))
    {
      if m.size != 112 { return INVALID; }
      backend.NetworkFeaturesIff(m.body.queues.features);
      status := backend.ActivateNetwork(m.body.queues);
      if backend.network { NetActivationIs(config, m, ready, status, old(backend.Snap()), backend.Snap()); }
    }

    /** The part of `dispatch` below the session checks; ready says whether the disk's target is
        published. */
    method Perform(m: Message, ready: bool) returns (status: Status)
      requires Ready(m)
      modifies backend
      ensures Did(m, ready, status, old(backend.Snap()))
    {
      if BLOCK_HELLO <= m.operation <= BLOCK_BIND {
        // Module Blocks; the disks and bindings are no part of the backend's state.
        if !backend.blocks { return UNSUPPORTED; }
        status := *;
        return;
      }
      if m.operation == HELLO || m.operation == NETWORK_HELLO {
        if m.size != 40 { return INVALID; }
        var served := if m.operation == NETWORK_HELLO then backend.network else backend.disk;
        if !served { return UNSUPPORTED; }
        return if m.operation == HELLO && !ready then BUSY else OK;
      }
      if m.operation == PREPARE_MEMORY {
        status := Prepare(m, ready);
        return;
      }
      if m.operation == ACTIVATE {
        status := Activate(m, ready);
        return;
      }
      if m.operation == NETWORK_ACTIVATE {
        status := ActivateNet(m, ready);
        return;
      }
      if m.operation in {RESET, STOP_QUEUE, NETWORK_RESET, NETWORK_STOP_QUEUE} {
        status := Drain(m, ready);
        return;
      }
      return UNSUPPORTED;
    }

    /** RELEASE_MEMORY of a managed service. */
    method ReleaseRecord() returns (status: Status)
      requires backend.Valid() && backend.managed
      modifies this`retired, backend
      ensures backend.Valid() && Grows(old(backend.linux), backend.linux)
      ensures ReleaseMeans(status, old(backend.Snap()), backend.Snap())
      ensures retired == (old(retired) || status == OK) && (status == OK ==> backend.Idle())
    {
      status := backend.ReleaseMemory();
      if status == OK {
        retired := true;
        backend.IdleMeansNothingLeft();
      }
    }

    /** `dispatch`: the status, which the session function accounts for. */
    method DispatchRecord(m: Message, ready: bool) returns (status: Status, ghost answer: Status)
      requires Valid() && Typed(m)
      modifies this`retired, backend
      ensures backend.Valid() && Grows(old(backend.linux), backend.linux)
      ensures (View(binding, epochs[..], retired), status)
              == Dispatch(config, View(binding, epochs[..], old(retired)), m, answer)
      ensures Effect(config, View(binding, epochs[..], old(retired)), m, ready, status,
                     old(backend.Snap()), backend.Snap())
      ensures IsRelease(config, m) && status == OK ==> backend.Idle()
    {
      if m.operation == RELEASE_MEMORY && m.size == 40 && backend.managed {
        status := ReleaseRecord();
        return status, status;
      }
      if !(binding != 0 && !retired) { return INVALID, INVALID; }
      status := Perform(m, ready);
      answer := status;
      RequestHasEffect(config, View(binding, epochs[..], retired), m, ready, status,
                       old(backend.Snap()), backend.Snap());
    }

    /** The end of a turn that runs its record: dispatch, then remember it and its reply. */
    method Execute(m: Message, ready: bool) returns (reply: Reply, ghost answer: Status)
      requires Valid() && Serviceable(m) && Typed(m) && binding == m.binding
      modifies this`retired, this`last, this`cache, epochs, backend
      ensures Valid() && Grows(old(backend.linux), backend.linux)
      ensures Executes(config, old(Now()), m, answer, Now(), reply)
      ensures Effect(config, old(Now()).view, m, ready, reply.status, old(backend.Snap()), backend.Snap())
      ensures Released(config, reply) ==> backend.Idle()
    {
      var status;
      status, answer := DispatchRecord(m, ready);
      reply := Reply(m, status, ReplyLength(m.operation, status));
      Remember(m, reply);
    }

    /** What the loop keeps of an executed record. */
    method Remember(m: Message, reply: Reply)
      requires epochs.Length == 2
      modifies this`last, this`cache, epochs
      ensures Now() == Front(View(binding, old(epochs[..])[Device(config, m) := m.epoch], retired), m.transaction,
                             Some(reply))
    {
      epochs[Device(config, m)] := m.epoch;
      last := m.transaction;
      cache := Some(reply);
    }

    /** One turn of `serve` on a well-formed record. */
    method Handle(m: Message, ready: bool) returns (reply: Reply, ghost input: Input)
      requires Valid() && Serviceable(m) && Typed(m)
      modifies this`binding, this`retired, this`last, this`cache, epochs, backend
      ensures Valid() && input.message == m && input.idle == old(backend.Idle()) && input.ready == ready
      ensures Turned(config, old(Now()), input, Now(), reply, old(backend.Snap()), backend.Snap())
      ensures Grows(old(backend.linux), backend.linux)
      ensures Released(config, reply) ==> backend.Idle()
    {
      var admission;
      ghost var before, world := Now(), backend.Snap();
      admission, input := Begin(m, ready);
      ghost var admitted := Now();
      if admission >= 0 && m.transaction == last && cache.Some? && cache.value.message == m {
        TurnReplays(config, before, input, admitted);
        IdleTurn(config, before, input, admitted, cache.value, world);
        return cache.value, input;
      }
      if admission < 0 || m.transaction <= last {
        TurnRejects(config, before, input, admitted);
        IdleTurn(config, before, input, admitted, Reply(m, INVALID, 48), world);
        return Reply(m, INVALID, 48), input;
      }
      ghost var answer;
      reply, answer := Execute(m, ready);
      input := input.(answer := answer);
      RunsTurn(config, before, input, admitted, Now(), reply, world, backend.Snap());
    }

    /** The start of a turn: admission, which for a new binding also empties the cache. */
    method Begin(m: Message, ghost ready: bool) returns (admission: int, ghost input: Input)
      requires Valid() && Serviceable(m)
      modifies this`binding, this`retired, this`last, this`cache, epochs
      ensures Valid() && input == Input(m, old(backend.Idle()), INVALID, ready)
      ensures (Now(), admission) == Admitted(config, old(Now()), m, old(backend.Idle()))
      ensures admission >= 0 ==> binding == m.binding
    {
      var idle := if config.managed then backend.Idle() else binding == 0;
      input := Input(m, backend.Idle(), INVALID, ready);
      admission := AdmitRecord(m, idle);
      if admission > 0 { last, cache := 0, None; }
    }

    /** One turn, and what it means for the memory the host lent. */
    method Turn(m: Message, ready: bool) returns (reply: Reply, ghost input: Input)
      requires Valid() && Serviceable(m) && Typed(m)
      modifies this`binding, this`retired, this`last, this`cache, epochs, backend
      ensures Valid() && input.message == m && input.ready == ready
      ensures Step(config, old(Now()), input).0 == Now()
      ensures Step(config, old(Now()), input).1.reply == reply
      ensures TurnOk(config, old(Now()), input, old(backend.Snap()), backend.Snap())
    {
      if backend.Idle() { backend.IdleMeansNothingLeft(); }
      reply, input := Handle(m, ready);
      if backend.Idle() { backend.IdleMeansNothingLeft(); }
    }

    /** `serve`: records are handled in turn up to the first that is malformed; published says for
        each turn whether the disk's target is. */
    method Serve(messages: seq<Message>, published: seq<bool>) returns (replies: seq<Reply>, ghost talk: Talk)
      requires Valid() && Now() == START && |published| == |messages|
      requires forall k :: 0 <= k < |messages| ==> Typed(messages[k])
      modifies this`binding, this`retired, this`last, this`cache, epochs, backend
      ensures Valid() && History(talk) && talk.config == config && talk.replies == replies
      ensures talk.trace[0] == old(backend.Snap()) && talk.trace[|replies|] == backend.Snap()
      ensures Now() == Fronts(talk)[|replies|]
      ensures |replies| <= |messages| && (|replies| < |messages| ==> !Serviceable(messages[|replies|]))
      ensures forall k :: 0 <= k < |replies| ==>
                talk.inputs[k].message == messages[k] && talk.inputs[k].ready == published[k]
    {
      replies, talk := [], Talk(config, [], [], [backend.Snap()]);
      for n := 0 to |messages|
        invariant Valid() && |replies| == n && History(talk) && talk.config == config && talk.replies == replies
        invariant talk.trace[0] == old(backend.Snap()) && talk.trace[n] == backend.Snap()
        invariant Now() == Fronts(talk)[n]
        invariant forall k :: 0 <= k < n ==>
                    talk.inputs[k].message == messages[k] && talk.inputs[k].ready == published[k]
      {
        if !Serviceable(messages[n]) { return; }
        ghost var input;
        var reply;
        ghost var front, before := Now(), backend.Snap();
        reply, input := Turn(messages[n], published[n]);
        HistoryGrows(talk, front, input, reply, before, backend.Snap());
        replies, talk := replies + [reply], Longer(talk, input, reply, backend.Snap());
      }
    }

    /** The end of the process: it exits only once everything is released. */
    method Conclude() returns (exits: bool)
      requires Valid()
      modifies backend
      ensures backend.Valid() && BooksOk(backend.linux)
      ensures exits <==> backend.Idle()
      ensures exits ==> NothingLeft(backend.linux)
    {
      var status := backend.ReleaseMemory();
      exits := status == OK;
      if exits { backend.IdleMeansNothingLeft(); }
    }
  }
}
