/**
 Binding eventfds to a notification device (`notification_ioctl`, `unbind` and `bridge_irq` of
 modules/io-bridge/hyper_io_bridge.c, and `hyper_io_eventfds_valid` of include/hyper_io.h).

 The class keeps the driver's fields beside what the kernel counts for them: the references
 taken, the wait entries queued and the depth of the interrupt's disable count.
 */
module Notification {
  import Rings

  /** The eventfds of a BIND; -1 stands for none. */
  datatype Eventfds = Eventfds(epoch: nat, reserved: nat, kick: seq<int>, call: seq<int>)

  /** Which pointers of one queue's kick context and call binding are set. */
  datatype Slot = Slot(kick: bool, file: bool, event: bool, queue: bool)

  const EMPTY := Slot(false, false, false, false)
  const FULL := Slot(true, true, true, true)

  /** What the driver takes from the kernel for one queue: three references and a wait entry. */
  datatype Part = Kick | File | Event | Wait

  datatype Ref = Ref(queue: nat, part: Part)

  /** How BIND ends; Refused is whatever error an eventfd lookup or the poll gave. */
  datatype Result = Success | EBUSY | EFAULT | EINVAL | ENODEV | Refused

  predicate Filled(s: Slot, p: Part) {
    match p
    case Kick => s.kick
    case File => s.file
    case Event => s.event
    case Wait => s.queue
  }

  /** All that the slots stand for, no more and no less. */
  ghost predicate Accounted(held: set<Ref>, slots: seq<Slot>) {
    forall r: Ref :: r in held <==> r.queue < |slots| && Filled(slots[r.queue], r.part)
  }

  /** What queue i of a device must have: a network device has exactly two queues, a SCSI device
      at least three of six, and an absent queue has neither eventfd. */
  predicate PairOk(network: bool, i: nat, kick: int, call: int) {
    var required := if network then 2 else 3;
    var maximum := if network then 2 else Rings.QUEUES;
    if i < required then kick >= 0 && call >= 0
    else if i < maximum then (kick == call == -1) || (kick >= 0 && call >= 0)
    else kick == call == -1
  }

  predicate Shaped(fds: Eventfds) { |fds.kick| == |fds.call| == Rings.QUEUES }

  /** `hyper_io_eventfds_valid`. */
  method EventfdsValid(fds: Eventfds, network: bool) returns (valid: bool)
    requires Shaped(fds)
    ensures valid <==> forall i :: 0 <= i < Rings.QUEUES ==> PairOk(network, i, fds.kick[i], fds.call[i])
  {
    var required := if network then 2 else 3;
    var maximum := if network then 2 else Rings.QUEUES;
    for i := 0 to Rings.QUEUES
      invariant forall k :: 0 <= k < i ==> PairOk(network, k, fds.kick[k], fds.call[k])
    {
      var absent := fds.kick[i] == -1 && fds.call[i] == -1;
      if i >= maximum || (i >= required && absent) {
        if !absent {
          assert !PairOk(network, i, fds.kick[i], fds.call[i]);
          return false;
        }
      } else if fds.kick[i] < 0 || fds.call[i] < 0 {
        assert !PairOk(network, i, fds.kick[i], fds.call[i]);
        return false;
      }
    }
    return true;
  }

  class Bridge {
    const network: bool
    var dead: bool
    var slots: array<Slot>
    var bound: bool
    var irqEnabled: bool
    /** The kernel's side. */
    var held: set<Ref>
    var irqDisabled: nat    // the interrupt is masked while this is positive

    /** Everything held has its slot, and the interrupt is masked unless enabled once. */
    ghost predicate Consistent()
      reads this, slots
    {
      && slots.Length == Rings.QUEUES && Accounted(held, slots[..])
      && irqDisabled == (if irqEnabled then 0 else 1)
    }

    ghost predicate Valid()
      reads this, slots
    {
      && Consistent() && bound == irqEnabled
      && (!bound ==> held == {} && forall i :: 0 <= i < slots.Length ==> slots[i] == EMPTY)
    }

    /** The interrupt is requested without enabling it. */
    constructor (network: bool)
      ensures Valid() && fresh(slots) && !bound && !dead && this.network == network
    {
      this.network := network;
      dead, bound, irqEnabled, held, irqDisabled := false, false, false, {}, 1;
      slots := new Slot[Rings.QUEUES](_ => EMPTY);
    }

    /** Giving something back: it must be held, no handler may be reading the slots, and a
        context with a wait entry on it stays. */
    method Put(r: Ref)
      requires r in held && irqDisabled > 0
      requires r.part == Event ==> Ref(r.queue, Wait) !in held
      modifies this`held
      ensures held == old(held) - {r}
    {
      held := held - {r};
    }

    /** One round of the loop of `unbind`. */
    method ClearSlot(i: nat)
      requires Consistent() && i < slots.Length && irqDisabled > 0
      modifies this`held, slots
      ensures Consistent() && slots[..] == old(slots[..])[i := EMPTY]
    {
      ghost var was := slots[..];
      if slots[i].queue { Put(Ref(i, Wait)); }
      if slots[i].event { Put(Ref(i, Event)); }
      if slots[i].file { Put(Ref(i, File)); }
      if slots[i].kick { Put(Ref(i, Kick)); }
      slots[i] := EMPTY;
      assert slots[..] == was[i := EMPTY];
    }

    /** `unbind`. */
    method Unbind()
      requires Consistent()
      modifies this`held, this`irqDisabled, this`irqEnabled, this`bound, slots
      ensures Valid() && !bound && held == {} && irqDisabled == 1
    {
      if irqEnabled {
        irqDisabled := irqDisabled + 1;
        irqEnabled := false;
      }
      for i := 0 to slots.Length
        invariant Consistent() && !irqEnabled
        invariant forall k :: 0 <= k < i ==> slots[..][k] == EMPTY
      {
        ClearSlot(i);
      }
      bound := false;
    }

    /** One round of the loop of BIND; any of the three lookups and the poll may fail. */
    method FillSlot(i: nat) returns (ok: bool)
      requires Consistent() && i < slots.Length && slots[i] == EMPTY
      modifies this`held, slots
      ensures Consistent() && slots[..] == old(slots[..])[i := slots[i]]
      ensures ok ==> slots[i] == FULL
    {
      ghost var was := slots[..];
      ok := *;
      if ok {
        slots[i], held := slots[i].(kick := true), held + {Ref(i, Kick)};
        ok := *;
      }
      if ok {
        slots[i], held := slots[i].(file := true), held + {Ref(i, File)};
        ok := *;
      }
      if ok {
        slots[i], held := slots[i].(event := true), held + {Ref(i, Event)};
        ok := *;
      }
      if ok { slots[i], held := slots[i].(queue := true), held + {Ref(i, Wait)}; }
      assert slots[..] == was[i := slots[i]];
    }

    /** The loop of BIND. */
    method FillSlots(fds: Eventfds) returns (ok: bool)
      requires Valid() && !bound && Shaped(fds)
      modifies this`held, slots
      ensures Consistent()
      ensures ok ==> forall i :: 0 <= i < slots.Length ==> SlotOk(fds, i, slots[i])
    {
      for i := 0 to slots.Length
        invariant Consistent() && slots.Length == Rings.QUEUES
        invariant forall k :: 0 <= k < i ==> SlotOk(fds, k, slots[k])
        invariant forall k :: i <= k < slots.Length ==> slots[k] == EMPTY
      {
        if fds.kick[i] == -1 { continue; }
        ghost var was := slots[..];
        ok := FillSlot(i);
        assert forall k :: 0 <= k < slots.Length && k != i ==> slots[k] == was[k];
        if !ok { return; }
      }
      return true;
    }

    /** BIND; current says whether the device's route carries this epoch and no error. */
    method Bind(fds: Eventfds, copied: bool, current: bool) returns (result: Result)
      requires Valid() && Shaped(fds)
      modifies this`held, this`irqDisabled, this`irqEnabled, this`bound, slots
      ensures Valid()
      ensures result == Success <==> bound && !old(bound)
      ensures (result == ENODEV <==> dead) && (result == EBUSY <==> !dead && old(bound))
      ensures result == EINVAL <==>
                && !dead && !old(bound) && copied
                && !(fds.epoch != 0 && fds.reserved == 0 && current
                     && forall i :: 0 <= i < Rings.QUEUES ==> PairOk(network, i, fds.kick[i], fds.call[i]))
      ensures result == Success ==>
                && !dead && fds.epoch != 0 && fds.reserved == 0 && current && irqDisabled == 0
                && forall i :: 0 <= i < Rings.QUEUES ==>
                     PairOk(network, i, fds.kick[i], fds.call[i]) && SlotOk(fds, i, slots[i])
      ensures result != Success ==>
                && bound == old(bound) && slots[..] == old(slots[..]) && irqDisabled == old(irqDisabled)
                && held == old(held)
    {
      if dead { return ENODEV; }
      if bound { return EBUSY; }
      if !copied { return EFAULT; }
      var valid := EventfdsValid(fds, network);
      if fds.epoch == 0 || fds.reserved != 0 || !valid || !current { return EINVAL; }
      ghost var was := slots[..];
      var ok := FillSlots(fds);
      if ok {
        bound, irqEnabled := true, true;
        irqDisabled := irqDisabled - 1;
        return Success;
      }
      Unbind();
      assert slots[..] == was;
      return Refused;
    }

    /** The handler: it runs only unmasked, and every kick context it signals is held. */
    method Interrupt(pending: set<nat>) returns (signalled: set<nat>)
      requires Valid() && irqDisabled == 0
      ensures signalled == set i | i in pending && Ref(i, Kick) in held
    {
      signalled := {};
      for i := 0 to slots.Length
        invariant signalled == set k | k in pending && k < i && Ref(k, Kick) in held
      {
        if i in pending && slots[i].kick { signalled := signalled + {i}; }
      }
    }
  }

  /** A bound queue has everything, an absent one nothing. */
  predicate SlotOk(fds: Eventfds, i: nat, s: Slot)
    requires i < |fds.kick|
  {
    s == if fds.kick[i] == -1 then EMPTY else FULL
  }
}
