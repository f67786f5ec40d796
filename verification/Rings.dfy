/**
 Virtqueue placement in `configure_vhost`: which queue sets are accepted, and what acceptance
 guarantees.  Sizes and alignments of the three ring parts are those of section 2.7 (Split
 Virtqueues) of VIRTIO 1.2.
 */
module Rings {
  import opened Layout

  const QUEUES: nat := 6

  /** One queue record of an activation message. */
  datatype Queue = Queue(size: nat, reserved: nat, descriptor: Word, available: Word, used: Word)

  /** The mapped grant: guest address, length, and where it is mapped in the service. */
  datatype Region = Region(base: Word, length: Word, user: Word)

  function Address(q: Queue, part: nat): Word
    requires part < 3
  {
    if part == 0 then q.descriptor else if part == 1 then q.available else q.used
  }

  function Bytes(size: nat, part: nat): nat
    requires part < 3
  {
    if part == 0 then 16 * size else if part == 1 then 6 + 2 * size else 6 + 8 * size
  }

  function Alignment(part: nat): (a: nat)
    requires part < 3
    ensures a == 16 || a == 2 || a == 4
  {
    if part == 0 then 16 else if part == 1 then 2 else 4
  }

  /** An optional queue the message leaves out. */
  predicate Absent(q: Queue, i: nat, required: nat) {
    q.size == 0 && i >= required && q.reserved == 0 && q.descriptor == 0 && q.available == 0 && q.used == 0
  }

  predicate SizeOk(q: Queue) {
    q.size in {1, 2, 4, 8, 16, 32, 64, 128} && q.reserved == 0
  }

  /** `queue_address`. */
  predicate Placed(r: Region, gpa: Word, bytes: nat, alignment: nat)
    requires alignment > 0
  {
    gpa >= r.base && gpa % alignment == 0 && bytes <= r.length && gpa - r.base <= r.length - bytes
  }

  predicate QueueOk(r: Region, q: Queue) {
    SizeOk(q) && forall part :: 0 <= part < 3 ==> Placed(r, Address(q, part), Bytes(q.size, part), Alignment(part))
  }

  /** User addresses of part a % 3 of queue a / 3; an absent queue has the empty range at 0. */
  function Start(r: Region, queues: seq<Queue>, a: nat): int
    requires a / 3 < |queues|
  {
    var q := queues[a / 3];
    if q.size == 0 then 0 else r.user + Address(q, a % 3) - r.base
  }

  function End(r: Region, queues: seq<Queue>, a: nat): int
    requires a / 3 < |queues|
  {
    var q := queues[a / 3];
    if q.size == 0 then 0 else Start(r, queues, a) + Bytes(q.size, a % 3)
  }

  predicate Apart(r: Region, queues: seq<Queue>, a: nat, b: nat)
    requires a / 3 < |queues| && b / 3 < |queues|
  {
    !(Start(r, queues, b) < End(r, queues, a) && Start(r, queues, a) < End(r, queues, b))
  }

  /** The queue sets `configure_vhost` accepts. */
  ghost predicate Acceptable(r: Region, queues: seq<Queue>, required: nat) {
    && (forall i :: 0 <= i < |queues| ==> Absent(queues[i], i, required) || QueueOk(r, queues[i]))
    && (forall a, b :: 0 <= a < b < 3 * |queues| ==> Apart(r, queues, a, b))
  }

  /** The first n ring parts are entered and none overlaps another. */
  ghost predicate Filled(r: Region, queues: seq<Queue>, starts: seq<nat>, ends: seq<nat>, n: nat) {
    && |starts| == |ends| == 3 * |queues| && n <= |starts|
    && (forall a :: 0 <= a < n ==> starts[a] == Start(r, queues, a) && ends[a] == End(r, queues, a))
    && (forall a, b :: 0 <= a < b < n ==> Apart(r, queues, a, b))
    && (forall a :: n <= a < |starts| ==> starts[a] == 0 && ends[a] == 0)
  }

  /** Part `index` overlaps no earlier one. */
  ghost predicate Clear(r: Region, queues: seq<Queue>, index: nat)
    requires index / 3 < |queues|
  {
    forall a :: 0 <= a < index ==> Apart(r, queues, a, index)
  }

  /** The innermost loop: does part `index` overlap an earlier one? */
  method Free(starts: array<nat>, ends: array<nat>, index: nat) returns (free: bool)
    requires index < starts.Length == ends.Length
    ensures free <==> forall a :: 0 <= a < index ==> !(starts[index] < ends[a] && starts[a] < ends[index])
  {
    for before := 0 to index
      invariant forall a :: 0 <= a < before ==> !(starts[index] < ends[a] && starts[a] < ends[index])
    {
      if starts[index] < ends[before] && starts[before] < ends[index] { return false; }
    }
    return true;
  }

  /** Checks and enters one ring part. */
  method PlacePart(r: Region, queues: seq<Queue>, i: nat, part: nat, starts: array<nat>, ends: array<nat>)
      returns (ok: bool)
    requires i < |queues| && part < 3 && queues[i].size != 0 && r.user + r.length <= U64 && starts != ends
    requires Filled(r, queues, starts[..], ends[..], 3 * i + part)
    modifies starts, ends
    ensures ok <==> Placed(r, Address(queues[i], part), Bytes(queues[i].size, part), Alignment(part))
                    && Clear(r, queues, 3 * i + part)
    ensures ok ==> Filled(r, queues, starts[..], ends[..], 3 * i + part + 1)
  {
    var q, index := queues[i], 3 * i + part;
    assert index / 3 == i && index % 3 == part;
    if !Placed(r, Address(q, part), Bytes(q.size, part), Alignment(part)) { return false; }
    starts[index] := r.user + (Address(q, part) - r.base);
    ends[index] := starts[index] + Bytes(q.size, part);
    assert starts[index] == Start(r, queues, index) && ends[index] == End(r, queues, index);
    ok := Free(starts, ends, index);
    assert forall a :: 0 <= a < index ==>
             (Apart(r, queues, a, index) <==> !(starts[index] < ends[a] && starts[a] < ends[index]));
  }

  /** Checks and enters the three parts of one queue. */
  method PlaceQueue(r: Region, queues: seq<Queue>, i: nat, starts: array<nat>, ends: array<nat>) returns (ok: bool)
    requires i < |queues| && SizeOk(queues[i]) && r.user + r.length <= U64 && starts != ends
    requires Filled(r, queues, starts[..], ends[..], 3 * i)
    modifies starts, ends
    ensures ok <==> QueueOk(r, queues[i]) && forall a, b :: 0 <= a < b < 3 * i + 3 ==> Apart(r, queues, a, b)
    ensures ok ==> Filled(r, queues, starts[..], ends[..], 3 * i + 3)
  {
    for part := 0 to 3
      invariant forall p :: 0 <= p < part ==> Placed(r, Address(queues[i], p), Bytes(queues[i].size, p), Alignment(p))
      invariant Filled(r, queues, starts[..], ends[..], 3 * i + part)
    {
      var free := PlacePart(r, queues, i, part, starts, ends);
      if !free { return false; }
    }
    return true;
  }

  lemma {:induction false} SkipAbsent(r: Region, queues: seq<Queue>, starts: seq<nat>, ends: seq<nat>, i: nat)
    requires i < |queues| && queues[i].size == 0 && Filled(r, queues, starts, ends, 3 * i)
    requires forall k :: 0 <= k < i && queues[k].size != 0 ==> QueueOk(r, queues[k])
    ensures Filled(r, queues, starts, ends, 3 * i + 3)
  {
    forall b | 3 * i <= b < 3 * i + 3 ensures Start(r, queues, b) == End(r, queues, b) == 0 {
      assert b / 3 == i;
    }
    forall a | 0 <= a < 3 * i ensures Start(r, queues, a) >= 0 {
      assert starts[a] >= 0;
    }
  }

  /** The three addresses vhost is given for each queue in use: the guest's, moved to the mapping. */
  predicate UserAddresses(r: Region, queues: seq<Queue>, placed: seq<nat>) {
    && |placed| == 3 * |queues|
    && forall i :: 0 <= i < |queues| && queues[i].size != 0 ==>
         && placed[3 * i] == r.user + queues[i].descriptor - r.base
         && placed[3 * i + 1] == r.user + queues[i].available - r.base
         && placed[3 * i + 2] == r.user + queues[i].used - r.base
  }

  lemma {:induction false} StartsAreAddresses(r: Region, queues: seq<Queue>, placed: seq<nat>)
    requires |placed| == 3 * |queues| && forall a :: 0 <= a < |placed| ==> placed[a] == Start(r, queues, a)
    ensures UserAddresses(r, queues, placed)
  {
    forall i | 0 <= i < |queues| && queues[i].size != 0
      ensures placed[3 * i] == r.user + queues[i].descriptor - r.base
      ensures placed[3 * i + 1] == r.user + queues[i].available - r.base
      ensures placed[3 * i + 2] == r.user + queues[i].used - r.base
    {
      assert (3 * i) / 3 == (3 * i + 1) / 3 == (3 * i + 2) / 3 == i;
      assert (3 * i) % 3 == 0 && (3 * i + 1) % 3 == 1 && (3 * i + 2) % 3 == 2;
    }
  }

  /** The checking loops.  The mapping itself does not wrap around the address space. */
  method Place(r: Region, queues: seq<Queue>, required: nat) returns (ok: bool, placed: seq<nat>)
    requires r.user + r.length <= U64
    ensures ok <==> ConformingSet(r, queues, required)
    ensures ok ==> UserAddresses(r, queues, placed)
  {
    AcceptsConforming(r, queues, required);
    var starts, ends := new nat[3 * |queues|](_ => 0), new nat[3 * |queues|](_ => 0);
    for i := 0 to |queues|
      invariant forall k :: 0 <= k < i ==> Absent(queues[k], k, required) || QueueOk(r, queues[k])
      invariant Filled(r, queues, starts[..], ends[..], 3 * i)
    {
      if Absent(queues[i], i, required) {
        SkipAbsent(r, queues, starts[..], ends[..], i);
        continue;
      }
      if !SizeOk(queues[i]) { return false, []; }
      var free := PlaceQueue(r, queues, i, starts, ends);
      if !free { return false, []; }
    }
    placed := starts[..];
    StartsAreAddresses(r, queues, placed);
    return true, placed;
  }

  // ----- what acceptance means ------------------------------------------------------

  /** Guest byte x belongs to part `part` of queue q. */
  predicate InPart(q: Queue, part: nat, x: int)
    requires part < 3
  {
    q.size != 0 && Address(q, part) <= x < Address(q, part) + Bytes(q.size, part)
  }

  /** No byte of guest memory is in two ring parts, whichever queues were left out. */
  lemma {:induction false} RingsAreDisjoint(r: Region, queues: seq<Queue>, required: nat, i: nat, p: nat, j: nat,
                                            q: nat, x: int)
    requires Acceptable(r, queues, required) && i < |queues| && j < |queues| && p < 3 && q < 3
    requires i != j || p != q
    ensures !(InPart(queues[i], p, x) && InPart(queues[j], q, x))
  {
    var a, b := 3 * i + p, 3 * j + q;
    assert a / 3 == i && a % 3 == p && b / 3 == j && b % 3 == q;
    assert if a < b then Apart(r, queues, a, b) else Apart(r, queues, b, a);
  }

  lemma {:induction false} Carries16(user: nat, base: nat, address: nat)
    requires base % 4096 == 0 && user % 4096 == 0 && address % 16 == 0 && base <= address
    ensures (user + address - base) % 16 == 0
  {
    assert user + address - base == 16 * (256 * (user / 4096) + address / 16 - 256 * (base / 4096));
  }

  lemma {:induction false} Carries4(user: nat, base: nat, address: nat)
    requires base % 4096 == 0 && user % 4096 == 0 && address % 4 == 0 && base <= address
    ensures (user + address - base) % 4 == 0
  {
    assert user + address - base == 4 * (1024 * (user / 4096) + address / 4 - 1024 * (base / 4096));
  }

  lemma {:induction false} Carries2(user: nat, base: nat, address: nat)
    requires base % 4096 == 0 && user % 4096 == 0 && address % 2 == 0 && base <= address
    ensures (user + address - base) % 2 == 0
  {
    assert user + address - base == 2 * (2048 * (user / 4096) + address / 2 - 2048 * (base / 4096));
  }

  lemma {:induction false} AlignmentCarriesOver(r: Region, address: Word, part: nat)
    requires part < 3 && r.base % PAGE == 0 && r.user % PAGE == 0 && address % Alignment(part) == 0 && r.base <= address
    ensures (r.user + address - r.base) % Alignment(part) == 0
  {
    if part == 0 {
      Carries16(r.user, r.base, address);
    } else if part == 1 {
      Carries2(r.user, r.base, address);
    } else {
      Carries4(r.user, r.base, address);
    }
  }

  /** Every ring byte lies in the grant; given page-aligned bases the part is aligned both for
      the guest and for the service, and no user address wraps. */
  lemma {:induction false} RingsFitTheGrant(r: Region, queues: seq<Queue>, required: nat, i: nat, p: nat)
    requires Acceptable(r, queues, required) && i < |queues| && p < 3 && queues[i].size != 0
    requires r.base % PAGE == 0 && r.user % PAGE == 0 && r.user + r.length <= U64
    ensures forall x :: InPart(queues[i], p, x) ==> r.base <= x < r.base + r.length
    ensures Address(queues[i], p) % Alignment(p) == 0 && Start(r, queues, 3 * i + p) % Alignment(p) == 0
    ensures r.user <= Start(r, queues, 3 * i + p) < End(r, queues, 3 * i + p) <= r.user + r.length <= U64
    ensures End(r, queues, 3 * i + p) - Start(r, queues, 3 * i + p) == Bytes(queues[i].size, p)
  {
    var address := Address(queues[i], p);
    assert (3 * i + p) / 3 == i && (3 * i + p) % 3 == p;
    assert QueueOk(r, queues[i]) && Placed(r, address, Bytes(queues[i].size, p), Alignment(p));
    AlignmentCarriesOver(r, address, p);
  }

  // ----- acceptance, said of the fields of the rings ------------------------------------

  /** The fields of a split virtqueue: descriptors, and in both rings the flags and index in
      front, the entries, and the event word behind them. */
  datatype Field =
    | Descriptor(k: nat)
    | AvailableHead
    | AvailableEntry(k: nat)
    | AvailableTail
    | UsedHead
    | UsedEntry(k: nat)
    | UsedTail

  predicate HasField(q: Queue, f: Field) {
    && q.size != 0
    && (f.Descriptor? || f.AvailableEntry? || f.UsedEntry? ==> f.k < q.size)
  }

  /** Where a field begins, and how many bytes it has. */
  function FieldAt(q: Queue, f: Field): int {
    match f
    case Descriptor(k) => q.descriptor + 16 * k
    case AvailableHead => q.available
    case AvailableEntry(k) => q.available + 4 + 2 * k
    case AvailableTail => q.available + 4 + 2 * q.size
    case UsedHead => q.used
    case UsedEntry(k) => q.used + 4 + 8 * k
    case UsedTail => q.used + 4 + 8 * q.size
  }

  function FieldBytes(f: Field): nat {
    match f
    case Descriptor(_) => 16
    case AvailableHead => 4
    case AvailableEntry(_) => 2
    case AvailableTail => 2
    case UsedHead => 4
    case UsedEntry(_) => 8
    case UsedTail => 2
  }

  predicate InField(q: Queue, f: Field, x: int) {
    HasField(q, f) && FieldAt(q, f) <= x < FieldAt(q, f) + FieldBytes(f)
  }

  predicate InGrant(r: Region, q: Queue, f: Field) {
    r.base <= FieldAt(q, f) && FieldAt(q, f) + FieldBytes(f) <= r.base + r.length
  }

  /** A queue in use, by the numbers of the standard: a size that is a power of two up to 128,
      descriptors on 16 bytes, the available ring on 2, the used ring on 4, all fields granted. */
  ghost predicate Conforming(r: Region, q: Queue) {
    && q.size in {1, 2, 4, 8, 16, 32, 64, 128} && q.reserved == 0
    && q.descriptor % 16 == 0 && q.available % 2 == 0 && q.used % 4 == 0
    && forall f: Field :: HasField(q, f) ==> InGrant(r, q, f)
  }

  /** No byte belongs to two fields, of whichever queues. */
  ghost predicate FieldsApart(queues: seq<Queue>) {
    forall i, j, f: Field, g: Field, x: int ::
      0 <= i < |queues| && 0 <= j < |queues| && InField(queues[i], f, x) && InField(queues[j], g, x) ==>
        i == j && f == g
  }

  /** What a queue set has to be. */
  ghost predicate ConformingSet(r: Region, queues: seq<Queue>, required: nat) {
    && (forall i :: 0 <= i < |queues| ==>
          (i >= required && queues[i] == Queue(0, 0, 0, 0, 0)) || Conforming(r, queues[i]))
    && FieldsApart(queues)
  }

  function PartOf(f: Field): nat {
    if f.Descriptor? then 0 else if f.AvailableHead? || f.AvailableEntry? || f.AvailableTail? then 1 else 2
  }

  lemma {:induction false} FieldInPart(q: Queue, f: Field, x: int)
    requires InField(q, f, x)
    ensures InPart(q, PartOf(f), x)
  {
  }

  /** Every byte of a part belongs to one of its fields. */
  lemma {:induction false} PartIsFields(q: Queue, p: nat, x: int) returns (f: Field)
    requires p < 3 && InPart(q, p, x)
    ensures InField(q, f, x) && PartOf(f) == p
  {
    if p == 0 {
      f := Descriptor((x - q.descriptor) / 16);
    } else if p == 1 {
      var at := x - q.available;
      f := if at < 4 then AvailableHead
           else if at < 4 + 2 * q.size then AvailableEntry((at - 4) / 2) else AvailableTail;
    } else {
      var at := x - q.used;
      f := if at < 4 then UsedHead else if at < 4 + 8 * q.size then UsedEntry((at - 4) / 8) else UsedTail;
    }
  }

  lemma {:induction false} OneFieldOfAPart(q: Queue, f: Field, g: Field, x: int)
    requires InField(q, f, x) && InField(q, g, x) && PartOf(f) == PartOf(g)
    ensures f == g
  {
  }

  lemma {:induction false} AcceptedConforms(r: Region, q: Queue)
    requires QueueOk(r, q)
    ensures Conforming(r, q)
  {
    assert Placed(r, Address(q, 0), Bytes(q.size, 0), Alignment(0));
    assert Placed(r, Address(q, 1), Bytes(q.size, 1), Alignment(1));
    assert Placed(r, Address(q, 2), Bytes(q.size, 2), Alignment(2));
  }

  lemma {:induction false} ConformingIsAccepted(r: Region, q: Queue)
    requires Conforming(r, q)
    ensures QueueOk(r, q)
  {
    assert InGrant(r, q, Descriptor(0)) && InGrant(r, q, Descriptor(q.size - 1));
    assert InGrant(r, q, AvailableHead) && InGrant(r, q, AvailableTail);
    assert InGrant(r, q, UsedHead) && InGrant(r, q, UsedTail);
  }

  lemma {:induction false} AcceptedFieldsApart(r: Region, queues: seq<Queue>, required: nat)
    requires Acceptable(r, queues, required)
    ensures FieldsApart(queues)
  {
    forall i, j, f: Field, g: Field, x: int |
      0 <= i < |queues| && 0 <= j < |queues| && InField(queues[i], f, x) && InField(queues[j], g, x)
      ensures i == j && f == g
    {
      FieldInPart(queues[i], f, x);
      FieldInPart(queues[j], g, x);
      if i != j || PartOf(f) != PartOf(g) {
        RingsAreDisjoint(r, queues, required, i, PartOf(f), j, PartOf(g), x);
      } else {
        OneFieldOfAPart(queues[i], f, g, x);
      }
    }
  }

  /** Two parts whose fields are apart do not overlap. */
  lemma {:induction false} PartsApart(r: Region, queues: seq<Queue>, a: nat, b: nat)
    requires FieldsApart(queues) && a < b < 3 * |queues|
    requires queues[a / 3].size != 0 ==> r.base <= Address(queues[a / 3], a % 3)
    requires queues[b / 3].size != 0 ==> r.base <= Address(queues[b / 3], b % 3)
    ensures Apart(r, queues, a, b)
  {
    var p, q := queues[a / 3], queues[b / 3];
    if !Apart(r, queues, a, b) {
      var x := if Address(p, a % 3) < Address(q, b % 3) then Address(q, b % 3) else Address(p, a % 3);
      var f := PartIsFields(p, a % 3, x);
      var g := PartIsFields(q, b % 3, x);
    }
  }

  /** `configure_vhost` accepts exactly the queue sets that conform to section 2.7 of VIRTIO 1.2
      inside the grant. */
  lemma {:induction false} AcceptsConforming(r: Region, queues: seq<Queue>, required: nat)
    ensures Acceptable(r, queues, required) <==> ConformingSet(r, queues, required)
  {
    if Acceptable(r, queues, required) {
      AcceptedFieldsApart(r, queues, required);
      forall i | 0 <= i < |queues| && QueueOk(r, queues[i]) ensures Conforming(r, queues[i]) {
        AcceptedConforms(r, queues[i]);
      }
    }
    if ConformingSet(r, queues, required) {
      forall i | 0 <= i < |queues| && Conforming(r, queues[i]) ensures QueueOk(r, queues[i]) {
        ConformingIsAccepted(r, queues[i]);
      }
      forall a, b | 0 <= a < b < 3 * |queues| ensures Apart(r, queues, a, b) {
        assert Absent(queues[a / 3], a / 3, required) || QueueOk(r, queues[a / 3]);
        assert Absent(queues[b / 3], b / 3, required) || QueueOk(r, queues[b / 3]);
        PartsApart(r, queues, a, b);
      }
    }
  }
}
