/**
 The block owner (service/block.c): an append-only table of physical disks, and for each client
 at most one immutable range of one of them, published as a SCSI target.
 */
module Blocks {
  import opened Wrappers
  import opened Layout
  import opened Policy
  import opened Targets
  import opened Backend

  const CLIENTS: nat := 128
  const DISKS: nat := 128

  datatype Disk = Disk(device: nat, bytes: Word, sequence: Word, logical: nat, physical: nat, readOnly: bool)

  /** What discovery finds behind one name: nothing it wants, a device it cannot inspect, or a
      block device. */
  datatype Found = Skipped | Broken | Present(disk: Disk)

  /** The body of an enumeration reply; disk 0 ends the walk. */
  datatype Info = Info(disk: nat, bytes: Word, logical: nat, physical: nat, readOnly: bool, next: nat)

  const END := Info(0, 0, 0, 0, false, 0)

  predicate GeometryOk(d: Disk) {
    && d.bytes != 0 && SectorOk(d.logical) && d.bytes % d.logical == 0
    && d.physical >= d.logical && PowerOfTwo(d.physical)
  }

  /** Two sightings of one device that may share an ID. */
  predicate SameDisk(a: Disk, b: Disk) {
    a.device == b.device && a.sequence == b.sequence && a.bytes == b.bytes && a.logical == b.logical
  }

  /** The table: sound geometry, one entry per device number, room for 128. */
  predicate DisksOk(disks: seq<Disk>) {
    && |disks| <= DISKS && (forall i :: 0 <= i < |disks| ==> GeometryOk(disks[i]))
    && forall i, j :: 0 <= i < j < |disks| ==> disks[i].device != disks[j].device
  }

  // ----- discovery ----------------------------------------------------------------------

  /** The first entry with this device number, or the end of the table. */
  function Find(disks: seq<Disk>, device: nat): (k: nat)
    ensures k <= |disks| && (k < |disks| ==> disks[k].device == device)
    ensures forall i :: 0 <= i < k ==> disks[i].device != device
  {
    if disks == [] || disks[0].device == device then 0 else 1 + Find(disks[1..], device)
  }

  /** What `discover_disks` makes of the table, and whether it gets through all entries. */
  function Scan(disks: seq<Disk>, entries: seq<Found>): (seq<Disk>, bool)
    decreases |entries|
  {
    if entries == [] then (disks, true)
    else
      match entries[0]
      case Skipped => Scan(disks, entries[1..])
      case Broken => (disks, false)
      case Present(d) =>
        var k := Find(disks, d.device);
        if !GeometryOk(d) then (disks, false)
        else if k < |disks| then (if SameDisk(disks[k], d) then Scan(disks, entries[1..]) else (disks, false))
        else if |disks| == DISKS then (disks, false)
        else Scan(disks + [d], entries[1..])
  }

  /** However discovery ends, the disks known before keep their places, and the table stays
      sound; everything new was really found. */
  lemma {:induction false} ScanGrows(disks: seq<Disk>, entries: seq<Found>)
    requires DisksOk(disks)
    ensures disks <= Scan(disks, entries).0 && DisksOk(Scan(disks, entries).0)
    ensures forall k :: |disks| <= k < |Scan(disks, entries).0| ==> Present(Scan(disks, entries).0[k]) in entries
    decreases |entries|
  {
    if entries != [] {
      var rest := entries[1..];
      match entries[0]
      case Skipped => ScanGrows(disks, rest);
      case Broken =>
      case Present(d) =>
        if GeometryOk(d) {
          if Find(disks, d.device) < |disks| {
            ScanGrows(disks, rest);
          } else if |disks| < DISKS {
            ScanGrows(disks + [d], rest);
          }
        }
    }
  }

  /** A discovery that gets through has a place for every disk it saw. */
  lemma {:induction false} ScanFinds(disks: seq<Disk>, entries: seq<Found>, e: nat)
    requires DisksOk(disks) && Scan(disks, entries).1 && e < |entries| && entries[e].Present?
    ensures var after, d := Scan(disks, entries).0, entries[e].disk;
            exists k :: 0 <= k < |after| && SameDisk(after[k], d)
                        && after[k].sequence == d.sequence && after[k].bytes == d.bytes && after[k].logical == d.logical
    decreases |entries|
  {
    var after := Scan(disks, entries).0;
    var rest := entries[1..];
    match entries[0] {
      case Skipped => ScanFinds(disks, rest, e - 1);
      case Present(d) =>
        var k := Find(disks, d.device);
        var next := if k < |disks| then disks else disks + [d];
        ScanGrows(next, rest);
        if e == 0 {
          assert SameDisk(after[k], d);
        } else {
          ScanFinds(next, rest, e - 1);
        }
    }
  }

  /** Two sightings that cannot be of different disks: another device, or all the same. */
  predicate Agree(a: Disk, b: Disk) {
    a.device == b.device ==> a.sequence == b.sequence && a.bytes == b.bytes && a.logical == b.logical
  }

  function Devices(disks: seq<Disk>): set<nat> { set k | 0 <= k < |disks| :: disks[k].device }

  function FoundDevices(entries: seq<Found>): set<nat> {
    set e | 0 <= e < |entries| && entries[e].Present? :: entries[e].disk.device
  }

  /** One name behind which there is nothing to object to. */
  predicate Unobjectionable(disks: seq<Disk>, found: Found) {
    && !found.Broken?
    && (found.Present? ==> GeometryOk(found.disk) && forall k :: 0 <= k < |disks| ==> Agree(disks[k], found.disk))
  }

  /** What discovery needs to get through: no device it cannot inspect or whose geometry is
      unsound, none that contradicts the table or another, and not more than 128 in all. */
  predicate Discoverable(disks: seq<Disk>, entries: seq<Found>) {
    AllFine(disks, entries) && AllAgree(entries) && |Devices(disks) + FoundDevices(entries)| <= 128
  }

  predicate AllFine(disks: seq<Disk>, entries: seq<Found>) {
    forall e :: 0 <= e < |entries| ==> Unobjectionable(disks, entries[e])
  }

  predicate AllAgree(entries: seq<Found>) {
    forall e, f :: 0 <= e < |entries| && 0 <= f < |entries| && entries[e].Present? && entries[f].Present? ==>
      Agree(entries[e].disk, entries[f].disk)
  }

  lemma {:induction false} DevicesCount(disks: seq<Disk>)
    requires forall i, j :: 0 <= i < j < |disks| ==> disks[i].device != disks[j].device
    ensures |Devices(disks)| == |disks|
    decreases |disks|
  {
    if disks != [] {
      var init, last := disks[..|disks| - 1], disks[|disks| - 1];
      DevicesCount(init);
      DevicesAppend(init, last);
      assert disks == init + [last];
      assert last.device !in Devices(init);
    }
  }

  lemma {:induction false} DevicesAppend(disks: seq<Disk>, d: Disk)
    ensures Devices(disks + [d]) == Devices(disks) + {d.device}
  {
    var all := disks + [d];
    assert all[|disks|] == d;
    forall x | x in Devices(disks) ensures x in Devices(all) {
      var k :| 0 <= k < |disks| && disks[k].device == x;
      assert all[k].device == x;
    }
  }

  lemma {:induction false} FoundFirst(entries: seq<Found>)
    requires entries != []
    ensures FoundDevices(entries)
            == FoundDevices(entries[1..]) + (if entries[0].Present? then {entries[0].disk.device} else {})
  {
    forall x | x in FoundDevices(entries[1..]) ensures x in FoundDevices(entries) {
      var e :| 0 <= e < |entries[1..]| && entries[1..][e].Present? && entries[1..][e].disk.device == x;
      assert entries[e + 1].disk.device == x;
    }
    forall x | x in FoundDevices(entries) && !(entries[0].Present? && x == entries[0].disk.device)
      ensures x in FoundDevices(entries[1..])
    {
      var e :| 0 <= e < |entries| && entries[e].Present? && entries[e].disk.device == x;
      assert entries[1..][e - 1] == entries[e];
    }
  }

  /** An entry the table already has, or that discovery passes over, changes nothing. */
  lemma {:induction false} PassesOver(disks: seq<Disk>, entries: seq<Found>)
    requires entries != [] && !entries[0].Broken?
    requires entries[0].Present? ==>
               GeometryOk(entries[0].disk) && exists k :: 0 <= k < |disks| && SameDisk(disks[k], entries[0].disk)
    requires DisksOk(disks)
    ensures Discoverable(disks, entries) <==> Discoverable(disks, entries[1..])
  {
    var rest := entries[1..];
    FoundFirst(entries);
    if entries[0].Present? {
      var d := entries[0].disk;
      var k :| 0 <= k < |disks| && SameDisk(disks[k], d);
      assert d.device in Devices(disks);
      assert forall j :: 0 <= j < |disks| && j != k ==> disks[j].device != d.device;
      assert Unobjectionable(disks, entries[0]);
    }
    assert Devices(disks) + FoundDevices(entries) == Devices(disks) + FoundDevices(rest);
    Extends(disks, disks, entries);
  }

  /** A new disk moves from what is to be found into the table. */
  lemma {:induction false} Adopts(disks: seq<Disk>, entries: seq<Found>)
    requires entries != [] && entries[0].Present? && GeometryOk(entries[0].disk) && DisksOk(disks)
    requires forall k :: 0 <= k < |disks| ==> disks[k].device != entries[0].disk.device
    ensures Discoverable(disks, entries) <==> Discoverable(disks + [entries[0].disk], entries[1..])
  {
    var d := entries[0].disk;
    FoundFirst(entries);
    DevicesAppend(disks, d);
    assert Devices(disks) + FoundDevices(entries) == Devices(disks + [d]) + FoundDevices(entries[1..]);
    Extends(disks, disks + [d], entries);
  }

  /** The parts of Discoverable that speak of single entries, over the first entry and the rest. */
  lemma {:induction false} Extends(disks: seq<Disk>, after: seq<Disk>, entries: seq<Found>)
    requires entries != [] && Unobjectionable(disks, entries[0])
    requires after == disks || (entries[0].Present? && after == disks + [entries[0].disk])
    requires after == disks && entries[0].Present? ==>
              exists k :: 0 <= k < |disks| && SameDisk(disks[k], entries[0].disk)
    ensures AllFine(disks, entries) && AllAgree(entries) <==> AllFine(after, entries[1..]) && AllAgree(entries[1..])
  {
    var rest := entries[1..];
    assert forall e :: 0 <= e < |rest| ==> rest[e] == entries[e + 1];
    if AllFine(disks, entries) && AllAgree(entries) {
      forall e | 0 <= e < |rest| ensures Unobjectionable(after, rest[e]) {
        assert Unobjectionable(disks, entries[e + 1]);
        if after != disks && rest[e].Present? { assert Agree(entries[0].disk, entries[e + 1].disk); }
      }
    }
    if AllFine(after, rest) && AllAgree(rest) {
      forall e | 0 <= e < |entries| ensures Unobjectionable(disks, entries[e]) {
        if e > 0 { FineBefore(disks, after, rest[e - 1]); }
      }
      FirstAgrees(disks, after, entries);
    }
  }

  lemma {:induction false} FineBefore(disks: seq<Disk>, after: seq<Disk>, found: Found)
    requires disks <= after && Unobjectionable(after, found)
    ensures Unobjectionable(disks, found)
  {
    if found.Present? {
      forall k | 0 <= k < |disks| ensures Agree(disks[k], found.disk) {
        assert after[k] == disks[k];
      }
    }
  }

  lemma {:induction false} FirstAgrees(disks: seq<Disk>, after: seq<Disk>, entries: seq<Found>)
    requires entries != [] && AllFine(after, entries[1..]) && AllAgree(entries[1..])
    requires after == disks || (entries[0].Present? && after == disks + [entries[0].disk])
    requires after == disks && entries[0].Present? ==>
              exists k :: 0 <= k < |disks| && SameDisk(disks[k], entries[0].disk)
    ensures AllAgree(entries)
  {
    var rest := entries[1..];
    forall f | 0 < f < |entries| && entries[0].Present? && entries[f].Present?
      ensures Agree(entries[0].disk, entries[f].disk) && Agree(entries[f].disk, entries[0].disk)
    {
      assert Unobjectionable(after, rest[f - 1]);
      if after == disks {
        var k :| 0 <= k < |disks| && SameDisk(disks[k], entries[0].disk);
        assert Agree(disks[k], entries[f].disk);
      } else {
        assert after[|disks|] == entries[0].disk;
      }
    }
    forall e, f | 0 < e < |entries| && 0 < f < |entries| && entries[e].Present? && entries[f].Present?
      ensures Agree(entries[e].disk, entries[f].disk)
    {
      assert rest[e - 1] == entries[e] && rest[f - 1] == entries[f];
    }
  }

  /** Discovery gets through exactly then. */
  lemma {:induction false} ScanSucceedsIff(disks: seq<Disk>, entries: seq<Found>)
    requires DisksOk(disks)
    ensures Scan(disks, entries).1 <==> Discoverable(disks, entries)
    decreases |entries|
  {
    DevicesCount(disks);
    if entries == [] {
      assert Devices(disks) + FoundDevices(entries) == Devices(disks);
    } else {
      var rest := entries[1..];
      match entries[0]
      case Skipped => PassesOver(disks, entries); ScanSucceedsIff(disks, rest);
      case Broken => assert !Unobjectionable(disks, entries[0]);
      case Present(d) => ScanPresent(disks, entries, d);
    }
  }

  lemma {:induction false} ScanPresent(disks: seq<Disk>, entries: seq<Found>, d: Disk)
    requires DisksOk(disks) && entries != [] && entries[0] == Present(d) && |Devices(disks)| == |disks|
    ensures Scan(disks, entries).1 <==> Discoverable(disks, entries)
    decreases |entries|, 0
  {
    var rest := entries[1..];
    var k := Find(disks, d.device);
    if !GeometryOk(d) || (k < |disks| && !SameDisk(disks[k], d)) {
      assert !Unobjectionable(disks, entries[0]);
    } else if k < |disks| {
      PassesOver(disks, entries);
      ScanSucceedsIff(disks, rest);
    } else if |disks| == DISKS {
      TooMany(disks, entries, d);
    } else {
      Adopts(disks, entries);
      ScanSucceedsIff(disks + [d], rest);
    }
  }

  lemma {:induction false} TooMany(disks: seq<Disk>, entries: seq<Found>, d: Disk)
    requires entries != [] && entries[0] == Present(d) && |Devices(disks)| == |disks| == 128
    requires forall k :: 0 <= k < |disks| ==> disks[k].device != d.device
    ensures !Discoverable(disks, entries)
  {
    var all := Devices(disks) + FoundDevices(entries);
    assert d.device in FoundDevices(entries) && d.device !in Devices(disks);
    assert all == Devices(disks) + (all - Devices(disks));
    assert d.device in all - Devices(disks);
    assert |all| == |Devices(disks)| + |all - Devices(disks)|;
  }

  // ----- enumeration --------------------------------------------------------------------

  function InfoAt(disks: seq<Disk>, cursor: nat): Info
    requires cursor <= |disks|
  {
    if cursor == |disks| then END
    else
      var d := disks[cursor];
      Info(cursor + 1, d.bytes, d.logical, d.physical, d.readOnly, cursor + 1)
  }

  /** The replies a caller gets that follows the cursor until the walk ends. */
  function Walk(disks: seq<Disk>, cursor: nat): seq<Info>
    requires cursor <= |disks|
    decreases |disks| - cursor
  {
    var info := InfoAt(disks, cursor);
    if info.disk == 0 then [] else [info] + Walk(disks, info.next)
  }

  /** The walk from zero names each disk once, in order, with its geometry. */
  lemma {:induction false} WalkVisitsEachOnce(disks: seq<Disk>, cursor: nat)
    requires cursor <= |disks|
    ensures |Walk(disks, cursor)| == |disks| - cursor
    ensures forall k :: 0 <= k < |disks| - cursor ==>
              var d := disks[cursor + k];
              var i := Walk(disks, cursor)[k];
              && i.disk == cursor + k + 1 && i.bytes == d.bytes && i.logical == d.logical
              && i.physical == d.physical && i.readOnly == d.readOnly
    decreases |disks| - cursor
  {
    if cursor < |disks| { WalkVisitsEachOnce(disks, cursor + 1); }
  }

  // ----- bindings -----------------------------------------------------------------------

  /** An unused entry, or a range its disk allows. */
  predicate BindingOk(disks: seq<Disk>, r: Range) {
    && (r.disk == 0 ==> r == UNBOUND)
    && (r.disk != 0 ==>
          && r.disk <= |disks|
          && RangeValid(disks[r.disk - 1].bytes, disks[r.disk - 1].logical, disks[r.disk - 1].readOnly, r))
  }

  predicate Exclusive(bindings: seq<Range>) {
    forall i, j :: 0 <= i < |bindings| && 0 <= j < |bindings| && i != j ==> !Conflict(bindings[i], bindings[j])
  }

  /** The kernel objects of a client: published exactly when the binding is recorded, and then
      with exactly its table. */
  predicate TargetOk(disks: seq<Disk>, r: Range, t: Tree)
    requires BindingOk(disks, r)
  {
    && TreeOk(t) && (Has(t, Link) <==> r.disk != 0)
    && (r.disk != 0 ==> Published(t, TableOf(disks[r.disk - 1].device, disks[r.disk - 1].logical, r)))
  }

  predicate StateOk(disks: seq<Disk>, bindings: seq<Range>, trees: seq<Tree>) {
    && DisksOk(disks) && |bindings| == |trees| == CLIENTS
    && (forall c :: 0 <= c < CLIENTS ==> BindingOk(disks, bindings[c]))
    && (forall c :: 0 <= c < CLIENTS ==> TargetOk(disks, bindings[c], trees[c]))
    && Exclusive(bindings) && bindings[0] == UNBOUND
  }

  /** Whatever two published targets have in common, both only read. */
  lemma {:induction false} PublishedBytesAreExclusive(disks: seq<Disk>, bindings: seq<Range>, trees: seq<Tree>,
                                            c: nat, d: nat, device: nat, at: nat)
    requires StateOk(disks, bindings, trees) && c < CLIENTS && d < CLIENTS && c != d
    requires Has(trees[c], Link) && Has(trees[d], Link)
    requires Exposes(trees[c].table[0], device, at) && Exposes(trees[d].table[0], device, at)
    ensures trees[c].table[0].readOnly && trees[d].table[0].readOnly
  {
    var a, b := bindings[c], bindings[d];
    assert TargetOk(disks, a, trees[c]) && TargetOk(disks, b, trees[d]);
    assert BindingOk(disks, a) && BindingOk(disks, b);
    assert a.disk == b.disk;
    var disk := disks[a.disk - 1];
    TableIsExact(device, disk.bytes, disk.logical, disk.readOnly, a);
    TableIsExact(device, disk.bytes, disk.logical, disk.readOnly, b);
    ByteToSector(a, disk.logical, at);
    ByteToSector(b, disk.logical, at);
    ConflictIffShared(disk.bytes, disk.logical, disk.readOnly, disk.readOnly, a, b);
  }

  /** A published target exposes only bytes inside a known disk, writably only if the disk is. */
  lemma {:induction false} PublishedBytesAreOnDisk(disks: seq<Disk>, bindings: seq<Range>, trees: seq<Tree>,
                                            c: nat, device: nat, at: nat)
    requires StateOk(disks, bindings, trees) && c < CLIENTS
    requires Has(trees[c], Link) && Exposes(trees[c].table[0], device, at)
    ensures exists k :: 0 <= k < |disks| && disks[k].device == device && at < disks[k].bytes
                        && (disks[k].readOnly ==> trees[c].table[0].readOnly)
  {
    var r := bindings[c];
    assert TargetOk(disks, r, trees[c]) && BindingOk(disks, r);
    var k := r.disk - 1;
    TableIsExact(device, disks[k].bytes, disks[k].logical, disks[k].readOnly, r);
    assert disks[k].device == device && at < disks[k].bytes;
  }

  lemma {:induction false} GrowingKeepsState(before: seq<Disk>, after: seq<Disk>, bindings: seq<Range>,
                                            trees: seq<Tree>)
    requires StateOk(before, bindings, trees) && before <= after && DisksOk(after)
    ensures StateOk(after, bindings, trees)
  {
    forall c | 0 <= c < CLIENTS ensures BindingOk(after, bindings[c]) && TargetOk(after, bindings[c], trees[c]) {
      assert BindingOk(before, bindings[c]) && TargetOk(before, bindings[c], trees[c]);
    }
  }

  lemma {:induction false} FailingKeepsState(disks: seq<Disk>, bindings: seq<Range>, trees: seq<Tree>, c: nat, t: Tree)
    requires StateOk(disks, bindings, trees) && c < CLIENTS && bindings[c].disk == 0 && TreeOk(t) && !Has(t, Link)
    ensures StateOk(disks, bindings, trees[c := t])
  {
  }

  lemma {:induction false} BindingKeepsState(disks: seq<Disk>, bindings: seq<Range>, trees: seq<Tree>, c: nat,
                                            r: Range, t: Tree)
    requires StateOk(disks, bindings, trees) && 0 < c < CLIENTS && bindings[c].disk == 0
    requires r.disk != 0 && BindingOk(disks, r) && TargetOk(disks, r, t)
    requires forall i :: 0 <= i < CLIENTS ==> !Conflict(bindings[i], r)
    ensures StateOk(disks, bindings[c := r], trees[c := t])
  {
    var next := bindings[c := r];
    forall i, j | 0 <= i < CLIENTS && 0 <= j < CLIENTS && i != j ensures !Conflict(next[i], next[j]) {
      ConflictIsSymmetric(next[i], next[j]);
    }
  }

  // ----- the owner ----------------------------------------------------------------------

  /** The outcome of one pread. */
  datatype Pread = Interrupted | Failed | Received(count: nat)

  class BlockOwner {
    const clients: seq<bool>
    var disks: seq<Disk>
    var bindings: array<Range>
    /** The kernel's side: the objects of each client. */
    var trees: seq<Tree>

    ghost predicate Valid()
      reads this, bindings
    {
      |clients| == CLIENTS && bindings.Length == CLIENTS && StateOk(disks, bindings[..], trees)
    }

    constructor (clients: seq<bool>)
      requires |clients| == CLIENTS
      ensures Valid() && fresh(bindings) && disks == [] && this.clients == clients
      ensures forall c :: 0 <= c < CLIENTS ==> bindings[c] == UNBOUND
    {
      this.clients := clients;
      disks := [];
      bindings := new Range[CLIENTS](_ => UNBOUND);
      trees := seq(CLIENTS, _ => NOTHING);
    }

    /** `discover_disks`; None stands for a directory that cannot be read. */
    method Discover(listing: Option<seq<Found>>) returns (ok: bool)
      requires Valid()
      modifies this`disks
      ensures Valid() && old(disks) <= disks
      ensures if listing.None? then !ok && disks == old(disks) else (disks, ok) == Scan(old(disks), listing.value)
    {
      if listing.None? { return false; }
      var entries := listing.value;
      ghost var start := disks;
      ScanGrows(start, entries);
      GrowingKeepsState(start, Scan(start, entries).0, bindings[..], trees);
      for i := 0 to |entries|
        invariant Scan(disks, entries[i..]) == Scan(start, entries)
      {
        assert entries[i..][0] == entries[i] && entries[i..][1..] == entries[i + 1..];
        match entries[i]
        case Skipped =>
        case Broken => return false;
        case Present(disk) =>
          if !GeometryOk(disk) { return false; }
          var existing := 0;
          while existing < |disks| && disks[existing].device != disk.device
            invariant existing <= |disks| && forall k :: 0 <= k < existing ==> disks[k].device != disk.device
          {
            existing := existing + 1;
          }
          assert existing == Find(disks, disk.device);
          if existing < |disks| {
            if !SameDisk(disks[existing], disk) { return false; }
          } else {
            if |disks| == DISKS { return false; }
            disks := disks + [disk];
          }
      }
      return true;
    }

    /** BLOCK_ENUM: only a walk's first request looks for new disks, so the table stands still
        while the walk goes on. */
    method Enumerate(cursor: nat, reserved: nat, listing: Option<seq<Found>>) returns (status: Status, info: Info)
      requires Valid()
      modifies this`disks
      ensures Valid() && old(disks) <= disks
      ensures reserved != 0 || cursor != 0 ==> disks == old(disks)
      ensures status == INVALID <==> reserved != 0 || cursor > |old(disks)|
      ensures status == OK ==> cursor <= |disks| && info == InfoAt(disks, cursor)
      ensures status == OK && cursor == 0 ==> listing.Some? && (disks, true) == Scan(old(disks), listing.value)
      ensures status == BACKEND_FAILURE <==>
                reserved == 0 && cursor == 0 && (listing.None? || !Scan(old(disks), listing.value).1)
      ensures status in {OK, INVALID, BACKEND_FAILURE}
    {
      info := END;
      if reserved != 0 { return INVALID, info; }
      if cursor == 0 {
        var found := Discover(listing);
        if !found { return BACKEND_FAILURE, info; }
      }
      if cursor > |disks| { return INVALID, info; }
      if cursor == |disks| { return OK, info; }
      var disk := disks[cursor];
      return OK, Info(cursor + 1, disk.bytes, disk.logical, disk.physical, disk.readOnly, cursor + 1);
    }

    /** The request names a client this appliance serves and a disk it has issued. */
    predicate Addressed(client: nat, r: Range)
      requires |clients| == CLIENTS
      reads this
    {
      client != 0 && client < CLIENTS && clients[client] && r.disk != 0 && r.disk <= |disks|
    }

    predicate Allowed(r: Range)
      reads this
    {
      && 0 < r.disk <= |disks|
      && RangeValid(disks[r.disk - 1].bytes, disks[r.disk - 1].logical, disks[r.disk - 1].readOnly, r)
    }

    /** `bind_range`; current says whether the open disk is still the one discovered. */
    method BindRange(client: nat, r: Range, current: bool) returns (status: Status)
      requires Valid()
      modifies this`trees, bindings
      ensures Valid() && |trees| == |old(trees)| && forall c :: 0 <= c < CLIENTS && c != client ==>
                trees[c] == old(trees)[c]
      ensures status == INVALID <==> !Addressed(client, r) || (current && !Allowed(r))
      ensures status == BUSY <==>
                && Addressed(client, r) && current && Allowed(r)
                && (if old(bindings[client]).disk != 0 then old(bindings[client]) != r
                    else exists i :: 0 <= i < CLIENTS && Conflict(old(bindings[i]), r))
      ensures status == OK ==>
                && client < CLIENTS
                && bindings[..] == old(bindings[..])[client := r]
                && old(bindings[client]) in {UNBOUND, r}
      ensures status != OK ==> bindings[..] == old(bindings[..])
      ensures status in {INVALID, BUSY} || (status == OK && old(bindings[client]) == r) ==> trees == old(trees)
      ensures status in {OK, INVALID, BUSY, BACKEND_FAILURE}
    {
      if client == 0 || client >= CLIENTS || !clients[client] || r.disk == 0 || r.disk > |disks| { return INVALID; }
      var disk := disks[r.disk - 1];
      if !current { return BACKEND_FAILURE; }
      if !RangeValid(disk.bytes, disk.logical, disk.readOnly, r) { return INVALID; }
      if bindings[client].disk != 0 {
        return if bindings[client] == r then OK else BUSY;
      }
      var taken := Taken(r);
      if taken { return BUSY; }
      status := PublishRange(client, disk, r);
    }

    /** The search of `bind_range` through all clients. */
    method Taken(r: Range) returns (taken: bool)
      requires bindings.Length == CLIENTS && bindings[0] == UNBOUND
      ensures taken <==> exists i :: 0 <= i < CLIENTS && Conflict(bindings[i], r)
    {
      for i := 1 to CLIENTS
        invariant forall k :: 0 <= k < i ==> !Conflict(bindings[k], r)
      {
        if Conflict(bindings[i], r) { return true; }
      }
      return false;
    }

    /** The end of `bind_range`: publish, and only then record. */
    method PublishRange(client: nat, disk: Disk, r: Range) returns (status: Status)
      requires Valid() && 0 < client < CLIENTS && Allowed(r) && disk == disks[r.disk - 1]
      requires bindings[client].disk == 0 && forall i :: 0 <= i < CLIENTS ==> !Conflict(bindings[i], r)
      modifies this`trees, bindings
      ensures Valid() && |trees| == |old(trees)| && forall c :: 0 <= c < CLIENTS && c != client ==>
                trees[c] == old(trees)[c]
      ensures status in {OK, BACKEND_FAILURE}
      ensures bindings[..] == if status == OK then old(bindings[..])[client := r] else old(bindings[..])
    {
      assert TargetOk(disks, bindings[client], trees[client]);
      var ok, _, tree := Publish(trees[client], TableOf(disk.device, disk.logical, r));
      if !ok {
        FailingKeepsState(disks, bindings[..], trees, client, tree);
        trees := trees[client := tree];
        return BACKEND_FAILURE;
      }
      BindingKeepsState(disks, bindings[..], trees, client, r, tree);
      ghost var was := bindings[..];
      trees := trees[client := tree];
      bindings[client] := r;
      assert bindings[..] == was[client := r];
      return OK;
    }

    /** BLOCK_READ: content is what the disk holds, preads what each call to pread does (past
        their end it fails).  The destination gets exactly the disk's bytes, and whatever happens
        only a prefix of it is written. */
    method Read(id: nat, offset: Word, length: Word, memoryOffset: Word, current: bool, memory: array?<bv8>,
                content: seq<bv8>, preads: seq<Pread>) returns (status: Status, ghost done: nat)
      requires Valid() && (memory != null ==> memory.Length < U64)
      requires 0 < id <= |disks| ==> |content| == disks[id - 1].bytes
      modifies memory
      ensures status == OK || status == INVALID || status == BACKEND_FAILURE
      ensures status == INVALID <==>
                || !(0 < id <= |disks|) || memory == null
                || (current && !(&& 0 < length <= 0x10_0000 && offset % disks[id - 1].logical == 0
                                 && length % disks[id - 1].logical == 0 && offset + length <= disks[id - 1].bytes
                                 && memoryOffset + length <= memory.Length && offset + length < 0x8000_0000_0000_0000))
      ensures done != 0 ==>
                memory != null && done <= length && memoryOffset + done <= memory.Length && offset + done <= |content|
      ensures memory != null ==> forall k :: 0 <= k < memory.Length ==>
                memory[k] == if memoryOffset <= k < memoryOffset + done then content[offset + k - memoryOffset]
                             else old(memory[k])
      ensures status == OK ==> done == length > 0
    {
      done := 0;
      if id == 0 || id > |disks| || memory == null { return INVALID, 0; }
      var disk := disks[id - 1];
      if !current { return BACKEND_FAILURE, 0; }
      if !Readable(disk, offset, length, memory.Length, memoryOffset) { return INVALID, 0; }
      ReadValidIff(disk.bytes, disk.logical, offset, length, memory.Length, memoryOffset);
      var ok;
      ok, done := Copy(memory, memoryOffset, content, offset, length, preads);
      return if ok then OK else BACKEND_FAILURE, done;
    }

    /** The pread loop: short reads are continued, interrupted ones repeated. */
    method Copy(memory: array<bv8>, to: nat, content: seq<bv8>, from: nat, length: nat, preads: seq<Pread>)
        returns (ok: bool, ghost done: nat)
      requires to + length <= memory.Length && from + length <= |content|
      modifies memory
      ensures done <= length && (ok <==> done == length)
      ensures forall k :: 0 <= k < memory.Length ==>
                memory[k] == if to <= k < to + done then content[from + k - to] else old(memory[k])
    {
      var n: nat := 0;
      var calls := 0;
      while n < length
        invariant n <= length && calls <= |preads|
        invariant forall k :: 0 <= k < memory.Length ==>
                  memory[k] == if to <= k < to + n then content[from + k - to] else old(memory[k])
        decreases |preads| - calls
      {
        if calls == |preads| || preads[calls].Failed? { return false, n; }
        var received := preads[calls];
        calls := calls + 1;
        if received.Interrupted? { continue; }
        var count := if received.count <= length - n then received.count else length - n;
        if count == 0 { return false, n; }
        forall k | to + n <= k < to + n + count { memory[k] := content[from + k - to]; }
        n := n + count;
      }
      return true, n;
    }
  }

  const I64_MAX: nat := 0x7fff_ffff_ffff_ffff

  predicate Readable(d: Disk, offset: Word, length: Word, memoryBytes: Word, memoryOffset: Word) {
    && ReadValid(d.bytes, d.logical, offset, length, memoryBytes, memoryOffset)
    && offset <= I64_MAX && length <= I64_MAX - offset
  }
}
