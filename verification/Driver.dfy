/**
 What the backend takes for granted about the memory driver, shown of the driver.

 `Backend` sees the memory device as four facts of `Linux`: whether its file is open, how many
 VMAs there are, whether granules are held, and the page table.  Here each of its system calls
 is run on a `GuestMemory.Memory` that these facts describe, and comes out as `Backend` says.
 */
module Driver {
  import opened Wrappers
  import opened Layout
  import GuestMemory
  import opened Backend

  /** The facts describe the device. */
  ghost predicate Describes(l: Linux, m: GuestMemory.Memory)
    reads m, m.table, m.pool
  {
    && m.Valid() && l.file == (m.files != {}) && l.vmas == |m.views| && l.granules == (m.granules != [])
    && (l.granules ==> m.pfns.Some? && m.request == l.grant)
  }

  /** The references of everybody else on the shared granules. */
  ghost function Others(m: GuestMemory.Memory): multiset<nat>
    reads m, m.table
  {
    m.table.refs - multiset(m.granules)
  }

  /** When the backend proves quiescence, the device holds nothing: no file, no VMA, no page table,
      and on the shared granules only what others hold. */
  lemma {:induction false} SafeMeansReturned(l: Linux, m: GuestMemory.Memory, t: Word)
    requires Describes(l, m) && Safe(Snapshot(l, t)) && m.dynamic
    ensures m.files == {} && m.views == [] && m.granules == [] && m.pfns == None && m.table.refs == Others(m)
  {
    if m.pfns.Some? { TableHasGranules(m); }
    assert m.views == [];
  }

  /** A page table has granules behind it. */
  lemma {:induction false} TableHasGranules(m: GuestMemory.Memory)
    requires m.Valid() && m.dynamic && m.pfns.Some?
    ensures m.granules != []
  {
    assert m.pfns.value[0] / 512 in m.granules;
  }

  method OpenFile(m: GuestMemory.Memory, file: nat, ghost l: Linux) returns (ok: bool, ghost r: Linux)
    requires Describes(l, m) && !l.file && file !in m.files && m.driver
    modifies m`references, m`isOpen, m`files
    ensures Describes(r, m) && r == (if ok then l.(file := true) else l) && Others(m) == old(Others(m))
  {
    var error := m.Open(file);
    ok := error == GuestMemory.Success;
    r := if ok then l.(file := true) else l;
  }

  /** PREPARE of a device with nothing prepared. */
  method Prepare(m: GuestMemory.Memory, request: GuestMemory.Request, ghost l: Linux) returns (ok: bool, ghost r: Linux)
    requires Describes(l, m) && m.live && m.granules == [] && request.list.List?
    modifies m`pfns, m`granules, m`pages, m`guestBase, m`request, m.table
    ensures ok && m.dynamic ==>
              Describes(r, m) && request.token != 0 && r == Prepared(l, request.token, request.list.aliases)
    ensures !ok ==> Describes(r, m) && r == l
    ensures Others(m) == old(Others(m))
  {
    var error := m.Prepare(request);
    ok := error == GuestMemory.Success;
    r := l;
    if ok && m.dynamic {
      r := Prepared(l, request.token, request.list.aliases);
      TableHasGranules(m);
    }
  }

  /** A shared, non-executable mmap of the first count pages. */
  method Map(m: GuestMemory.Memory, file: nat, count: nat, ghost l: Linux) returns (ok: bool, ghost r: Linux)
    requires Describes(l, m) && file in m.files && count > 0
    modifies m`vmas, m`views
    ensures Describes(r, m) && r == (if ok then l.(vmas := l.vmas + 1) else l) && Others(m) == old(Others(m))
    ensures ok ==> count <= m.pages && |m.views| > 0
    ensures ok && m.dynamic && l.granules ==>
              count <= |l.grant| && GuestMemory.Shows(m.views[|m.views| - 1].frames, l.grant[..count])
  {
    var error := m.Mmap(file, true, false, 0, count);
    ok := error == GuestMemory.Success;
    r := if ok then l.(vmas := l.vmas + 1) else l;
  }

  /** munmap of the last mapping. */
  method Unmap(m: GuestMemory.Memory, ghost l: Linux) returns (ghost r: Linux)
    requires Describes(l, m) && l.vmas == 1
    modifies m`vmas, m`views
    ensures Describes(r, m) && r == l.(vmas := 0) && Others(m) == old(Others(m))
  {
    m.VmaClose(0);
    r := l.(vmas := 0);
  }

  /** RELEASE, as `Backend.IoctlRelease` has it. */
  method Release(m: GuestMemory.Memory, ghost l: Linux) returns (ok: bool, ghost r: Linux)
    requires Describes(l, m)
    modifies m`granules, m`pfns, m`firstPfn, m`pages, m.table
    ensures Describes(r, m) && r == (if ok then l.(granules := false) else l) && Others(m) == old(Others(m))
    ensures ok ==> l.vmas == 0 && m.table.refs == Others(m)
    ensures l.vmas != 0 ==> !ok
  {
    var error := m.IoctlRelease();
    ok := error == GuestMemory.Success;
    r := if ok then l.(granules := false) else l;
  }

  /** The last close, as `Backend.RetireMapping` has it. */
  method CloseFile(m: GuestMemory.Memory, file: nat, ghost l: Linux) returns (ghost r: Linux)
    requires Describes(l, m) && m.files == {file} && m.views == [] && m.driver && m.dynamic
    modifies m`references, m`isOpen, m`files, m`granules, m`pfns, m`firstPfn, m`pages, m.table, m.pool
    ensures Describes(r, m) && Others(m) == old(Others(m)) && m.table.refs == Others(m)
    ensures r == l.(file := false, granules := l.granules && l.vmas != 0)
  {
    var destroyed := m.Release(file);
    r := l.(file := false, granules := l.granules && l.vmas != 0);
  }

  /** The stages of `Backend.RetireMapping` on the driver itself: when they get through, the shared
      granules are as if the grant had never been. */
  method Retire(m: GuestMemory.Memory, file: nat, ghost l: Linux) returns (ok: bool, ghost r: Linux)
    requires Describes(l, m) && m.files == {file} && l.vmas <= 1 && m.driver && m.dynamic
    modifies m`vmas, m`views, m`references, m`isOpen, m`files, m`granules, m`pfns, m`firstPfn, m`pages, m.table, m.pool
    ensures Describes(r, m) && r == l.(file := r.file, vmas := 0, granules := r.granules) && Others(m) == old(Others(m))
    ensures ok <==> !r.file
    ensures ok ==> !r.granules && m.table.refs == old(Others(m))
    ensures !ok ==> r.granules == l.granules
  {
    r := l;
    if m.vmas != 0 { r := Unmap(m, r); }
    ok, r := Release(m, r);
    if !ok { return; }
    r := CloseFile(m, file, r);
  }
}
