/**
 The guest-memory device of modules/guest-memory/memory.c: preparing a grant (collect, sort,
 deduplicate in place, acquire, publish or roll back) and the device's life through open,
 mmap, VMA duplication, release, close and removal.

 Granules are named by their 2 MiB index; the registry itself is module Granules.  What the
 kernel may refuse (allocation, page insertion, a granule) is nondeterministic.
 */
module GuestMemory {
  import opened Wrappers
  import opened Layout

  datatype Errno = Success | EINVAL | EBUSY | ENOMEM | EFAULT | ENODEV

  /** The references held on granules, by everybody, as one caller sees them. */
  class GranuleTable {
    var refs: multiset<nat>

    constructor ()
      ensures refs == multiset{}
    {
      refs := multiset{};
    }

    /** `hyper_granule_get`: one more reference, or an error and no change. */
    method Get(index: nat) returns (error: Errno)
      modifies this
      ensures refs == if error == Success then old(refs) + multiset{index} else old(refs)
    {
      error := *;
      if error == Success { refs := refs + multiset{index}; }
    }

    /** `hyper_granules_put` on an array of acquired entries. */
    method Put(indices: seq<nat>)
      requires multiset(indices) <= refs
      modifies this
      ensures refs == old(refs) - multiset(indices)
    {
      refs := refs - multiset(indices);
    }
  }

  // ----- sorting and deduplicating --------------------------------------------------

  predicate Sorted(s: seq<nat>) { forall i, j :: 0 <= i < j < |s| ==> s[i] <= s[j] }

  predicate Increasing(s: seq<nat>) { forall i, j :: 0 <= i < j < |s| ==> s[i] < s[j] }

  function Insert(s: seq<nat>, x: nat): seq<nat> {
    if s == [] || x <= s[0] then [x] + s else [s[0]] + Insert(s[1..], x)
  }

  function SortSeq(s: seq<nat>): seq<nat> {
    if s == [] then [] else Insert(SortSeq(s[1..]), s[0])
  }

  lemma {:induction false} InsertAdds(s: seq<nat>, x: nat)
    ensures multiset(Insert(s, x)) == multiset(s) + multiset{x}
  {
    if s == [] || x <= s[0] {
    } else {
      InsertAdds(s[1..], x);
      assert s == [s[0]] + s[1..];
    }
  }

  lemma {:induction false} InsertSorts(s: seq<nat>, x: nat)
    requires Sorted(s)
    ensures Sorted(Insert(s, x))
  {
    if s == [] || x <= s[0] {
    } else {
      InsertSorts(s[1..], x);
      InsertAdds(s[1..], x);
      var r := Insert(s[1..], x);
      forall k | 0 <= k < |r| ensures s[0] <= r[k] {
        assert r[k] in multiset(r);
        assert r[k] == x || r[k] in s[1..];
      }
    }
  }

  lemma {:induction false} SortSorts(s: seq<nat>)
    ensures Sorted(SortSeq(s)) && multiset(SortSeq(s)) == multiset(s)
  {
    if s != [] {
      SortSorts(s[1..]);
      InsertSorts(SortSeq(s[1..]), s[0]);
      InsertAdds(SortSeq(s[1..]), s[0]);
      assert s == [s[0]] + s[1..];
    }
  }

  /** The kernel's `sort` on the index array. */
  method Sort(a: array<nat>)
    modifies a
    ensures Sorted(a[..]) && multiset(a[..]) == multiset(old(a[..]))
  {
    var s := SortSeq(a[..]);
    SortSorts(a[..]);
    SameSize(s, a[..]);
    forall i | 0 <= i < a.Length { a[i] := s[i]; }
    assert a[..] == s;
  }

  lemma {:induction false} SameSize(s: seq<nat>, t: seq<nat>)
    requires multiset(s) == multiset(t)
    ensures |s| == |t|
  {
    assert |multiset(s)| == |s| && |multiset(t)| == |t|;
  }

  /** The distinct values of a sorted sequence. */
  function Distinct(s: seq<nat>): seq<nat> {
    if s == [] then []
    else
      var rest := Distinct(s[..|s| - 1]);
      if |s| == 1 || s[|s| - 1] != s[|s| - 2] then rest + [s[|s| - 1]] else rest
  }

  lemma {:induction false} DistinctOfSorted(s: seq<nat>)
    requires Sorted(s)
    ensures Increasing(Distinct(s)) && |Distinct(s)| <= |s|
    ensures forall x :: x in Distinct(s) <==> x in s
    ensures s != [] ==> Distinct(s) != [] && Distinct(s)[|Distinct(s)| - 1] == s[|s| - 1]
  {
    if s != [] {
      var init, last := s[..|s| - 1], s[|s| - 1];
      DistinctOfSorted(init);
      assert s == init + [last];
      if |s| > 1 && last == s[|s| - 2] {
        assert init[|init| - 1] == last && Distinct(s) == Distinct(init);
      } else {
        assert Distinct(s) == Distinct(init) + [last];
      }
    }
  }

  /** The in-place pass: it reads entry i and i - 1 while writing at the shrinking front. */
  method Dedup(a: array<nat>) returns (unique: nat)
    requires Sorted(a[..])
    modifies a
    ensures unique <= a.Length && a[..unique] == Distinct(old(a[..]))
  {
    unique := 0;
    ghost var was := a[..];
    for i := 0 to a.Length
      invariant unique <= i
      invariant a[..unique] == Distinct(was[..i])
      invariant i > 0 ==> a[i - 1] == was[i - 1]
      invariant forall k :: i <= k < a.Length ==> a[k] == was[k]
    {
      assert was[..i + 1][..i] == was[..i];
      if i == 0 || a[i] != a[i - 1] {
        a[unique] := a[i];
        unique := unique + 1;
      }
    }
    assert was[..a.Length] == was;
  }

  // ----- collecting and acquiring ---------------------------------------------------

  /** Frame i is the frame of the page at address aliases[i], in request order. */
  predicate Shows(frames: seq<nat>, aliases: seq<nat>) {
    |frames| == |aliases| && forall i :: 0 <= i < |frames| ==> frames[i] * 4096 == aliases[i]
  }

  /** The granules of the pages: index i of 2 MiB holds the bytes from 2 MiB * i on. */
  predicate Granulates(indices: seq<nat>, aliases: seq<nat>) {
    && |indices| == |aliases|
    && forall i :: 0 <= i < |indices| ==> indices[i] * 0x20_0000 <= aliases[i] < (indices[i] + 1) * 0x20_0000
  }

  method Collect(aliases: seq<Word>, start: Word, end: Word, pfns: array<nat>, indices: array<nat>) returns (ok: bool)
    requires pfns.Length == indices.Length == |aliases| && pfns != indices
    modifies pfns, indices
    ensures ok <==> forall i :: 0 <= i < |aliases| ==> PageAperture(aliases[i], start, end)
    ensures ok ==> Shows(pfns[..], aliases) && Granulates(indices[..], aliases)
  {
    for i := 0 to |aliases|
      invariant forall k :: 0 <= k < i ==> PageAperture(aliases[k], start, end)
      invariant forall k :: 0 <= k < i ==> pfns[k] * 4096 == aliases[k]
      invariant forall k :: 0 <= k < i ==> indices[k] * 0x20_0000 <= aliases[k] < (indices[k] + 1) * 0x20_0000
    {
      if !PageAperture(aliases[i], start, end) { return false; }
      pfns[i] := aliases[i] / PAGE;
      indices[i] := aliases[i] / GRANULE;
    }
    return true;
  }

  /** Acquires one granule after the other; on failure `ready` says how many it got. */
  method Acquire(indices: seq<nat>, table: GranuleTable) returns (ready: nat, error: Errno)
    modifies table
    ensures ready <= |indices| && (error == Success <==> ready == |indices|)
    ensures table.refs == old(table.refs) + multiset(indices[..ready])
  {
    ready := 0;
    error := Success;
    while ready < |indices|
      invariant ready <= |indices| && error == Success
      invariant table.refs == old(table.refs) + multiset(indices[..ready])
    {
      error := table.Get(indices[ready]);
      if error != Success { return; }
      assert indices[..ready + 1] == indices[..ready] + [indices[ready]];
      ready := ready + 1;
    }
  }

  /** A table of page frames backed by exactly the granules that contain them. */
  ghost predicate Backed(pfns: seq<nat>, granules: seq<nat>) {
    && Increasing(granules)
    && (forall i :: 0 <= i < |pfns| ==> pfns[i] / 512 in granules)
    && (forall g :: g in granules ==> exists i :: 0 <= i < |pfns| && pfns[i] / 512 == g)
  }

  /** The granules are, without duplicates, exactly those of 2 MiB that contain one of the pages. */
  ghost predicate Covers(granules: seq<nat>, aliases: seq<nat>) {
    && Increasing(granules)
    && (forall i :: 0 <= i < |aliases| ==> aliases[i] / 0x20_0000 in granules)
    && (forall g :: g in granules ==> exists i :: 0 <= i < |aliases| && aliases[i] / 0x20_0000 == g)
  }

  lemma {:induction false} BackedCovers(aliases: seq<nat>, frames: seq<nat>, granules: seq<nat>)
    requires Shows(frames, aliases) && Backed(frames, granules)
    ensures Covers(granules, aliases)
  {
    forall i | 0 <= i < |aliases| ensures aliases[i] / 0x20_0000 == frames[i] / 512 {
      assert frames[i] * 4096 == aliases[i];
    }
    forall g | g in granules ensures exists i :: 0 <= i < |aliases| && aliases[i] / 0x20_0000 == g {
      var i :| 0 <= i < |frames| && frames[i] / 512 == g;
      assert aliases[i] / 0x20_0000 == g;
    }
  }

  lemma {:induction false} CollectedIsBacked(aliases: seq<nat>, frames: seq<nat>, indices: seq<nat>, sorted: seq<nat>)
    requires Shows(frames, aliases) && Granulates(indices, aliases)
    requires Sorted(sorted) && multiset(sorted) == multiset(indices)
    ensures Backed(frames, Distinct(sorted))
  {
    DistinctOfSorted(sorted);
    forall x ensures x in sorted <==> x in indices {
      assert x in multiset(sorted) <==> x in multiset(indices);
    }
    forall i | 0 <= i < |frames| ensures frames[i] / 512 == indices[i] {
      assert indices[i] * 0x20_0000 <= aliases[i] < (indices[i] + 1) * 0x20_0000;
    }
    forall i | 0 <= i < |frames| ensures frames[i] / 512 in Distinct(sorted) {
      assert indices[i] in indices;
    }
    forall g | g in Distinct(sorted) ensures exists i :: 0 <= i < |frames| && frames[i] / 512 == g {
      assert g in indices;
      var i :| 0 <= i < |indices| && indices[i] == g;
      assert frames[i] / 512 == g;
    }
  }

  /** Frames in request order and the distinct granule indices, if all pages are admissible. */
  method PageTable(aliases: seq<Word>, start: Word, end: Word)
    returns (inside: bool, frames: seq<nat>, distinct: seq<nat>)
    ensures inside <==> forall i :: 0 <= i < |aliases| ==> PageAperture(aliases[i], start, end)
    ensures inside ==> Shows(frames, aliases) && Backed(frames, distinct) && Covers(distinct, aliases)
  {
    var pfns, indices := new nat[|aliases|](_ => 0), new nat[|aliases|](_ => 0);
    inside := Collect(aliases, start, end, pfns, indices);
    if !inside { return false, [], []; }
    frames := pfns[..];
    ghost var collected := indices[..];
    Sort(indices);
    CollectedIsBacked(aliases, frames, collected, indices[..]);
    var unique := Dedup(indices);
    distinct := indices[..unique];
    BackedCovers(aliases, frames, distinct);
  }

  /** The middle of `hyper_memory_prepare`: a page table with the granules behind it, or an
      error with every granule acquired so far given back. */
  method BuildGrant(aliases: seq<Word>, start: Word, end: Word, table: GranuleTable)
    returns (error: Errno, frames: seq<nat>, acquired: seq<nat>)
    modifies table
    ensures error != Success ==> table.refs == old(table.refs)
    ensures error == Success ==>
              && (forall i :: 0 <= i < |aliases| ==> PageAperture(aliases[i], start, end))
              && Shows(frames, aliases) && Backed(frames, acquired) && Covers(acquired, aliases)
              && table.refs == old(table.refs) + multiset(acquired)
    ensures error == EINVAL <== !(forall i :: 0 <= i < |aliases| ==> PageAperture(aliases[i], start, end))
  {
    var inside;
    inside, frames, acquired := PageTable(aliases, start, end);
    if !inside { return EINVAL, [], []; }
    var memory: bool := *;
    if !memory { return ENOMEM, [], []; }
    var ready;
    ready, error := Acquire(acquired, table);
    if error != Success {
      table.Put(acquired[..ready]);
    } else {
      assert acquired[..ready] == acquired;
    }
  }

  // ----- the device -----------------------------------------------------------------

  lemma {:induction false} EmptyOrNot<T>(s: seq<T>)
    ensures s == [] || exists x :: x in s
  {
    if s != [] { assert s[0] in s; }
  }

  /** The page pointer of a request: null, one that cannot be read, or the list behind it. */
  datatype PageList = Null | Unreadable | List(aliases: seq<Word>)

  /** `struct hyper_memory_prepare`. */
  datatype Request = Request(alias: Word, guestBase: Word, length: Word, token: Word, count: nat, reserved: nat,
                             list: PageList)

  /** One VMA: the file it was made from and the page frames inserted into it. */
  datatype View = View(file: nat, first: nat, frames: seq<nat>)

  predicate ShapeOk(r: Request) {
    && r.length != 0 && r.length % PAGE == 0 && r.guestBase % PAGE == 0 && r.reserved == 0
    && r.guestBase <= U64 - 1 - r.length
  }

  predicate GrantOk(r: Request) {
    r.token != 0 && r.count != 0 && r.count <= MAX_GRANT_PAGES && r.count == r.length / PAGE
  }

  /** The requests a dynamic device takes up: a token, and one to 2^20 whole pages, as many as the
      length says, that end below 2^64. */
  lemma {:induction false} GrantShapeIff(r: Request)
    ensures ShapeOk(r) && GrantOk(r) <==>
              && r.token != 0 && 1 <= r.count <= 0x10_0000 && r.length == 4096 * r.count && r.guestBase % 4096 == 0
              && r.guestBase + r.length < 0x1_0000_0000_0000_0000 && r.reserved == 0
  {
  }

  function Span(first: nat, n: nat): seq<nat> { seq(n, i requires 0 <= i => first + i) }

  lemma {:induction false} SpanGrows(first: nat, n: nat)
    ensures multiset(Span(first, n + 1)) == multiset(Span(first, n)) + multiset([first + n])
  {
    assert Span(first, n + 1) == Span(first, n) + [first + n];
  }

  lemma {:induction false} SpanTaken(refs: multiset<nat>, first: nat, n: nat)
    ensures refs + multiset(Span(first, n)) + multiset([first + n]) == refs + multiset(Span(first, n + 1))
    ensures multiset(Span(first, n)) <= refs ==> multiset(Span(first, n + 1)) <= refs + multiset([first + n])
  {
    SpanGrows(first, n);
  }

  lemma {:induction false} TakenAndReturned(refs: multiset<nat>, taken: multiset<nat>)
    ensures refs + taken - taken == refs
  {
  }

  /** The references held on ordinary pages. */
  class PagePool {
    var refs: multiset<nat>

    constructor ()
      ensures refs == multiset{}
    {
      refs := multiset{};
    }

    /** `get_page_unless_zero` after the page was found usable. */
    method Get(page: nat)
      modifies this
      ensures refs == old(refs) + multiset([page])
    {
      refs := refs + multiset([page]);
    }

    /** The `put_page` loop of `hyper_memory_destroy`. */
    method PutAll(first: nat, n: nat)
      requires multiset(Span(first, n)) <= refs
      modifies this
      ensures refs == old(refs) - multiset(Span(first, n))
    {
      for index := 0 to n
        invariant refs == old(refs) - multiset(Span(first, index))
      {
        SpanGrows(first, index);
        refs := refs - multiset([first + index]);
      }
    }
  }

  class Memory {
    const dynamic: bool
    const start: Word
    const end: Word
    const table: GranuleTable
    const pool: PagePool
    var live: bool
    var isOpen: bool
    var vmas: nat
    var firstPfn: nat
    var pages: nat
    var pfns: Option<seq<nat>>
    var granules: seq<nat>
    var guestBase: nat
    var references: nat
    /** What the kernel around the driver knows: open files, their VMAs, the driver's reference. */
    ghost var files: set<nat>
    ghost var views: seq<View>
    ghost var driver: bool
    /** The page addresses of the request that was prepared. */
    ghost var request: seq<nat>

    ghost function PageAt(i: nat): nat
      reads this
    {
      if dynamic then (if pfns.Some? && i < |pfns.value| then pfns.value[i] else 0) else firstPfn + i
    }

    /** The VMA still shows the pages of the current table. */
    ghost predicate Current(v: View)
      reads this
    {
      && v.file in files && 0 < |v.frames| && v.first + |v.frames| <= pages
      && forall k :: 0 <= k < |v.frames| ==> v.frames[k] == PageAt(v.first + k)
    }

    ghost predicate TableOk()
      reads this
    {
      if dynamic then
        match pfns
        case None => pages == 0 && granules == []
        case Some(frames) => pages == |frames| > 0 && Backed(frames, granules) && Shows(frames, request)
      else pfns == None && granules == []
    }

    ghost predicate Valid()
      reads this, table, pool
    {
      Sound() && references == |files| + (if driver then 1 else 0) && references > 0
    }

    /** Everything but the count of references to the object itself. */
    ghost predicate Sound()
      reads this, table, pool
    {
      Apart() && (!dynamic ==> multiset(Span(firstPfn, pages)) <= pool.refs)
    }

    /** The part that needs no page references. */
    ghost predicate Apart()
      reads this, table
    {
      && vmas == |views| && (forall v :: v in views ==> Current(v))
      && TableOk()
      && multiset(granules) <= table.refs
      && (dynamic ==> |files| <= 1 && (isOpen <==> files != {}))
      && (live ==> driver)
    }

    /** While a VMA exists, every page it shows is in the table and its granule is held. */
    lemma {:induction false} ViewsAreHeld(v: View, k: nat)
      requires Valid() && v in views && k < |v.frames|
      ensures v.first + k < pages
      ensures dynamic ==> v.first + k < |request| && v.frames[k] * 4096 == request[v.first + k]
      ensures !dynamic ==> v.frames[k] == firstPfn + v.first + k
      ensures dynamic ==> v.frames[k] / 512 in granules && v.frames[k] / 512 in table.refs
      ensures !dynamic ==> v.frames[k] in pool.refs
    {
      assert Current(v);
      if dynamic {
        assert v.frames[k] / 512 in granules;
        assert v.frames[k] / 512 in multiset(granules);
      } else {
        assert Span(firstPfn, pages)[v.first + k] == v.frames[k];
        assert v.frames[k] in multiset(Span(firstPfn, pages));
      }
    }

    /** `hyper_memory_unprepare`.  Never called while a VMA of a dynamic device exists. */
    method Unprepare()
      requires TableOk() && multiset(granules) <= table.refs
      modifies this`granules, this`pfns, this`firstPfn, this`pages, table
      ensures granules == [] && pfns == None
      ensures table.refs == old(table.refs) - multiset(old(granules))
      ensures if dynamic then firstPfn == 0 && pages == 0 else firstPfn == old(firstPfn) && pages == old(pages)
    {
      table.Put(granules);
      granules := [];
      pfns := None;
      if dynamic { firstPfn := 0; pages := 0; }
    }

    /** `hyper_memory_prepare`. */
    method Prepare(r: Request) returns (error: Errno)
      requires Valid() && live
      modifies this`pfns, this`granules, this`pages, this`guestBase, this`request, table
      ensures Valid()
      ensures error != Success || !dynamic ==>
                unchanged(this) && table.refs == old(table.refs)
      ensures !dynamic ==> (error == Success <==>
                ShapeOk(r) && r.token == 0 && r.count == 0 && r.list.Null?
                && r.alias == firstPfn * PAGE && r.length <= pages * PAGE)
      ensures dynamic && error == Success ==>
                && ShapeOk(r) && GrantOk(r) && r.alias == 0 && old(pfns) == None
                && r.list.List? && |r.list.aliases| == r.count && pages == r.count && guestBase == r.guestBase
                && pfns.Some? && Shows(pfns.value, r.list.aliases) && request == r.list.aliases
                && (forall i :: 0 <= i < r.count ==> PageAperture(r.list.aliases[i], start, end))
                && Covers(granules, r.list.aliases)
                && table.refs == old(table.refs) + multiset(granules)
      ensures dynamic && ShapeOk(r) && GrantOk(r) && old(pfns).Some? ==> error == EBUSY
      ensures error == EINVAL <== !ShapeOk(r) || (dynamic && !GrantOk(r))
      ensures dynamic && ShapeOk(r) && GrantOk(r) && old(pfns).None? && !r.list.List? ==> error in {ENOMEM, EFAULT}
    {
      if !ShapeOk(r) { return EINVAL; }
      if !dynamic {
        if r.token == 0 && r.count == 0 && r.list.Null? && r.alias == firstPfn * PAGE && r.length <= pages * PAGE {
          return Success;
        }
        return EINVAL;
      }
      if !GrantOk(r) { return EINVAL; }
      if pfns.Some? { return EBUSY; }
      var memory: bool := *;
      if !memory { return ENOMEM; }
      if !r.list.List? || |r.list.aliases| != r.count { return EFAULT; }
      if r.alias != 0 { return EINVAL; }
      var frames, acquired;
      error, frames, acquired := BuildGrant(r.list.aliases, start, end, table);
      if error != Success { return; }
      // Publish only after every page and granule has been admitted.
      Publish(frames, acquired, r.guestBase, r.list.aliases);
    }

    /** The end of `hyper_memory_prepare`: all four fields change together. */
    method Publish(frames: seq<nat>, acquired: seq<nat>, base: nat, ghost aliases: seq<nat>)
      requires Valid() && dynamic && pfns == None && multiset(acquired) <= table.refs
      requires frames != [] && Backed(frames, acquired) && Shows(frames, aliases)
      modifies this`pfns, this`granules, this`pages, this`guestBase, this`request
      ensures Valid() && pfns == Some(frames) && granules == acquired && pages == |frames|
      ensures guestBase == base && request == aliases
    {
      NoViews();
      pfns := Some(frames);
      granules := acquired;
      pages := |frames|;
      guestBase := base;
      request := aliases;
    }

    lemma {:induction false} NoViews()
      requires Valid() && pages == 0
      ensures views == []
    {
      EmptyOrNot(views);
    }

    /** `hyper_memory_open` on a file the kernel has just made. */
    method Open(file: nat) returns (error: Errno)
      requires Valid() && file !in files && driver
      modifies this`references, this`isOpen, this`files
      ensures Valid()
      ensures error == if !live then ENODEV else if dynamic && old(files) != {} then EBUSY else Success
      ensures files == if error == Success then old(files) + {file} else old(files)
    {
      if !live { return ENODEV; }
      if dynamic && isOpen { return EBUSY; }
      references := references + 1;
      isOpen := true;
      files := files + {file};
      return Success;
    }

    /** `hyper_memory_mmap`: the VMA shows a slice of the table, or nothing is mapped. */
    method Mmap(file: nat, shared_: bool, exec: bool, first: nat, count: nat) returns (error: Errno)
      requires Valid() && file in files && count > 0
      modifies this`vmas, this`views
      ensures Valid()
      ensures error == EINVAL <==> !shared_ || exec || first + count > pages
      ensures error == ENODEV <==> shared_ && !exec && first + count <= pages && !live
      ensures error in {Success, EINVAL, ENODEV, ENOMEM}
      ensures error != Success ==> views == old(views)
      ensures error == Success ==> live
      ensures error == Success ==>
                |views| == |old(views)| + 1 && views[..|old(views)|] == old(views)
                && var v := views[|old(views)|];
                   && v.file == file && v.first == first && |v.frames| == count && first + count <= pages
                   && (dynamic ==> |request| == pages && Shows(v.frames, request[first..first + count]))
                   && (!dynamic ==> v.frames == Span(firstPfn + first, count))
    {
      if !shared_ || exec { return EINVAL; }
      if first >= pages || count > pages - first { return EINVAL; }
      if !live { return ENODEV; }
      var inserted;
      ghost var frames;
      inserted, frames := InsertPages(first, count);
      if !inserted { return ENOMEM; }
      AddView(View(file, first, frames));
      return Success;
    }

    /** One more VMA that shows pages of the current table. */
    method AddView(ghost v: View)
      requires Valid() && Current(v)
      modifies this`vmas, this`views
      ensures Valid() && views == old(views) + [v]
    {
      views := views + [v];
      vmas := vmas + 1;
    }

    /** The loop of `hyper_memory_mmap`: any page may fail to go in. */
    method InsertPages(first: nat, count: nat) returns (ok: bool, ghost frames: seq<nat>)
      requires TableOk() && first + count <= pages
      ensures ok ==> |frames| == count && forall k :: 0 <= k < count ==> frames[k] == PageAt(first + k)
    {
      frames := [];
      for index := 0 to count
        invariant |frames| == index && forall k :: 0 <= k < index ==> frames[k] == PageAt(first + k)
      {
        var pfn := if dynamic then pfns.value[first + index] else firstPfn + first + index;
        ok := *;
        if !ok { return; }
        frames := frames + [pfn];
      }
      ok := true;
    }

    /** `hyper_vma_open`: the kernel duplicates or splits an existing VMA. */
    method VmaOpen(ghost v: View)
      requires Valid() && v in views
      modifies this`vmas, this`views
      ensures Valid() && views == old(views) + [v]
    {
      AddView(v);
    }

    /** `hyper_vma_close` of the VMA at position i. */
    method VmaClose(ghost i: nat)
      requires Valid() && i < |views|
      modifies this`vmas, this`views
      ensures Valid() && views == old(views)[..i] + old(views)[i + 1..]
    {
      ghost var was := views;
      views := was[..i] + was[i + 1..];
      vmas := vmas - 1;
      assert forall v :: v in views ==> v in was;
    }

    /** The RELEASE ioctl: refused while any VMA exists, otherwise all granules go back. */
    method IoctlRelease() returns (error: Errno)
      requires Valid()
      modifies this`granules, this`pfns, this`firstPfn, this`pages, table
      ensures Valid()
      ensures error == if !live then ENODEV else if views != [] then EBUSY else Success
      ensures error != Success ==> unchanged(this) && unchanged(table)
      ensures error == Success ==>
                granules == [] && pfns == None && table.refs == old(table.refs) - multiset(old(granules))
      ensures error == Success && dynamic ==> pages == 0
      ensures !dynamic ==> firstPfn == old(firstPfn) && pages == old(pages)
    {
      if !live { return ENODEV; }
      if vmas != 0 { return EBUSY; }
      Unprepare();
      return Success;
    }

    /** `hyper_memory_release`, the last close of a file.  A VMA keeps its file alive, so the
        kernel calls this only for a file without VMAs.  Returns whether the object died. */
    method Release(file: nat) returns (destroyed: bool)
      requires Valid() && file in files && forall v :: v in views ==> v.file != file
      modifies this`references, this`isOpen, this`files, this`granules, this`pfns, this`firstPfn, this`pages
      modifies table, pool
      ensures files == old(files) - {file} && driver == old(driver)
      ensures destroyed <==> !old(driver) && old(files) == {file}
      ensures !destroyed ==> Valid() && views == old(views) && pool.refs == old(pool.refs)
      ensures dynamic ==> granules == [] && pfns == None && table.refs == old(table.refs) - multiset(old(granules))
      ensures !dynamic ==> table.refs == old(table.refs)
      ensures destroyed && !dynamic ==> pool.refs == old(pool.refs) - multiset(Span(old(firstPfn), old(pages)))
      ensures destroyed ==> views == []
    {
      ghost var others := files - {file};
      assert |others| == |files| - 1 && (others == {} <==> files == {file});
      DetachFile(file);
      destroyed := DropReference();
    }

    /** Everything the last close does before it drops the object reference. */
    method DetachFile(file: nat)
      requires Valid() && file in files && forall v :: v in views ==> v.file != file
      modifies this`isOpen, this`files, this`granules, this`pfns, this`firstPfn, this`pages, table
      ensures Sound() && files == old(files) - {file}
      ensures files == {} ==> views == []
      ensures dynamic ==> granules == [] && pfns == None && table.refs == old(table.refs) - multiset(old(granules))
      ensures !dynamic ==>
                table.refs == old(table.refs) && firstPfn == old(firstPfn) && pages == old(pages) && granules == []
    {
      if dynamic { OnlyFile(file); } else if files == {file} { LastFile(file); }
      if dynamic { Unprepare(); }
      isOpen := false;
      files := files - {file};
    }

    lemma {:induction false} LastFile(file: nat)
      requires Valid() && files == {file} && forall v :: v in views ==> v.file != file
      ensures views == []
    {
      assert forall v :: v in views ==> v.file in files;
      EmptyOrNot(views);
    }

    /** A dynamic device has one file, so a file without VMAs leaves none at all. */
    lemma {:induction false} OnlyFile(file: nat)
      requires Valid() && file in files && dynamic && forall v :: v in views ==> v.file != file
      ensures views == [] && files == {file}
    {
      assert |files - {file}| == 0;
      assert files - {file} == {};
      assert forall v :: v in views ==> v.file in files - {file};
      EmptyOrNot(views);
    }

    /** `kref_put`: the last reference destroys the object. */
    method DropReference() returns (destroyed: bool)
      requires references > 0 && Sound()
      modifies this`references, this`granules, this`pfns, this`firstPfn, this`pages, table, pool
      ensures references == old(references) - 1 && (destroyed <==> references == 0)
      ensures !destroyed ==>
                Sound() && unchanged(this`granules, this`pfns, this`firstPfn, this`pages) && unchanged(table, pool)
      ensures destroyed ==> granules == [] && pfns == None && table.refs == old(table.refs) - multiset(old(granules))
      ensures destroyed && dynamic ==> pool.refs == old(pool.refs)
      ensures destroyed && !dynamic ==> pool.refs == old(pool.refs) - multiset(Span(old(firstPfn), old(pages)))
    {
      references := references - 1;
      destroyed := references == 0;
      if destroyed { Destroy(); }
    }

    /** `hyper_memory_destroy`: drops exactly the page references taken so far. */
    method Destroy()
      requires TableOk() && multiset(granules) <= table.refs
      requires !dynamic ==> multiset(Span(firstPfn, pages)) <= pool.refs
      modifies this`granules, this`pfns, this`firstPfn, this`pages, table, pool
      ensures granules == [] && pfns == None && table.refs == old(table.refs) - multiset(old(granules))
      ensures pool.refs
              == if dynamic then old(pool.refs) else old(pool.refs) - multiset(Span(old(firstPfn), old(pages)))
    {
      Unprepare();
      if !dynamic { pool.PutAll(firstPfn, pages); }
    }

    /** Probe of a dynamic slot: no pages, one driver reference. */
    constructor Dynamic(start: Word, end: Word, table: GranuleTable, pool: PagePool)
      ensures Valid() && dynamic && live && views == [] && files == {} && granules == []
      ensures this.table == table && this.pool == pool
    {
      this.dynamic, this.start, this.end, this.table, this.pool := true, start, end, table, pool;
      live, isOpen, vmas, firstPfn, pages := true, false, 0, 0, 0;
      pfns, granules, guestBase, references := None, [], 0, 1;
      files, views, driver, request := {}, [], true, [];
    }

    /** A static device before its pages are retained. */
    constructor Static(start: Word, first: nat, table: GranuleTable, pool: PagePool)
      ensures Valid() && !dynamic && !live && views == [] && files == {} && granules == []
      ensures firstPfn == first && pages == 0 && references == 1 && driver
      ensures this.table == table && this.pool == pool
    {
      this.dynamic, this.start, this.end, this.table, this.pool := false, start, start, table, pool;
      live, isOpen, vmas, firstPfn, pages := false, false, 0, first, 0;
      pfns, granules, guestBase, references := None, [], first * PAGE, 1;
      files, views, driver, request := {}, [], true, [];
      new;
      assert Span(firstPfn, 0) == [];
    }

    method RetainPage()
      requires Sound() && !dynamic && views == []
      modifies this`pages, pool
      ensures Sound() && pages == old(pages) + 1 && pool.refs == old(pool.refs) + multiset([firstPfn + old(pages)])
    {
      SpanTaken(pool.refs, firstPfn, pages);
      pool.Get(firstPfn + pages);
      pages := pages + 1;
      assert Apart();
    }

    /** The loop of a static probe; it stops at the first page that cannot be retained. */
    method RetainPages(total: nat)
      requires Sound() && !dynamic && pages == 0 && views == []
      modifies this`pages, pool
      ensures Sound() && pages <= total
      ensures pool.refs == old(pool.refs) + multiset(Span(firstPfn, pages))
    {
      assert Span(firstPfn, 0) == [];
      while pages < total
        invariant Sound() && pages <= total
        invariant pool.refs == old(pool.refs) + multiset(Span(firstPfn, pages))
      {
        var usable: bool := *;
        if !usable { return; }
        SpanTaken(old(pool.refs), firstPfn, pages);
        RetainPage();
      }
    }

    /** The rest of a static probe: retain every page, then register.  A probe that fails at any
        page or at registration gives back exactly what it took. */
    method Retain(total: nat) returns (ok: bool)
      requires Valid() && !dynamic && !live && pages == 0 && references == 1
      requires driver && views == [] && files == {} && granules == []
      modifies this, table, pool
      ensures ok ==> Valid() && live && pages == total && firstPfn == old(firstPfn)
      ensures ok ==> pool.refs == old(pool.refs) + multiset(Span(firstPfn, total))
      ensures !ok ==> pool.refs == old(pool.refs) && references == 0
      ensures table.refs == old(table.refs)
    {
      RetainPages(total);
      TakenAndReturned(old(pool.refs), multiset(Span(firstPfn, pages)));
      var registered: bool := *;
      if pages < total || !registered {
        var _ := DropReference();
        return false;
      }
      live := true;
      return true;
    }

    /** `hyper_memory_remove`: open files and their VMAs outlive the driver's reference. */
    method Remove() returns (destroyed: bool)
      requires Valid() && driver
      modifies this`live, this`driver, this`references, this`granules, this`pfns, this`firstPfn, this`pages, table, pool
      ensures !live && !driver && files == old(files)
      ensures destroyed <==> old(files) == {}
      ensures !destroyed ==> Valid() && views == old(views) && granules == old(granules) && unchanged(table, pool)
      ensures destroyed ==> table.refs == old(table.refs) - multiset(old(granules))
      ensures destroyed && !dynamic ==> pool.refs == old(pool.refs) - multiset(Span(old(firstPfn), old(pages)))
    {
      Retract();
      destroyed := DropReference();
      ghost var alive := !destroyed && Valid();
      assert destroyed || alive;
    }

    /** The driver gives up the device and its own claim on the object. */
    method Retract()
      requires Valid() && driver
      modifies this`live, this`driver
      ensures Sound() && !live && !driver && references == |files| + 1
    {
      live := false;
      driver := false;
      assert Apart();
    }
  }
}
