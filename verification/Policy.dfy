/**
 Block range authority: the arithmetic checks of include/hyper_block_policy.h and the change
 of units of `mapper_create`, on 64-bit words.
 */
module Policy {
  import opened Layout

  /** A binding; the service keeps disk 0 for "none". */
  datatype Range = Range(disk: Word, first: Word, count: Word, readOnly: nat)

  const UNBOUND := Range(0, 0, 0, 0)

  /** What `n & (n - 1)` being zero means for a positive n. */
  predicate PowerOfTwo(n: nat) { n == 1 || (n > 1 && n % 2 == 0 && PowerOfTwo(n / 2)) }

  predicate SectorOk(sector: nat) { 512 <= sector <= 65536 && PowerOfTwo(sector) }

  /** `hyper_block_range_valid`. */
  predicate RangeValid(bytes: Word, sector: nat, diskReadOnly: bool, r: Range) {
    && SectorOk(sector) && bytes != 0 && bytes % sector == 0 && r.disk != 0 && r.count != 0
    && r.readOnly <= 1 && !(diskReadOnly && r.readOnly == 0)
    && r.first < bytes / sector && r.count <= bytes / sector - r.first
  }

  /** `hyper_block_ranges_conflict`; its sums wrap. */
  predicate Conflict(a: Range, b: Range) {
    && a.disk != 0 && a.disk == b.disk && (a.readOnly == 0 || b.readOnly == 0)
    && a.first < (b.first + b.count) % U64 && b.first < (a.first + a.count) % U64
  }

  /** `hyper_block_read_valid`. */
  predicate ReadValid(bytes: Word, sector: nat, offset: Word, length: Word, memoryBytes: Word, memoryOffset: Word) {
    && sector != 0 && length != 0 && length <= MAX_READ && offset % sector == 0 && length % sector == 0
    && length <= bytes && offset <= bytes - length && length <= memoryBytes && memoryOffset <= memoryBytes - length
  }

  predicate Covers(r: Range, sector: nat) { r.first <= sector < r.first + r.count }

  /** Which ranges a disk allows: on a disk of whole sectors of 512 bytes to 64 KiB, every nonempty
      range that ends inside it, writable only if the disk is. */
  lemma {:induction false} RangeValidIff(bytes: Word, sector: nat, diskReadOnly: bool, r: Range)
    ensures RangeValid(bytes, sector, diskReadOnly, r) <==>
              && sector in {512, 1024, 2048, 4096, 8192, 16384, 32768, 65536} && bytes > 0 && bytes % sector == 0
              && r.disk != 0 && r.count != 0 && r.readOnly in {0, 1} && (diskReadOnly ==> r.readOnly == 1)
              && (r.first + r.count) * sector <= bytes
  {
    SectorIff(sector);
    if SectorOk(sector) && bytes % sector == 0 {
      assert bytes == (bytes / sector) * sector;
      if r.first + r.count <= bytes / sector {
        MulMono(r.first + r.count, bytes / sector, sector);
      } else {
        MulMono(bytes / sector + 1, r.first + r.count, sector);
      }
    }
  }

  lemma {:induction false} SectorIff(sector: nat)
    ensures SectorOk(sector) <==> sector in {512, 1024, 2048, 4096, 8192, 16384, 32768, 65536}
  {
    if SectorOk(sector) {
      SectorIsWhole(sector);
      Eighth(sector);
      Eighth(sector / 8);
      Eighth(sector / 8 / 8);
      var k := sector / 8 / 8 / 8;
      assert sector == 512 * k && 1 <= k <= 128 && PowerOfTwo(k);
      SmallPowers(k);
    } else if sector in {512, 1024, 2048, 4096, 8192, 16384, 32768, 65536} {
      PowersUp();
    }
  }

  lemma {:induction false} SmallPowers(k: nat)
    requires 1 <= k <= 128 && PowerOfTwo(k)
    ensures k in {1, 2, 4, 8, 16, 32, 64, 128}
  {
    if k >= 8 {
      Eighth(k);
      var j := k / 8;
      if j >= 8 { Eighth(j); }
    }
  }

  lemma {:induction false} PowersUp()
    ensures PowerOfTwo(512) && PowerOfTwo(1024) && PowerOfTwo(2048) && PowerOfTwo(4096)
    ensures PowerOfTwo(8192) && PowerOfTwo(16384) && PowerOfTwo(32768) && PowerOfTwo(65536)
  {
    assert PowerOfTwo(1) && PowerOfTwo(2) && PowerOfTwo(4) && PowerOfTwo(8) && PowerOfTwo(16);
    assert PowerOfTwo(32) && PowerOfTwo(64) && PowerOfTwo(128) && PowerOfTwo(256);
  }

  /** What the test should say about two ranges of one disk. */
  ghost predicate TestIsExact(a: Range, b: Range) {
    Conflict(a, b) <==> (a.readOnly == 0 || b.readOnly == 0) && exists s :: Covers(a, s) && Covers(b, s)
  }

  /** On ranges that lie inside a disk the test says exactly: a sector in common and a writer. */
  lemma {:induction false} ConflictIffShared(bytes: Word, sector: nat, roA: bool, roB: bool, a: Range, b: Range)
    requires RangeValid(bytes, sector, roA, a) && RangeValid(bytes, sector, roB, b) && a.disk == b.disk
    ensures TestIsExact(a, b)
  {
    EndFits(bytes, sector, roA, a);
    EndFits(bytes, sector, roB, b);
    UnwrappedIsExact(a, b);
  }

  lemma {:induction false} UnwrappedIsExact(a: Range, b: Range)
    requires a.disk == b.disk != 0 && a.count > 0 && b.count > 0 && a.first + a.count < U64 && b.first + b.count < U64
    ensures TestIsExact(a, b)
  {
    assert (a.first + a.count) % U64 == a.first + a.count && (b.first + b.count) % U64 == b.first + b.count;
    MeetIffShared(a, b);
  }

  /** Two ranges without a wrap have a sector in common exactly when each starts before the
      other ends. */
  lemma {:induction false} MeetIffShared(a: Range, b: Range)
    requires a.count > 0 && b.count > 0
    ensures a.first < b.first + b.count && b.first < a.first + a.count <==> exists s :: Covers(a, s) && Covers(b, s)
  {
    var s := if a.first < b.first then b.first else a.first;
    if a.first < b.first + b.count && b.first < a.first + a.count {
      assert Covers(a, s) && Covers(b, s);
    }
  }

  lemma {:induction false} EndFits(bytes: Word, sector: nat, readOnly: bool, r: Range)
    requires RangeValid(bytes, sector, readOnly, r)
    ensures r.first + r.count <= bytes / sector && r.first + r.count < U64
  {
    SectorsFit(bytes, sector);
  }

  /** A range of the same disk that ends below 2^64. */
  predicate Partner(a: Range, b: Range) {
    b.disk == a.disk && b.count > 0 && b.first + b.count < U64
  }

  /** Why validation has to come first: the test is exact against every range that does not wrap
      if and only if the tested range does not wrap either. */
  lemma {:induction false} ExactIffNoWrap(a: Range)
    requires a.disk != 0 && a.count > 0 && a.first < U64 - 1
    ensures (forall b: Range :: Partner(a, b) ==> TestIsExact(a, b)) <==> a.first + a.count < U64
  {
    if a.first + a.count < U64 {
      forall b: Range | Partner(a, b) ensures TestIsExact(a, b) {
        UnwrappedIsExact(a, b);
      }
    } else {
      var b := Range(a.disk, a.first, 1, 0);
      assert Covers(a, a.first) && Covers(b, a.first);
      assert Partner(a, b) && !TestIsExact(a, b);
    }
  }

  lemma {:induction false} ConflictIsSymmetric(a: Range, b: Range)
    ensures Conflict(a, b) == Conflict(b, a)
  {
  }

  lemma {:induction false} SectorsFit(bytes: Word, sector: nat)
    requires sector >= 1
    ensures bytes / sector <= bytes < U64 && (bytes / sector) * sector <= bytes
  {
    assert bytes == (bytes / sector) * sector + bytes % sector;
    Grows(bytes / sector, sector);
  }

  lemma {:induction false} Grows(n: nat, k: nat)
    requires k >= 1
    ensures n <= n * k
  {
  }

  lemma {:induction false} MulMono(a: nat, b: nat, k: nat)
    requires a <= b
    ensures a * k <= b * k
  {
  }

  /** A read is valid exactly when it is a nonempty run of whole sectors inside the disk that
      fits the mapping; nothing wraps. */
  lemma {:induction false} ReadValidIff(bytes: Word, sector: nat, offset: Word, length: Word, memoryBytes: Word,
                                        memoryOffset: Word)
    requires sector != 0
    ensures ReadValid(bytes, sector, offset, length, memoryBytes, memoryOffset) <==>
              && 0 < length <= MAX_READ && offset % sector == 0 && length % sector == 0
              && offset + length <= bytes && memoryOffset + length <= memoryBytes
  {
  }

  // ----- sectors to 512-byte units ----------------------------------------------------

  /** A device-mapper linear target: bytes [512 * start, 512 * (start + length)) of device. */
  datatype Linear = Linear(device: nat, start: Word, length: Word, readOnly: bool)

  predicate Exposes(t: Linear, device: nat, at: nat) {
    t.device == device && 512 * t.start <= at < 512 * (t.start + t.length)
  }

  /** The table `mapper_create` loads; its products are taken modulo 2^64. */
  function TableOf(device: nat, logical: nat, r: Range): Linear {
    var multiplier := logical / 512;
    Linear(device, (r.first * multiplier) % U64, (r.count * multiplier) % U64, r.readOnly != 0)
  }

  lemma {:induction false} Eighth(n: nat)
    requires PowerOfTwo(n) && n >= 8
    ensures n == 8 * (n / 8) && PowerOfTwo(n / 8)
  {
    assert PowerOfTwo(n / 2) && PowerOfTwo(n / 2 / 2) && PowerOfTwo(n / 2 / 2 / 2);
    assert n / 2 / 2 / 2 == n / 8;
  }

  lemma {:induction false} SectorIsWhole(sector: nat)
    requires SectorOk(sector)
    ensures sector == 512 * (sector / 512) && sector / 512 >= 1
  {
    Eighth(sector);
    Eighth(sector / 8);
    Eighth(sector / 8 / 8);
  }

  /** The change of units overflows nowhere and exposes exactly the bytes of the range, all of
      them inside the disk. */
  lemma {:induction false} TableIsExact(device: nat, bytes: Word, sector: nat, diskReadOnly: bool, r: Range)
    requires RangeValid(bytes, sector, diskReadOnly, r)
    ensures var t := TableOf(device, sector, r);
            && t.start == r.first * (sector / 512) && t.length == r.count * (sector / 512)
            && forall at: nat :: Exposes(t, device, at) <==> r.first * sector <= at < (r.first + r.count) * sector
    ensures (r.first + r.count) * sector <= bytes
  {
    var k := sector / 512;
    SectorIsWhole(sector);
    SectorsFit(bytes, sector);
    MulMono(r.first + r.count, bytes / sector, sector);
    Scaled(r.first, k, sector);
    Scaled(r.count, k, sector);
    Scaled(r.first + r.count, k, sector);
    MulMono(r.first, r.first + r.count, sector);
    MulMono(r.count, r.first + r.count, sector);
    assert (r.first + r.count) * k == r.first * k + r.count * k;
  }

  lemma {:induction false} Scaled(n: nat, k: nat, sector: nat)
    requires sector == 512 * k
    ensures n * sector == 512 * (n * k) && n * k <= n * sector
  {
  }

  /** A byte of a range lies in one of its sectors. */
  lemma {:induction false} ByteToSector(r: Range, sector: nat, at: nat)
    requires sector > 0 && r.first * sector <= at < (r.first + r.count) * sector
    ensures Covers(r, at / sector)
  {
    var s := at / sector;
    assert s * sector <= at < (s + 1) * sector;
    if s < r.first { MulMono(s + 1, r.first, sector); }
    if r.first + r.count <= s { MulMono(r.first + r.count, s, sector); }
  }
}
