/**
 The initramfs assembler's cpio "newc" printer and parser (scripts/assemble-io-vm.py).

 Names and payloads are byte strings.  Python's `sorted` on decoded names orders them like
 their UTF-8 bytes, which is the order used here.
 */
module Newc {
  import opened Wrappers

  type Byte = b: int | 0 <= b < 256

  type Name = seq<Byte>

  const MAX_ENTRIES: nat := 16384
  const WORD: nat := 0x1_0000_0000
  const SLASH: Byte := 47
  const DOT: Byte := 46
  const MAGIC: seq<Byte> := [48, 55, 48, 55, 48, 49]
  const INIT: Name := [105, 110, 105, 116]
  const TRAILER: Name := [84, 82, 65, 73, 76, 69, 82, 33, 33, 33]

  /** One member of the archive: mode, owner, device numbers and payload. */
  datatype Entry = Entry(mode: nat, uid: nat, gid: nat, major: nat, minor: nat, contents: seq<Byte>)

  type Entries = map<Name, Entry>

  datatype Reason =
    | BadMagic | BadHeader | BadName | BadTerminator | BadExtent | AfterTrailer | BadTree | BadPath
    | Unsupported | Hardlink | UnexpectedPayload | BadSymlink | Duplicate | MissingTrailer
    | FieldTooWide | OverBudget | TypeChange | BadInit

  datatype Result<T> = Ok(value: T) | Err(reason: Reason)

  // ----- modes and names ------------------------------------------------------------

  /** The file type of a mode, `S_IFMT(mode) >> 12`. */
  function Kind(mode: nat): nat { mode / 4096 % 16 }

  predicate IsFile(mode: nat) { Kind(mode) == 8 }
  predicate IsDir(mode: nat) { Kind(mode) == 4 }
  predicate IsLink(mode: nat) { Kind(mode) == 10 }
  predicate KnownKind(mode: nat) { Kind(mode) in {8, 4, 10, 2, 6} }

  /** `name.split("/")`. */
  function Split(name: Name): (parts: seq<Name>)
    ensures parts != []
  {
    if name == [] then [[]]
    else
      var rest := Split(name[1..]);
      if name[0] == SLASH then [[]] + rest else [[name[0]] + rest[0]] + rest[1..]
  }

  /** What `archive_name` accepts. */
  predicate Canonical(name: Name) {
    && name != [] && 0 !in name && name[0] != SLASH
    && (forall part :: part in Split(name) ==> part != [] && part != [DOT] && part != [DOT, DOT])
    && |name| <= 4095
  }

  /** Every proper ancestor of every entry is an explicit directory. */
  predicate TreeValid(entries: Entries) {
    forall name, i | name in entries && 0 <= i < |name| ::
      name[i] == SLASH ==> name[..i] in entries && IsDir(entries[name[..i]].mode)
  }

  function Slashes(name: Name): nat {
    if name == [] then 0 else (if name[0] == SLASH then 1 else 0) + Slashes(name[1..])
  }

  predicate LexLess(a: Name, b: Name) {
    b != [] && (a == [] || a[0] < b[0] || (a[0] == b[0] && LexLess(a[1..], b[1..])))
  }

  /** The sort key of the encoder: depth first, then name. */
  predicate Before(a: Name, b: Name) {
    Slashes(a) < Slashes(b) || (Slashes(a) == Slashes(b) && LexLess(a, b))
  }

  predicate StrictlySorted(names: seq<Name>) {
    forall i, j :: 0 <= i < j < |names| ==> Before(names[i], names[j])
  }

  ghost predicate IsOrdering(names: set<Name>, ordered: seq<Name>) {
    StrictlySorted(ordered) && forall n :: n in names <==> n in ordered
  }

  // ----- printing -------------------------------------------------------------------

  function Align(n: nat): nat { (n + 3) / 4 * 4 }

  function Zeros(n: nat): seq<Byte> { seq(n, i => 0) }

  function Pad(n: nat): seq<Byte> { Zeros(Align(n) - n) }

  function Digit(v: nat): Byte
    requires v < 16
  {
    if v < 10 then 48 + v else 87 + v
  }

  /** The low n hexadecimal digits of v, most significant first. */
  function Hex(v: nat, n: nat): seq<Byte> {
    if n == 0 then [] else Hex(v / 16, n - 1) + [Digit(v % 16)]
  }

  function HexFields(values: seq<nat>): seq<Byte> {
    if values == [] then [] else Hex(values[0], 8) + HexFields(values[1..])
  }

  function Values(inode: nat, name: Name, e: Entry): seq<nat> {
    [inode, e.mode, e.uid, e.gid, 1, 0, |e.contents|, 0, 0, e.major, e.minor, |name| + 1, 0]
  }

  predicate Fits(values: seq<nat>) {
    forall v :: v in values ==> v < WORD
  }

  /** Header and terminated name, padded. */
  function Head(inode: nat, name: Name, e: Entry): seq<Byte> {
    MAGIC + HexFields(Values(inode, name, e)) + name + [0] + Pad(111 + |name|)
  }

  /** One archive member as appended at an aligned offset. */
  function Record(inode: nat, name: Name, e: Entry): seq<Byte> {
    Head(inode, name, e) + e.contents + Pad(|e.contents|)
  }

  const TRAILER_ENTRY := Entry(0, 0, 0, 0, 0, [])

  /** The members of `ordered`, numbered from inode on, and the trailer. */
  function Archive(ordered: seq<Name>, entries: Entries, inode: nat): seq<Byte>
    requires forall n :: n in ordered ==> n in entries
    decreases |ordered|
  {
    if ordered == [] then Record(inode, TRAILER, TRAILER_ENTRY)
    else Record(inode, ordered[0], entries[ordered[0]]) + Archive(ordered[1..], entries, inode + 1)
  }

  /** Every header field of every member fits eight hexadecimal digits. */
  predicate AllFit(ordered: seq<Name>, entries: Entries, inode: nat)
    requires forall n :: n in ordered ==> n in entries
    decreases |ordered|
  {
    if ordered == [] then Fits(Values(inode, TRAILER, TRAILER_ENTRY))
    else Fits(Values(inode, ordered[0], entries[ordered[0]])) && AllFit(ordered[1..], entries, inode + 1)
  }

  // ----- parsing --------------------------------------------------------------------

  function DigitValue(b: Byte): Option<nat> {
    if 48 <= b <= 57 then Some(b - 48)
    else if 97 <= b <= 102 then Some(b - 87)
    else if 65 <= b <= 70 then Some(b - 55)
    else None
  }

  function HexValue(digits: seq<Byte>): Option<nat> {
    if digits == [] then Some(0)
    else
      var high, low := HexValue(digits[..|digits| - 1]), DigitValue(digits[|digits| - 1]);
      if high.Some? && low.Some? then Some(16 * high.value + low.value) else None
  }

  /** The fields of a run of eight-digit numbers. */
  function ParseFields(digits: seq<Byte>): Option<seq<nat>>
    decreases |digits|
  {
    if |digits| < 8 then Some([])
    else
      var first, rest := HexValue(digits[..8]), ParseFields(digits[8..]);
      if first.Some? && rest.Some? then Some([first.value] + rest.value) else None
  }

  lemma {:induction false} ParseFieldsLength(digits: seq<Byte>)
    ensures ParseFields(digits).Some? ==> |ParseFields(digits).value| == |digits| / 8
    decreases |digits|
  {
    if |digits| >= 8 { ParseFieldsLength(digits[8..]); }
  }

  datatype Member = Member(name: Name, mode: nat, links: nat, entry: Entry, next: nat)

  /** Reads the member at offset up to the trailer test. */
  function ParseMember(data: seq<Byte>, offset: nat): (r: Result<Member>)
    requires offset + 110 <= |data|
    ensures r.Ok? ==> offset + 110 <= r.value.next <= |data|
  {
    var header := data[offset..offset + 110];
    if header[..6] != MAGIC then Err(BadMagic)
    else
      var fields := ParseFields(header[6..]);
      if fields.None? then Err(BadHeader)
      else
        ParseFieldsLength(header[6..]);
        var f := fields.value;
        var start, namesize, size := offset + 110, f[11], f[6];
        var end := start + namesize;
        if namesize < 1 || namesize > 4096 || end > |data| then Err(BadName)
        else if data[end - 1] != 0 || 0 in data[start..end - 1] then Err(BadTerminator)
        else
          var payload := Align(end);
          var next := Align(payload + size);
          if next > |data| || f[12] != 0 then Err(BadExtent)
          else
            Ok(Member(data[start..end - 1], f[1], f[4],
                      Entry(f[1], f[2], f[3], f[9], f[10], data[payload..payload + size]), next))
  }

  /** Whether the member may be added to what was read so far. */
  function Reject(m: Member, entries: Entries): Option<Reason> {
    if !Canonical(m.name) then Some(BadPath)
    else if !KnownKind(m.mode) || m.links < 1 then Some(Unsupported)
    else if IsFile(m.mode) && m.links != 1 then Some(Hardlink)
    else if !IsFile(m.mode) && !IsLink(m.mode) && m.entry.contents != [] then Some(UnexpectedPayload)
    else if IsLink(m.mode) && (m.entry.contents == [] || 0 in m.entry.contents) then Some(BadSymlink)
    else if m.name in entries || |entries| >= MAX_ENTRIES then Some(Duplicate)
    else None
  }

  function Finish(m: Member, data: seq<Byte>, entries: Entries): Result<Entries>
    requires m.next <= |data|
  {
    if m.entry.contents != [] || (exists b :: b in data[m.next..] && b != 0) then Err(AfterTrailer)
    else if TreeValid(entries) then Ok(entries) else Err(BadTree)
  }

  function Parse(data: seq<Byte>, offset: nat, entries: Entries): Result<Entries>
    decreases |data| - offset
  {
    if offset + 110 > |data| then Err(MissingTrailer)
    else
      var m := ParseMember(data, offset);
      if m.Err? then Err(m.reason)
      else if m.value.name == TRAILER then Finish(m.value, data, entries)
      else
        var reject := Reject(m.value, entries);
        if reject.Some? then Err(reject.value)
        else Parse(data, m.value.next, entries[m.value.name := m.value.entry])
  }

  /** What the parser can return. */
  predicate WellFormedEntry(name: Name, e: Entry) {
    && Canonical(name) && name != TRAILER && KnownKind(e.mode)
    && (!IsFile(e.mode) && !IsLink(e.mode) ==> e.contents == [])
    && (IsLink(e.mode) ==> e.contents != [] && 0 !in e.contents)
  }

  predicate WellFormed(entries: Entries) {
    && |entries| <= MAX_ENTRIES && TreeValid(entries)
    && forall name :: name in entries ==> WellFormedEntry(name, entries[name])
  }

  // ----- the loops ------------------------------------------------------------------

  /** `parse_newc`. */
  method ParseNewc(data: seq<Byte>) returns (r: Result<Entries>)
    ensures r == Parse(data, 0, map[])
  {
    var entries: Entries := map[];
    var offset := 0;
    while offset + 110 <= |data|
      invariant offset <= |data|
      invariant Parse(data, 0, map[]) == Parse(data, offset, entries)
      decreases |data| - offset
    {
      var m := ParseMember(data, offset);
      if m.Err? { return Err(m.reason); }
      if m.value.name == TRAILER { return Finish(m.value, data, entries); }
      var reject := Reject(m.value, entries);
      if reject.Some? { return Err(reject.value); }
      entries := entries[m.value.name := m.value.entry];
      offset := m.value.next;
    }
    return Err(MissingTrailer);
  }

  /** Python's `sorted` on the entry names: insertion of one name after the other. */
  method SortNames(names: set<Name>) returns (ordered: seq<Name>)
    ensures IsOrdering(names, ordered)
  {
    ordered := [];
    var left := names;
    while left != {}
      invariant left <= names && IsOrdering(names - left, ordered)
      decreases left
    {
      var n :| n in left;
      InsertKeepsOrder(ordered, n);
      ordered := Insert(ordered, n);
      left := left - {n};
    }
  }

  /** `-n % 4`. */
  function Gap(n: nat): (gap: nat)
    ensures n + gap == Align(n)
  {
    (4 - n % 4) % 4
  }

  /** The body of the encoder's loop: appends one member unless a field or the budget is exceeded. */
  method AppendMember(before: seq<Byte>, inode: nat, name: Name, entry: Entry, limit: nat)
      returns (r: Result<seq<Byte>>)
    requires |before| % 4 == 0
    ensures r.Ok? <==> Fits(Values(inode, name, entry)) && |before| + |Record(inode, name, entry)| <= limit
    ensures r.Ok? ==> r.value == before + Record(inode, name, entry)
    ensures r.Err? ==> r.reason == (if Fits(Values(inode, name, entry)) then OverBudget else FieldTooWide)
  {
    var encoded := name + [0];
    var values := Values(inode, name, entry);
    if !Fits(values) { return Err(FieldTooWide); }
    var required := Align(|before| + 110 + |encoded|) + |entry.contents|;
    AppendsRecord(before, inode, name, entry);
    if Align(required) > limit { return Err(OverBudget); }
    var result := before + (MAGIC + HexFields(values));
    result := result + encoded;
    result := result + Zeros(Gap(|result|));
    result := result + entry.contents;
    result := result + Zeros(Gap(|result|));
    return Ok(result);
  }

  /** `encode_newc`: succeeds exactly when the tree is closed, every field fits and the whole
      archive is within the limit; then the result is the archive. */
  method EncodeNewc(entries: Entries, limit: nat) returns (r: Result<seq<Byte>>, ordered: seq<Name>)
    requires forall n :: n in entries ==> Canonical(n)
    ensures IsOrdering(entries.Keys, ordered)
    ensures r.Ok? <==> TreeValid(entries) && AllFit(ordered, entries, 1) && |Archive(ordered, entries, 1)| <= limit
    ensures r.Ok? ==> r.value == Archive(ordered, entries, 1)
    ensures r.Err? && r.reason == BadTree <==> !TreeValid(entries)
    ensures r.Err? && r.reason != BadTree ==> r.reason == FieldTooWide || r.reason == OverBudget
  {
    ordered := SortNames(entries.Keys);
    if !TreeValid(entries) { return Err(BadTree), ordered; }
    var result: seq<Byte> := [];
    FirstMember(ordered, entries);
    for i := 0 to |ordered|
      invariant Encoded(ordered, entries, i, result)
    {
      NextMember(ordered, entries, i, result);
      var next := AppendMember(result, i + 1, ordered[i], entries[ordered[i]], limit);
      if next.Err? { return Err(next.reason), ordered; }
      result := next.value;
    }
    LastMember(ordered, entries, result);
    r := AppendMember(result, |ordered| + 1, TRAILER, TRAILER_ENTRY, limit);
  }

  /** `result` is the archive up to member i. */
  ghost predicate Encoded(ordered: seq<Name>, entries: Entries, i: nat, result: seq<Byte>) {
    && i <= |ordered| && |result| % 4 == 0 && (forall n :: n in ordered ==> n in entries)
    && Archive(ordered, entries, 1) == result + Archive(ordered[i..], entries, i + 1)
    && (AllFit(ordered, entries, 1) <==> AllFit(ordered[i..], entries, i + 1))
  }

  lemma {:induction false} FirstMember(ordered: seq<Name>, entries: Entries)
    requires forall n :: n in ordered ==> n in entries
    ensures Encoded(ordered, entries, 0, [])
  {
    assert ordered[0..] == ordered;
  }

  lemma {:induction false} NextMember(ordered: seq<Name>, entries: Entries, i: nat, result: seq<Byte>)
    requires Encoded(ordered, entries, i, result) && i < |ordered|
    ensures var name, e := ordered[i], entries[ordered[i]];
            && |Archive(ordered, entries, 1)| >= |result| + |Record(i + 1, name, e)|
            && (AllFit(ordered, entries, 1) ==> Fits(Values(i + 1, name, e)))
            && (Fits(Values(i + 1, name, e)) ==> Encoded(ordered, entries, i + 1, result + Record(i + 1, name, e)))
  {
    var name, e := ordered[i], entries[ordered[i]];
    ArchiveStep(ordered, entries, i);
    SplitPrefix(result, i + 1, name, e, Archive(ordered[i + 1..], entries, i + 2));
  }

  lemma {:induction false} SplitPrefix(result: seq<Byte>, inode: nat, name: Name, e: Entry, rest: seq<Byte>)
    requires |result| % 4 == 0
    ensures result + (Record(inode, name, e) + rest) == (result + Record(inode, name, e)) + rest
    ensures |result + Record(inode, name, e)| % 4 == 0
  {
    RecordSize(inode, name, e);
  }

  lemma {:induction false} LastMember(ordered: seq<Name>, entries: Entries, result: seq<Byte>)
    requires Encoded(ordered, entries, |ordered|, result)
    ensures Archive(ordered, entries, 1) == result + Record(|ordered| + 1, TRAILER, TRAILER_ENTRY)
    ensures AllFit(ordered, entries, 1) <==> Fits(Values(|ordered| + 1, TRAILER, TRAILER_ENTRY))
  {
    ArchiveStep(ordered, entries, |ordered|);
  }

  // ----- sizes ----------------------------------------------------------------------

  lemma {:induction false} HexSize(v: nat, n: nat)
    ensures |Hex(v, n)| == n
  {
    if n > 0 { HexSize(v / 16, n - 1); }
  }

  lemma {:induction false} HexFieldsSize(values: seq<nat>)
    ensures |HexFields(values)| == 8 * |values|
  {
    if values != [] {
      HexSize(values[0], 8);
      HexFieldsSize(values[1..]);
    }
  }

  lemma {:induction false} RecordSize(inode: nat, name: Name, e: Entry)
    ensures |HexFields(Values(inode, name, e))| == 104
    ensures |Head(inode, name, e)| == Align(111 + |name|)
    ensures |Record(inode, name, e)| == Align(111 + |name|) + Align(|e.contents|)
    ensures |Record(inode, name, e)| % 4 == 0
  {
    HexFieldsSize(Values(inode, name, e));
  }

  /** The encoder's prediction is the size it reaches, and its pieces are the record. */
  lemma {:induction false} AppendsRecord(result: seq<Byte>, inode: nat, name: Name, e: Entry)
    requires |result| % 4 == 0
    ensures Align(Align(|result| + 110 + |name| + 1) + |e.contents|) == |result| + |Record(inode, name, e)|
    ensures var a := result + (MAGIC + HexFields(Values(inode, name, e))) + (name + [0]);
            var b := a + Zeros(Gap(|a|)) + e.contents;
            b + Zeros(Gap(|b|)) == result + Record(inode, name, e)
  {
    RecordSize(inode, name, e);
    AppendsPieces(result, MAGIC, HexFields(Values(inode, name, e)), name, e.contents);
  }

  lemma {:induction false} AppendsPieces(result: seq<Byte>, magic: seq<Byte>, fields: seq<Byte>, name: Name,
                                         contents: seq<Byte>)
    requires |result| % 4 == 0 && |magic| == 6 && |fields| == 104
    ensures var a := result + (magic + fields) + (name + [0]);
            var b := a + Zeros(Gap(|a|)) + contents;
            b + Zeros(Gap(|b|))
            == result + (magic + fields + name + [0] + Pad(111 + |name|) + contents + Pad(|contents|))
  {
    var a := result + (magic + fields) + (name + [0]);
    var b := a + Zeros(Gap(|a|)) + contents;
    AlignShift(|result|, 111 + |name|);
    assert Zeros(Gap(|a|)) == Pad(111 + |name|);
    AlignShift(|result| + Align(111 + |name|), |contents|);
    assert Zeros(Gap(|b|)) == Pad(|contents|);
    assert b == result + (magic + fields + name + [0] + Pad(111 + |name|) + contents);
  }

  /** Unrolling the archive at member i. */
  lemma {:induction false} ArchiveStep(ordered: seq<Name>, entries: Entries, i: nat)
    requires i <= |ordered| && forall n :: n in ordered ==> n in entries
    ensures i < |ordered| ==>
              && Archive(ordered[i..], entries, i + 1)
                 == Record(i + 1, ordered[i], entries[ordered[i]]) + Archive(ordered[i + 1..], entries, i + 2)
              && (AllFit(ordered[i..], entries, i + 1) <==>
                    && Fits(Values(i + 1, ordered[i], entries[ordered[i]]))
                    && AllFit(ordered[i + 1..], entries, i + 2))
    ensures i == |ordered| ==>
              && Archive(ordered[i..], entries, i + 1) == Record(i + 1, TRAILER, TRAILER_ENTRY)
              && (AllFit(ordered[i..], entries, i + 1) <==> Fits(Values(i + 1, TRAILER, TRAILER_ENTRY)))
  {
    if i < |ordered| { assert ordered[i..][1..] == ordered[i + 1..]; }
  }

  // ----- the order ------------------------------------------------------------------

  lemma {:induction false} LexTotal(a: Name, b: Name)
    ensures a == b || LexLess(a, b) || LexLess(b, a)
    decreases |a|
  {
    if a != [] && b != [] && a[0] == b[0] {
      LexTotal(a[1..], b[1..]);
      assert a == [a[0]] + a[1..] && b == [b[0]] + b[1..];
    }
  }

  lemma {:induction false} LexTransitive(a: Name, b: Name, c: Name)
    requires LexLess(a, b) && LexLess(b, c)
    ensures LexLess(a, c)
    decreases |a|
  {
    if a != [] && a[0] == b[0] == c[0] { LexTransitive(a[1..], b[1..], c[1..]); }
  }

  lemma {:induction false} LexIrreflexive(a: Name)
    ensures !LexLess(a, a)
    decreases |a|
  {
    if a != [] { LexIrreflexive(a[1..]); }
  }

  lemma {:induction false} BeforeTransitive(a: Name, b: Name, c: Name)
    requires Before(a, b) && Before(b, c)
    ensures Before(a, c)
  {
    if Slashes(a) == Slashes(b) == Slashes(c) { LexTransitive(a, b, c); }
  }

  function Insert(ordered: seq<Name>, n: Name): seq<Name> {
    if ordered == [] || Before(n, ordered[0]) then [n] + ordered
    else [ordered[0]] + Insert(ordered[1..], n)
  }

  lemma {:induction false} InsertMembers(ordered: seq<Name>, n: Name)
    ensures forall m :: m in Insert(ordered, n) <==> m == n || m in ordered
  {
    if ordered == [] || Before(n, ordered[0]) {
    } else {
      InsertMembers(ordered[1..], n);
      assert ordered == [ordered[0]] + ordered[1..];
    }
  }

  lemma {:induction false} InsertKeepsOrder(ordered: seq<Name>, n: Name)
    requires StrictlySorted(ordered) && n !in ordered
    ensures StrictlySorted(Insert(ordered, n))
    ensures forall m :: m in Insert(ordered, n) <==> m == n || m in ordered
  {
    InsertMembers(ordered, n);
    if ordered == [] {
    } else if Before(n, ordered[0]) {
      var r := [n] + ordered;
      forall j | 1 <= j < |r| ensures Before(n, r[j]) {
        if j > 1 { BeforeTransitive(n, ordered[0], ordered[j - 1]); }
      }
      assert StrictlySorted(r);
    } else {
      LexTotal(n, ordered[0]);
      InsertKeepsOrder(ordered[1..], n);
      InsertMembers(ordered[1..], n);
      var r := [ordered[0]] + Insert(ordered[1..], n);
      forall j | 1 <= j < |r| ensures Before(ordered[0], r[j]) {
        assert r[j] in Insert(ordered[1..], n);
        if r[j] != n {
          var k :| 0 <= k < |ordered[1..]| && ordered[1..][k] == r[j];
          assert ordered[k + 1] == r[j];
        }
      }
      assert StrictlySorted(r);
    }
  }

  /** The order, and with it the archive, is determined by the set of names. */
  lemma {:induction false} OrderingIsUnique(names: set<Name>, a: seq<Name>, b: seq<Name>)
    requires IsOrdering(names, a) && IsOrdering(names, b)
    ensures a == b
    decreases |a|
  {
    if a == [] {
      EmptyOrNot(b);
    } else {
      assert a[0] in names && a[0] in b;
      assert b[0] in names && b[0] in a;
      var i :| 0 <= i < |b| && b[i] == a[0];
      var j :| 0 <= j < |a| && a[j] == b[0];
      if i > 0 {
        LexIrreflexive(a[0]);
        if j > 0 { BeforeTransitive(a[0], b[0], a[0]); }
      }
      assert a[0] == b[0];
      TailIsOrdering(names, a);
      TailIsOrdering(names, b);
      OrderingIsUnique(names - {a[0]}, a[1..], b[1..]);
      assert a == [a[0]] + a[1..] && b == [b[0]] + b[1..];
    }
  }

  lemma {:induction false} EmptyOrNot(a: seq<Name>)
    ensures a == [] || exists n :: n in a
  {
    if a != [] { assert a[0] in a; }
  }

  lemma {:induction false} TailIsOrdering(names: set<Name>, a: seq<Name>)
    requires IsOrdering(names, a) && a != []
    ensures IsOrdering(names - {a[0]}, a[1..])
  {
    LexIrreflexive(a[0]);
    assert forall k :: 1 <= k < |a| ==> Before(a[0], a[k]);
    assert a[0] !in a[1..];
    assert a == [a[0]] + a[1..];
  }

  // ----- parsing what was printed ---------------------------------------------------

  function Pow16(n: nat): nat { if n == 0 then 1 else 16 * Pow16(n - 1) }

  lemma {:induction false} HexRoundTrip(v: nat, n: nat)
    requires v < Pow16(n)
    ensures HexValue(Hex(v, n)) == Some(v)
  {
    if n > 0 {
      HexRoundTrip(v / 16, n - 1);
      HexSize(v / 16, n - 1);
      var digits := Hex(v, n);
      assert digits[..|digits| - 1] == Hex(v / 16, n - 1);
    }
  }

  lemma {:induction false} FieldsRoundTrip(values: seq<nat>)
    requires Fits(values)
    ensures ParseFields(HexFields(values)) == Some(values)
  {
    if values != [] {
      var digits := HexFields(values);
      HexSize(values[0], 8);
      assert Pow16(8) == WORD by { assert Pow16(4) == 65536; }
      assert values[0] in values;
      HexRoundTrip(values[0], 8);
      assert digits[..8] == Hex(values[0], 8) && digits[8..] == HexFields(values[1..]);
      assert forall v :: v in values[1..] ==> v in values;
      FieldsRoundTrip(values[1..]);
      assert values == [values[0]] + values[1..];
    }
  }

  /** Where the pieces of a record lie in the data around it. */
  lemma {:induction false} RecordPieces(data: seq<Byte>, pre: seq<Byte>, magic: seq<Byte>, fields: seq<Byte>,
                                        name: Name,
                     pad: seq<Byte>, contents: seq<Byte>, post: seq<Byte>)
    requires |magic| == 6 && |fields| == 104
    requires data == pre + (magic + fields + name + [0] + pad + contents + post)
    ensures var o := |pre|;
            var end := o + 111 + |name|;
            var payload := end + |pad|;
            && |data| >= payload + |contents|
            && data[o..o + 6] == magic && data[o + 6..o + 110] == fields
            && data[o + 110..end - 1] == name && data[end - 1] == 0
            && data[payload..payload + |contents|] == contents
  {
  }

  lemma {:induction false} RecordAt(data: seq<Byte>, pre: seq<Byte>, inode: nat, name: Name, e: Entry, post: seq<Byte>)
    requires |pre| % 4 == 0 && data == pre + Record(inode, name, e) + post
    ensures var o := |pre|;
            var end := o + 111 + |name|;
            var payload := Align(end);
            && end <= payload && payload + |e.contents| <= Align(payload + |e.contents|) <= |data|
            && data[o..o + 6] == MAGIC && data[o + 6..o + 110] == HexFields(Values(inode, name, e))
            && data[o + 110..end - 1] == name && data[end - 1] == 0
            && data[payload..payload + |e.contents|] == e.contents
            && Align(payload + |e.contents|) == o + |Record(inode, name, e)|
  {
    RecordSize(inode, name, e);
    AlignShift(|pre|, 111 + |name|);
    AlignShift(Align(|pre| + 111 + |name|), |e.contents|);
    var fields := HexFields(Values(inode, name, e));
    Regroup(pre, MAGIC + fields + name + [0] + Pad(111 + |name|) + e.contents, Pad(|e.contents|), post);
    RecordPieces(data, pre, MAGIC, fields, name, Pad(111 + |name|), e.contents, Pad(|e.contents|) + post);
  }

  lemma {:induction false} AlignShift(o: nat, n: nat)
    requires o % 4 == 0
    ensures Align(o + n) == o + Align(n) && n <= Align(n) < n + 4 && Align(n) % 4 == 0
  {
  }

  lemma {:induction false} Regroup(a: seq<Byte>, b: seq<Byte>, c: seq<Byte>, d: seq<Byte>)
    ensures a + (b + c) + d == a + (b + (c + d))
  {
  }

  /** The header fields of a member, as a record of it has them. */
  predicate FieldsOf(f: seq<nat>, name: Name, e: Entry) {
    && |f| == 13 && f[1] == e.mode && f[2] == e.uid && f[3] == e.gid && f[4] == 1 && f[6] == |e.contents|
    && f[9] == e.major && f[10] == e.minor && f[11] == |name| + 1 && f[12] == 0
  }

  lemma {:induction false} ValuesAreFields(inode: nat, name: Name, e: Entry)
    ensures FieldsOf(Values(inode, name, e), name, e)
  {
  }

  /** A member's magic, fields, name and payload lie at offset o. */
  predicate Pieces(data: seq<Byte>, o: nat, f: seq<nat>, name: Name, e: Entry, next: nat) {
    var end := o + 111 + |name|;
    var payload := Align(end);
    && end <= payload && payload + |e.contents| <= next == Align(payload + |e.contents|) <= |data|
    && data[o..o + 6] == MAGIC && ParseFields(data[o + 6..o + 110]) == Some(f)
    && data[o + 110..end - 1] == name && data[end - 1] == 0
    && data[payload..payload + |e.contents|] == e.contents
  }

  lemma {:induction false} RecordHasPieces(data: seq<Byte>, pre: seq<Byte>, inode: nat, name: Name, e: Entry,
                                           post: seq<Byte>)
    requires |pre| % 4 == 0 && Fits(Values(inode, name, e)) && data == pre + Record(inode, name, e) + post
    ensures Pieces(data, |pre|, Values(inode, name, e), name, e, |pre| + |Record(inode, name, e)|)
  {
    RecordAt(data, pre, inode, name, e, post);
    FieldsRoundTrip(Values(inode, name, e));
  }

  lemma {:induction false} MemberRoundTrip(data: seq<Byte>, pre: seq<Byte>, inode: nat, name: Name, e: Entry,
                                           post: seq<Byte>)
    requires |pre| % 4 == 0 && Fits(Values(inode, name, e)) && 0 !in name && |name| <= 4095
    requires data == pre + Record(inode, name, e) + post
    ensures |pre| + 110 <= |data|
    ensures ParseMember(data, |pre|) == Ok(Member(name, e.mode, 1, e, |pre| + |Record(inode, name, e)|))
  {
    RecordHasPieces(data, pre, inode, name, e, post);
    ValuesAreFields(inode, name, e);
    MemberFromPieces(data, |pre|, Values(inode, name, e), name, e, |pre| + |Record(inode, name, e)|);
  }

  /** What ParseMember makes of a header whose fields are known. */
  lemma {:induction false} MemberFromPieces(data: seq<Byte>, o: nat, f: seq<nat>, name: Name, e: Entry, next: nat)
    requires FieldsOf(f, name, e) && Pieces(data, o, f, name, e, next) && 0 !in name && |name| <= 4095
    ensures o + 110 <= |data|
    ensures ParseMember(data, o) == Ok(Member(name, e.mode, 1, e, next))
  {
    var header := data[o..o + 110];
    assert header[..6] == data[o..o + 6];
    assert header[6..] == data[o + 6..o + 110];
  }

  function Restrict(entries: Entries, names: seq<Name>): Entries
    requires forall n :: n in names ==> n in entries
  {
    map n | n in names :: entries[n]
  }

  /** Parsing steps over one well-formed member. */
  lemma {:induction false} ReadsOne(data: seq<Byte>, offset: nat, m: Member, seen: Entries)
    requires offset + 110 <= |data| && ParseMember(data, offset) == Ok(m)
    requires WellFormedEntry(m.name, m.entry) && m.mode == m.entry.mode && m.links == 1
    requires m.name !in seen && |seen| < MAX_ENTRIES
    ensures Parse(data, offset, seen) == Parse(data, m.next, seen[m.name := m.entry])
  {
  }

  lemma {:induction false} ReadsTrailer(data: seq<Byte>, offset: nat, m: Member, seen: Entries)
    requires offset + 110 <= |data| && ParseMember(data, offset) == Ok(m)
    requires m.name == TRAILER && m.entry.contents == [] && m.next == |data| && TreeValid(seen)
    ensures Parse(data, offset, seen) == Ok(seen)
  {
  }

  lemma {:induction false} TrailerAt(data: seq<Byte>, offset: nat, inode: nat) returns (m: Member)
    requires offset <= |data| && offset % 4 == 0 && data[offset..] == Record(inode, TRAILER, TRAILER_ENTRY)
    requires Fits(Values(inode, TRAILER, TRAILER_ENTRY))
    ensures offset + 110 <= |data| && ParseMember(data, offset) == Ok(m)
    ensures m.name == TRAILER && m.entry.contents == [] && m.next == |data|
  {
    var pre := data[..offset];
    assert data == pre + data[offset..] + [];
    MemberRoundTrip(data, pre, inode, TRAILER, TRAILER_ENTRY, []);
    m := Member(TRAILER, TRAILER_ENTRY.mode, 1, TRAILER_ENTRY, |data|);
  }

  /** The member at an offset, and where the next one starts. */
  lemma {:induction false} MemberAt(data: seq<Byte>, offset: nat, inode: nat, name: Name, e: Entry,
                                    rest: seq<Byte>) returns (m: Member)
    requires offset <= |data| && offset % 4 == 0 && data[offset..] == Record(inode, name, e) + rest
    requires Fits(Values(inode, name, e)) && 0 !in name && |name| <= 4095
    ensures offset + 110 <= |data| && ParseMember(data, offset) == Ok(m)
    ensures m.name == name && m.entry == e && m.mode == m.entry.mode && m.links == 1
    ensures m.next <= |data| && m.next % 4 == 0 && data[m.next..] == rest
  {
    var pre := data[..offset];
    assert data == pre + data[offset..];
    SplitPrefix(pre, inode, name, e, rest);
    MemberRoundTrip(data, pre, inode, name, e, rest);
    m := Member(name, e.mode, 1, e, |pre| + |Record(inode, name, e)|);
    assert data[|pre + Record(inode, name, e)|..] == rest;
  }

  /** With i members read, the parser reads the others and returns the whole map. */
  lemma {:induction false} ReadsRest(data: seq<Byte>, offset: nat, seen: Entries, ordered: seq<Name>,
                                     entries: Entries, i: nat)
    requires offset <= |data| && offset % 4 == 0
    requires i <= |ordered| && IsOrdering(entries.Keys, ordered) && WellFormed(entries)
    requires data[offset..] == Archive(ordered[i..], entries, i + 1) && AllFit(ordered[i..], entries, i + 1)
    requires seen == Restrict(entries, ordered[..i])
    ensures Parse(data, offset, seen) == Ok(entries)
    decreases |ordered| - i
  {
    if i == |ordered| {
      ArchiveStep(ordered, entries, i);
      SeenAll(ordered, entries);
      var m := TrailerAt(data, offset, i + 1);
      ReadsTrailer(data, offset, m, entries);
    } else {
      var name := ordered[i];
      assert WellFormedEntry(name, entries[name]);
      ArchiveStep(ordered, entries, i);
      var m := MemberAt(data, offset, i + 1, name, entries[name], Archive(ordered[i + 1..], entries, i + 2));
      SeenGrows(ordered, entries, i, seen);
      ReadsOne(data, offset, m, seen);
      ReadsRest(data, m.next, seen[name := entries[name]], ordered, entries, i + 1);
    }
  }

  lemma {:induction false} SeenAll(ordered: seq<Name>, entries: Entries)
    requires IsOrdering(entries.Keys, ordered)
    ensures Restrict(entries, ordered[..|ordered|]) == entries
  {
    assert ordered[..|ordered|] == ordered;
  }

  lemma {:induction false} SeenGrows(ordered: seq<Name>, entries: Entries, i: nat, seen: Entries)
    requires IsOrdering(entries.Keys, ordered) && i < |ordered| && seen == Restrict(entries, ordered[..i])
    ensures ordered[i] !in seen && |seen| < |entries|
    ensures seen[ordered[i] := entries[ordered[i]]] == Restrict(entries, ordered[..i + 1])
  {
    NoRepeats(ordered, i);
    assert ordered[..i + 1] == ordered[..i] + [ordered[i]];
    RestrictGrows(entries, ordered[..i], ordered[i]);
  }

  lemma {:induction false} RestrictGrows(entries: Entries, names: seq<Name>, n: Name)
    requires n in entries && n !in names && forall m :: m in names ==> m in entries
    ensures |Restrict(entries, names)| < |entries|
    ensures Restrict(entries, names)[n := entries[n]] == Restrict(entries, names + [n])
  {
    var seen := Restrict(entries, names);
    assert seen.Keys <= entries.Keys - {n};
    SubsetSize(seen.Keys, entries.Keys - {n});
  }

  lemma {:induction false} NoRepeats(ordered: seq<Name>, i: nat)
    requires StrictlySorted(ordered) && i < |ordered|
    ensures ordered[i] !in ordered[..i]
  {
    LexIrreflexive(ordered[i]);
    assert forall k :: 0 <= k < i ==> Before(ordered[k], ordered[i]);
  }

  lemma {:induction false} NothingSeen(ordered: seq<Name>, entries: Entries)
    requires (forall n :: n in ordered ==> n in entries) && AllFit(ordered, entries, 1)
    ensures Archive(ordered, entries, 1)[0..] == Archive(ordered[0..], entries, 0 + 1)
    ensures AllFit(ordered[0..], entries, 0 + 1) && Restrict(entries, ordered[..0]) == map[]
  {
    assert ordered[0..] == ordered;
  }

  lemma {:induction false} SubsetSize(a: set<Name>, b: set<Name>)
    requires a <= b
    ensures |a| <= |b|
    decreases a
  {
    if a != {} {
      var n :| n in a;
      SubsetSize(a - {n}, b - {n});
    }
  }

  /** Parsing an encoded archive gives back exactly the encoded map. */
  lemma {:induction false} RoundTrip(entries: Entries, ordered: seq<Name>)
    requires WellFormed(entries) && IsOrdering(entries.Keys, ordered) && AllFit(ordered, entries, 1)
    ensures Parse(Archive(ordered, entries, 1), 0, map[]) == Ok(entries)
  {
    NothingSeen(ordered, entries);
    ReadsRest(Archive(ordered, entries, 1), 0, map[], ordered, entries, 0);
  }

  /** Whatever the parser returns is well formed. */
  lemma {:induction false} ParsedIsWellFormed(data: seq<Byte>, offset: nat, entries: Entries)
    requires |entries| <= MAX_ENTRIES && forall n :: n in entries ==> WellFormedEntry(n, entries[n])
    ensures Parse(data, offset, entries).Ok? ==> WellFormed(Parse(data, offset, entries).value)
    decreases |data| - offset
  {
    if offset + 110 <= |data| {
      var m := ParseMember(data, offset);
      if m.Ok? && m.value.name != TRAILER && Reject(m.value, entries).None? {
        ParsedIsWellFormed(data, m.value.next, entries[m.value.name := m.value.entry]);
      }
    }
  }

  /** An archive the encoder writes reads back as what it encoded exactly when that was well
      formed.  The encoder itself does not check this. */
  lemma {:induction false} ReadsBackIff(entries: Entries, ordered: seq<Name>)
    requires IsOrdering(entries.Keys, ordered) && AllFit(ordered, entries, 1)
    ensures Parse(Archive(ordered, entries, 1), 0, map[]) == Ok(entries) <==> WellFormed(entries)
  {
    ParsedIsWellFormed(Archive(ordered, entries, 1), 0, map[]);
    if WellFormed(entries) { RoundTrip(entries, ordered); }
  }

  /** In particular no archive with a member of the trailer's own name reads back. */
  lemma {:induction false} TrailerNameIsLost(entries: Entries, ordered: seq<Name>)
    requires IsOrdering(entries.Keys, ordered) && AllFit(ordered, entries, 1) && TRAILER in entries
    ensures Parse(Archive(ordered, entries, 1), 0, map[]) != Ok(entries)
  {
    ReadsBackIff(entries, ordered);
    assert WellFormed(entries) ==> WellFormedEntry(TRAILER, entries[TRAILER]);
  }

  lemma {:induction false} FlatNameIsCanonical(name: Name)
    requires name != [] && SLASH !in name && 0 !in name && |name| <= 4095 && name != [DOT] && name != [DOT, DOT]
    ensures Canonical(name)
  {
    NoSlashSplit(name);
  }

  lemma {:induction false} NoSlashSplit(name: Name)
    requires SLASH !in name
    ensures Split(name) == [name]
  {
    if name != [] {
      NoSlashSplit(name[1..]);
      assert [name[0]] + name[1..] == name;
    }
  }

  // ----- ancestors first ------------------------------------------------------------

  lemma {:induction false} PrefixIsShallower(name: Name, k: nat)
    requires k < |name| && name[k] == SLASH
    ensures Slashes(name[..k]) < Slashes(name)
  {
    if k > 0 {
      PrefixIsShallower(name[1..], k - 1);
      assert name[..k][1..] == name[1..][..k - 1];
    }
  }

  /** In the encoding, every member comes after all its ancestor directories. */
  lemma {:induction false} AncestorsFirst(entries: Entries, ordered: seq<Name>, i: nat, k: nat)
    requires TreeValid(entries) && IsOrdering(entries.Keys, ordered)
    requires i < |ordered| && k < |ordered[i]| && ordered[i][k] == SLASH
    ensures exists j :: 0 <= j < i && ordered[j] == ordered[i][..k]
  {
    var parent := ordered[i][..k];
    assert ordered[i] in entries.Keys && parent in entries.Keys;
    var j :| 0 <= j < |ordered| && ordered[j] == parent;
    PrefixIsShallower(ordered[i], k);
  }

  // ----- overlay --------------------------------------------------------------------

  /** No path is a directory on one side and something else on the other. */
  ghost predicate TypeStable(base: Entries, overlay: Entries) {
    forall n :: n in overlay && n in base ==> (IsDir(base[n].mode) <==> IsDir(overlay[n].mode))
  }

  /** The merge in `assemble`: an overlay entry may not turn a directory into something else
      or the reverse. */
  method Overlay(base: Entries, overlay: Entries) returns (r: Result<Entries>)
    ensures r == if TypeStable(base, overlay) then Ok(base + overlay) else Err(TypeChange)
    ensures r.Ok? && TreeValid(base) && TreeValid(overlay) ==> TreeValid(r.value)
  {
    var left := overlay.Keys;
    while left != {}
      invariant left <= overlay.Keys
      invariant forall n :: n in overlay && n !in left && n in base ==>
                (IsDir(base[n].mode) <==> IsDir(overlay[n].mode))
      decreases left
    {
      var n :| n in left;
      if n in base && IsDir(base[n].mode) != IsDir(overlay[n].mode) { return Err(TypeChange); }
      left := left - {n};
    }
    if TreeValid(base) && TreeValid(overlay) { MergeKeepsTree(base, overlay); }
    return Ok(base + overlay);
  }

  lemma {:induction false} MergeKeepsTree(base: Entries, overlay: Entries)
    requires TreeValid(base) && TreeValid(overlay)
    requires TypeStable(base, overlay)
    ensures TreeValid(base + overlay)
  {
    var merged := base + overlay;
    forall name, i | name in merged && 0 <= i < |name| && name[i] == SLASH
      ensures name[..i] in merged && IsDir(merged[name[..i]].mode)
    {
      if name in overlay {
        assert name[..i] in overlay;
      } else {
        assert name[..i] in base;
      }
    }
  }

  lemma {:induction false} MergeIsWellFormedIff(base: Entries, overlay: Entries)
    requires WellFormed(base) && TreeValid(base + overlay)
    ensures WellFormed(base + overlay) <==>
              |base + overlay| <= MAX_ENTRIES && forall n :: n in overlay ==> WellFormedEntry(n, overlay[n])
  {
    var merged := base + overlay;
    assert forall n :: n in overlay ==> n in merged && merged[n] == overlay[n];
  }

  /** `mode & 0o111`. */
  predicate Executable(mode: nat) {
    mode % 2 == 1 || mode / 8 % 2 == 1 || mode / 64 % 2 == 1
  }

  predicate HasLauncher(overlay: Entries) {
    INIT in overlay && IsFile(overlay[INIT].mode) && Executable(overlay[INIT].mode)
  }

  /** A parsed base and an overlay as the walk of a directory gives it. */
  predicate Admissible(base: Entries, overlay: Entries) {
    WellFormed(base) && TreeValid(overlay) && forall n :: n in overlay ==> Canonical(n)
  }

  /** `data` is the archive of the entries, within the limit. */
  ghost predicate Encodes(entries: Entries, ordered: seq<Name>, limit: nat, data: seq<Byte>) {
    && IsOrdering(entries.Keys, ordered) && AllFit(ordered, entries, 1)
    && data == Archive(ordered, entries, 1) && |data| <= limit
  }

  /** `assemble` makes `data` of base and overlay. */
  ghost predicate Assembles(base: Entries, overlay: Entries, limit: nat, data: seq<Byte>) {
    TypeStable(base, overlay) && HasLauncher(overlay) && exists ordered :: Encodes(base + overlay, ordered, limit, data)
  }

  /** From a parsed base and a closed overlay to an archive.  The encoder's tree check never
      fails, the limit holds, and the archive reads back as the merge exactly when the overlay
      entries are well formed and the merge has no more members than the parser admits. */
  method AssembleArchive(base: Entries, overlay: Entries, limit: nat) returns (r: Result<seq<Byte>>)
    requires Admissible(base, overlay)
    ensures r == Err(TypeChange) <==> !TypeStable(base, overlay)
    ensures r == Err(BadInit) <==> TypeStable(base, overlay) && !HasLauncher(overlay)
    ensures r.Err? ==> r.reason in {TypeChange, BadInit, FieldTooWide, OverBudget}
    ensures r.Ok? ==> Assembles(base, overlay, limit, r.value) && |r.value| <= limit
    ensures r.Err? ==> forall data :: !Assembles(base, overlay, limit, data)
    ensures r.Ok? ==> (Parse(r.value, 0, map[]) == Ok(base + overlay) <==> ReadableMerge(base, overlay))
  {
    var merged := Overlay(base, overlay);
    if merged.Err? { return Err(TypeChange); }
    var all := merged.value;
    if INIT !in all || !IsFile(all[INIT].mode) || !Executable(all[INIT].mode) { return Err(BadInit); }
    if INIT !in overlay { return Err(BadInit); }
    var ordered;
    r, ordered := EncodeNewc(all, limit);
    if r.Ok? {
      assert Encodes(all, ordered, limit, r.value);
      ReadsBackIff(all, ordered);
      MergeIsWellFormedIff(base, overlay);
    } else {
      EncodesOnlyThis(all, ordered, limit);
    }
  }

  /** The condition under which an assembled archive reads back. */
  predicate ReadableMerge(base: Entries, overlay: Entries) {
    |base + overlay| <= MAX_ENTRIES && forall n :: n in overlay ==> WellFormedEntry(n, overlay[n])
  }

  lemma {:induction false} EncodesOnlyThis(entries: Entries, ordered: seq<Name>, limit: nat)
    requires IsOrdering(entries.Keys, ordered)
    requires !(AllFit(ordered, entries, 1) && |Archive(ordered, entries, 1)| <= limit)
    ensures forall other, data :: !Encodes(entries, other, limit, data)
  {
    forall other, data ensures !Encodes(entries, other, limit, data) {
      if Encodes(entries, other, limit, data) { OrderingIsUnique(entries.Keys, ordered, other); }
    }
  }

  // ----- inputs that do not read back -------------------------------------------------

  lemma {:induction false} InsertSize(ordered: seq<Name>, n: Name)
    ensures |Insert(ordered, n)| == |ordered| + 1
    decreases |ordered|
  {
    if ordered != [] && !Before(n, ordered[0]) { InsertSize(ordered[1..], n); }
  }

  lemma {:induction false} OrderingExists(names: set<Name>) returns (ordered: seq<Name>)
    ensures IsOrdering(names, ordered) && |ordered| == |names|
    decreases |names|
  {
    ordered := [];
    if names != {} {
      var n :| n in names;
      var rest := OrderingExists(names - {n});
      InsertKeepsOrder(rest, n);
      InsertSize(rest, n);
      ordered := Insert(rest, n);
    }
  }

  /** Every field but the inode fits whatever the order. */
  predicate NarrowEntry(e: Entry) {
    e.mode < WORD && e.uid < WORD && e.gid < WORD && e.major < WORD && e.minor < WORD && |e.contents| < WORD
  }

  predicate Narrow(entries: Entries) {
    forall n :: n in entries ==> |n| <= 4095 && NarrowEntry(entries[n])
  }

  lemma {:induction false} ValuesFit(inode: nat, name: Name, e: Entry)
    requires inode < WORD && |name| <= 4095 && NarrowEntry(e)
    ensures Fits(Values(inode, name, e))
  {
  }

  lemma {:induction false} NarrowFits(ordered: seq<Name>, entries: Entries, inode: nat)
    requires Narrow(entries) && (forall n :: n in ordered ==> n in entries) && inode + |ordered| < WORD
    ensures AllFit(ordered, entries, inode)
    decreases |ordered|
  {
    if ordered == [] {
      ValuesFit(inode, TRAILER, TRAILER_ENTRY);
    } else {
      ValuesFit(inode, ordered[0], entries[ordered[0]]);
      NarrowFits(ordered[1..], entries, inode + 1);
    }
  }

  /** With enough room, an admissible pair with a launcher and narrow fields is assembled. */
  lemma {:induction false} Assembled(base: Entries, overlay: Entries) returns (limit: nat, data: seq<Byte>)
    requires Admissible(base, overlay) && TypeStable(base, overlay) && HasLauncher(overlay)
    requires Narrow(base + overlay) && |base + overlay| < WORD - 1
    ensures Assembles(base, overlay, limit, data)
    ensures Parse(data, 0, map[]) == Ok(base + overlay) <==> ReadableMerge(base, overlay)
  {
    var all := base + overlay;
    var ordered := OrderingExists(all.Keys);
    KeysSize(all);
    NarrowFits(ordered, all, 1);
    data := Archive(ordered, all, 1);
    limit := |data|;
    assert Encodes(all, ordered, limit, data);
    ReadsBackIff(all, ordered);
    MergeKeepsTree(base, overlay);
    MergeIsWellFormedIff(base, overlay);
  }

  lemma {:induction false} KeysSize(entries: Entries)
    ensures |entries.Keys| == |entries|
  {
  }

  const LAUNCHER := Entry(0x81ed, 0, 0, 0, 0, [])
  const FILE := Entry(0x81a4, 0, 0, 0, 0, [])

  /** A pair that `assemble` turns into an archive which does not read back as the merge. */
  ghost predicate Lost(base: Entries, overlay: Entries, limit: nat, data: seq<Byte>) {
    && Admissible(base, overlay) && Assembles(base, overlay, limit, data)
    && Parse(data, 0, map[]) != Ok(base + overlay)
  }

  predicate Flat(name: Name) { SLASH !in name }

  /** Without subdirectories every tree is closed. */
  lemma {:induction false} FlatIsTree(entries: Entries)
    requires forall n :: n in entries ==> Flat(n)
    ensures TreeValid(entries)
  {
  }

  lemma {:induction false} TrailerName()
    ensures Canonical(TRAILER) && Flat(TRAILER) && |TRAILER| == 10
  {
    FlatNameIsCanonical(TRAILER);
  }

  lemma {:induction false} InitName()
    ensures Canonical(INIT) && Flat(INIT) && |INIT| == 4 && INIT[0] == 105
    ensures WellFormedEntry(INIT, LAUNCHER) && HasLauncher(map[INIT := LAUNCHER])
  {
    FlatNameIsCanonical(INIT);
    TrailerName();
  }

  /** An overlay of new, plain, top-level entries. */
  predicate PlainOverlay(base: Entries, overlay: Entries) {
    forall n :: n in overlay ==> n !in base && Flat(n) && Canonical(n) && overlay[n] in {LAUNCHER, FILE}
  }

  lemma {:induction false} PlainIsAdmissible(base: Entries, overlay: Entries)
    requires WellFormed(base) && PlainOverlay(base, overlay)
    ensures Admissible(base, overlay) && TypeStable(base, overlay)
  {
    FlatIsTree(overlay);
  }

  lemma {:induction false} PlainIsNarrow(base: Entries, overlay: Entries)
    requires Narrow(base) && PlainOverlay(base, overlay)
    ensures Narrow(base + overlay)
  {
    var all := base + overlay;
    forall n | n in all ensures |n| <= 4095 && NarrowEntry(all[n]) {
      if n in overlay { assert Canonical(n); }
    }
  }

  lemma {:induction false} NothingIsWellFormed()
    ensures WellFormed(map[]) && Narrow(map[])
  {
  }

  /** First failing input: an overlay with a file named like the trailer. */
  lemma {:induction false} TrailerIsAssembledAndLost()
      returns (base: Entries, overlay: Entries, limit: nat, data: seq<Byte>)
    ensures TRAILER in overlay && Lost(base, overlay, limit, data)
  {
    TrailerName();
    InitName();
    base, overlay := map[], map[INIT := LAUNCHER, TRAILER := FILE];
    TrailerPair(base, overlay);
    NothingIsWellFormed();
    PlainIsAdmissible(base, overlay);
    PlainIsNarrow(base, overlay);
    limit, data := Assembled(base, overlay);
  }

  lemma {:induction false} TrailerPair(base: Entries, overlay: Entries)
    requires base == map[] && overlay == map[INIT := LAUNCHER, TRAILER := FILE]
    ensures PlainOverlay(base, overlay) && HasLauncher(overlay) && |base + overlay| <= 2 && TRAILER in overlay
    ensures !ReadableMerge(base, overlay)
  {
    TrailerName();
    InitName();
    assert INIT != TRAILER;
    assert base + overlay == overlay;
    KeysSize(overlay);
    assert overlay.Keys == {INIT, TRAILER};
    assert !WellFormedEntry(TRAILER, overlay[TRAILER]);
  }

  /** n empty files named by their number. */
  function Files(n: nat): Entries {
    if n == 0 then map[] else Files(n - 1)[Hex(n - 1, 4) := FILE]
  }

  lemma {:induction false} HexDigits(v: nat, n: nat)
    ensures forall b :: b in Hex(v, n) ==> 48 <= b <= 57 || 97 <= b <= 102
  {
    if n > 0 { HexDigits(v / 16, n - 1); }
  }

  /** A name that is a number below n. */
  predicate Numbered(name: Name, n: nat) {
    HexValue(name).Some? && HexValue(name).value < n && name == Hex(HexValue(name).value, 4)
  }

  lemma {:induction false} FileName(v: nat)
    ensures |Hex(v, 4)| == 4 && Canonical(Hex(v, 4)) && Flat(Hex(v, 4)) && Hex(v, 4) != INIT
  {
    HexSize(v, 4);
    HexDigits(v, 4);
    InitName();
    assert Hex(v, 4)[0] in Hex(v, 4);
    FlatNameIsCanonical(Hex(v, 4));
  }

  /** No two numbers share a name, so there are n files. */
  lemma {:induction false} FilesAre(n: nat)
    requires n <= 65536
    ensures forall name :: name in Files(n) ==> Numbered(name, n) && Files(n)[name] == FILE
    ensures |Files(n)| == n
  {
    if n > 0 {
      FilesAre(n - 1);
      assert Pow16(4) == 65536;
      HexRoundTrip(n - 1, 4);
      assert Hex(n - 1, 4) !in Files(n - 1);
    }
  }

  /** A full house of plain files. */
  predicate PlainFiles(base: Entries, n: nat) {
    && |base| == n && INIT !in base
    && forall name :: name in base ==> Flat(name) && |name| == 4 && Canonical(name) && base[name] == FILE
  }

  lemma {:induction false} FilesArePlain(n: nat)
    requires n <= MAX_ENTRIES
    ensures PlainFiles(Files(n), n)
  {
    FilesAre(n);
    forall name | name in Files(n) ensures Flat(name) && |name| == 4 && Canonical(name) && name != INIT {
      FileName(HexValue(name).value);
    }
  }

  lemma {:induction false} PlainIsWellFormed(base: Entries, n: nat)
    requires n <= MAX_ENTRIES && PlainFiles(base, n)
    ensures WellFormed(base) && Narrow(base)
  {
    TrailerName();
    FlatIsTree(base);
  }

  lemma {:induction false} CrowdPair(base: Entries, overlay: Entries, n: nat)
    requires PlainFiles(base, n) && overlay == map[INIT := LAUNCHER]
    ensures PlainOverlay(base, overlay) && HasLauncher(overlay) && |base + overlay| == n + 1 && |overlay| == 1
    ensures forall name :: name in overlay ==> WellFormedEntry(name, overlay[name])
  {
    InitName();
    assert overlay.Keys == {INIT};
    assert base + overlay == base[INIT := LAUNCHER];
  }

  /** Second failing input: base and overlay each within the parser's bound, their merge not. */
  lemma {:induction false} CrowdIsAssembledAndLost()
      returns (base: Entries, overlay: Entries, limit: nat, data: seq<Byte>)
    ensures |base| <= MAX_ENTRIES && |overlay| <= MAX_ENTRIES < |base + overlay|
    ensures (forall n :: n in overlay ==> WellFormedEntry(n, overlay[n])) && Lost(base, overlay, limit, data)
  {
    var n := MAX_ENTRIES;
    base, overlay := Files(n), map[INIT := LAUNCHER];
    FilesArePlain(n);
    PlainIsWellFormed(base, n);
    CrowdPair(base, overlay, n);
    PlainIsAdmissible(base, overlay);
    PlainIsNarrow(base, overlay);
    limit, data := Assembled(base, overlay);
  }

  // ----- names, order and header fields, each by another definition ---------------------

  /** Path components put together again. */
  function Join(parts: seq<Name>): Name
    requires parts != []
  {
    if |parts| == 1 then parts[0] else parts[0] + [SLASH] + Join(parts[1..])
  }

  lemma {:induction false} LongerFirst(c: Byte, rest: seq<Name>)
    requires rest != [] && c != SLASH && forall part :: part in rest ==> Flat(part)
    ensures var parts := [[c] + rest[0]] + rest[1..];
            Join(parts) == [c] + Join(rest) && forall part :: part in parts ==> Flat(part)
  {
    var parts := [[c] + rest[0]] + rest[1..];
    assert parts[1..] == rest[1..];
    assert rest[0] in rest && Flat(parts[0]);
    assert forall part :: part in parts ==> part == parts[0] || part in rest;
  }

  /** Splitting takes a name apart at its slashes and nowhere else. */
  lemma {:induction false} SplitJoins(name: Name)
    ensures Join(Split(name)) == name && forall part :: part in Split(name) ==> Flat(part)
  {
    if name != [] {
      var rest := Split(name[1..]);
      SplitJoins(name[1..]);
      var parts := Split(name);
      if name[0] == SLASH {
        assert parts[1..] == rest;
      } else {
        LongerFirst(name[0], rest);
        assert name == [name[0]] + name[1..];
      }
    }
  }

  lemma {:induction false} FlatSplit(part: Name, rest: Name)
    requires Flat(part)
    ensures Split(part + [SLASH] + rest) == [part] + Split(rest)
    decreases |part|
  {
    var name := part + [SLASH] + rest;
    if part == [] {
      assert name[1..] == rest;
    } else {
      FlatSplit(part[1..], rest);
      assert name[1..] == part[1..] + [SLASH] + rest;
      assert part == [part[0]] + part[1..];
    }
  }

  lemma {:induction false} JoinSplits(parts: seq<Name>)
    requires parts != [] && forall part :: part in parts ==> Flat(part)
    ensures Split(Join(parts)) == parts
    decreases |parts|
  {
    assert parts[0] in parts;
    if |parts| == 1 {
      NoSlashSplit(parts[0]);
    } else {
      JoinSplits(parts[1..]);
      FlatSplit(parts[0], Join(parts[1..]));
    }
  }

  predicate Component(part: Name) { Flat(part) && part != [] && part != [46] && part != [46, 46] }

  /** name is made of these components. */
  predicate MadeOf(name: Name, parts: seq<Name>) {
    parts != [] && name == Join(parts) && forall part :: part in parts ==> Component(part)
  }

  /** The names `archive_name` accepts: components, none of them empty, "." or "..", joined by
      slashes, without NUL and within 4095 bytes. */
  lemma {:induction false} CanonicalIff(name: Name)
    ensures Canonical(name) <==>
              && 0 !in name && |name| <= 4095
              && exists parts: seq<Name> :: MadeOf(name, parts)
  {
    SplitJoins(name);
    if Canonical(name) {
      var parts := Split(name);
      assert MadeOf(name, parts);
    }
    if exists parts: seq<Name> :: MadeOf(name, parts) {
      var parts: seq<Name> :| MadeOf(name, parts);
      JoinSplits(parts);
      assert parts[0] in parts;
      assert name[0] == parts[0][0] && parts[0][0] in parts[0];
    }
  }

  /** Which members the parser adds, by the file type in bits 12 to 15 of the mode: files with one
      link, nonempty symbolic links without NUL, and directories and devices without payload. */
  lemma {:induction false} AddsIff(m: Member, entries: Entries)
    ensures Reject(m, entries) == None <==>
              && Canonical(m.name) && m.name !in entries && |entries| < 16384 && m.links >= 1
              && (match (m.mode / 4096) % 16
                  case 8 => m.links == 1
                  case 10 => m.entry.contents != [] && 0 !in m.entry.contents
                  case 2 => m.entry.contents == []
                  case 4 => m.entry.contents == []
                  case 6 => m.entry.contents == []
                  case _ => false)
  {
  }

  /** The parser ends well exactly at an empty trailer with nothing but zeros behind it, over a
      closed tree. */
  lemma {:induction false} EndsIff(m: Member, data: seq<Byte>, entries: Entries)
    requires m.next <= |data|
    ensures Finish(m, data, entries) == Ok(entries) <==>
              && m.entry.contents == [] && TreeValid(entries)
              && forall i :: m.next <= i < |data| ==> data[i] == 0
  {
    if exists b :: b in data[m.next..] && b != 0 {
      var b :| b in data[m.next..] && b != 0;
      var i :| 0 <= i < |data[m.next..]| && data[m.next..][i] == b;
      assert data[m.next + i] != 0;
    }
    forall i | m.next <= i < |data| ensures data[i] in data[m.next..] {
      assert data[m.next..][i - m.next] == data[i];
    }
  }

  /** What a header must say to be read: the magic, a terminated name of up to 4096 bytes without
      NUL inside, a payload that ends in the data, and checksum 0. */
  lemma {:induction false} ReadsMemberIff(data: seq<Byte>, o: nat, f: seq<nat>)
    requires o + 110 <= |data| && |f| == 13 && ParseFields(data[o + 6..o + 110]) == Some(f)
    ensures ParseMember(data, o).Ok? <==>
              && data[o..o + 6] == [48, 55, 48, 55, 48, 49] && f[12] == 0
              && 1 <= f[11] <= 4096 && o + 110 + f[11] <= |data|
              && data[o + 109 + f[11]] == 0 && 0 !in data[o + 110..o + 109 + f[11]]
              && Align(Align(o + 110 + f[11]) + f[6]) <= |data|
  {
    var header := data[o..o + 110];
    assert header[..6] == data[o..o + 6] && header[6..] == data[o + 6..o + 110];
  }

  /** The order of names is the dictionary's: the first difference decides, a prefix comes first. */
  ghost predicate FirstDifference(a: Name, b: Name, k: nat) {
    && k <= |a| && k < |b| && a[..k] == b[..k] && (k == |a| || a[k] < b[k])
  }

  lemma {:induction false} SameStart(a: Name, b: Name, k: nat)
    requires FirstDifference(a, b, k) && k > 0
    ensures a[0] == b[0]
  {
    assert a[..k][0] == b[..k][0];
  }

  lemma {:induction false} LexLessIff(a: Name, b: Name)
    ensures LexLess(a, b) <==> exists k: nat :: FirstDifference(a, b, k)
    decreases |a|
  {
    if b != [] {
      if a == [] || a[0] < b[0] {
        assert FirstDifference(a, b, 0);
      } else if a[0] == b[0] {
        LexLessIff(a[1..], b[1..]);
        if LexLess(a[1..], b[1..]) {
          var k: nat :| FirstDifference(a[1..], b[1..], k);
          assert a[..k + 1] == [a[0]] + a[1..][..k] && b[..k + 1] == [b[0]] + b[1..][..k];
          assert FirstDifference(a, b, k + 1);
        }
        forall k: nat | FirstDifference(a, b, k) ensures k > 0 && FirstDifference(a[1..], b[1..], k - 1) {
          assert a[1..][..k - 1] == a[..k][1..] && b[1..][..k - 1] == b[..k][1..];
        }
      } else {
        forall k: nat | FirstDifference(a, b, k) ensures false {
          if k > 0 { SameStart(a, b, k); }
        }
      }
    }
  }

  /** The depth of a name: it has one component more than slashes. */
  lemma {:induction false} DepthIsComponents(name: Name)
    ensures |Split(name)| == Slashes(name) + 1
  {
    if name != [] { DepthIsComponents(name[1..]); }
  }

  /** Lower-case hexadecimal digits. */
  lemma {:induction false} DigitIs(d: nat)
    requires d < 16
    ensures Digit(d) == [48, 49, 50, 51, 52, 53, 54, 55, 56, 57, 97, 98, 99, 100, 101, 102][d]
  {
  }

  /** The most significant digit comes first. */
  lemma {:induction false} HexDigitAt(v: nat, n: nat, k: nat)
    requires k < n
    ensures |Hex(v, n)| == n && Pow16(n - 1 - k) > 0 && Hex(v, n)[k] == Digit(v / Pow16(n - 1 - k) % 16)
    decreases n
  {
    HexSize(v, n);
    HexSize(v / 16, n - 1);
    Pow16Positive(n - 1 - k);
    if k < n - 1 {
      HexDigitAt(v / 16, n - 1, k);
      DivTwice(v, Pow16(n - 2 - k));
      assert Hex(v, n)[k] == Hex(v / 16, n - 1)[k];
    }
  }

  lemma {:induction false} Pow16Positive(n: nat)
    ensures Pow16(n) > 0
  {
    if n > 0 { Pow16Positive(n - 1); }
  }

  lemma {:induction false} DivTwice(v: nat, p: nat)
    requires p > 0
    ensures v / (16 * p) == v / 16 / p
  {
    var q := v / 16 / p;
    assert v / 16 == q * p + (v / 16) % p;
    assert 16 * (v / 16) <= v < 16 * (v / 16) + 16;
    assert q * (16 * p) == 16 * (q * p);
    QuotientIs(v, 16 * p, q);
  }

  lemma {:induction false} Scale(a: nat, b: nat, d: nat)
    requires a <= b
    ensures a * d <= b * d
  {
  }

  lemma {:induction false} QuotientIs(v: nat, d: nat, q: nat)
    requires d > 0 && q * d <= v < q * d + d
    ensures v / d == q
  {
    var r := v / d;
    assert v == r * d + v % d;
    if r < q {
      Scale(r + 1, q, d);
    } else if q < r {
      Scale(q + 1, r, d);
    }
  }

  lemma {:induction false} HexFieldAt(values: seq<nat>, k: nat)
    requires k < |values|
    ensures |HexFields(values)| == 8 * |values| && HexFields(values)[8 * k..8 * k + 8] == Hex(values[k], 8)
    decreases k
  {
    HexFieldsSize(values);
    HexSize(values[0], 8);
    if k > 0 {
      HexFieldAt(values[1..], k - 1);
      assert HexFields(values)[8 * k..8 * k + 8] == HexFields(values[1..])[8 * (k - 1)..8 * (k - 1) + 8];
    }
  }

  /** The header of a member, field by field: magic, then inode, mode, owner, group, one link, time
      0, size, device numbers 0, the member's own device numbers, name size and checksum 0. */
  lemma {:induction false} HeaderLayout(inode: nat, name: Name, e: Entry, k: nat)
    requires k < 13
    ensures var d := Record(inode, name, e);
            && |d| >= 110 && d[..6] == [48, 55, 48, 55, 48, 49]
            && d[6 + 8 * k..14 + 8 * k]
               == Hex([inode, e.mode, e.uid, e.gid, 1, 0, |e.contents|, 0, 0, e.major, e.minor, |name| + 1, 0][k], 8)
  {
    var fields := HexFields(Values(inode, name, e));
    RecordSize(inode, name, e);
    HexFieldAt(Values(inode, name, e), k);
    RecordParts(MAGIC, fields, name, Pad(111 + |name|), e.contents, Pad(|e.contents|), k);
  }

  /** Where the header fields are in a record put together from its parts. */
  lemma {:induction false} RecordParts(magic: seq<Byte>, fields: seq<Byte>, name: Name, pad: seq<Byte>,
                                       contents: seq<Byte>, end: seq<Byte>, k: nat)
    requires |magic| == 6 && |fields| == 104 && k < 13
    ensures var d := magic + fields + name + [0] + pad + contents + end;
            |d| >= 110 && d[..6] == magic && d[6 + 8 * k..14 + 8 * k] == fields[8 * k..8 * k + 8]
  {
  }
}
