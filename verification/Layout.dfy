/**
 Grant geometry: the two checks of include/hyper_io_layout.h and the extent walk of
 `prepare_memory`, which turns a scatter list into one page table in frontend order.
 */
module Layout {

  const PAGE: nat := 4096
  const GRANULE: nat := 0x20_0000
  const U64: nat := 0x1_0000_0000_0000_0000
  const MAX_GRANT_PAGES: nat := 0x10_0000
  const MAX_READ: nat := 0x10_0000

  type Word = w: nat | w < 0x1_0000_0000_0000_0000

  /** `hyper_io_extent_valid`, on 64-bit words. */
  predicate ExtentValid(cursor: Word, total: Word, alias: Word, offset: Word, length: Word) {
    && cursor <= total && offset == cursor && length != 0 && length % PAGE == 0
    && alias % PAGE == 0 && alias <= U64 - 1 - length && length <= total - cursor
  }

  /** `hyper_io_page_aperture`; start and end are the first and the last byte. */
  predicate PageAperture(alias: Word, start: Word, end: Word) {
    var base := alias - alias % GRANULE;
    alias % PAGE == 0 && base >= start && base <= end && end - base >= GRANULE - 1
  }

  /** The aperture test is about the whole 2 MiB granule around the page, not just the page. */
  lemma {:induction false} ApertureHoldsGranule(alias: Word, start: Word, end: Word)
    ensures PageAperture(alias, start, end) <==>
              alias % PAGE == 0 && forall x: nat :: x / GRANULE == alias / GRANULE ==> start <= x <= end
  {
    var base := alias - alias % GRANULE;
    assert base / GRANULE == alias / GRANULE;
    assert (base + GRANULE - 1) / GRANULE == alias / GRANULE;
    forall x: nat | x / GRANULE == alias / GRANULE ensures base <= x <= base + GRANULE - 1 {
    }
  }

  /** What one EXTENT query answers. */
  datatype Answer = Failed | Extent(alias: Word, offset: Word, length: Word)

  /** The bytes the first i extents cover. */
  function Covered(answers: seq<Answer>): nat {
    if answers == [] then 0
    else Covered(answers[..|answers| - 1]) + (match answers[|answers| - 1] case Failed => 0 case Extent(_, _, n) => n)
  }

  /** A nonempty run of whole pages that does not wrap. */
  predicate PageRun(e: Answer) {
    e.Extent? && e.length != 0 && e.length % PAGE == 0 && e.alias % PAGE == 0 && e.alias + e.length < U64
  }

  /** Extent i starts where the ones before it end. */
  ghost predicate Follows(answers: seq<Answer>, i: nat)
    requires i < |answers|
  {
    answers[i].Extent? && answers[i].offset == Covered(answers[..i])
  }

  /** The extents lie end to end from offset 0 to length, page by page, with no address wrap. */
  ghost predicate Tiles(answers: seq<Answer>, length: nat) {
    && (forall i :: 0 <= i < |answers| ==> PageRun(answers[i]))
    && (forall i {:trigger Follows(answers, i)} :: 0 <= i < |answers| ==> Follows(answers, i))
    && Covered(answers) == length
  }

  /** n consecutive pages from alias on. */
  function Run(alias: nat, n: nat): seq<nat> { seq(n, k requires 0 <= k => alias + PAGE * k) }

  /** All pages of all extents in order. */
  function Flatten(answers: seq<Answer>): seq<nat> {
    if answers == [] then []
    else
      Flatten(answers[..|answers| - 1])
      + (match answers[|answers| - 1] case Failed => [] case Extent(alias, _, n) => Run(alias, n / PAGE))
  }

  lemma {:induction false} CoveredGrows(answers: seq<Answer>, i: nat)
    requires i <= |answers|
    ensures Covered(answers[..i]) <= Covered(answers)
    decreases |answers| - i
  {
    if i == |answers| {
      assert answers[..i] == answers;
    } else {
      CoveredGrows(answers, i + 1);
      assert answers[..i + 1][..i] == answers[..i];
    }
  }

  lemma {:induction false} FlattenSize(answers: seq<Answer>)
    requires forall i :: 0 <= i < |answers| && answers[i].Extent? ==> answers[i].length % PAGE == 0
    ensures Covered(answers) % PAGE == 0 && |Flatten(answers)| == Covered(answers) / PAGE
  {
    if answers != [] { FlattenSize(answers[..|answers| - 1]); }
  }

  /** The table of the first extents is a prefix of the whole table. */
  lemma {:induction false} FlattenPrefix(answers: seq<Answer>, i: nat)
    requires i <= |answers|
    ensures Flatten(answers[..i]) <= Flatten(answers)
    decreases |answers| - i
  {
    if i == |answers| {
      assert answers[..i] == answers;
    } else {
      FlattenPrefix(answers, i + 1);
      assert answers[..i + 1][..i] == answers[..i];
    }
  }

  /** Each frontend offset of each extent finds its alias page in the flattened table. */
  lemma {:induction false} OffsetFindsAlias(answers: seq<Answer>, length: nat, i: nat, at: nat)
    requires Tiles(answers, length) && i < |answers| && at < answers[i].length && at % PAGE == 0
    ensures |Flatten(answers)| == length / PAGE
    ensures (answers[i].offset + at) / PAGE < |Flatten(answers)|
    ensures Flatten(answers)[(answers[i].offset + at) / PAGE] == answers[i].alias + at < U64
  {
    assert |Flatten(answers)| == length / PAGE by { FlattenSize(answers); }
    assert Follows(answers, i) && PageRun(answers[i]);
    PagesBelow(at, answers[i].length);
    assert (answers[i].offset + at) / PAGE == |Flatten(answers[..i])| + at / PAGE by {
      FlattenSize(answers[..i]);
      PagesAdd(Covered(answers[..i]), at);
    }
    FindsAlias(answers, i, at / PAGE);
  }

  /** Page n of extent i. */
  lemma {:induction false} FindsAlias(answers: seq<Answer>, i: nat, n: nat)
    requires i < |answers| && answers[i].Extent? && n < answers[i].length / PAGE
    ensures var page := |Flatten(answers[..i])| + n;
            page < |Flatten(answers)| && Flatten(answers)[page] == answers[i].alias + PAGE * n
  {
    assert answers[..i + 1][..i] == answers[..i];
    assert Flatten(answers[..i + 1]) == Flatten(answers[..i]) + Run(answers[i].alias, answers[i].length / PAGE);
    FlattenPrefix(answers, i + 1);
  }

  lemma {:induction false} PagesBelow(at: nat, length: nat)
    requires at < length && at % PAGE == 0 && length % PAGE == 0
    ensures at / PAGE < length / PAGE && PAGE * (at / PAGE) == at
  {
  }

  lemma {:induction false} PagesAdd(a: nat, b: nat)
    requires a % PAGE == 0
    ensures (a + b) / PAGE == a / PAGE + b / PAGE
  {
  }

  /** After i extents: everything so far tiles [0, cursor), and table is its flattening. */
  ghost predicate Walked(answers: seq<Answer>, i: nat, cursor: nat, table: seq<nat>) {
    && i <= |answers| && cursor % PAGE == 0 && cursor == Covered(answers[..i])
    && (forall j :: 0 <= j < i ==> PageRun(answers[j]))
    && (forall j {:trigger Follows(answers, j)} :: 0 <= j < i ==> Follows(answers, j))
    && table == Flatten(answers[..i])
  }

  lemma {:induction false} WalkOn(answers: seq<Answer>, i: nat, cursor: Word, table: seq<nat>, length: Word)
    requires Walked(answers, i, cursor, table) && i < |answers| && answers[i].Extent? && cursor <= length
    requires ExtentValid(cursor, length, answers[i].alias, answers[i].offset, answers[i].length)
    ensures Walked(answers, i + 1, cursor + answers[i].length, table + Run(answers[i].alias, answers[i].length / PAGE))
  {
    assert answers[..i + 1][..i] == answers[..i];
    assert Follows(answers, i);
  }

  lemma {:induction false} WalkStops(answers: seq<Answer>, i: nat, cursor: Word, table: seq<nat>, length: Word)
    requires Walked(answers, i, cursor, table) && i < |answers| && cursor <= length
    requires answers[i].Failed? || !ExtentValid(cursor, length, answers[i].alias, answers[i].offset, answers[i].length)
    ensures !Tiles(answers, length)
  {
    assert answers[..i + 1][..i] == answers[..i];
    CoveredGrows(answers, i + 1);
    assert Tiles(answers, length) ==> Follows(answers, i);
  }

  /** The extent walk.  It succeeds exactly when the answers tile the grant, and then every
      slot of the page table holds its page. */
  method ReadExtents(answers: seq<Answer>, length: Word) returns (ok: bool, pages: array<nat>)
    requires length % PAGE == 0
    ensures fresh(pages) && pages.Length == length / PAGE
    ensures ok <==> Tiles(answers, length)
    ensures ok ==> pages[..] == Flatten(answers)
  {
    pages := new nat[length / PAGE](_ => 0);
    var cursor: Word := 0;
    for i := 0 to |answers|
      invariant cursor <= length && cursor / PAGE <= pages.Length
      invariant Walked(answers, i, cursor, pages[..cursor / PAGE])
    {
      var e := answers[i];
      if e.Failed? || !ExtentValid(cursor, length, e.alias, e.offset, e.length) {
        WalkStops(answers, i, cursor, pages[..cursor / PAGE], length);
        return false, pages;
      }
      ghost var table := pages[..cursor / PAGE];
      WalkOn(answers, i, cursor, table, length);
      FillExtent(pages, cursor, e.alias, e.length);
      var next := cursor + e.length;
      assert pages[..next / PAGE] == table + pages[cursor / PAGE..next / PAGE];
      cursor := next;
    }
    assert answers[..|answers|] == answers;
    ok := cursor == length;
  }

  /** The inner loop: the slots from cursor on get the extent's pages, all others keep theirs. */
  method FillExtent(pages: array<nat>, cursor: Word, alias: Word, length: Word)
    requires cursor % PAGE == 0 && length % PAGE == 0 && (cursor + length) / PAGE <= pages.Length
    requires alias + length < U64
    modifies pages
    ensures pages[cursor / PAGE..(cursor + length) / PAGE] == Run(alias, length / PAGE)
    ensures forall k | 0 <= k < pages.Length :: !(cursor / PAGE <= k < (cursor + length) / PAGE) ==>
              pages[k] == old(pages[k])
  {
    var at := 0;
    while at < length
      invariant 0 <= at <= length && at % PAGE == 0
      invariant forall k | 0 <= k < at / PAGE :: pages[cursor / PAGE + k] == alias + PAGE * k
      invariant forall k | 0 <= k < pages.Length ::
                  !(cursor / PAGE <= k < cursor / PAGE + at / PAGE) ==> pages[k] == old(pages[k])
    {
      assert (cursor + at) / PAGE == cursor / PAGE + at / PAGE;
      pages[(cursor + at) / PAGE] := alias + at;
      at := at + PAGE;
    }
    assert (cursor + length) / PAGE == cursor / PAGE + length / PAGE;
  }
}
