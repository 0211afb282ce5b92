/** Directory listings and the pages a `readdir` call serves of them. */
module Paging {
  import opened InodeTree

  datatype FileKind = DirectoryKind | RegularKind

  datatype Entry = Entry(ino: Ino, offset: int, kind: FileKind, name: string)

  /** An entry before it gets its offset. */
  datatype Item = Item(ino: Ino, kind: FileKind, name: string)

  /** Entries carry the offsets 1, 2, 3, ... */
  function Numbered(items: seq<Item>): (entries: seq<Entry>)
    ensures |entries| == |items|
    ensures forall i :: 0 <= i < |items| ==> entries[i] == Entry(items[i].ino, i + 1, items[i].kind, items[i].name)
  {
    seq(|items|, i requires 0 <= i < |items| => Entry(items[i].ino, i + 1, items[i].kind, items[i].name))
  }

  ghost predicate Increasing(entries: seq<Entry>) {
    forall i, j :: 0 <= i < j < |entries| ==> entries[i].offset < entries[j].offset
  }

  lemma {:induction false} NumberedIncreases(items: seq<Item>)
    ensures Increasing(Numbered(items))
  {
  }

  // ── One page ─────────────────────────────────────────────────────────────

  const READDIR_PAGE_ENTRIES: nat := 128

  /** The entries after `offset`, by a linear scan. */
  function AfterOffset(entries: seq<Entry>, offset: int): seq<Entry> {
    if entries == [] then []
    else (if entries[0].offset > offset then [entries[0]] else []) + AfterOffset(entries[1..], offset)
  }

  function FirstPage(entries: seq<Entry>): seq<Entry> {
    if |entries| <= READDIR_PAGE_ENTRIES then entries else entries[..READDIR_PAGE_ENTRIES]
  }

  /** What one call returns. */
  function Page(entries: seq<Entry>, offset: int): seq<Entry> { FirstPage(AfterOffset(entries, offset)) }

  /** Where the linear scan starts to keep entries. */
  lemma {:induction false} AfterIsSuffix(entries: seq<Entry>, offset: int, start: nat)
    requires start <= |entries|
    requires forall i :: 0 <= i < start ==> entries[i].offset <= offset
    requires forall i :: start <= i < |entries| ==> entries[i].offset > offset
    ensures AfterOffset(entries, offset) == entries[start..]
  {
    if entries != [] {
      AfterIsSuffix(entries[1..], offset, if start == 0 then 0 else start - 1);
      if start == 0 { assert entries == [entries[0]] + entries[1..]; }
    }
  }

  /** Index of the first entry past `offset`, by halving. */
  method PartitionPoint(entries: seq<Entry>, offset: int) returns (start: nat)
    requires Increasing(entries)
    ensures start <= |entries|
    ensures forall i :: 0 <= i < start ==> entries[i].offset <= offset
    ensures forall i :: start <= i < |entries| ==> entries[i].offset > offset
  {
    var lo, hi := 0, |entries|;
    while lo < hi
      invariant lo <= hi <= |entries|
      invariant forall i :: 0 <= i < lo ==> entries[i].offset <= offset
      invariant forall i :: hi <= i < |entries| ==> entries[i].offset > offset
    {
      var mid := lo + (hi - lo) / 2;
      if entries[mid].offset <= offset { lo := mid + 1; } else { hi := mid; }
    }
    return lo;
  }

  method PageAfterOffset(entries: seq<Entry>, offset: int) returns (page: seq<Entry>)
    requires Increasing(entries)
    ensures page == Page(entries, offset)
  {
    var start := PartitionPoint(entries, offset);
    AfterIsSuffix(entries, offset, start);
    var end := if start + READDIR_PAGE_ENTRIES < |entries| then start + READDIR_PAGE_ENTRIES else |entries|;
    return entries[start..end];
  }

  // ── A walk ───────────────────────────────────────────────────────────────

  /** What a call with this offset returns. */
  type Pager = int -> seq<Entry>

  function PagesOf(entries: seq<Entry>): Pager { (offset: int) => Page(entries, offset) }

  /** A walk resumes after the last entry it accepted; `accepts` says how many
      entries of each page were taken. */
  ghost predicate IsWalk(pages: Pager, offset: int, accepts: seq<nat>)
    decreases |accepts|
  {
    || accepts == []
    || (var page := pages(offset);
        0 < accepts[0] <= |page| && IsWalk(pages, page[accepts[0] - 1].offset, accepts[1..]))
  }

  /** Everything the walk was given, in order. */
  ghost function Delivered(pages: Pager, offset: int, accepts: seq<nat>): seq<Entry>
    requires IsWalk(pages, offset, accepts)
    decreases |accepts|
  {
    if accepts == [] then []
    else
      var page := pages(offset);
      page[..accepts[0]] + Delivered(pages, page[accepts[0] - 1].offset, accepts[1..])
  }

  ghost function LastOffset(pages: Pager, offset: int, accepts: seq<nat>): int
    requires IsWalk(pages, offset, accepts)
    decreases |accepts|
  {
    if accepts == [] then offset
    else LastOffset(pages, pages(offset)[accepts[0] - 1].offset, accepts[1..])
  }

  /** The offset a walk stands at after the first `n` entries. */
  ghost predicate StandsAt(entries: seq<Entry>, offset: int, n: nat) {
    && n <= |entries|
    && (forall i :: 0 <= i < n ==> entries[i].offset <= offset)
    && (forall i :: n <= i < |entries| ==> entries[i].offset > offset)
  }

  /** A page that starts at entry `n`, and is empty only at the end. */
  ghost predicate StartsAt(page: seq<Entry>, entries: seq<Entry>, n: nat) {
    && n + |page| <= |entries| && (page == [] <==> n == |entries|)
    && (forall i :: 0 <= i < |page| ==> page[i] == entries[n + i])
  }

  lemma {:induction false} PageAt(entries: seq<Entry>, offset: int, n: nat)
    requires StandsAt(entries, offset, n)
    ensures StartsAt(Page(entries, offset), entries, n)
  {
    AfterIsSuffix(entries, offset, n);
  }

  ghost predicate Serves(pages: Pager, entries: seq<Entry>) {
    forall offset, n {:trigger StandsAt(entries, offset, n)} :: StandsAt(entries, offset, n) ==> StartsAt(pages(offset), entries, n)
  }

  lemma {:induction false} PagesServe(entries: seq<Entry>)
    ensures Serves(PagesOf(entries), entries)
  {
    forall offset, n | StandsAt(entries, offset, n) ensures StartsAt(PagesOf(entries)(offset), entries, n) {
      PageAt(entries, offset, n);
    }
  }

  lemma {:induction false} Accepted(pages: Pager, entries: seq<Entry>, offset: int, n: nat, k: nat)
    requires Increasing(entries) && Serves(pages, entries) && StandsAt(entries, offset, n) && 0 < k <= |pages(offset)|
    ensures StandsAt(entries, pages(offset)[k - 1].offset, n + k)
  {
    assert pages(offset)[k - 1] == entries[n + (k - 1)];
  }

  ghost function Total(accepts: seq<nat>): nat {
    if accepts == [] then 0 else accepts[0] + Total(accepts[1..])
  }

  lemma {:induction false} DeliveredLength(pages: Pager, offset: int, accepts: seq<nat>)
    requires IsWalk(pages, offset, accepts)
    ensures |Delivered(pages, offset, accepts)| == Total(accepts) >= |accepts|
    decreases |accepts|
  {
    if accepts != [] { DeliveredLength(pages, pages(offset)[accepts[0] - 1].offset, accepts[1..]); }
  }

  /** A walk that starts at entry `n` stands behind all it was given. */
  lemma {:induction false} WalkStands(pages: Pager, entries: seq<Entry>, offset: int, accepts: seq<nat>, n: nat)
    requires Increasing(entries) && Serves(pages, entries) && StandsAt(entries, offset, n) && IsWalk(pages, offset, accepts)
    ensures StandsAt(entries, LastOffset(pages, offset, accepts), n + Total(accepts))
    decreases |accepts|
  {
    if accepts != [] {
      var k := accepts[0];
      Accepted(pages, entries, offset, n, k);
      WalkStands(pages, entries, pages(offset)[k - 1].offset, accepts[1..], n + k);
    }
  }

  /** And what it was given are the entries from `n` on. */
  lemma {:induction false} DeliveredAt(pages: Pager, entries: seq<Entry>, offset: int, accepts: seq<nat>, n: nat, i: nat)
    requires Increasing(entries) && Serves(pages, entries) && StandsAt(entries, offset, n) && IsWalk(pages, offset, accepts)
    requires i < |Delivered(pages, offset, accepts)|
    ensures n + i < |entries| && Delivered(pages, offset, accepts)[i] == entries[n + i]
    decreases |accepts|
  {
    var k := accepts[0];
    if i < k {
      assert pages(offset)[i] == entries[n + i];
    } else {
      Accepted(pages, entries, offset, n, k);
      DeliveredAt(pages, entries, pages(offset)[k - 1].offset, accepts[1..], n + k, i - k);
    }
  }

  /** Whatever part of each page is accepted, a walk over a listing ends after at
      most one call per entry, has then seen every entry once and in order, and
      before that has seen a prefix. */
  lemma {:induction false} WalkIsExact(items: seq<Item>, accepts: seq<nat>)
    requires IsWalk(PagesOf(Numbered(items)), 0, accepts)
    ensures var entries, pages := Numbered(items), PagesOf(Numbered(items));
            var d := Delivered(pages, 0, accepts);
            && |accepts| <= |entries| && d <= entries
            && (pages(LastOffset(pages, 0, accepts)) == [] <==> d == entries)
  {
    PagesServe(Numbered(items));
    NumberedIncreases(items);
    WalkServed(PagesOf(Numbered(items)), Numbered(items), accepts);
  }

  lemma {:induction false} WalkServed(pages: Pager, entries: seq<Entry>, accepts: seq<nat>)
    requires Increasing(entries) && Serves(pages, entries) && StandsAt(entries, 0, 0) && IsWalk(pages, 0, accepts)
    ensures var d := Delivered(pages, 0, accepts);
            && |accepts| <= |entries| && d <= entries
            && (pages(LastOffset(pages, 0, accepts)) == [] <==> d == entries)
  {
    var d := Delivered(pages, 0, accepts);
    DeliveredLength(pages, 0, accepts);
    WalkStands(pages, entries, 0, accepts, 0);
    assert StartsAt(pages(LastOffset(pages, 0, accepts)), entries, |d|);
    forall i | 0 <= i < |d| ensures d[i] == entries[i] { DeliveredAt(pages, entries, 0, accepts, 0, i); }
  }
}
