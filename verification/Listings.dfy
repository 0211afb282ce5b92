/** How each kind of directory is listed. */
module Listings {
  import opened Text
  import opened InodeTree
  import opened Paging
  import PT = PendingTree
  import TF = TorrentFile

  /** Entries get consecutive offsets as they are pushed. */
  lemma {:induction false} PushNumbered(done: seq<Item>, item: Item)
    ensures Numbered(done) + [Entry(item.ino, |done| + 1, item.kind, item.name)] == Numbered(done + [item])
  {
  }

  /** Pushes items, counting the offset up after each. */
  method AppendItems(entries: seq<Entry>, counter: nat, items: seq<Item>, ghost done: seq<Item>)
    returns (entries': seq<Entry>, counter': nat)
    requires entries == Numbered(done) && counter == |done| + 1
    ensures entries' == Numbered(done + items) && counter' == |done + items| + 1
  {
    entries', counter' := entries, counter;
    assert done + items[..0] == done;
    for n := 0 to |items|
      invariant entries' == Numbered(done + items[..n]) && counter' == |done| + n + 1
    {
      PushNumbered(done + items[..n], items[n]);
      assert done + items[..n] + [items[n]] == done + items[..n + 1];
      entries' := entries' + [Entry(items[n].ino, counter', items[n].kind, items[n].name)];
      counter' := counter' + 1;
    }
    assert items[..|items|] == items;
  }

  /** Pushes items, counting the offset up before each. */
  method AppendPending(entries: seq<Entry>, counter: nat, items: seq<Item>, ghost done: seq<Item>)
    returns (entries': seq<Entry>)
    requires entries == Numbered(done) && counter == |done|
    ensures entries' == Numbered(done + items)
  {
    entries' := entries;
    var offset := counter;
    assert done + items[..0] == done;
    for n := 0 to |items|
      invariant entries' == Numbered(done + items[..n]) && offset == |done| + n
    {
      PushNumbered(done + items[..n], items[n]);
      assert done + items[..n] + [items[n]] == done + items[..n + 1];
      offset := offset + 1;
      entries' := entries' + [Entry(items[n].ino, offset, items[n].kind, items[n].name)];
    }
    assert items[..|items|] == items;
  }

  function Dots(ino: Ino, parent: Ino): seq<Item> {
    [Item(ino, DirectoryKind, "."), Item(parent, DirectoryKind, "..")]
  }

  // ── The root and the directories below `metadata/` ───────────────────────

  function RootItems(): seq<Item> {
    Dots(ROOT, ROOT) + [Item(METADATA, DirectoryKind, "metadata"), Item(DATA, DirectoryKind, "data"),
                        Item(STATS, RegularKind, ".stats")]
  }

  predicate IsShown(t: Table, ino: Ino, c: Ino) {
    c in t && t[c].parent == ino && if t[c].Directory? then t[c].name != "" else !t[c].unlinked
  }

  function ShownItem(t: Table, c: Ino): Item
    requires c in t
  {
    Item(c, if t[c].Directory? then DirectoryKind else RegularKind, t[c].name)
  }

  ghost predicate Ascending(inos: seq<Ino>) { forall i, j :: 0 <= i < j < |inos| ==> inos[i] < inos[j] }

  function Insert(inos: seq<Ino>, c: Ino): (r: seq<Ino>)
    ensures forall x :: x in r <==> x in inos || x == c
    ensures Ascending(inos) && c !in inos ==> Ascending(r)
  {
    if inos == [] || c < inos[0] then [c] + inos
    else
      assert forall x :: x in inos <==> x == inos[0] || x in inos[1..];
      var rest := Insert(inos[1..], c);
      assert forall j :: 0 <= j < |rest| ==> rest[j] in rest && (rest[j] == c || rest[j] in inos[1..]);
      [inos[0]] + rest
  }

  /** The children to show, in ascending inode order whatever order the table
      was gone through in. */
  method ShownChildren(t: Table, ino: Ino) returns (children: seq<Ino>)
    ensures Ascending(children)
    ensures forall c :: c in children <==> IsShown(t, ino, c)
  {
    children := [];
    var rest := t.Keys;
    while rest != {}
      invariant rest <= t.Keys && Ascending(children)
      invariant forall c :: c in children <==> IsShown(t, ino, c) && c !in rest
      decreases |rest|
    {
      var c :| c in rest;
      rest := rest - {c};
      if IsShown(t, ino, c) { children := Insert(children, c); }
    }
  }

  function ShownItems(t: Table, children: seq<Ino>): (items: seq<Item>)
    requires forall c :: c in children ==> c in t
    ensures |items| == |children| && forall i :: 0 <= i < |items| ==> items[i] == ShownItem(t, children[i])
  {
    if children == [] then [] else [ShownItem(t, children[0])] + ShownItems(t, children[1..])
  }

  method ReaddirMetadata(t: Table, ino: Ino) returns (r: Option<seq<Entry>>, ghost children: seq<Ino>)
    ensures ino == ROOT ==> r == Some(Numbered(RootItems()))
    ensures r.None? <==> ino != ROOT && !(ino in t && t[ino].Directory?)
    ensures ino != ROOT && r.Some? ==>
              && Ascending(children) && (forall c :: c in children <==> IsShown(t, ino, c))
              && r.value == Numbered(Dots(ino, t[ino].parent) + ShownItems(t, children))
  {
    children := [];
    var entries := [Entry(ino, 1, DirectoryKind, ".")];
    if ino == ROOT {
      entries := entries + [Entry(ROOT, 2, DirectoryKind, "..")];
      entries := entries + [Entry(METADATA, 3, DirectoryKind, "metadata")];
      entries := entries + [Entry(DATA, 4, DirectoryKind, "data")];
      entries := entries + [Entry(STATS, 5, RegularKind, ".stats")];
      assert entries == Numbered(RootItems());
      return Some(entries), children;
    }
    if ino !in t || t[ino].File? { return None, children; }
    entries := entries + [Entry(t[ino].parent, 2, DirectoryKind, "..")];
    var shown := ShownChildren(t, ino);
    children := shown;
    var counter;
    entries, counter := AppendItems(entries, |entries| + 1, ShownItems(t, shown), Dots(ino, t[ino].parent));
    return Some(entries), children;
  }

  // ── The directories below `data/` ────────────────────────────────────────

  datatype Row = Row(id: nat, name: string)

  /** What the listing queries return. */
  datatype Database = Database(
    torrents: string -> seq<Row>,
    prefixes: string -> seq<string>,
    directories: (nat, Option<nat>) -> seq<Row>,
    files: (nat, Option<nat>) -> seq<Row>,
    parent: nat -> Option<nat>)

  /** Which queries are answered. */
  datatype Answers = Answers(torrents: bool, prefixes: bool, directories: bool, files: bool, parent: bool)

  /** How inode numbers below `data/` are made. */
  datatype InoMaker = InoMaker(
    torrentRoot: nat -> Ino,
    torrentDir: nat -> Ino,
    torrentFile: nat -> Ino,
    sourcePath: string -> Ino,
    stats: Ino -> Ino,
    pendingRoot: Key -> Ino,
    pendingDir: (Key, string) -> Ino,
    pendingFile: (Key, string) -> Ino)

  /** The record of a `data/` inode; a torrent that is still being added has id 0. */
  datatype Record =
    | SourcePathDir(path: string)
    | TorrentRoot(torrentId: nat, key: Key)
    | TorrentDir(torrentId: nat, dirId: nat, key: Key, dirPath: string)
    | TorrentFile

  /** The `..` of a source path: the parent path's directory, or `data/`. */
  function SourceParent(mk: InoMaker, path: string): Ino {
    var p := ParentPath(path); if p.None? then DATA else mk.sourcePath(p.value)
  }

  function Names(items: seq<Item>): seq<string> {
    if items == [] then [] else [items[0].name] + Names(items[1..])
  }

  function RowItems(make: nat -> Ino, kind: FileKind, rows: seq<Row>): seq<Item> {
    if rows == [] then [] else [Item(make(rows[0].id), kind, rows[0].name)] + RowItems(make, kind, rows[1..])
  }

  function PrefixItems(mk: InoMaker, path: string, subs: seq<string>): seq<Item> {
    if subs == [] then []
    else [Item(mk.sourcePath(ChildPath(path, subs[0])), DirectoryKind, subs[0])] + PrefixItems(mk, path, subs[1..])
  }

  /** Torrents being added below `path` that have no row yet, in the order the
      in-flight set is gone through. */
  function PendingItems(mk: InoMaker, path: string, existing: seq<string>, order: seq<Key>): seq<Item> {
    if order == [] then []
    else
      var k := order[0];
      (if k.sourcePath == path && k.filename !in existing
       then [Item(mk.pendingRoot(k), DirectoryKind, k.filename)] else []) + PendingItems(mk, path, existing, order[1..])
  }

  function Stats(mk: InoMaker, ino: Ino): seq<Item> { [Item(mk.stats(ino), RegularKind, ".stats")] }

  /** `data/` itself and the directories that mirror source paths. */
  function SourceItems(mk: InoMaker, db: Database, order: seq<Key>, ino: Ino, path: string): seq<Item> {
    var torrents := RowItems(mk.torrentRoot, DirectoryKind, db.torrents(path));
    var subs := PrefixItems(mk, path, db.prefixes(path));
    var dirs := if ino == DATA then torrents + subs else subs + torrents;
    Dots(ino, if ino == DATA then ROOT else SourceParent(mk, path)) + dirs + Stats(mk, ino)
    + PendingItems(mk, path, Names(dirs), order)
  }

  function TorrentRootItems(mk: InoMaker, db: Database, ino: Ino, id: nat, sourcePath: string): seq<Item> {
    Dots(ino, SourceParent(mk, sourcePath)) + RowItems(mk.torrentDir, DirectoryKind, db.directories(id, None))
    + RowItems(mk.torrentFile, RegularKind, db.files(id, None)) + Stats(mk, ino)
  }

  /** Without an answer about its parent, a directory passes for one at the top. */
  function TorrentDirItems(mk: InoMaker, db: Database, parentKnown: bool, ino: Ino, id: nat, dirId: nat): seq<Item> {
    var up := if parentKnown then db.parent(dirId) else None;
    Dots(ino, if up.Some? then mk.torrentDir(up.value) else mk.torrentRoot(id))
    + RowItems(mk.torrentDir, DirectoryKind, db.directories(id, Some(dirId)))
    + RowItems(mk.torrentFile, RegularKind, db.files(id, Some(dirId)))
  }

  /** A directory whose listing comes out of the database. */
  predicate FromDatabase(ino: Ino, record: Option<Record>) {
    || ino == DATA
    || (record.Some? && (record.value.SourcePathDir? || (!record.value.TorrentFile? && record.value.torrentId != 0)))
  }

  /** The queries without whose answers there is no listing. */
  predicate Answered(answers: Answers, ino: Ino, record: Option<Record>)
    requires FromDatabase(ino, record)
  {
    if ino == DATA || record.value.SourcePathDir? then answers.torrents && answers.prefixes
    else answers.directories && answers.files
  }

  function DataItems(mk: InoMaker, db: Database, parentKnown: bool, order: seq<Key>, ino: Ino, record: Option<Record>): seq<Item>
    requires FromDatabase(ino, record)
  {
    if ino == DATA then SourceItems(mk, db, order, ino, "")
    else match record.value
      case SourcePathDir(path) => SourceItems(mk, db, order, ino, path)
      case TorrentRoot(id, key) => TorrentRootItems(mk, db, ino, id, key.sourcePath)
      case TorrentDir(id, dirId, _, _) => TorrentDirItems(mk, db, parentKnown, ino, id, dirId)
  }

  method ReaddirSource(mk: InoMaker, db: Database, answers: Answers, order: seq<Key>, ino: Ino, path: string)
    returns (r: Option<seq<Entry>>)
    ensures r == if answers.torrents && answers.prefixes then Some(Numbered(SourceItems(mk, db, order, ino, path))) else None
  {
    var parent := if ino == DATA then ROOT else SourceParent(mk, path);
    var entries := [Entry(ino, 1, DirectoryKind, ".")];
    entries := entries + [Entry(parent, 2, DirectoryKind, "..")];
    var torrents := RowItems(mk.torrentRoot, DirectoryKind, db.torrents(path));
    var subs := PrefixItems(mk, path, db.prefixes(path));
    ghost var dots := Dots(ino, parent);
    var counter, dirs := 3, [];
    if ino == DATA {
      if !answers.torrents { return None; }
      entries, counter := AppendItems(entries, counter, torrents, dots);
      if !answers.prefixes { return None; }
      entries, counter := AppendItems(entries, counter, subs, dots + torrents);
      dirs := torrents + subs;
      assert dots + torrents + subs == dots + dirs;
    } else {
      if !answers.prefixes { return None; }
      entries, counter := AppendItems(entries, counter, subs, dots);
      if !answers.torrents { return None; }
      entries, counter := AppendItems(entries, counter, torrents, dots + subs);
      dirs := subs + torrents;
      assert dots + subs + torrents == dots + dirs;
    }
    PushNumbered(dots + dirs, Stats(mk, ino)[0]);
    entries := entries + [Entry(mk.stats(ino), counter, RegularKind, ".stats")];
    entries := AppendPending(entries, counter, PendingItems(mk, path, Names(dirs), order), dots + dirs + Stats(mk, ino));
    return Some(entries);
  }

  method ReaddirTorrentRoot(mk: InoMaker, db: Database, answers: Answers, ino: Ino, id: nat, sourcePath: string)
    returns (r: Option<seq<Entry>>)
    ensures r == if answers.directories && answers.files then Some(Numbered(TorrentRootItems(mk, db, ino, id, sourcePath))) else None
  {
    var entries := [Entry(ino, 1, DirectoryKind, ".")];
    entries := entries + [Entry(SourceParent(mk, sourcePath), 2, DirectoryKind, "..")];
    ghost var dots := Dots(ino, SourceParent(mk, sourcePath));
    if !answers.directories { return None; }
    var dirs := RowItems(mk.torrentDir, DirectoryKind, db.directories(id, None));
    var counter := 3;
    entries, counter := AppendItems(entries, counter, dirs, dots);
    if !answers.files { return None; }
    var files := RowItems(mk.torrentFile, RegularKind, db.files(id, None));
    entries, counter := AppendItems(entries, counter, files, dots + dirs);
    PushNumbered(dots + dirs + files, Stats(mk, ino)[0]);
    entries := entries + [Entry(mk.stats(ino), counter, RegularKind, ".stats")];
    return Some(entries);
  }

  method ReaddirTorrentDir(mk: InoMaker, db: Database, answers: Answers, ino: Ino, id: nat, dirId: nat)
    returns (r: Option<seq<Entry>>)
    ensures r == if answers.directories && answers.files
                 then Some(Numbered(TorrentDirItems(mk, db, answers.parent, ino, id, dirId))) else None
  {
    var up := if answers.parent then db.parent(dirId) else None;
    var parent := if up.Some? then mk.torrentDir(up.value) else mk.torrentRoot(id);
    var entries := [Entry(ino, 1, DirectoryKind, ".")];
    entries := entries + [Entry(parent, 2, DirectoryKind, "..")];
    ghost var dots := Dots(ino, parent);
    if !answers.directories { return None; }
    var dirs := RowItems(mk.torrentDir, DirectoryKind, db.directories(id, Some(dirId)));
    var counter := 3;
    entries, counter := AppendItems(entries, counter, dirs, dots);
    if !answers.files { return None; }
    var files := RowItems(mk.torrentFile, RegularKind, db.files(id, Some(dirId)));
    entries, counter := AppendItems(entries, counter, files, dots + dirs);
    return Some(entries);
  }

  // ── The way back up ──────────────────────────────────────────────────────

  /** The directory that lists the torrents of a source path. */
  function ListedIn(mk: InoMaker, path: string): Ino { if path == "" then DATA else mk.sourcePath(path) }

  /** Different source paths have different numbers, none of them that of `data/`. */
  ghost predicate PathsDiffer(mk: InoMaker) {
    && (forall p, q :: mk.sourcePath(p) == mk.sourcePath(q) ==> p == q)
    && (forall p :: mk.sourcePath(p) != DATA)
  }

  /** The `..` of a torrent is the directory that lists it exactly at the top. */
  lemma {:induction false} WayUpExactly(mk: InoMaker, path: string)
    requires PathsDiffer(mk)
    ensures SourceParent(mk, path) == ListedIn(mk, path) <==> path == ""
  {
    var up := ParentPath(path);
    if up.Some? { assert |up.value| < |path|; }
  }

  // ── A torrent shows once, from its close to its row and after ────────────

  lemma {:induction false} NamesAppend(a: seq<Item>, b: seq<Item>)
    ensures Names(a + b) == Names(a) + Names(b)
  {
    if a == [] {
      assert a + b == b;
    } else {
      assert (a + b)[1..] == a[1..] + b;
      NamesAppend(a[1..], b);
    }
  }

  /** An add in flight is listed once, unless its name is there already. */
  lemma {:induction false} PendingOnce(mk: InoMaker, path: string, existing: seq<string>, order: seq<Key>, f: string)
    requires forall i, j :: 0 <= i < j < |order| ==> order[i] != order[j]
    ensures multiset(Names(PendingItems(mk, path, existing, order)))[f] ==
            if Key(path, f) in order && f !in existing then 1 else 0
  {
    if order != [] {
      var k, rest := order[0], PendingItems(mk, path, existing, order[1..]);
      PendingOnce(mk, path, existing, order[1..], f);
      assert Key(path, f) in order <==> Key(path, f) == k || Key(path, f) in order[1..];
      if k.sourcePath == path && k.filename !in existing {
        var item := Item(mk.pendingRoot(k), DirectoryKind, k.filename);
        assert ([item] + rest)[1..] == rest;
        assert Names(PendingItems(mk, path, existing, order)) == [k.filename] + Names(rest);
      } else {
        assert [] + rest == rest;
      }
    }
  }

  function Count(items: seq<Item>, f: string): nat { multiset(Names(items))[f] }

  lemma {:induction false} CountsAdd(a: seq<Item>, b: seq<Item>, f: string)
    ensures Count(a + b, f) == Count(a, f) + Count(b, f)
    ensures Count(a, f) > 0 <==> f in Names(a)
  {
    NamesAppend(a, b);
  }

  lemma {:induction false} CountsOf(mk: InoMaker, db: Database, order: seq<Key>, ino: Ino, path: string, f: string)
    requires forall i, j :: 0 <= i < j < |order| ==> order[i] != order[j]
    requires f != "." && f != ".." && f != ".stats"
    ensures var rows := Count(RowItems(mk.torrentRoot, DirectoryKind, db.torrents(path)) + PrefixItems(mk, path, db.prefixes(path)), f);
            Count(SourceItems(mk, db, order, ino, path), f) == if rows > 0 then rows else if Key(path, f) in order then 1 else 0
  {
    var torrents := RowItems(mk.torrentRoot, DirectoryKind, db.torrents(path));
    var subs := PrefixItems(mk, path, db.prefixes(path));
    var dirs := if ino == DATA then torrents + subs else subs + torrents;
    var parent := if ino == DATA then ROOT else SourceParent(mk, path);
    var dots := Dots(ino, parent);
    CountsAdd(torrents, subs, f);
    CountsAdd(subs, torrents, f);
    CountsAdd(dirs, [], f);
    CountsAdd(dots, dirs, f);
    CountsAdd(dots + dirs, Stats(mk, ino), f);
    CountsAdd(dots + dirs + Stats(mk, ino), PendingItems(mk, path, Names(dirs), order), f);
    PendingOnce(mk, path, Names(dirs), order, f);
    NotFixed(mk, ino, parent, f);
  }

  /** No two rows of a directory, torrents and subdirectories alike, share a name. */
  ghost predicate RowsDiffer(mk: InoMaker, db: Database, path: string) {
    forall f :: Count(RowItems(mk.torrentRoot, DirectoryKind, db.torrents(path)) + PrefixItems(mk, path, db.prefixes(path)), f) <= 1
  }

  /** However the database and the in-flight set overlap while an add lands, a name
      is listed exactly once if it has a row or an add in flight, and else not at
      all. */
  lemma {:induction false} TorrentIsListedOnce(mk: InoMaker, db: Database, order: seq<Key>, ino: Ino, path: string, f: string)
    requires RowsDiffer(mk, db, path) && forall i, j :: 0 <= i < j < |order| ==> order[i] != order[j]
    requires f != "." && f != ".." && f != ".stats"
    ensures var rows := RowItems(mk.torrentRoot, DirectoryKind, db.torrents(path)) + PrefixItems(mk, path, db.prefixes(path));
            Count(SourceItems(mk, db, order, ino, path), f) == if f in Names(rows) || Key(path, f) in order then 1 else 0
  {
    var rows := RowItems(mk.torrentRoot, DirectoryKind, db.torrents(path)) + PrefixItems(mk, path, db.prefixes(path));
    CountsOf(mk, db, order, ino, path, f);
    CountsAdd(rows, [], f);
    assert Count(rows, f) <= 1;
  }

  lemma {:induction false} CountOne(item: Item, f: string)
    ensures Count([item], f) == if item.name == f then 1 else 0
  {
    assert [item][1..] == [] && Names([item]) == [item.name] + [];
  }

  lemma {:induction false} NotFixed(mk: InoMaker, ino: Ino, parent: Ino, f: string)
    requires f != "." && f != ".." && f != ".stats"
    ensures Count(Dots(ino, parent), f) == 0 && Count(Stats(mk, ino), f) == 0
  {
    var dot, dotDot := Item(ino, DirectoryKind, "."), Item(parent, DirectoryKind, "..");
    assert Dots(ino, parent) == [dot] + [dotDot];
    CountsAdd([dot], [dotDot], f);
    CountOne(dot, f);
    CountOne(dotDot, f);
    CountOne(Stats(mk, ino)[0], f);
  }

  // ── Torrents that are still being added ──────────────────────────────────

  function ChildItem(mk: InoMaker, key: Key, c: PT.Child): Item {
    if c.kind.Directory? then Item(mk.pendingDir(key, c.path), DirectoryKind, c.name)
    else Item(mk.pendingFile(key, c.path), RegularKind, c.name)
  }

  function ChildItems(mk: InoMaker, key: Key, entries: seq<PT.DirEntry>): (items: seq<Item>)
    ensures |items| == |entries| && forall i :: 0 <= i < |items| ==> items[i] == ChildItem(mk, key, entries[i].child)
  {
    if entries == [] then [] else [ChildItem(mk, key, entries[0].child)] + ChildItems(mk, key, entries[1..])
  }

  function PendingParent(mk: InoMaker, key: Key, dirPath: string): Ino {
    var p := ParentPath(dirPath); if p.None? then mk.pendingRoot(key) else mk.pendingDir(key, p.value)
  }

  /** `files` is what the bencoding of the torrent yields, if anything. */
  function PendingTorrentItems(mk: InoMaker, files: Option<seq<TF.PendingFile>>, ino: Ino, record: Record): seq<Item>
    requires record.TorrentRoot? || record.TorrentDir?
  {
    var dirPath := if record.TorrentRoot? then "" else record.dirPath;
    var parent := if record.TorrentRoot? then SourceParent(mk, record.key.sourcePath) else PendingParent(mk, record.key, dirPath);
    if files.None? then Dots(ino, parent)
    else
      Dots(ino, parent) + ChildItems(mk, record.key, PT.ListFiles(files.value, dirPath).entries)
      + if record.TorrentRoot? then Stats(mk, ino) else []
  }

  /** The entries a pending torrent adds, with the offsets they came with. */
  function ShownChildEntries(mk: InoMaker, key: Key, below: seq<PT.DirEntry>): (shown: seq<Entry>)
    ensures |shown| == |below|
    ensures forall i :: 0 <= i < |below| ==>
              var item := ChildItem(mk, key, below[i].child); shown[i] == Entry(item.ino, below[i].offset, item.kind, item.name)
  {
    if below == [] then []
    else
      var item := ChildItem(mk, key, below[0].child);
      [Entry(item.ino, below[0].offset, item.kind, item.name)] + ShownChildEntries(mk, key, below[1..])
  }

  lemma {:induction false} AppendShown(mk: InoMaker, key: Key, l: PT.Listing, dots: seq<Item>)
    requires PT.Offsets(l) && |dots| == 2
    ensures Numbered(dots) + ShownChildEntries(mk, key, l.entries) == Numbered(dots + ChildItems(mk, key, l.entries))
  {
  }

  method ReaddirPending(mk: InoMaker, files: Option<seq<TF.PendingFile>>, ino: Ino, record: Record) returns (entries: seq<Entry>)
    requires record.TorrentRoot? || record.TorrentDir?
    ensures entries == Numbered(PendingTorrentItems(mk, files, ino, record))
  {
    var dirPath := if record.TorrentRoot? then "" else record.dirPath;
    var parent := if record.TorrentRoot? then SourceParent(mk, record.key.sourcePath) else PendingParent(mk, record.key, dirPath);
    entries := [Entry(ino, 1, DirectoryKind, ".")];
    entries := entries + [Entry(parent, 2, DirectoryKind, "..")];
    ghost var dots := Dots(ino, parent);
    assert entries == Numbered(dots);
    if files.None? { return; }
    var below := PT.ReaddirPendingTorrent(files.value, dirPath);
    PT.OffsetsAlways(files.value, dirPath);
    AppendShown(mk, record.key, PT.ListFiles(files.value, dirPath), dots);
    entries := entries + ShownChildEntries(mk, record.key, below);
    ghost var items := ChildItems(mk, record.key, below);
    if record.TorrentRoot? {
      PushNumbered(dots + items, Stats(mk, ino)[0]);
      entries := entries + [Entry(mk.stats(ino), entries[|entries| - 1].offset + 1, RegularKind, ".stats")];
    } else {
      assert dots + items + [] == dots + items;
    }
  }

  // ── Entry by entry ───────────────────────────────────────────────────────

  lemma {:induction false} RowItemsAre(make: nat -> Ino, kind: FileKind, rows: seq<Row>)
    ensures |RowItems(make, kind, rows)| == |rows|
    ensures forall i :: 0 <= i < |rows| ==> RowItems(make, kind, rows)[i] == Item(make(rows[i].id), kind, rows[i].name)
  {
    if rows != [] { RowItemsAre(make, kind, rows[1..]); }
  }

  lemma {:induction false} PrefixItemsAre(mk: InoMaker, path: string, subs: seq<string>)
    ensures |PrefixItems(mk, path, subs)| == |subs|
    ensures forall i :: 0 <= i < |subs| ==> PrefixItems(mk, path, subs)[i] == Item(mk.sourcePath(ChildPath(path, subs[i])), DirectoryKind, subs[i])
  {
    if subs != [] { PrefixItemsAre(mk, path, subs[1..]); }
  }
}
