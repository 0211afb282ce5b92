/** What each listing of `data/` contains, told from the rows of the database and the
    adds in flight: every entry, with its number and its kind, as often as it is
    there. */
module ListingContents {
  import opened Text
  import opened InodeTree
  import opened Paging
  import opened Listings
  import PT = PendingTree
  import TF = TorrentFile

  ghost function Places(items: seq<Item>, item: Item): set<int> { set n | 0 <= n < |items| && items[n] == item }

  lemma {:induction false} CountIs(items: seq<Item>, item: Item)
    ensures multiset(items)[item] == |Places(items, item)|
  {
    if items != [] {
      var front, last := items[..|items| - 1], items[|items| - 1];
      CountIs(front, item);
      assert items == front + [last];
      assert Places(items, item) == Places(front, item) + if last == item then {|items| - 1} else {};
    }
  }

  /** The rows that show as this entry. */
  ghost function RowsShown(make: nat -> Ino, kind: FileKind, rows: seq<Row>, item: Item): set<int> {
    set n | 0 <= n < |rows| && item == Item(make(rows[n].id), kind, rows[n].name)
  }

  lemma {:induction false} RowsCount(make: nat -> Ino, kind: FileKind, rows: seq<Row>, item: Item)
    ensures multiset(RowItems(make, kind, rows))[item] == |RowsShown(make, kind, rows, item)|
  {
    RowItemsAre(make, kind, rows);
    CountIs(RowItems(make, kind, rows), item);
    assert Places(RowItems(make, kind, rows), item) == RowsShown(make, kind, rows, item);
  }

  ghost function PrefixesShown(mk: InoMaker, path: string, subs: seq<string>, item: Item): set<int> {
    set n | 0 <= n < |subs| && item == Item(mk.sourcePath(ChildPath(path, subs[n])), DirectoryKind, subs[n])
  }

  lemma {:induction false} PrefixesCount(mk: InoMaker, path: string, subs: seq<string>, item: Item)
    ensures multiset(PrefixItems(mk, path, subs))[item] == |PrefixesShown(mk, path, subs, item)|
  {
    PrefixItemsAre(mk, path, subs);
    CountIs(PrefixItems(mk, path, subs), item);
    assert Places(PrefixItems(mk, path, subs), item) == PrefixesShown(mk, path, subs, item);
  }

  ghost function One(b: bool): nat { if b then 1 else 0 }

  lemma {:induction false} PartsCount(a: seq<Item>, b: seq<Item>, c: seq<Item>, d: seq<Item>, item: Item)
    ensures multiset(a + b + c + d)[item] == multiset(a)[item] + multiset(b)[item] + multiset(c)[item] + multiset(d)[item]
    ensures multiset(a + b)[item] == multiset(a)[item] + multiset(b)[item]
  {
  }

  /** How often an entry is `.` or `..`. */
  ghost function DotCount(ino: Ino, parent: Ino, item: Item): nat {
    One(item == Item(ino, DirectoryKind, ".")) + One(item == Item(parent, DirectoryKind, ".."))
  }

  lemma {:induction false} DotsCount(ino: Ino, parent: Ino, item: Item)
    ensures multiset(Dots(ino, parent))[item] == DotCount(ino, parent, item)
  {
    assert Dots(ino, parent) == [Item(ino, DirectoryKind, ".")] + [Item(parent, DirectoryKind, "..")];
  }

  /** The root of a stored torrent: `.`, `..`, the top directories as directories, the
      top files as files, each as often as there are rows of it, and `.stats`;
      nothing else. */
  lemma {:induction false} TorrentRootExactly(mk: InoMaker, db: Database, ino: Ino, id: nat, sourcePath: string, item: Item)
    ensures multiset(TorrentRootItems(mk, db, ino, id, sourcePath))[item] ==
            DotCount(ino, SourceParent(mk, sourcePath), item)
            + |RowsShown(mk.torrentDir, DirectoryKind, db.directories(id, None), item)|
            + |RowsShown(mk.torrentFile, RegularKind, db.files(id, None), item)|
            + One(item == Item(mk.stats(ino), RegularKind, ".stats"))
  {
    DotsCount(ino, SourceParent(mk, sourcePath), item);
    RowsCount(mk.torrentDir, DirectoryKind, db.directories(id, None), item);
    RowsCount(mk.torrentFile, RegularKind, db.files(id, None), item);
  }

  /** A directory inside one, which has no `.stats`. */
  lemma {:induction false} TorrentDirExactly(mk: InoMaker, db: Database, parentKnown: bool, ino: Ino, id: nat, dirId: nat, item: Item)
    ensures var top := !parentKnown || db.parent(dirId).None?;
            multiset(TorrentDirItems(mk, db, parentKnown, ino, id, dirId))[item] ==
            DotCount(ino, if top then mk.torrentRoot(id) else mk.torrentDir(db.parent(dirId).value), item)
            + |RowsShown(mk.torrentDir, DirectoryKind, db.directories(id, Some(dirId)), item)|
            + |RowsShown(mk.torrentFile, RegularKind, db.files(id, Some(dirId)), item)|
  {
    var up := if parentKnown then db.parent(dirId) else None;
    DotsCount(ino, if up.Some? then mk.torrentDir(up.value) else mk.torrentRoot(id), item);
    RowsCount(mk.torrentDir, DirectoryKind, db.directories(id, Some(dirId)), item);
    RowsCount(mk.torrentFile, RegularKind, db.files(id, Some(dirId)), item);
  }

  /** A torrent or a subdirectory of the path has this name. */
  ghost predicate HasRow(db: Database, path: string, name: string) {
    name in db.prefixes(path) || exists n :: 0 <= n < |db.torrents(path)| && db.torrents(path)[n].name == name
  }

  /** An add in flight that shows as this entry. */
  ghost predicate PendingShown(mk: InoMaker, db: Database, path: string, order: seq<Key>, item: Item) {
    && item == Item(mk.pendingRoot(Key(path, item.name)), DirectoryKind, item.name)
    && Key(path, item.name) in order && !HasRow(db, path, item.name)
  }

  lemma {:induction false} NamesAre(items: seq<Item>)
    ensures |Names(items)| == |items| && forall n :: 0 <= n < |items| ==> Names(items)[n] == items[n].name
  {
    if items != [] { NamesAre(items[1..]); }
  }

  lemma {:induction false} NamesOfRows(mk: InoMaker, db: Database, ino: Ino, path: string, name: string)
    ensures var torrents, subs := RowItems(mk.torrentRoot, DirectoryKind, db.torrents(path)), PrefixItems(mk, path, db.prefixes(path));
            name in Names(if ino == DATA then torrents + subs else subs + torrents) <==> HasRow(db, path, name)
  {
    var torrents, subs := RowItems(mk.torrentRoot, DirectoryKind, db.torrents(path)), PrefixItems(mk, path, db.prefixes(path));
    RowItemsAre(mk.torrentRoot, DirectoryKind, db.torrents(path));
    PrefixItemsAre(mk, path, db.prefixes(path));
    NamesAre(torrents);
    NamesAre(subs);
    NamesAppend(torrents, subs);
    NamesAppend(subs, torrents);
    assert name in Names(torrents) <==> exists n :: 0 <= n < |db.torrents(path)| && db.torrents(path)[n].name == name by {
      if n :| 0 <= n < |db.torrents(path)| && db.torrents(path)[n].name == name { assert Names(torrents)[n] == name; }
    }
    assert name in Names(subs) <==> name in db.prefixes(path) by {
      if name in db.prefixes(path) {
        var n :| 0 <= n < |db.prefixes(path)| && db.prefixes(path)[n] == name;
        assert Names(subs)[n] == name;
      }
    }
  }

  lemma {:induction false} PendingCount(mk: InoMaker, path: string, existing: seq<string>, order: seq<Key>, item: Item)
    requires forall i, j :: 0 <= i < j < |order| ==> order[i] != order[j]
    ensures multiset(PendingItems(mk, path, existing, order))[item] ==
            One(&& item == Item(mk.pendingRoot(Key(path, item.name)), DirectoryKind, item.name)
                && Key(path, item.name) in order && item.name !in existing)
  {
    if order != [] {
      var k := order[0];
      PendingCount(mk, path, existing, order[1..], item);
      assert Key(path, item.name) in order <==> Key(path, item.name) == k || Key(path, item.name) in order[1..];
    }
  }

  /** `data/` or a source-path directory: torrents and subdirectories by their rows,
      `.stats`, and every add in flight there whose name has no row, once; nothing
      else. */
  lemma {:induction false} SourceExactly(mk: InoMaker, db: Database, order: seq<Key>, ino: Ino, path: string, item: Item)
    requires forall i, j :: 0 <= i < j < |order| ==> order[i] != order[j]
    ensures multiset(SourceItems(mk, db, order, ino, path))[item] ==
            DotCount(ino, if ino == DATA then ROOT else SourceParent(mk, path), item)
            + |RowsShown(mk.torrentRoot, DirectoryKind, db.torrents(path), item)|
            + |PrefixesShown(mk, path, db.prefixes(path), item)|
            + One(item == Item(mk.stats(ino), RegularKind, ".stats"))
            + One(PendingShown(mk, db, path, order, item))
  {
    var torrents, subs := RowItems(mk.torrentRoot, DirectoryKind, db.torrents(path)), PrefixItems(mk, path, db.prefixes(path));
    var dirs := if ino == DATA then torrents + subs else subs + torrents;
    var dots := Dots(ino, if ino == DATA then ROOT else SourceParent(mk, path));
    DotsCount(ino, if ino == DATA then ROOT else SourceParent(mk, path), item);
    RowsCount(mk.torrentRoot, DirectoryKind, db.torrents(path), item);
    PrefixesCount(mk, path, db.prefixes(path), item);
    NamesOfRows(mk, db, ino, path, item.name);
    PendingCount(mk, path, Names(dirs), order, item);
    PartsCount(torrents, subs, [], [], item);
    PartsCount(subs, torrents, [], [], item);
    PartsCount(dots, dirs, Stats(mk, ino), PendingItems(mk, path, Names(dirs), order), item);
  }

  /** The children that show as this entry. */
  ghost function ChildrenShown(mk: InoMaker, key: Key, below: seq<PT.DirEntry>, item: Item): set<int> {
    set n | 0 <= n < |below| &&
      var c := below[n].child;
      item == if c.kind.Directory? then Item(mk.pendingDir(key, c.path), DirectoryKind, c.name)
              else Item(mk.pendingFile(key, c.path), RegularKind, c.name)
  }

  lemma {:induction false} ChildrenCount(mk: InoMaker, key: Key, below: seq<PT.DirEntry>, item: Item)
    ensures multiset(ChildItems(mk, key, below))[item] == |ChildrenShown(mk, key, below, item)|
  {
    CountIs(ChildItems(mk, key, below), item);
    assert Places(ChildItems(mk, key, below), item) == ChildrenShown(mk, key, below, item);
  }

  /** A torrent still being added, or a directory in it: what its file list has right
      below, `.stats` at the root, and nothing but the dots without a list. */
  lemma {:induction false} PendingTorrentExactly(mk: InoMaker, files: Option<seq<TF.PendingFile>>, ino: Ino, record: Record, item: Item)
    requires record.TorrentRoot? || record.TorrentDir?
    ensures var dirPath := if record.TorrentRoot? then "" else record.dirPath;
            var parent := if record.TorrentRoot? then SourceParent(mk, record.key.sourcePath) else PendingParent(mk, record.key, dirPath);
            multiset(PendingTorrentItems(mk, files, ino, record))[item] ==
            DotCount(ino, parent, item)
            + (if files.None? then 0 else
                 |ChildrenShown(mk, record.key, PT.ListFiles(files.value, dirPath).entries, item)|
                 + One(record.TorrentRoot? && item == Item(mk.stats(ino), RegularKind, ".stats")))
  {
    var dirPath := if record.TorrentRoot? then "" else record.dirPath;
    var parent := if record.TorrentRoot? then SourceParent(mk, record.key.sourcePath) else PendingParent(mk, record.key, dirPath);
    DotsCount(ino, parent, item);
    if files.Some? { ChildrenCount(mk, record.key, PT.ListFiles(files.value, dirPath).entries, item); }
  }
}
