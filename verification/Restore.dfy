/** Restart: rebuilding the inode table from the rows of the database. */
module Restore {
  import opened Text
  import opened InodeTree
  import opened DirectoryRows
  import opened Protocol
  import opened InodeManagement
  import opened Runs
  import DT = DirectoryTable

  datatype DirRow = DirRow(id: int, parentId: Option<int>, name: string, path: string)
  datatype TorrentRow = TorrentRow(sourcePath: string, filename: string, name: string, data: Option<string>)

  // ── Sorting by depth ─────────────────────────────────────────────────────

  /** Number of '/' in a path. */
  function Depth(path: string): nat {
    if path == "" then 0 else (if path[0] == '/' then 1 else 0) + Depth(path[1..])
  }

  lemma {:induction false} DepthConcat(a: string, b: string)
    ensures Depth(a + b) == Depth(a) + Depth(b)
  {
    if a == "" {
      assert a + b == b;
    } else {
      assert (a + b)[1..] == a[1..] + b;
      DepthConcat(a[1..], b);
    }
  }

  ghost predicate SortedBy(key: DirRow -> nat, rows: seq<DirRow>) {
    forall i, j :: 0 <= i < j < |rows| ==> key(rows[i]) <= key(rows[j])
  }

  /** `rows` with `r` put before everything that ranks at least as high. */
  function InsertBy(key: DirRow -> nat, r: DirRow, rows: seq<DirRow>): (s: seq<DirRow>)
    ensures multiset(s) == multiset{r} + multiset(rows)
  {
    if rows == [] || key(r) <= key(rows[0]) then
      [r] + rows
    else
      assert rows == [rows[0]] + rows[1..];
      [rows[0]] + InsertBy(key, r, rows[1..])
  }

  ghost predicate AtLeast(key: DirRow -> nat, low: nat, rows: seq<DirRow>) {
    forall i :: 0 <= i < |rows| ==> low <= key(rows[i])
  }

  lemma {:induction false} InsertAtLeast(key: DirRow -> nat, low: nat, r: DirRow, rows: seq<DirRow>)
    requires AtLeast(key, low, rows) && low <= key(r)
    ensures AtLeast(key, low, InsertBy(key, r, rows))
  {
    if rows != [] && key(r) > key(rows[0]) { InsertAtLeast(key, low, r, rows[1..]); }
  }

  lemma {:induction false} SortedOnto(key: DirRow -> nat, r: DirRow, rows: seq<DirRow>)
    requires SortedBy(key, rows) && AtLeast(key, key(r), rows)
    ensures SortedBy(key, [r] + rows)
  {
  }

  lemma {:induction false} InsertSorts(key: DirRow -> nat, r: DirRow, rows: seq<DirRow>)
    requires SortedBy(key, rows)
    ensures SortedBy(key, InsertBy(key, r, rows))
  {
    if rows == [] || key(r) <= key(rows[0]) {
      SortedOnto(key, r, rows);
    } else {
      InsertSorts(key, r, rows[1..]);
      InsertAtLeast(key, key(rows[0]), r, rows[1..]);
      SortedOnto(key, rows[0], InsertBy(key, r, rows[1..]));
    }
  }

  /** The stable sort of the directory rows. */
  function SortBy(key: DirRow -> nat, rows: seq<DirRow>): (s: seq<DirRow>)
    ensures multiset(s) == multiset(rows)
    ensures SortedBy(key, s)
  {
    if rows == [] then []
    else
      assert rows == [rows[0]] + rows[1..];
      InsertSorts(key, rows[0], SortBy(key, rows[1..]));
      InsertBy(key, rows[0], SortBy(key, rows[1..]))
  }

  const ByDepth: DirRow -> nat := (r: DirRow) => Depth(r.path)

  // ── Consistent rows ──────────────────────────────────────────────────────

  ghost predicate IsParentRow(q: DirRow, r: DirRow) {
    r.parentId == Some(q.id) && r.path == q.path + "/" + r.name
  }

  /** Directory rows agree with each other: distinct ids and paths, and every path
      is the parent's path followed by the name. */
  ghost predicate ConsistentDirs(rows: multiset<DirRow>) {
    && (forall r :: r in rows ==> rows[r] == 1 && IsName(r.name))
    && (forall q, r :: q in rows && r in rows && (q.id == r.id || q.path == r.path) ==> q == r)
    && (forall r :: r in rows && r.parentId.None? ==> r.path == r.name)
    && (forall r {:trigger HasParentRow(rows, r)} :: r in rows && r.parentId.Some? ==> HasParentRow(rows, r))
  }

  ghost predicate HasParentRow(rows: multiset<DirRow>, r: DirRow) { exists q :: q in rows && IsParentRow(q, r) }

  /** Path of a torrent below `metadata/`. */
  function Place(row: TorrentRow): string {
    if row.sourcePath == "" then row.filename else row.sourcePath + "/" + row.filename
  }

  ghost predicate HasRow(dirs: multiset<DirRow>, path: string) { exists r :: r in dirs && r.path == path }

  /** Torrent rows agree with the directories: stored names are `.torrent` names,
      source paths are empty or listed, and no two entries share a place. */
  ghost predicate ConsistentTorrents(dirs: multiset<DirRow>, rows: seq<TorrentRow>) {
    && (forall j :: 0 <= j < |rows| ==> IsName(rows[j].filename) && EndsWith(rows[j].filename, TORRENT))
    && (forall j :: 0 <= j < |rows| && rows[j].sourcePath != "" ==> HasRow(dirs, rows[j].sourcePath))
    && (forall i, j :: 0 <= i < j < |rows| ==> Place(rows[i]) != Place(rows[j]))
    && (forall r, j :: r in dirs && 0 <= j < |rows| ==> r.path != Place(rows[j]))
  }

  // ── What restoring yields ────────────────────────────────────────────────

  ghost predicate Older(t: Table, i: Ino) { i in t && t[i].Linked() && t[i].parent < i }

  /** Holds for any rows at all: numbers without gaps, parents before children. */
  ghost predicate Plain(t: Table, next: Ino) {
    && next >= FIRST_INO
    && (forall i :: i in t <==> 0 < i < next)
    && (forall i {:trigger Older(t, i)} :: i in t ==> Older(t, i))
  }

  lemma {:induction false} PlainGrows(t: Table, next: Ino, n: Inode)
    requires Plain(t, next) && n.Linked() && n.parent < next
    ensures Plain(t[next := n], next + 1)
  {
    var t' := t[next := n];
    forall i | i in t' ensures Older(t', i) {
      if i != next { assert Older(t, i); }
    }
  }

  lemma {:induction false} PlainClimbs(t: Table, next: Ino)
    requires Plain(t, next)
    ensures Climbable(t)
    ensures forall i :: i in t ==> t[i].Linked()
  {
    var h: map<Ino, nat> := map i | i in t :: i;
    forall i | i in t ensures t[i].Linked() && t[i].parent < i { assert Older(t, i); }
    assert Ranked(t, h);
  }

  ghost predicate DirAt(t: Table, p: Labels, rows: seq<DirRow>, i: Ino) {
    && FIRST_INO <= i < FIRST_INO + |rows|
    && i in t && t[i].Directory? && InMetadata(p, i) && SourcePath(p, i) == rows[i - FIRST_INO].path
  }

  /** Directory row `k` has become inode `FIRST_INO + k`, with that row's path. */
  ghost predicate DirsRestored(t: Table, p: Labels, rows: seq<DirRow>, n: nat) {
    forall i {:trigger DirAt(t, p, rows, i)} :: FIRST_INO <= i < FIRST_INO + n ==> DirAt(t, p, rows, i)
  }

  function RestoredName(row: TorrentRow): (n: string)
    ensures EndsWith(n, TORRENT)
  {
    var base := if row.filename != "" then row.filename else row.name;
    if EndsWith(base, TORRENT) then base else
      assert (base + TORRENT)[|base|..] == TORRENT;
      base + TORRENT
  }

  /** A file keeps its stored name exactly when that is a `.torrent` name. */
  lemma {:induction false} NameRestoredExactly(row: TorrentRow)
    ensures RestoredName(row) == row.filename <==> EndsWith(row.filename, TORRENT)
  {
    if row.filename != "" && !EndsWith(row.filename, TORRENT) {
      assert |RestoredName(row)| > |row.filename|;
    }
  }

  /** A row from before file names were stored has none, and gets its torrent's:
      no file of any tree has the key the row keeps. */
  lemma {:induction false} LegacyRowIsOrphaned(row: TorrentRow, t: Table, next: Ino)
    requires row.filename == "" && Tree(t, next)
    ensures RestoredName(row) == if EndsWith(row.name, TORRENT) then row.name else row.name + TORRENT
    ensures !Named(t, Paths(t), Key(row.sourcePath, row.filename))
  {
    forall i | IsMetaFile(t, i) ensures t[i].name != "" { assert NodeOk(t, next, i); }
  }

  function StoredData(row: TorrentRow): string { if row.data.Some? then row.data.value else "" }

  function RestoredFile(parent: Ino, row: TorrentRow): Inode {
    File(parent, RestoredName(row), StoredData(row), false)
  }

  ghost predicate FileAt(t: Table, p: Labels, first: Ino, rows: seq<TorrentRow>, i: Ino) {
    && first <= i < first + |rows|
    && HasKey(t, p, i, Key(rows[i - first].sourcePath, rows[i - first].filename))
    && t[i].data == StoredData(rows[i - first])
  }

  /** Torrent row `k` has become inode `first + k`, with that row's key and bytes. */
  ghost predicate FilesRestored(t: Table, p: Labels, first: Ino, rows: seq<TorrentRow>, n: nat) {
    forall i {:trigger FileAt(t, p, first, rows, i)} :: first <= i < first + n ==> FileAt(t, p, first, rows, i)
  }

  // ── Lemmas for one row ───────────────────────────────────────────────────

  lemma {:induction false} SourcePathBelow(t: Table, next: Ino, p: Labels, d: Ino, name: string)
    requires TreeWith(t, next, p) && InMetadata(p, d)
    ensures Join((p[d] + [name])[1..]) == if SourcePath(p, d) == "" then name else SourcePath(p, d) + "/" + name
    ensures SourcePath(p, d) == "" <==> d == METADATA
  {
    LabelNames(t, next, p, d);
    SkeletonLabels(t, next, p);
    assert (p[d] + [name])[1..] == p[d][1..] + [name];
    if p[d][1..] == [] {
      assert p[d] == ["metadata"];
      PathInjective(t, next, p, d, METADATA);
    } else {
      JoinNonEmpty(p[d][1..]);
      JoinAppend(p[d][1..], name);
    }
  }

  /** A child of `d` called `name` would stand where the new entry goes. */
  lemma {:induction false} ChildStandsThere(t: Table, next: Ino, p: Labels, d: Ino, name: string, c: Ino)
    requires TreeWith(t, next, p) && InMetadata(p, d) && IsChild(t, d, name, c)
    ensures FIRST_INO <= c < next && InMetadata(p, c) && p[c] == p[d] + [name]
  {
    NextIsFresh(t, next);
    assert d != 0 && d != ROOT && c != ROOT;
    assert NodeOk(t, next, c);
    assert LabelOk(t, p, c);
  }

  lemma {:induction false} OccursTwice<T>(s: seq<T>, i: int, j: int)
    requires 0 <= i < j < |s| && s[i] == s[j]
    ensures multiset(s)[s[i]] >= 2
  {
    assert s == s[..j] + [s[j]] + s[j + 1..];
    assert s[i] in multiset(s[..j]) by { assert s[..j][i] == s[i]; }
  }

  /** Consistent rows differ in path and id from every other row. */
  lemma {:induction false} RowsDiffer(rows: seq<DirRow>, i: int, j: int)
    requires 0 <= i < j < |rows| && ConsistentDirs(multiset(rows))
    ensures rows[i].path != rows[j].path && rows[i].id != rows[j].id
  {
    assert rows[i] in multiset(rows) && rows[j] in multiset(rows);
    if rows[i] == rows[j] { OccursTwice(rows, i, j); }
  }

  lemma {:induction false} ParentIsShallower(q: DirRow, r: DirRow)
    requires IsParentRow(q, r)
    ensures Depth(q.path) < Depth(r.path)
  {
    assert r.path == q.path + ("/" + r.name);
    DepthConcat(q.path, "/" + r.name);
    DepthConcat("/", r.name);
  }

  /** The parent row comes earlier in the sorted rows. */
  lemma {:induction false} ParentRowIsEarlier(rows: seq<DirRow>, n: nat) returns (j: nat)
    requires n < |rows| && SortedBy(ByDepth, rows) && ConsistentDirs(multiset(rows)) && rows[n].parentId.Some?
    ensures j < n && IsParentRow(rows[j], rows[n])
  {
    assert rows[n] in multiset(rows) && HasParentRow(multiset(rows), rows[n]);
    var q :| q in multiset(rows) && IsParentRow(q, rows[n]);
    ParentIsShallower(q, rows[n]);
    assert q in rows;
    j :| 0 <= j < |rows| && rows[j] == q;
    assert ByDepth(rows[j]) < ByDepth(rows[n]);
  }

  ghost predicate BelongsIn(rows: seq<DirRow>, n: nat, d: Ino)
    requires n < |rows|
  {
    if rows[n].parentId.None? then d == METADATA
    else FIRST_INO <= d < FIRST_INO + n && IsParentRow(rows[d - FIRST_INO], rows[n])
  }

  ghost predicate Indexed(ids: map<int, Ino>, rows: seq<DirRow>, n: nat)
    requires n <= |rows|
  {
    forall j :: 0 <= j < n ==> rows[j].id in ids && ids[rows[j].id] == FIRST_INO + j
  }

  lemma {:induction false} IndexGrows(ids: map<int, Ino>, rows: seq<DirRow>, n: nat)
    requires n < |rows| && ConsistentDirs(multiset(rows)) && Indexed(ids, rows, n)
    ensures Indexed(ids[rows[n].id := FIRST_INO + n], rows, n + 1)
  {
    forall j | 0 <= j < n ensures rows[j].id != rows[n].id { RowsDiffer(rows, j, n); }
  }

  ghost predicate Within(ids: map<int, Ino>, next: Ino) {
    next >= FIRST_INO && forall id :: id in ids ==> ids[id] < next
  }

  function ParentIno(ids: map<int, Ino>, parentId: Option<int>): (d: Ino)
    ensures forall next :: Within(ids, next) ==> d < next
  {
    if parentId.None? then METADATA
    else
      var id: int := parentId.value;
      if id in ids then ids[id] else METADATA
  }

  lemma {:induction false} ParentIsIndexed(ids: map<int, Ino>, rows: seq<DirRow>, n: nat)
    requires n < |rows| && SortedBy(ByDepth, rows) && ConsistentDirs(multiset(rows)) && Indexed(ids, rows, n)
    ensures BelongsIn(rows, n, ParentIno(ids, rows[n].parentId))
  {
    if rows[n].parentId.Some? { var j := ParentRowIsEarlier(rows, n); }
  }

  lemma {:induction false} RowPath(t: Table, next: Ino, p: Labels, rows: seq<DirRow>, n: nat, d: Ino)
    requires n < |rows| && ConsistentDirs(multiset(rows)) && BelongsIn(rows, n, d)
    requires TreeWith(t, next, p) && DirsRestored(t, p, rows, n)
    ensures d in t && t[d].Directory? && InMetadata(p, d) && IsName(rows[n].name)
    ensures Join((p[d] + [rows[n].name])[1..]) == rows[n].path
  {
    assert rows[n] in multiset(rows);
    SkeletonLabels(t, next, p);
    if d != METADATA { assert DirAt(t, p, rows, d); }
    SourcePathBelow(t, next, p, d, rows[n].name);
  }

  lemma {:induction false} RowPlaceIsFree(t: Table, next: Ino, p: Labels, rows: seq<DirRow>, n: nat, d: Ino)
    requires n < |rows| && next == FIRST_INO + n && ConsistentDirs(multiset(rows)) && BelongsIn(rows, n, d)
    requires TreeWith(t, next, p) && DirsRestored(t, p, rows, n)
    ensures !HasChild(t, d, rows[n].name)
  {
    RowPath(t, next, p, rows, n, d);
    forall c: Ino | IsChild(t, d, rows[n].name, c) ensures false {
      ChildStandsThere(t, next, p, d, rows[n].name, c);
      assert DirAt(t, p, rows, c);
      RowsDiffer(rows, c - FIRST_INO, n);
    }
  }

  /** A new inode leaves the restored ones as they are. */
  lemma {:induction false} DirStays(t: Table, p: Labels, rows: seq<DirRow>, i: Ino, next: Ino, n: Inode, path: seq<string>)
    requires DirAt(t, p, rows, i) && i != next
    ensures DirAt(t[next := n], p[next := path], rows, i)
  {
  }

  lemma {:induction false} FileStays(t: Table, p: Labels, first: Ino, rows: seq<TorrentRow>, i: Ino, next: Ino, n: Inode, path: seq<string>)
    requires FileAt(t, p, first, rows, i) && i != next && t[i].parent != next
    ensures FileAt(t[next := n], p[next := path], first, rows, i)
  {
  }

  lemma {:induction false} NewDirAt(t: Table, next: Ino, p: Labels, rows: seq<DirRow>, n: nat, d: Ino)
    requires n < |rows| && next == FIRST_INO + n && InMetadata(p, d)
    requires Join((p[d] + [rows[n].name])[1..]) == rows[n].path
    ensures DirAt(t[next := Directory(d, rows[n].name)], p[next := p[d] + [rows[n].name]], rows, next)
  {
    assert (p[d] + [rows[n].name])[0] == p[d][0];
  }

  /** The table after one more directory. */
  lemma {:induction false} OneMoreDirectory(t: Table, next: Ino, p: Labels, rows: seq<DirRow>, n: nat, d: Ino)
    requires n < |rows| && next == FIRST_INO + n && ConsistentDirs(multiset(rows)) && BelongsIn(rows, n, d)
    requires TreeWith(t, next, p) && DirsRestored(t, p, rows, n)
    ensures d in p
    ensures var t', p' := t[next := Directory(d, rows[n].name)], p[next := p[d] + [rows[n].name]];
            TreeWith(t', next + 1, p') && DirsRestored(t', p', rows, n + 1)
  {
    var name := rows[n].name;
    RowPath(t, next, p, rows, n, d);
    var t', p' := t[next := Directory(d, name)], p[next := p[d] + [name]];
    RowPlaceIsFree(t, next, p, rows, n, d);
    AddLeaf(t, next, p, Directory(d, name));
    forall i | FIRST_INO <= i < next ensures DirAt(t', p', rows, i) {
      assert DirAt(t, p, rows, i);
      DirStays(t, p, rows, i, next, Directory(d, name), p[d] + [name]);
    }
    NewDirAt(t, next, p, rows, n, d);
  }

  /** Nothing restored so far stands where file row `n` goes. */
  lemma {:induction false} PlaceIsFree(t: Table, next: Ino, p: Labels, dirs: seq<DirRow>, rows: seq<TorrentRow>, n: nat, c: Ino)
    requires n < |rows| && next == FIRST_INO + |dirs| + n && ConsistentTorrents(multiset(dirs), rows)
    requires TreeWith(t, next, p) && DirsRestored(t, p, dirs, |dirs|)
    requires FilesRestored(t, p, FIRST_INO + |dirs|, rows, n)
    requires FIRST_INO <= c < next
    ensures InMetadata(p, c) && Join(p[c][1..]) != Place(rows[n])
  {
    var first := FIRST_INO + |dirs|;
    if c < first {
      assert DirAt(t, p, dirs, c) && dirs[c - FIRST_INO] in multiset(dirs);
    } else {
      assert FileAt(t, p, first, rows, c);
      assert LabelOk(t, p, c);
      SourcePathBelow(t, next, p, t[c].parent, t[c].name);
      assert Join(p[c][1..]) == Place(rows[c - first]);
    }
  }

  lemma {:induction false} FilePlaceIsFree(t: Table, next: Ino, p: Labels, dirs: seq<DirRow>, rows: seq<TorrentRow>, n: nat, d: Ino)
    requires n < |rows| && next == FIRST_INO + |dirs| + n && ConsistentTorrents(multiset(dirs), rows)
    requires TreeWith(t, next, p) && DirsRestored(t, p, dirs, |dirs|)
    requires FilesRestored(t, p, FIRST_INO + |dirs|, rows, n)
    requires InMetadata(p, d) && SourcePath(p, d) == rows[n].sourcePath
    ensures !HasChild(t, d, rows[n].filename)
  {
    SourcePathBelow(t, next, p, d, rows[n].filename);
    forall c: Ino | IsChild(t, d, rows[n].filename, c) ensures false {
      ChildStandsThere(t, next, p, d, rows[n].filename, c);
      PlaceIsFree(t, next, p, dirs, rows, n, c);
    }
  }

  /** The table after one more file. */
  lemma {:induction false} OneMoreFile(t: Table, next: Ino, p: Labels, dirs: seq<DirRow>, rows: seq<TorrentRow>, n: nat, d: Ino)
    requires n < |rows| && next == FIRST_INO + |dirs| + n && ConsistentTorrents(multiset(dirs), rows)
    requires TreeWith(t, next, p) && DirsRestored(t, p, dirs, |dirs|)
    requires FilesRestored(t, p, FIRST_INO + |dirs|, rows, n)
    requires d in t && t[d].Directory? && InMetadata(p, d) && SourcePath(p, d) == rows[n].sourcePath
    ensures var t', p' := t[next := RestoredFile(d, rows[n])], p[next := p[d] + [rows[n].filename]];
            && TreeWith(t', next + 1, p') && DirsRestored(t', p', dirs, |dirs|)
            && FilesRestored(t', p', FIRST_INO + |dirs|, rows, n + 1)
  {
    var r, first := rows[n], FIRST_INO + |dirs|;
    NameRestoredExactly(r);
    var t', p' := t[next := RestoredFile(d, r)], p[next := p[d] + [r.filename]];
    FilePlaceIsFree(t, next, p, dirs, rows, n, d);
    NextIsFresh(t, next);
    AddLeaf(t, next, p, RestoredFile(d, r));
    forall i | FIRST_INO <= i < first ensures DirAt(t', p', dirs, i) {
      assert DirAt(t, p, dirs, i);
      DirStays(t, p, dirs, i, next, RestoredFile(d, r), p[d] + [r.filename]);
    }
    forall i | first <= i < next ensures FileAt(t', p', first, rows, i) {
      assert FileAt(t, p, first, rows, i);
      FileStays(t, p, first, rows, i, next, RestoredFile(d, r), p[d] + [r.filename]);
    }
    assert FileAt(t', p', first, rows, next);
  }

  /** `d` has this source path if any inode has. */
  ghost predicate Resolves(p: Labels, sourcePath: string, d: Ino) {
    && d in p && (sourcePath == "" ==> d == METADATA)
    && (sourcePath != "" ==> forall i :: i in p && Join(p[i]) == "metadata/" + sourcePath ==> Join(p[d]) == Join(p[i]))
  }

  /** The scan by full path finds the directory row with that path. */
  lemma {:induction false} FoundDirectory(t: Table, next: Ino, p: Labels, dirs: seq<DirRow>, row: TorrentRow, d: Ino)
    requires TreeWith(t, next, p) && DirsRestored(t, p, dirs, |dirs|) && Resolves(p, row.sourcePath, d)
    requires row.sourcePath != "" ==> HasRow(multiset(dirs), row.sourcePath)
    ensures d in t && t[d].Directory? && InMetadata(p, d) && SourcePath(p, d) == row.sourcePath
  {
    SkeletonLabels(t, next, p);
    if row.sourcePath != "" {
      var r :| r in multiset(dirs) && r.path == row.sourcePath;
      assert r in dirs;
      var j :| 0 <= j < |dirs| && dirs[j] == r;
      var i := FIRST_INO + j;
      assert DirAt(t, p, dirs, i);
      MetadataPrefix(t, next, p, i);
      LabelNames(t, next, p, i);
      LabelNames(t, next, p, d);
      JoinInjective(p[i], p[d]);
      PathInjective(t, next, p, i, d);
    } else {
      assert p[METADATA][1..] == [];
    }
  }

  ghost predicate Restored(t: Table, next: Ino, dirs: seq<DirRow>, rows: seq<TorrentRow>, n: nat) {
    && Tree(t, next) && next == FIRST_INO + |dirs| + n
    && DirsRestored(t, Paths(t), dirs, |dirs|)
    && FilesRestored(t, Paths(t), FIRST_INO + |dirs|, rows, n)
  }

  lemma {:induction false} TreeIsRestored(t: Table, next: Ino, p: Labels, dirs: seq<DirRow>, rows: seq<TorrentRow>, n: nat)
    requires TreeWith(t, next, p) && next == FIRST_INO + |dirs| + n
    requires DirsRestored(t, p, dirs, |dirs|) && FilesRestored(t, p, FIRST_INO + |dirs|, rows, n)
    ensures Restored(t, next, dirs, rows, n)
  {
    TreeIs(t, next, p);
  }

  lemma {:induction false} FileAdded(t: Table, next: Ino, dirs: seq<DirRow>, rows: seq<TorrentRow>, n: nat, d: Ino)
    requires n < |rows| && ConsistentTorrents(multiset(dirs), rows)
    requires Restored(t, next, dirs, rows, n) && Resolves(Paths(t), rows[n].sourcePath, d)
    ensures Restored(t[next := RestoredFile(d, rows[n])], next + 1, dirs, rows, n + 1)
  {
    var p := Paths(t);
    FoundDirectory(t, next, p, dirs, rows[n], d);
    OneMoreFile(t, next, p, dirs, rows, n, d);
    TreeIsRestored(t[next := RestoredFile(d, rows[n])], next + 1, p[next := p[d] + [rows[n].filename]], dirs, rows, n + 1);
  }

  lemma {:induction false} NothingElseIsNamed(t: Table, next: Ino, dirs: seq<DirRow>, rows: seq<TorrentRow>)
    requires Restored(t, next, dirs, rows, |rows|)
    ensures forall k :: Named(t, Paths(t), k) <==>
              exists j :: 0 <= j < |rows| && k == Key(rows[j].sourcePath, rows[j].filename)
  {
    var p, first := Paths(t), FIRST_INO + |dirs|;
    forall j | 0 <= j < |rows| ensures Named(t, p, Key(rows[j].sourcePath, rows[j].filename)) {
      assert FileAt(t, p, first, rows, first + j);
    }
    forall k | Named(t, p, k) ensures exists j :: 0 <= j < |rows| && k == Key(rows[j].sourcePath, rows[j].filename) {
      var i: Ino :| HasKey(t, p, i, k);
      assert NodeOk(t, next, i);
      assert i < first ==> DirAt(t, p, dirs, i);
      assert FileAt(t, p, first, rows, i);
    }
  }

  // ── The restoring loops ──────────────────────────────────────────────────

  ghost predicate DirsSoFar(t: Table, next: Ino, p: Labels, ids: map<int, Ino>, rows: seq<DirRow>, n: nat) {
    n <= |rows| && next == FIRST_INO + n && TreeWith(t, next, p) && DirsRestored(t, p, rows, n) && Indexed(ids, rows, n)
  }

  lemma {:induction false} NextDirectory(t: Table, next: Ino, p: Labels, ids: map<int, Ino>, rows: seq<DirRow>, n: nat)
    returns (p': Labels)
    requires n < |rows| && SortedBy(ByDepth, rows) && ConsistentDirs(multiset(rows)) && DirsSoFar(t, next, p, ids, rows, n)
    ensures var d := ParentIno(ids, rows[n].parentId);
            DirsSoFar(t[next := Directory(d, rows[n].name)], next + 1, p', ids[rows[n].id := next], rows, n + 1)
  {
    var d := ParentIno(ids, rows[n].parentId);
    ParentIsIndexed(ids, rows, n);
    IndexGrows(ids, rows, n);
    OneMoreDirectory(t, next, p, rows, n, d);
    p' := p[next := p[d] + [rows[n].name]];
  }

  /** What the loop over the directory rows keeps; `ok` is whether they are consistent. */
  ghost predicate Restoring(t: Table, next: Ino, p: Labels, ids: map<int, Ino>, rows: seq<DirRow>, n: nat, ok: bool) {
    && Plain(t, next) && next == FIRST_INO + n && Within(ids, next)
    && (ok ==> DirsSoFar(t, next, p, ids, rows, n))
  }

  lemma {:induction false} RestoringStarts(rows: seq<DirRow>)
    ensures Tree(StartTable(), FIRST_INO)
    ensures forall ok :: Restoring(StartTable(), FIRST_INO, Paths(StartTable()), map[], rows, 0, ok)
  {
    StartIsTree();
    forall i | i in StartTable() ensures Older(StartTable(), i) {}
  }

  lemma {:induction false} RestoringGoesOn(t: Table, next: Ino, p: Labels, ids: map<int, Ino>, rows: seq<DirRow>, n: nat)
    returns (p': Labels)
    requires n < |rows| && SortedBy(ByDepth, rows) && Restoring(t, next, p, ids, rows, n, ConsistentDirs(multiset(rows)))
    ensures Restoring(t[next := Directory(ParentIno(ids, rows[n].parentId), rows[n].name)], next + 1, p', ids[rows[n].id := next],
                      rows, n + 1, ConsistentDirs(multiset(rows)))
  {
    p' := p;
    if ConsistentDirs(multiset(rows)) { p' := NextDirectory(t, next, p, ids, rows, n); }
    PlainGrows(t, next, Directory(ParentIno(ids, rows[n].parentId), rows[n].name));
  }

  lemma {:induction false} RestoringEnds(t: Table, next: Ino, p: Labels, ids: map<int, Ino>, rows: seq<DirRow>)
    requires Restoring(t, next, p, ids, rows, |rows|, ConsistentDirs(multiset(rows)))
    ensures Plain(t, next) && next == FIRST_INO + |rows|
    ensures ConsistentDirs(multiset(rows)) ==> Restored(t, next, rows, [], 0)
  {
    if ConsistentDirs(multiset(rows)) { TreeIs(t, next, p); }
  }

  /** Directories, parents first; a parent that is not there becomes `metadata/`. */
  method RestoreDirectories(mgr: InodeManager, rows: seq<DirRow>)
    requires mgr.inodes == StartTable() && mgr.nextIno == FIRST_INO && SortedBy(ByDepth, rows)
    modifies mgr`inodes, mgr`nextIno
    ensures Plain(mgr.inodes, mgr.nextIno) && mgr.nextIno == FIRST_INO + |rows|
    ensures ConsistentDirs(multiset(rows)) ==> Restored(mgr.inodes, mgr.nextIno, rows, [], 0)
  {
    RestoringStarts(rows);
    ghost var p: Labels := Paths(mgr.inodes);
    var idToIno: map<int, Ino> := map[];
    for n := 0 to |rows|
      invariant Restoring(mgr.inodes, mgr.nextIno, p, idToIno, rows, n, ConsistentDirs(multiset(rows)))
    {
      var r := rows[n];
      p := RestoringGoesOn(mgr.inodes, mgr.nextIno, p, idToIno, rows, n);
      var parentIno := ParentIno(idToIno, r.parentId);
      var newIno := mgr.nextIno;
      mgr.nextIno := newIno + 1;
      idToIno := idToIno[r.id := newIno];
      mgr.inodes := mgr.inodes[newIno := Directory(parentIno, r.name)];
    }
    RestoringEnds(mgr.inodes, mgr.nextIno, p, idToIno, rows);
  }

  lemma {:induction false} WaysAreLabels(t: Table, next: Ino)
    requires Tree(t, next) && Climbable(t)
    ensures forall i :: i in Paths(t) ==> Way(t, i) == Paths(t)[i]
  {
    forall i | i in Paths(t) ensures Way(t, i) == Paths(t)[i] { WayIsLabel(t, next, RankOf(t), i); }
  }

  /** The inode of a source path, or `metadata/` when there is none. */
  method ResolveParent(mgr: InodeManager, sourcePath: string) returns (d: Ino)
    requires Plain(mgr.inodes, mgr.nextIno)
    ensures d < mgr.nextIno
    ensures Tree(mgr.inodes, mgr.nextIno) ==> Resolves(Paths(mgr.inodes), sourcePath, d)
  {
    PlainClimbs(mgr.inodes, mgr.nextIno);
    d := METADATA;
    if sourcePath != "" {
      var found := mgr.FindInoByFullPath("metadata/" + sourcePath);
      if found.Some? { d := found.value; }
      if Tree(mgr.inodes, mgr.nextIno) { WaysAreLabels(mgr.inodes, mgr.nextIno); }
    }
  }

  /** Files, each below the directory found by its full path. */
  method RestoreFiles(mgr: InodeManager, ghost dirs: seq<DirRow>, rows: seq<TorrentRow>)
    requires Plain(mgr.inodes, mgr.nextIno) && mgr.nextIno == FIRST_INO + |dirs|
    requires ConsistentDirs(multiset(dirs)) ==> Restored(mgr.inodes, mgr.nextIno, dirs, [], 0)
    modifies mgr`inodes, mgr`nextIno
    ensures mgr.nextIno == FIRST_INO + |dirs| + |rows|
    ensures ConsistentDirs(multiset(dirs)) && ConsistentTorrents(multiset(dirs), rows) ==>
              Restored(mgr.inodes, mgr.nextIno, dirs, rows, |rows|)
  {
    ghost var ok := ConsistentDirs(multiset(dirs)) && ConsistentTorrents(multiset(dirs), rows);
    for n := 0 to |rows|
      invariant Plain(mgr.inodes, mgr.nextIno) && mgr.nextIno == FIRST_INO + |dirs| + n
      invariant ok ==> Restored(mgr.inodes, mgr.nextIno, dirs, rows, n)
    {
      var r := rows[n];
      var parentIno := ResolveParent(mgr, r.sourcePath);
      if ok { FileAdded(mgr.inodes, mgr.nextIno, dirs, rows, n, parentIno); }
      PlainGrows(mgr.inodes, mgr.nextIno, RestoredFile(parentIno, r));
      var newIno := mgr.nextIno;
      mgr.nextIno := newIno + 1;
      mgr.inodes := mgr.inodes[newIno := RestoredFile(parentIno, r)];
    }
  }

  /** Restart: from consistent rows every directory gets the full path its row
      says, every file its bytes, and the keys of the files are exactly the
      rows' `(source_path, filename)`. */
  method RestoreMetadataInodes(mgr: InodeManager, dirs: seq<DirRow>, torrents: seq<TorrentRow>)
    returns (sorted: seq<DirRow>)
    requires mgr.inodes == StartTable() && mgr.nextIno == FIRST_INO
    modifies mgr`inodes, mgr`nextIno
    ensures multiset(sorted) == multiset(dirs)
    ensures ConsistentDirs(multiset(dirs)) && ConsistentTorrents(multiset(dirs), torrents) ==>
              && Restored(mgr.inodes, mgr.nextIno, sorted, torrents, |torrents|)
              && (forall k :: Named(mgr.inodes, Paths(mgr.inodes), k) <==>
                    exists j :: 0 <= j < |torrents| && k == Key(torrents[j].sourcePath, torrents[j].filename))
  {
    sorted := SortBy(ByDepth, dirs);
    RestoreDirectories(mgr, sorted);
    RestoreFiles(mgr, sorted, torrents);
    if ConsistentDirs(multiset(dirs)) && ConsistentTorrents(multiset(dirs), torrents) {
      NothingElseIsNamed(mgr.inodes, mgr.nextIno, sorted, torrents);
    }
  }

  // ── Restarting from what a run left behind ───────────────────────────────

  ghost predicate IsDirAt(t: Table, p: Labels, d: Ino, path: string) {
    DT.IsDir(t, p, d) && SourcePath(p, d) == path
  }

  ghost predicate HasDir(t: Table, p: Labels, path: string) { exists d :: IsDirAt(t, p, d, path) }

  /** The torrent rows, one per persisted key, with its bytes. */
  ghost predicate ListsTorrents(rows: seq<TorrentRow>, table: map<Key, string>) {
    && (forall j :: 0 <= j < |rows| ==>
          var k := Key(rows[j].sourcePath, rows[j].filename); k in table && StoredData(rows[j]) == table[k])
    && (forall k :: k in table ==> exists j :: 0 <= j < |rows| && k == Key(rows[j].sourcePath, rows[j].filename))
    && (forall i, j :: 0 <= i < j < |rows| ==>
          Key(rows[i].sourcePath, rows[i].filename) != Key(rows[j].sourcePath, rows[j].filename))
  }

  /** The database after a run: one directory row per directory, one torrent row
      per persisted key. */
  ghost predicate Mirrors(s: State, dirs: seq<DirRow>, rows: seq<TorrentRow>)
    requires Good(s)
  {
    && ConsistentDirs(multiset(dirs))
    && (forall path {:trigger HasRow(multiset(dirs), path)} ::
          HasRow(multiset(dirs), path) <==> HasDir(s.inodes, Paths(s.inodes), path))
    && ListsTorrents(rows, s.rows)
  }

  ghost predicate IsRow(table: Rows, r: DirRow) { r.id in table && table[r.id] == Dir(r.parentId, r.name, r.path) }

  /** The directory rows, each once. */
  ghost predicate ListsDirs(dirs: seq<DirRow>, table: Rows) {
    && (forall i, j :: 0 <= i < j < |dirs| ==> dirs[i].id != dirs[j].id)
    && (forall i :: 0 <= i < |dirs| ==> IsRow(table, dirs[i]))
    && (forall id {:trigger id in table} :: id in table ==> DirRow(id, table[id].parentId, table[id].name, table[id].path) in dirs)
  }

  lemma {:induction false} OccursOnce(dirs: seq<DirRow>, r: DirRow)
    requires forall i, j :: 0 <= i < j < |dirs| ==> dirs[i].id != dirs[j].id
    ensures multiset(dirs)[r] == if r in dirs then 1 else 0
  {
    if dirs != [] {
      var n := |dirs| - 1;
      assert dirs == dirs[..n] + [dirs[n]];
      OccursOnce(dirs[..n], r);
      if r == dirs[n] { assert r !in dirs[..n]; }
    }
  }

  /** What a row says of its directory. */
  lemma {:induction false} RowSays(s: State, r: DirRow) returns (d: Ino)
    requires Good(s) && DT.InStep(s) && IsRow(s.dirs.rows, r)
    ensures IsDirAt(s.inodes, Paths(s.inodes), d, r.path) && IsName(r.name)
    ensures r.parentId.None? ==> r.path == r.name
    ensures r.parentId.Some? ==> r.parentId.value in s.dirs.rows && r.path == s.dirs.rows[r.parentId.value].path + "/" + r.name
  {
    var t, p := s.inodes, Paths(s.inodes);
    assert DT.HasFit(s.dirs.rows, t, p, r.id);
    d := DT.DirOf(s.dirs.rows, t, p, r.id);
    assert NodeOk(t, s.nextIno, d);
    SkeletonLabels(t, s.nextIno, p);
    assert d != ROOT && d != DATA && d != STATS;
    assert LabelOk(t, p, d);
    ParentInMetadata(t, s.nextIno, p, d);
    SourcePathBelow(t, s.nextIno, p, t[d].parent, t[d].name);
  }

  /** Rows in step with the directories are consistent, and name exactly them. */
  lemma {:induction false} InStepIsConsistent(s: State, dirs: seq<DirRow>)
    requires Good(s) && DT.InStep(s) && ListsDirs(dirs, s.dirs.rows)
    ensures ConsistentDirs(multiset(dirs))
    ensures forall path :: HasRow(multiset(dirs), path) <==> HasDir(s.inodes, Paths(s.inodes), path)
  {
    var t, p := s.inodes, Paths(s.inodes);
    forall r | r in multiset(dirs)
      ensures r in dirs && IsRow(s.dirs.rows, r) && multiset(dirs)[r] == 1 && IsName(r.name) && HasDir(t, p, r.path)
      ensures r.parentId.None? ==> r.path == r.name
      ensures r.parentId.Some? ==> HasParentRow(multiset(dirs), r)
    {
      OccursOnce(dirs, r);
      var d := RowSays(s, r);
      if r.parentId.Some? {
        var q := s.dirs.rows[r.parentId.value];
        assert IsParentRow(DirRow(r.parentId.value, q.parentId, q.name, q.path), r);
      }
    }
    forall path | HasDir(t, p, path) ensures HasRow(multiset(dirs), path) {
      var d: Ino :| IsDirAt(t, p, d, path);
      var id := DT.RowOf(s.dirs, t, s.nextIno, p, d);
      var q := s.dirs.rows[id];
      assert DirRow(id, q.parentId, q.name, q.path) in multiset(dirs);
    }
  }

  /** The file of a persisted row, in a clean state. */
  lemma {:induction false} FileOfRow(s: State, row: TorrentRow) returns (i: Ino)
    requires Good(s) && Clean(s) && Key(row.sourcePath, row.filename) in s.rows
    ensures var p := Paths(s.inodes);
            && HasKey(s.inodes, p, i, Key(row.sourcePath, row.filename))
            && InMetadata(p, i) && Join(p[i][1..]) == Place(row)
            && IsName(row.filename) && EndsWith(row.filename, TORRENT)
            && (row.sourcePath != "" ==> IsDirAt(s.inodes, p, s.inodes[i].parent, row.sourcePath))
  {
    var t, p := s.inodes, Paths(s.inodes);
    i :| HasKey(t, p, i, Key(row.sourcePath, row.filename));
    assert NodeOk(t, s.nextIno, i);
    ParentInMetadata(t, s.nextIno, p, i);
    SourcePathBelow(t, s.nextIno, p, t[i].parent, row.filename);
  }

  lemma {:induction false} PlacesDiffer(s: State, a: TorrentRow, b: TorrentRow)
    requires Good(s) && Clean(s)
    requires Key(a.sourcePath, a.filename) in s.rows && Key(b.sourcePath, b.filename) in s.rows
    requires Place(a) == Place(b)
    ensures Key(a.sourcePath, a.filename) == Key(b.sourcePath, b.filename)
  {
    var i := FileOfRow(s, a);
    var j := FileOfRow(s, b);
    SamePlace(s.inodes, s.nextIno, Paths(s.inodes), i, j);
  }

  lemma {:induction false} NoDirectoryThere(s: State, d: Ino, path: string, row: TorrentRow)
    requires Good(s) && Clean(s) && IsDirAt(s.inodes, Paths(s.inodes), d, path)
    requires Key(row.sourcePath, row.filename) in s.rows
    ensures path != Place(row)
  {
    var i := FileOfRow(s, row);
    if path == Place(row) { SamePlace(s.inodes, s.nextIno, Paths(s.inodes), i, d); }
  }

  /** What a clean state leaves in the database is consistent, so a restart
      rebuilds every persisted file under its own key. */
  lemma {:induction false} CleanRestart(s: State, dirs: seq<DirRow>, rows: seq<TorrentRow>)
    requires Good(s) && Clean(s) && Mirrors(s, dirs, rows)
    ensures ConsistentTorrents(multiset(dirs), rows)
  {
    var p := Paths(s.inodes);
    forall j | 0 <= j < |rows|
      ensures IsName(rows[j].filename) && EndsWith(rows[j].filename, TORRENT)
      ensures rows[j].sourcePath != "" ==> HasRow(multiset(dirs), rows[j].sourcePath)
    {
      var i := FileOfRow(s, rows[j]);
      assert rows[j].sourcePath != "" ==> HasDir(s.inodes, p, rows[j].sourcePath);
    }
    forall i, j | 0 <= i < j < |rows| ensures Place(rows[i]) != Place(rows[j]) {
      if Place(rows[i]) == Place(rows[j]) { PlacesDiffer(s, rows[i], rows[j]); }
    }
    forall r, j | r in multiset(dirs) && 0 <= j < |rows| ensures r.path != Place(rows[j]) {
      assert HasRow(multiset(dirs), r.path) && HasDir(s.inodes, p, r.path);
      var d: Ino :| IsDirAt(s.inodes, p, d, r.path);
      NoDirectoryThere(s, d, r.path, rows[j]);
    }
  }

  /** The restarted daemon: the restored table over the same rows. */
  ghost function Restarted(t: Table, next: Ino, rows: map<Key, string>, dirs: DirTable): State {
    State(true, t, next, map[], 1, rows, {}, {}, map[], 0, dirs)
  }

  lemma {:induction false} AllLinked(t: Table, next: Ino, dirs: seq<DirRow>, rows: seq<TorrentRow>)
    requires Restored(t, next, dirs, rows, |rows|)
    ensures forall i :: i in t ==> t[i].Linked() && (i >= FIRST_INO + |dirs| ==> t[i].File?)
  {
    forall i | i in t ensures t[i].Linked() && (i >= FIRST_INO + |dirs| ==> t[i].File?) {
      assert NodeOk(t, next, i);
      if FIRST_INO <= i < FIRST_INO + |dirs| {
        assert DirAt(t, Paths(t), dirs, i);
      } else if i >= FIRST_INO + |dirs| {
        assert FileAt(t, Paths(t), FIRST_INO + |dirs|, rows, i);
      }
    }
  }

  /** The restored directories are those of the rows. */
  lemma {:induction false} DirectoriesAreRows(t: Table, next: Ino, dirs: seq<DirRow>, rows: seq<TorrentRow>)
    requires Restored(t, next, dirs, rows, |rows|)
    ensures forall path :: HasDir(t, Paths(t), path) <==> HasRow(multiset(dirs), path)
  {
    var p := Paths(t);
    SkeletonLabels(t, next, p);
    AllLinked(t, next, dirs, rows);
    forall path | HasDir(t, p, path) ensures HasRow(multiset(dirs), path) {
      var d: Ino :| IsDirAt(t, p, d, path);
      assert NodeOk(t, next, d) && d != ROOT && d != DATA && d != STATS;
      assert DirAt(t, p, dirs, d);
      assert dirs[d - FIRST_INO] in multiset(dirs);
    }
    forall path | HasRow(multiset(dirs), path) ensures HasDir(t, p, path) {
      var r :| r in multiset(dirs) && r.path == path;
      assert r in dirs;
      var j :| 0 <= j < |dirs| && dirs[j] == r;
      var d: Ino := FIRST_INO + j;
      assert DirAt(t, p, dirs, d);
      assert IsDirAt(t, p, d, path);
    }
  }

  /** A path ends in one name. */
  lemma {:induction false} SplitsOnce(a: string, n: string, b: string, m: string)
    requires '/' !in n && '/' !in m && a + "/" + n == b + "/" + m
    ensures a == b && n == m
  {
    LastSlashIs(a, n);
    LastSlashIs(b, m);
    assert a == (a + "/" + n)[..|a|] && b == (b + "/" + m)[..|b|];
    assert n == (a + "/" + n)[|a| + 1..] && m == (b + "/" + m)[|b| + 1..];
  }

  /** The directory of a row has the row's name, and the parent its row says. */
  lemma {:induction false} RowFitsRestored(s: State, t: Table, next: Ino, r: DirRow, d: Ino)
    requires Good(s) && DT.InStep(s) && IsRow(s.dirs.rows, r) && Tree(t, next) && IsDirAt(t, Paths(t), d, r.path)
    ensures DT.Fits(s.dirs.rows, t, Paths(t), r.id, d)
  {
    var p := Paths(t);
    var x := RowSays(s, r);
    SkeletonLabels(t, next, p);
    assert NodeOk(t, next, d) && d != ROOT && d != DATA && d != STATS;
    ParentInMetadata(t, next, p, d);
    var q := t[d].parent;
    SourcePathBelow(t, next, p, q, t[d].name);
    if q == METADATA {
      LastSlashIs("", t[d].name);
      if r.parentId.Some? { LastSlashIs(s.dirs.rows[r.parentId.value].path, r.name); }
    } else {
      LastSlashIs(SourcePath(p, q), t[d].name);
      if r.parentId.None? { LastSlashIs("", r.name); }
      SplitsOnce(SourcePath(p, q), t[d].name, s.dirs.rows[r.parentId.value].path, r.name);
    }
  }

  /** The rows that were in step with the old tree are in step with the restored one. */
  lemma {:induction false} RestoredInStep(s: State, t: Table, next: Ino, dirs: seq<DirRow>, sorted: seq<DirRow>, rows: seq<TorrentRow>)
    requires Good(s) && DT.InStep(s) && ListsDirs(dirs, s.dirs.rows)
    requires multiset(sorted) == multiset(dirs) && Restored(t, next, sorted, rows, |rows|)
    ensures DT.Mirrored(s.dirs, t, Paths(t))
  {
    var p, table := Paths(t), s.dirs.rows;
    DirectoriesAreRows(t, next, sorted, rows);
    forall id | id in table ensures DT.HasFit(table, t, p, id) {
      var r := DirRow(id, table[id].parentId, table[id].name, table[id].path);
      assert r in multiset(sorted) && HasRow(multiset(sorted), r.path) && HasDir(t, p, r.path);
      var d: Ino :| IsDirAt(t, p, d, r.path);
      RowFitsRestored(s, t, next, r, d);
    }
    forall d | DT.IsDir(t, p, d) ensures HasPath(table, SourcePath(p, d)) {
      assert IsDirAt(t, p, d, SourcePath(p, d));
      assert HasDir(t, p, SourcePath(p, d)) && HasRow(multiset(sorted), SourcePath(p, d));
      var r :| r in multiset(sorted) && r.path == SourcePath(p, d);
      assert r in multiset(dirs) && r in dirs && IsRow(table, r);
      assert At(table, r.id, SourcePath(p, d));
    }
  }

  /** Every restored file has the bytes its key had in the database. */
  lemma {:induction false} BytesAreRestored(t: Table, next: Ino, dirs: seq<DirRow>, rows: seq<TorrentRow>, table: map<Key, string>)
    requires Restored(t, next, dirs, rows, |rows|) && ListsTorrents(rows, table)
    ensures forall i, k :: HasKey(t, Paths(t), i, k) ==> k in table && t[i].data == table[k]
  {
    var p, first := Paths(t), FIRST_INO + |dirs|;
    forall i: Ino, k | HasKey(t, p, i, k) ensures k in table && t[i].data == table[k] {
      assert NodeOk(t, next, i);
      assert i < first ==> DirAt(t, p, dirs, i);
      assert FileAt(t, p, first, rows, i);
    }
  }

  /** A restart of a clean state in step is clean and in step: the files are exactly
      the persisted ones, with their keys and bytes, and the directories those there
      were, each with its row. */
  lemma {:induction false} RestartIsClean(s: State, t: Table, next: Ino, dirs: seq<DirRow>, rows: seq<TorrentRow>)
    requires Good(s) && Clean(s) && DT.InStep(s) && s.hasDb && ListsDirs(dirs, s.dirs.rows) && ListsTorrents(rows, s.rows)
    requires exists sorted :: multiset(sorted) == multiset(dirs) && Restored(t, next, sorted, rows, |rows|)
    ensures var s' := Restarted(t, next, s.rows, s.dirs);
            && Good(s') && Clean(s') && DT.InStep(s')
            && (forall k :: Named(t, Paths(t), k) <==> k in s.rows)
            && (forall i, k :: HasKey(t, Paths(t), i, k) ==> k in s.rows && t[i].data == s.rows[k])
            && (forall path :: HasDir(t, Paths(t), path) <==> HasDir(s.inodes, Paths(s.inodes), path))
  {
    var sorted :| multiset(sorted) == multiset(dirs) && Restored(t, next, sorted, rows, |rows|);
    InStepIsConsistent(s, dirs);
    NothingElseIsNamed(t, next, sorted, rows);
    AllLinked(t, next, sorted, rows);
    DirectoriesAreRows(t, next, sorted, rows);
    BytesAreRestored(t, next, sorted, rows, s.rows);
    RestoredInStep(s, t, next, dirs, sorted, rows);
  }

  /** What a run leaves in the database, if its renames were careful and the
      database followed it, a restart can build on; a run may start from a fresh
      mount or from such a restart. */
  lemma {:induction false} RunLeavesConsistent(s0: State, events: seq<Event>, s: State, dirs: seq<DirRow>, rows: seq<TorrentRow>)
    requires Good(s0) && Clean(s0) && DT.InStep(s0) && Reaches(s0, events, s) && AllCareful(s0, events) && DT.AllFollowed(s0, events)
    requires Good(s) && ListsDirs(dirs, s.dirs.rows) && ListsTorrents(rows, s.rows)
    ensures Clean(s) && DT.InStep(s) && Mirrors(s, dirs, rows)
    ensures ConsistentDirs(multiset(dirs)) && ConsistentTorrents(multiset(dirs), rows)
  {
    DT.DirectoriesStayMirrored(s0, events, s);
    InStepIsConsistent(s, dirs);
    CleanRestart(s, dirs, rows);
  }
}
