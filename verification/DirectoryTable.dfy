/** The directory rows of the database, kept beside the namespace protocol. */
module DirectoryTable {
  import opened Text
  import opened InodeTree
  import opened DirectoryRows
  import opened Protocol
  import opened ProtocolSafety
  import opened RenameSafety
  import opened Runs

  // ── What the rows should say ─────────────────────────────────────────────

  ghost predicate IsDir(t: Table, p: Labels, d: Ino) { d in t && t[d].Directory? && InMetadata(p, d) && d != METADATA }

  /** The row describes the directory: its path, its name, the row of its parent. */
  ghost predicate Fits(rows: Rows, t: Table, p: Labels, id: int, d: Ino) {
    && IsDir(t, p, d) && At(rows, id, SourcePath(p, d)) && rows[id].name == t[d].name
    && if t[d].parent == METADATA then rows[id].parentId.None?
       else InMetadata(p, t[d].parent) && rows[id].parentId.Some? && At(rows, rows[id].parentId.value, SourcePath(p, t[d].parent))
  }

  ghost predicate HasFit(rows: Rows, t: Table, p: Labels, id: int) { exists d :: Fits(rows, t, p, id, d) }

  /** One row for each directory, and none besides. */
  ghost predicate Mirrored(table: DirTable, t: Table, p: Labels) {
    && (forall id :: id in table.rows ==> id < table.next)
    && OnePerPath(table.rows)
    && (forall d {:trigger IsDir(t, p, d)} :: IsDir(t, p, d) ==> HasPath(table.rows, SourcePath(p, d)))
    && (forall id {:trigger HasFit(table.rows, t, p, id)} :: id in table.rows ==> HasFit(table.rows, t, p, id))
  }

  ghost function DirOf(rows: Rows, t: Table, p: Labels, id: int): (d: Ino)
    requires HasFit(rows, t, p, id)
    ensures Fits(rows, t, p, id, d)
  {
    var d: Ino :| Fits(rows, t, p, id, d); d
  }

  /** The row of a directory. */
  lemma RowOf(table: DirTable, t: Table, next: Ino, p: Labels, d: Ino) returns (id: int)
    requires TreeWith(t, next, p) && Mirrored(table, t, p) && IsDir(t, p, d)
    ensures Fits(table.rows, t, p, id, d)
  {
    id := IdAt(table.rows, SourcePath(p, d));
    assert HasFit(table.rows, t, p, id);
    SamePlace(t, next, p, d, DirOf(table.rows, t, p, id));
  }

  // ── A directory more ─────────────────────────────────────────────────────

  ghost function PathId(rows: Rows, parts: seq<string>): Option<int> {
    if parts == [] then None else IdOf(rows, Some(Join(parts)))
  }

  /** Every directory above one that is there has its row. */
  lemma AncestorHasRow(table: DirTable, t: Table, next: Ino, p: Labels, d: Ino, top: seq<string>, rest: seq<string>)
    requires TreeWith(t, next, p) && Mirrored(table, t, p) && d in t && t[d].Directory? && InMetadata(p, d)
    requires p[d][1..] == top + rest && top != []
    ensures HasPath(table.rows, Join(top))
  {
    var x := AncestorAt(t, p, d, |top| + 1);
    SkeletonLabels(t, next, p);
    assert p[x][1..] == top && p[x][0] == p[d][0];
    AncestorIsDirectory(t, next, p, d, x);
    assert IsDir(t, p, x);
  }

  lemma {:induction false} AncestorIsDirectory(t: Table, next: Ino, p: Labels, d: Ino, x: Ino)
    requires TreeWith(t, next, p) && d in p && t[d].Directory? && x in p && p[x] <= p[d]
    ensures t[x].Directory?
    decreases |p[d]|
  {
    if p[x] == p[d] {
      PathInjective(t, next, p, x, d);
    } else {
      assert LabelOk(t, p, d);
      assert p[x] <= p[t[d].parent];
      AncestorIsDirectory(t, next, p, t[d].parent, x);
    }
  }

  lemma JoinChild(parts: seq<string>, last: string)
    requires AllNames(parts)
    ensures ChildPath(Join(parts), last) == Join(parts + [last])
  {
    if parts == [] {
      assert parts + [last] == [last];
    } else {
      JoinNonEmpty(parts);
      JoinAppend(parts, last);
    }
  }

  lemma EnsureSkips(table: DirTable, top: seq<string>, parent: Option<int>, x: string, rest: seq<string>)
    requires AllNames(top) && HasPath(table.rows, Join(top + [x]))
    ensures EnsureFrom(table, Join(top), parent, [x] + rest) ==
            EnsureFrom(table, Join(top + [x]), PathId(table.rows, top + [x]), rest)
  {
    JoinChild(top, x);
    assert ([x] + rest)[1..] == rest;
  }

  /** The walk down to a directory that is there inserts nothing. */
  lemma {:induction false} WalkDown(table: DirTable, t: Table, next: Ino, p: Labels, d: Ino, top: seq<string>, rest: seq<string>, tail: seq<string>)
    requires TreeWith(t, next, p) && Mirrored(table, t, p) && d in t && t[d].Directory? && InMetadata(p, d)
    requires p[d][1..] == top + rest
    ensures EnsureFrom(table, Join(top), PathId(table.rows, top), rest + tail) ==
            EnsureFrom(table, Join(top + rest), PathId(table.rows, top + rest), tail)
    decreases |rest|
  {
    if rest == [] {
      assert top + rest == top && rest + tail == tail;
    } else {
      var x, rest' := rest[0], rest[1..];
      assert (top + [x]) + rest' == top + rest && [x] + (rest' + tail) == rest + tail;
      LabelNames(t, next, p, d);
      assert AllNames(top) by { forall i | 0 <= i < |top| ensures IsName(top[i]) { assert top[i] == p[d][i + 1]; } }
      AncestorHasRow(table, t, next, p, d, top + [x], rest');
      EnsureSkips(table, top, PathId(table.rows, top), x, rest' + tail);
      WalkDown(table, t, next, p, d, top + [x], rest', tail);
    }
  }

  /** Ensuring a directory that is there changes nothing; ensuring a new one below
      it adds one row. */
  lemma EnsureAdds(table: DirTable, t: Table, next: Ino, p: Labels, d: Ino, name: string)
    requires TreeWith(t, next, p) && Mirrored(table, t, p) && d in t && t[d].Directory? && InMetadata(p, d) && IsName(name)
    ensures Ensured(table, SourcePath(p, d)) == table
    ensures !HasPath(table.rows, Join(p[d][1..] + [name])) ==>
              Ensured(table, Join(p[d][1..] + [name])) ==
              DirTable(table.rows[table.next := Dir(PathId(table.rows, p[d][1..]), name, Join(p[d][1..] + [name]))], table.next + 1)
  {
    var parts := p[d][1..];
    LabelNames(t, next, p, d);
    assert AllNames(parts) && AllNames(parts + [name]);
    PartsOfJoin(parts);
    PartsOfJoin(parts + [name]);
    assert [] + parts == parts && parts + [] == parts;
    WalkDown(table, t, next, p, d, [], parts, []);
    WalkDown(table, t, next, p, d, [], parts, [name]);
    JoinChild(parts, name);
    assert [name][1..] == [];
  }

  /** A row goes on fitting while its directory and that of its parent row stay. */
  lemma FitStays(rows: Rows, t: Table, p: Labels, rows': Rows, t': Table, p': Labels, id: int, d: Ino)
    requires Fits(rows, t, p, id, d) && id in rows' && rows'[id] == rows[id]
    requires d in t' && t'[d] == t[d] && d in p' && p'[d] == p[d]
    requires t[d].parent != METADATA ==>
               && t[d].parent in p' && p'[t[d].parent] == p[t[d].parent]
               && rows[id].parentId.value in rows' && rows'[rows[id].parentId.value] == rows[rows[id].parentId.value]
    ensures Fits(rows', t', p', id, d)
  {
  }

  lemma PathIsFree(table: DirTable, t: Table, next: Ino, p: Labels, d: Ino, name: string)
    requires TreeWith(t, next, p) && Mirrored(table, t, p) && InMetadata(p, d) && IsName(name) && !HasChild(t, d, name)
    ensures !HasPath(table.rows, Join(p[d][1..] + [name]))
  {
    forall id | At(table.rows, id, Join(p[d][1..] + [name])) ensures false {
      assert HasFit(table.rows, t, p, id);
      var x := DirOf(table.rows, t, p, id);
      LabelNames(t, next, p, d);
      LabelNames(t, next, p, x);
      JoinInjective(p[x][1..], p[d][1..] + [name]);
      assert p[x] == [p[x][0]] + p[x][1..] && p[d] == [p[d][0]] + p[d][1..];
      assert p[x] == p[d] + [name];
      PrefixIsChild(t, next, p, x, d, name);
    }
  }

  lemma OldRowsFit(table: DirTable, t: Table, next: Ino, p: Labels, d: Ino, name: string, r: Dir)
    requires TreeWith(t, next, p) && Mirrored(table, t, p) && d in p
    ensures forall id :: id in table.rows ==>
              HasFit(table.rows[table.next := r], t[next := Directory(d, name)], p[next := p[d] + [name]], id)
  {
    var rows, rows', t', p' := table.rows, table.rows[table.next := r], t[next := Directory(d, name)], p[next := p[d] + [name]];
    NextIsFresh(t, next);
    forall id | id in rows ensures HasFit(rows', t', p', id) {
      assert HasFit(rows, t, p, id);
      var x := DirOf(rows, t, p, id);
      if t[x].parent != METADATA { assert t[x].parent in p; }
      FitStays(rows, t, p, rows', t', p', id, x);
    }
  }

  lemma RowAdded(table: DirTable, t: Table, next: Ino, p: Labels, d: Ino, name: string)
    requires TreeWith(t, next, p) && Mirrored(table, t, p) && d in t && t[d].Directory? && InMetadata(p, d)
    requires IsName(name) && !HasChild(t, d, name)
    ensures Mirrored(Ensured(table, Join(p[d][1..] + [name])), t[next := Directory(d, name)], p[next := p[d] + [name]])
  {
    var t', p', path := t[next := Directory(d, name)], p[next := p[d] + [name]], Join(p[d][1..] + [name]);
    var r := Dir(PathId(table.rows, p[d][1..]), name, path);
    NextIsFresh(t, next);
    PathIsFree(table, t, next, p, d, name);
    EnsureAdds(table, t, next, p, d, name);
    OldRowsFit(table, t, next, p, d, name, r);
    NewRowFits(table, t, next, p, d, name);
    OneMorePath(table.rows, table.next, r);
    forall x | IsDir(t', p', x) ensures HasPath(table.rows[table.next := r], SourcePath(p', x)) {
      if x == next {
        assert p'[next][1..] == p[d][1..] + [name];
      } else {
        assert IsDir(t, p, x);
      }
    }
  }

  lemma NewRowFits(table: DirTable, t: Table, next: Ino, p: Labels, d: Ino, name: string)
    requires TreeWith(t, next, p) && Mirrored(table, t, p) && d in t && t[d].Directory? && InMetadata(p, d) && next !in t
    ensures var rows' := table.rows[table.next := Dir(PathId(table.rows, p[d][1..]), name, Join(p[d][1..] + [name]))];
            HasFit(rows', t[next := Directory(d, name)], p[next := p[d] + [name]], table.next)
  {
    var t', p', path := t[next := Directory(d, name)], p[next := p[d] + [name]], Join(p[d][1..] + [name]);
    var rows' := table.rows[table.next := Dir(PathId(table.rows, p[d][1..]), name, path)];
    SkeletonLabels(t, next, p);
    assert p'[next][1..] == p[d][1..] + [name];
    if d != METADATA {
      var id := RowOf(table, t, next, p, d);
      assert HasPath(table.rows, SourcePath(p, d)) && id < table.next;
      if p[d][1..] == [] {
        assert p[d] == ["metadata"];
        PathInjective(t, next, p, d, METADATA);
      }
      assert IdAt(table.rows, SourcePath(p, d)) != table.next;
      assert At(rows', IdAt(table.rows, SourcePath(p, d)), SourcePath(p', d));
    } else {
      assert p[d][1..] == [];
    }
    assert Fits(rows', t', p', table.next, next);
  }

  // ── A directory less ─────────────────────────────────────────────────────

  lemma ParentRowIsOther(table: DirTable, t: Table, next: Ino, p: Labels, i: Ino, id: int, b: int, x: Ino)
    requires TreeWith(t, next, p) && Fits(table.rows, t, p, id, i) && Fits(table.rows, t, p, b, x) && !HasChildren(t, i)
    ensures t[x].parent != i && table.rows[b].parentId != Some(id)
  {
    assert t[x].Linked() && t[x].parent != i;
    if t[x].parent != METADATA && SourcePath(p, i) == SourcePath(p, t[x].parent) { SamePlace(t, next, p, i, t[x].parent); }
  }

  /** No row hangs below that of an empty directory. */
  lemma NoRowBelow(table: DirTable, t: Table, next: Ino, p: Labels, i: Ino, id: int)
    requires TreeWith(t, next, p) && Mirrored(table, t, p) && Fits(table.rows, t, p, id, i) && !HasChildren(t, i)
    ensures ChildRows(table.rows, {id}) == {}
  {
    forall b | b in table.rows ensures table.rows[b].parentId != Some(id) {
      assert HasFit(table.rows, t, p, b);
      ParentRowIsOther(table, t, next, p, i, id, b, DirOf(table.rows, t, p, b));
    }
  }

  lemma {:induction false} CascadeStops(rows: Rows, ids: set<int>, n: nat)
    requires ChildRows(rows, ids) == {}
    ensures Cascade(rows, ids, n) == ids
    decreases n
  {
    if n > 0 {
      assert ids + {} == ids;
      CascadeStops(rows, ids, n - 1);
    }
  }

  lemma RowDropped(table: DirTable, t: Table, next: Ino, p: Labels, i: Ino)
    requires TreeWith(t, next, p) && Mirrored(table, t, p) && IsDir(t, p, i) && !HasChildren(t, i)
    ensures Mirrored(Deleted(table, SourcePath(p, i)), t - {i}, p - {i})
  {
    var t', p', rows := t - {i}, p - {i}, table.rows;
    var id := RowOf(table, t, next, p, i);
    NoRowBelow(table, t, next, p, i, id);
    CascadeStops(rows, {id}, |rows|);
    assert IdAt(rows, SourcePath(p, i)) == id;
    var rows' := rows - {id};
    forall b | b in rows' ensures HasFit(rows', t', p', b) {
      assert HasFit(rows, t, p, b);
      var x := DirOf(rows, t, p, b);
      ParentRowIsOther(table, t, next, p, i, id, b, x);
      FitStays(rows, t, p, rows', t', p', b, x);
    }
    forall x | IsDir(t', p', x) ensures HasPath(rows', SourcePath(p', x)) {
      assert IsDir(t, p, x);
      var b := RowOf(table, t, next, p, x);
      assert b != id by { if SourcePath(p, i) == SourcePath(p, x) { SamePlace(t, next, p, i, x); } }
      assert At(rows', b, SourcePath(p', x));
    }
  }

  // ── A directory moved ────────────────────────────────────────────────────

  /** The statement is exact at every directory row. */
  ghost predicate DirsExact(rows: Rows, from: string, to: string) {
    forall id :: id in rows ==> SqlExact(from, to, rows[id].path)
  }

  /** The row of a directory stays with it exactly where the statement is exact. */
  lemma DirRowMovesExactly(table: DirTable, s: State, d: Ino, e: Ino, m: string, id: int, x: Ino)
    requires MovesDirectory(s, d, e, m) && Fits(table.rows, s.inodes, Paths(s.inodes), id, x)
    ensures InMetadata(NewLabels(s, d, e, m), x)
    ensures At(Renamed(table, From(s, d), m, To(s, e, m)).rows, id, SourcePath(NewLabels(s, d, e, m), x))
            <==> SqlExact(From(s, d), To(s, e, m), table.rows[id].path)
  {
    SourcePathMoves(s, d, e, m, x);
    PathMovesExactly(s, d, e, m, x);
  }

  lemma NewParent(table: DirTable, s: State, d: Ino, e: Ino, m: string)
    requires MovesDirectory(s, d, e, m) && Mirrored(table, s.inodes, Paths(s.inodes))
    ensures var parent := IdOf(table.rows, ParentPath(To(s, e, m)));
            if e == METADATA then parent == None
            else parent.Some? && At(table.rows, parent.value, SourcePath(Paths(s.inodes), e))
  {
    var t, p := s.inodes, Paths(s.inodes);
    LabelNames(t, s.nextIno, p, e);
    SkeletonLabels(t, s.nextIno, p);
    ParentOfJoin(p[e][1..], m);
    if e == METADATA {
      assert p[e][1..] == [];
    } else {
      assert IsDir(t, p, e);
      if p[e][1..] == [] {
        assert p[e] == ["metadata"];
        PathInjective(t, s.nextIno, p, e, METADATA);
      }
    }
  }

  lemma RowFitsMoved(table: DirTable, s: State, d: Ino, e: Ino, m: string, id: int, x: Ino)
    requires MovesDirectory(s, d, e, m) && Mirrored(table, s.inodes, Paths(s.inodes))
    requires DirsExact(table.rows, From(s, d), To(s, e, m)) && Fits(table.rows, s.inodes, Paths(s.inodes), id, x)
    ensures Fits(Renamed(table, From(s, d), m, To(s, e, m)).rows, s.inodes[d := Directory(e, m)], NewLabels(s, d, e, m), id, x)
  {
    var t, p, t', p' := s.inodes, Paths(s.inodes), s.inodes[d := Directory(e, m)], NewLabels(s, d, e, m);
    var rows, rows' := table.rows, Renamed(table, From(s, d), m, To(s, e, m)).rows;
    DirRowMovesExactly(table, s, d, e, m, id, x);
    SkeletonLabels(t, s.nextIno, p);
    if x == d {
      NewParent(table, s, d, e, m);
      if e != METADATA { ParentMoves(table, s, d, e, m, e, IdOf(rows, ParentPath(To(s, e, m))).value); }
    } else {
      assert rows[id].path != From(s, d) by { if SourcePath(p, x) == SourcePath(p, d) { SamePlace(t, s.nextIno, p, x, d); } }
      if t[x].parent != METADATA { ParentMoves(table, s, d, e, m, t[x].parent, rows[id].parentId.value); }
    }
  }

  lemma ParentMoves(table: DirTable, s: State, d: Ino, e: Ino, m: string, x: Ino, id: int)
    requires MovesDirectory(s, d, e, m) && Mirrored(table, s.inodes, Paths(s.inodes)) && InMetadata(Paths(s.inodes), x)
    requires DirsExact(table.rows, From(s, d), To(s, e, m)) && At(table.rows, id, SourcePath(Paths(s.inodes), x))
    ensures InMetadata(NewLabels(s, d, e, m), x)
    ensures At(Renamed(table, From(s, d), m, To(s, e, m)).rows, id, SourcePath(NewLabels(s, d, e, m), x))
  {
    SourcePathMoves(s, d, e, m, x);
    PathMovesExactly(s, d, e, m, x);
  }

  lemma RowsMoved(table: DirTable, s: State, d: Ino, e: Ino, m: string)
    requires MovesDirectory(s, d, e, m) && Mirrored(table, s.inodes, Paths(s.inodes))
    requires DirsExact(table.rows, From(s, d), To(s, e, m))
    ensures Mirrored(Renamed(table, From(s, d), m, To(s, e, m)), s.inodes[d := Directory(e, m)], NewLabels(s, d, e, m))
  {
    var t, p, t', p' := s.inodes, Paths(s.inodes), s.inodes[d := Directory(e, m)], NewLabels(s, d, e, m);
    var rows, rows' := table.rows, Renamed(table, From(s, d), m, To(s, e, m)).rows;
    MoveDirectory(t, s.nextIno, p, d, e, m);
    forall id | id in rows' ensures HasFit(rows', t', p', id) {
      assert HasFit(rows, t, p, id);
      RowFitsMoved(table, s, d, e, m, id, DirOf(rows, t, p, id));
    }
    forall a, b | a in rows' && b in rows' && rows'[a].path == rows'[b].path ensures a == b {
      assert HasFit(rows, t, p, a) && HasFit(rows, t, p, b);
      var x, y := DirOf(rows, t, p, a), DirOf(rows, t, p, b);
      RowFitsMoved(table, s, d, e, m, a, x);
      RowFitsMoved(table, s, d, e, m, b, y);
      SamePlace(t', s.nextIno, p', x, y);
    }
    forall x | IsDir(t', p', x) ensures HasPath(rows', SourcePath(p', x)) {
      MovedStaysOurs(s, d, e, m, x);
      var id := RowOf(table, t, s.nextIno, p, x);
      RowFitsMoved(table, s, d, e, m, id, x);
    }
  }

  lemma MovedStaysOurs(s: State, d: Ino, e: Ino, m: string, x: Ino)
    requires MovesDirectory(s, d, e, m) && IsDir(s.inodes[d := Directory(e, m)], NewLabels(s, d, e, m), x)
    ensures IsDir(s.inodes, Paths(s.inodes), x)
  {
    var t, p := s.inodes, Paths(s.inodes);
    SkeletonLabels(t, s.nextIno, p);
    if x < FIRST_INO {
      assert NodeOk(t, s.nextIno, x);
      assert LabelOk(t, p, d);
    } else {
      assert LabelOk(t, p, x);
    }
  }

  // ── Everything else ──────────────────────────────────────────────────────

  /** The same directories, each where it was. */
  ghost predicate SameDirs(t: Table, t': Table) {
    forall d :: (d in t && t[d].Directory? ==> d in t' && t'[d] == t[d]) && (d in t' && t'[d].Directory? ==> d in t && t[d] == t'[d])
  }

  lemma {:induction false} SameDirLabel(t: Table, p: Labels, t': Table, p': Labels, d: Ino)
    requires Labelled(t, p) && Labelled(t', p') && SameDirs(t, t') && d in t && t[d].Directory?
    ensures d in p && d in p' && p'[d] == p[d]
    decreases if d in p then |p[d]| else 0
  {
    assert d in p && d in p';
    if d != ROOT {
      assert LabelOk(t, p, d) && LabelOk(t', p', d);
      SameDirLabel(t, p, t', p', t[d].parent);
    }
  }

  lemma DirsStay(table: DirTable, t: Table, next: Ino, t': Table, next': Ino)
    requires Tree(t, next) && Tree(t', next') && SameDirs(t, t') && Mirrored(table, t, Paths(t))
    ensures Mirrored(table, t', Paths(t'))
  {
    var p, p' := Paths(t), Paths(t');
    forall d | d in t && t[d].Directory? ensures d in p && d in p' && p'[d] == p[d] { SameDirLabel(t, p, t', p', d); }
    forall id | id in table.rows ensures HasFit(table.rows, t', p', id) {
      assert HasFit(table.rows, t, p, id);
      var x := DirOf(table.rows, t, p, id);
      if t[x].parent != METADATA { assert LabelOk(t, p, x); }
      FitStays(table.rows, t, p, table.rows, t', p', id, x);
    }
    forall d | IsDir(t', p', d) ensures HasPath(table.rows, SourcePath(p', d)) { assert IsDir(t, p, d); }
  }

  /** Tables that differ in one file. */
  lemma OneFileDiffers(t: Table, t': Table, i: Ino)
    requires t' == t - {i} || (i in t' && t'[i].File? && t' == t[i := t'[i]])
    requires i in t ==> t[i].File?
    ensures SameDirs(t, t')
  {
  }

  lemma ReleaseKeepsDirs(s: State, fh: nat, parses: bool, dbFails: bool)
    requires Good(s)
    ensures SameDirs(s.inodes, ReleaseTo(s, fh, parses, dbFails).0.inodes)
  {
    var s' := ReleaseTo(s, fh, parses, dbFails).0;
    if s'.inodes != s.inodes { OneFileDiffers(s.inodes, s'.inodes, s.open[fh]); }
  }

  lemma RemoveKeepsDirs(s: State, i: Ino, dbFails: bool)
    requires Good(s) && IsMetaFile(s.inodes, i)
    ensures SameDirs(s.inodes, RemoveTo(s, i, dbFails).0.inodes)
  {
    OneFileDiffers(s.inodes, Retired(s.inodes, s.open, i), i);
  }

  lemma UnlinkKeepsDirs(s: State, d: Ino, name: string, dbFails: bool)
    requires Good(s) && FromKernel(s, Unlink(d, name, dbFails))
    ensures SameDirs(s.inodes, UnlinkTo(s, d, name, dbFails).0.inodes)
  {
    if MetadataChild(s.inodes, d) && HasChild(s.inodes, d, name) {
      var i := Child(s.inodes, d, name);
      DirInMetadata(s, d);
      ChildIsOurs(s, d, name);
      if IsMetaFile(s.inodes, i) { RemoveKeepsDirs(s, i, dbFails); }
    }
  }

  lemma OverwriteKeepsDirs(s: State, i: Ino, target: Ino, dbFails: bool)
    requires Good(s) && IsMetaFile(s.inodes, i) && IsMetaFile(s.inodes, target) && i != target
    ensures SameDirs(s.inodes, OverwriteTo(s, i, target, dbFails).0.inodes)
  {
    var t1 := Retired(s.inodes, s.open, target);
    OneFileDiffers(s.inodes, t1, target);
    OneFileDiffers(t1, Replaced(s, i, target), i);
  }

  lemma FileRenameKeepsDirs(s: State, d: Ino, n: string, e: Ino, m: string, dbFails: bool)
    requires Good(s) && FromKernel(s, Rename(d, n, e, m, dbFails)) && Renames(s, d, n, e, m)
    requires s.inodes[Child(s.inodes, d, n)].File? || HasChild(s.inodes, e, m)
    ensures SameDirs(s.inodes, RenameTo(s, d, n, e, m, dbFails).0.inodes)
  {
    var i := Child(s.inodes, d, n);
    if HasChild(s.inodes, e, m) {
      var j := Child(s.inodes, e, m);
      RenameToTaken(s, d, n, e, m, dbFails);
      if s.inodes[i].File? && s.inodes[j].File? { OverwriteKeepsDirs(s, i, j, dbFails); }
    } else {
      RenameToFree(s, d, n, e, m, dbFails);
      if EndsWith(m, TORRENT) { OneFileDiffers(s.inodes, Placed(s, i, e, m), i); }
    }
  }

  /** A call that is no `mkdir`, `rmdir` or rename leaves the directories alone. */
  lemma CreateKeepsDirs(s: State, d: Ino, n: string, handle: bool)
    requires Good(s) && FromKernel(s, Create(d, n, handle))
    ensures SameDirs(s.inodes, Commit(s, Create(d, n, handle)).0.inodes)
  {
    var t' := Commit(s, Create(d, n, handle)).0.inodes;
    NextIsFresh(s.inodes, s.nextIno);
    if t' != s.inodes { OneFileDiffers(s.inodes, t', s.nextIno); }
  }

  lemma ContentsKeepDirs(s: State, op: Op)
    requires Good(s) && FromKernel(s, op) && (op.Open? || op.Write? || op.SetSize?)
    ensures SameDirs(s.inodes, Commit(s, op).0.inodes)
  {
    var t' := Commit(s, op).0.inodes;
    if t' != s.inodes { OneFileDiffers(s.inodes, t', op.ino); }
  }

  lemma CallKeepsDirs(s: State, op: Op)
    requires Good(s) && FromKernel(s, op) && !op.Mkdir? && !op.Rmdir? && !op.Rename?
    ensures SameDirs(s.inodes, Commit(s, op).0.inodes)
  {
    match op
    case Release(fh, parses, dbFails) => ReleaseKeepsDirs(s, fh, parses, dbFails);
    case Unlink(d, n, dbFails) => UnlinkKeepsDirs(s, d, n, dbFails);
    case Create(d, n, f) => CreateKeepsDirs(s, d, n, f);
    case _ => ContentsKeepDirs(s, op);
  }

  // ── One step ─────────────────────────────────────────────────────────────

  /** The directory rows of a state are those of its directories. */
  ghost predicate InStep(s: State)
    requires Good(s)
  {
    Mirrored(s.dirs, s.inodes, Paths(s.inodes))
  }

  /** `mkdir` keeps the rows in step exactly when the database wrote the new one. */
  lemma MkdirInStepExactly(s: State, d: Ino, n: string, dbFails: bool)
    requires Good(s) && InStep(s) && FromKernel(s, Mkdir(d, n, dbFails)) && MkdirTo(s, d, n, dbFails).1.Done?
    ensures var s' := MkdirTo(s, d, n, dbFails).0;
            Good(s') && (InStep(s') <==> s.hasDb && !dbFails)
  {
    var t, p, s' := s.inodes, Paths(s.inodes), MkdirTo(s, d, n, dbFails).0;
    DirInMetadata(s, d);
    MkdirKeeps(s, d, n, dbFails);
    AddLeaf(t, s.nextIno, p, Directory(d, n));
    TreeIs(s'.inodes, s'.nextIno, p[s.nextIno := p[d] + [n]]);
    if s.hasDb && !dbFails {
      RowAdded(s.dirs, t, s.nextIno, p, d, n);
    } else {
      RowIsMissing(s.dirs, t, s.nextIno, p, d, n);
    }
  }

  /** A directory without its row. */
  lemma RowIsMissing(table: DirTable, t: Table, next: Ino, p: Labels, d: Ino, n: string)
    requires TreeWith(t, next, p) && Mirrored(table, t, p) && InMetadata(p, d) && IsName(n) && !HasChild(t, d, n)
    ensures !Mirrored(table, t[next := Directory(d, n)], p[next := p[d] + [n]])
  {
    var t', p' := t[next := Directory(d, n)], p[next := p[d] + [n]];
    PathIsFree(table, t, next, p, d, n);
    NextIsFresh(t, next);
    assert next != METADATA && p'[next][1..] == p[d][1..] + [n];
    assert IsDir(t', p', next);
  }

  /** `rmdir` does so exactly when the database deleted the old one. */
  lemma RmdirInStepExactly(s: State, d: Ino, n: string, dbFails: bool)
    requires Good(s) && InStep(s) && FromKernel(s, Rmdir(d, n, dbFails)) && RmdirTo(s, d, n, dbFails).1.Done?
    ensures var s' := RmdirTo(s, d, n, dbFails).0;
            Good(s') && (InStep(s') <==> s.hasDb && !dbFails)
  {
    var t, p, s', i := s.inodes, Paths(s.inodes), RmdirTo(s, d, n, dbFails).0, Child(s.inodes, d, n);
    DirInMetadata(s, d);
    ChildIsOurs(s, d, n);
    RmdirKeeps(s, d, n, dbFails);
    DropLeaf(t, s.nextIno, p, i, s'.inodes);
    TreeIs(s'.inodes, s.nextIno, p - {i});
    assert IsDir(t, p, i);
    if s.hasDb && !dbFails {
      RowDropped(s.dirs, t, s.nextIno, p, i);
    } else {
      var id := RowOf(s.dirs, t, s.nextIno, p, i);
      RowIsLeftOver(s.dirs, t, s.nextIno, p, i, id);
    }
  }

  /** The row of a directory that is gone fits nothing. */
  lemma RowIsLeftOver(table: DirTable, t: Table, next: Ino, p: Labels, i: Ino, id: int)
    requires TreeWith(t, next, p) && Fits(table.rows, t, p, id, i)
    ensures !Mirrored(table, t - {i}, p - {i})
  {
    forall x | Fits(table.rows, t - {i}, p - {i}, id, x) ensures false { SamePlace(t, next, p, i, x); }
    assert !HasFit(table.rows, t - {i}, p - {i}, id);
  }

  // ── Renames ──────────────────────────────────────────────────────────────

  /** Rows that stay behind leave one at the old path, where nothing stands. */
  lemma StayingIsOutOfStep(s: State, d: Ino, e: Ino, m: string)
    requires MovesDirectory(s, d, e, m) && InStep(s)
    ensures !Mirrored(s.dirs, s.inodes[d := Directory(e, m)], NewLabels(s, d, e, m))
  {
    var t, p, t', p' := s.inodes, Paths(s.inodes), s.inodes[d := Directory(e, m)], NewLabels(s, d, e, m);
    SkeletonLabels(t, s.nextIno, p);
    var id := RowOf(s.dirs, t, s.nextIno, p, d);
    forall y | Fits(s.dirs.rows, t', p', id, y) ensures false {
      MovedStaysOurs(s, d, e, m, y);
      OldPathIsVacant(s, d, e, m, y);
    }
    assert !HasFit(s.dirs.rows, t', p', id);
  }

  /** The row of a directory has its name and the row of its parent, as the rename
      leaves them. */
  lemma RowKeepsPlace(s: State, d: Ino, e: Ino, m: string, id: int, x: Ino)
    requires MovesDirectory(s, d, e, m) && InStep(s) && Fits(s.dirs.rows, s.inodes, Paths(s.inodes), id, x)
    ensures var t', r := s.inodes[d := Directory(e, m)], Renamed(s.dirs, From(s, d), m, To(s, e, m)).rows[id];
            && r.name == t'[x].name
            && (t'[x].parent == METADATA ==> r.parentId.None?)
            && (t'[x].parent != METADATA ==>
                  && IsDir(s.inodes, Paths(s.inodes), t'[x].parent)
                  && r.parentId.Some? && At(s.dirs.rows, r.parentId.value, SourcePath(Paths(s.inodes), t'[x].parent)))
  {
    var t, p := s.inodes, Paths(s.inodes);
    SkeletonLabels(t, s.nextIno, p);
    if x == d {
      NewParent(s.dirs, s, d, e, m);
    } else {
      assert s.dirs.rows[id].path != From(s, d) by { if SourcePath(p, x) == SourcePath(p, d) { SamePlace(t, s.nextIno, p, x, d); } }
      assert LabelOk(t, p, x);
    }
  }

  /** If the moved rows mirror the moved tree, each is with the directory it was with. */
  lemma {:induction false} MovedRowsTell(s: State, d: Ino, e: Ino, m: string, id: int, x: Ino)
    requires MovesDirectory(s, d, e, m) && InStep(s) && Fits(s.dirs.rows, s.inodes, Paths(s.inodes), id, x)
    requires TreeWith(s.inodes[d := Directory(e, m)], s.nextIno, NewLabels(s, d, e, m))
    requires Mirrored(Renamed(s.dirs, From(s, d), m, To(s, e, m)), s.inodes[d := Directory(e, m)], NewLabels(s, d, e, m))
    ensures InMetadata(NewLabels(s, d, e, m), x)
    ensures At(Renamed(s.dirs, From(s, d), m, To(s, e, m)).rows, id, SourcePath(NewLabels(s, d, e, m), x))
    decreases |NewLabels(s, d, e, m)[x]|
  {
    var t, p, t', p' := s.inodes, Paths(s.inodes), s.inodes[d := Directory(e, m)], NewLabels(s, d, e, m);
    var rows' := Renamed(s.dirs, From(s, d), m, To(s, e, m)).rows;
    SourcePathMoves(s, d, e, m, x);
    assert HasFit(rows', t', p', id);
    var y, q := DirOf(rows', t', p', id), t'[x].parent;
    RowKeepsPlace(s, d, e, m, id, x);
    assert x != ROOT;
    assert LabelOk(t', p', x);
    if q != METADATA {
      var pid := RowOf(s.dirs, t, s.nextIno, p, q);
      assert pid == rows'[id].parentId.value;
      MovedRowsTell(s, d, e, m, pid, q);
      SamePlace(t', s.nextIno, p', q, t'[y].parent);
    }
    assert SameEntry(t', x, y);
  }

  lemma MovedRowsAreExact(s: State, d: Ino, e: Ino, m: string)
    requires MovesDirectory(s, d, e, m) && InStep(s)
    ensures Mirrored(Renamed(s.dirs, From(s, d), m, To(s, e, m)), s.inodes[d := Directory(e, m)], NewLabels(s, d, e, m))
            <==> DirsExact(s.dirs.rows, From(s, d), To(s, e, m))
  {
    var t, p := s.inodes, Paths(s.inodes);
    MoveDirectory(t, s.nextIno, p, d, e, m);
    if DirsExact(s.dirs.rows, From(s, d), To(s, e, m)) {
      RowsMoved(s.dirs, s, d, e, m);
    } else if Mirrored(Renamed(s.dirs, From(s, d), m, To(s, e, m)), t[d := Directory(e, m)], NewLabels(s, d, e, m)) {
      forall id | id in s.dirs.rows ensures SqlExact(From(s, d), To(s, e, m), s.dirs.rows[id].path) {
        assert HasFit(s.dirs.rows, t, p, id);
        var x := DirOf(s.dirs.rows, t, p, id);
        MovedRowsTell(s, d, e, m, id, x);
        DirRowMovesExactly(s.dirs, s, d, e, m, id, x);
      }
    }
  }

  /** A directory rename keeps the rows in step exactly when the database follows and
      its statement is exact at every directory. */
  lemma DirectoryRenameInStepExactly(s: State, d: Ino, e: Ino, m: string, dbFails: bool)
    requires MovesDirectory(s, d, e, m) && InStep(s)
    ensures var s' := RenameDirTo(s, d, e, m, dbFails).0;
            && Good(s')
            && (InStep(s') <==>
                  s.hasDb && !RowsStay(s, d, e, m, dbFails) && DirsExact(s.dirs.rows, From(s, d), To(s, e, m)))
  {
    DirectoryMoved(s, d, e, m, dbFails);
    if s.hasDb && !RowsStay(s, d, e, m, dbFails) {
      MovedRowsAreExact(s, d, e, m);
    } else {
      StayingIsOutOfStep(s, d, e, m);
    }
  }

  /** Rows in step collide exactly when two directories would end at one path. */
  lemma CollideExactly(s: State, from: string, to: string)
    requires Good(s) && InStep(s)
    ensures DirsCollide(s.dirs.rows, from, to) <==>
            exists x, y :: x != y && MeetAt(s, from, to, x, y)
  {
    var t, p, rows := s.inodes, Paths(s.inodes), s.dirs.rows;
    if DirsCollide(rows, from, to) {
      var a, b :| a in rows && b in rows && a != b && SqlMoved(from, to, rows[a].path) == SqlMoved(from, to, rows[b].path);
      assert HasFit(rows, t, p, a) && HasFit(rows, t, p, b);
      assert MeetAt(s, from, to, DirOf(rows, t, p, a), DirOf(rows, t, p, b));
    }
    if x, y :| x != y && MeetAt(s, from, to, x, y) {
      var a := RowOf(s.dirs, t, s.nextIno, p, x);
      var b := RowOf(s.dirs, t, s.nextIno, p, y);
      assert a != b by { if SourcePath(p, x) == SourcePath(p, y) { SamePlace(t, s.nextIno, p, x, y); } }
    }
  }

  ghost predicate MeetAt(s: State, from: string, to: string, x: Ino, y: Ino)
    requires Good(s)
  {
    var t, p := s.inodes, Paths(s.inodes);
    IsDir(t, p, x) && IsDir(t, p, y) && SqlMoved(from, to, SourcePath(p, x)) == SqlMoved(from, to, SourcePath(p, y))
  }

  // ── Every step ───────────────────────────────────────────────────────────

  /** An add that lands ensures directories that are there. */
  lemma AdderInStep(s: State, id: nat, ok: bool)
    requires Good(s) && Clean(s) && InStep(s) && id in s.adders
    ensures AdderTo(s, id, ok).dirs == s.dirs
  {
    var t, p, k := s.inodes, Paths(s.inodes), s.adders[id].key;
    assert Named(t, p, k);
    var j :| HasKey(t, p, j, k);
    ParentInMetadata(t, s.nextIno, p, j);
    EnsureAdds(s.dirs, t, s.nextIno, p, t[j].parent, "x");
  }

  /** So does a file that moves. */
  lemma FileMoveInStep(s: State, i: Ino, e: Ino, m: string, dbFails: bool)
    requires Good(s) && InStep(s) && IsMetaFile(s.inodes, i)
    requires InMetadata(Paths(s.inodes), e) && e in s.inodes && s.inodes[e].Directory?
    ensures RenameFileTo(s, i, e, m, dbFails).0.dirs == s.dirs
  {
    EnsureAdds(s.dirs, s.inodes, s.nextIno, Paths(s.inodes), e, "x");
  }

  lemma OverwriteInStep(s: State, i: Ino, target: Ino, dbFails: bool)
    requires Good(s) && InStep(s) && IsMetaFile(s.inodes, i) && IsMetaFile(s.inodes, target) && i != target
    ensures OverwriteTo(s, i, target, dbFails).0.dirs == s.dirs
  {
    ParentInMetadata(s.inodes, s.nextIno, Paths(s.inodes), target);
    EnsureAdds(s.dirs, s.inodes, s.nextIno, Paths(s.inodes), s.inodes[target].parent, "x");
  }

  lemma FileRenameInStep(s: State, d: Ino, n: string, e: Ino, m: string, dbFails: bool)
    requires Good(s) && InStep(s) && FromKernel(s, Rename(d, n, e, m, dbFails)) && Renames(s, d, n, e, m)
    requires s.inodes[Child(s.inodes, d, n)].File? || HasChild(s.inodes, e, m)
    ensures RenameTo(s, d, n, e, m, dbFails).0.dirs == s.dirs
  {
    var i := Child(s.inodes, d, n);
    if HasChild(s.inodes, e, m) {
      var j := Child(s.inodes, e, m);
      RenameToTaken(s, d, n, e, m, dbFails);
      if s.inodes[i].File? && s.inodes[j].File? { OverwriteInStep(s, i, j, dbFails); }
    } else {
      RenameToFree(s, d, n, e, m, dbFails);
      if EndsWith(m, TORRENT) { FileMoveInStep(s, i, e, m, dbFails); }
    }
  }

  /** The database followed: it wrote the row of a new directory, dropped that of a
      removed one, and moved those of a renamed one where they belong. */
  ghost predicate Followed(s: State, ev: Event)
    requires Good(s) && Enabled(s, ev)
  {
    ev.Call? ==>
      match ev.op
      case Mkdir(d, n, dbFails) => MkdirTo(s, d, n, dbFails).1.Done? ==> s.hasDb && !dbFails
      case Rmdir(d, n, dbFails) => RmdirTo(s, d, n, dbFails).1.Done? ==> s.hasDb && !dbFails
      case Rename(d, n, e, m, dbFails) =>
        Renames(s, d, n, e, m) && !HasChild(s.inodes, e, m) ==>
          var i := Child(s.inodes, d, n);
          RenameSource(s, d, n, e, m, dbFails);
          s.inodes[i].Directory? ==>
            s.hasDb && !RowsStay(s, i, e, m, dbFails) && DirsExact(s.dirs.rows, From(s, i), To(s, e, m))
      case _ => true
  }

  lemma RenameInStep(s: State, d: Ino, n: string, e: Ino, m: string, dbFails: bool)
    requires Good(s) && InStep(s) && FromKernel(s, Rename(d, n, e, m, dbFails))
    ensures var s' := RenameTo(s, d, n, e, m, dbFails).0;
            Good(s') && (InStep(s') <==> Followed(s, Call(Rename(d, n, e, m, dbFails))))
  {
    RenameGood(s, d, n, e, m, dbFails);
    if !Renames(s, d, n, e, m) {
      RenameRefused(s, d, n, e, m, dbFails);
    } else if s.inodes[Child(s.inodes, d, n)].File? || HasChild(s.inodes, e, m) {
      var s' := RenameTo(s, d, n, e, m, dbFails).0;
      FileRenameKeepsDirs(s, d, n, e, m, dbFails);
      FileRenameInStep(s, d, n, e, m, dbFails);
      DirsStay(s.dirs, s.inodes, s.nextIno, s'.inodes, s'.nextIno);
    } else {
      RenameToFree(s, d, n, e, m, dbFails);
      DirectoryRenameInStepExactly(s, Child(s.inodes, d, n), e, m, dbFails);
    }
  }

  lemma TableUntouched(s: State, op: Op)
    requires Good(s) && FromKernel(s, op) && !op.Mkdir? && !op.Rmdir? && !op.Rename?
    ensures Commit(s, op).0.dirs == s.dirs
  {
  }

  lemma OtherInStep(s: State, op: Op)
    requires Good(s) && InStep(s) && FromKernel(s, op) && !op.Mkdir? && !op.Rmdir? && !op.Rename?
    ensures Good(Commit(s, op).0) && InStep(Commit(s, op).0)
  {
    var s' := After(s, Call(op));
    StepGood(s, Call(op));
    TableUntouched(s, op);
    CallKeepsDirs(s, op);
    DirsStay(s.dirs, s.inodes, s.nextIno, s'.inodes, s'.nextIno);
  }

  /** A step keeps the rows in step exactly when the database followed it. */
  lemma StepInStepExactly(s: State, ev: Event)
    requires Good(s) && Clean(s) && InStep(s) && Enabled(s, ev)
    ensures Good(After(s, ev)) && (InStep(After(s, ev)) <==> Followed(s, ev))
  {
    match ev
    case Background(id, ok) =>
      AdderGood(s, id, ok);
      AdderWrites(s, id, ok);
      AdderInStep(s, id, ok);
    case Call(op) =>
      match op
      case Mkdir(d, n, dbFails) => if MkdirTo(s, d, n, dbFails).1.Done? { MkdirInStepExactly(s, d, n, dbFails); }
      case Rmdir(d, n, dbFails) => if RmdirTo(s, d, n, dbFails).1.Done? { RmdirInStepExactly(s, d, n, dbFails); }
      case Rename(d, n, e, m, dbFails) => RenameInStep(s, d, n, e, m, dbFails);
      case _ => OtherInStep(s, op);
  }

  // ── Runs ─────────────────────────────────────────────────────────────────

  ghost predicate AllFollowed(s: State, events: seq<Event>)
    requires Good(s)
    decreases |events|
  {
    events == [] ||
    (Enabled(s, events[0]) && Followed(s, events[0]) &&
     (StepGood(s, events[0]); AllFollowed(After(s, events[0]), events[1..])))
  }

  lemma StartInStep(s: State)
    requires Start(s)
    ensures Good(s) && Clean(s) && InStep(s)
  {
    StartGood(s);
    SkeletonLabels(s.inodes, s.nextIno, Paths(s.inodes));
  }

  /** After every run of careful renames that the database followed it has one row
      per directory, each naming its directory and the row of its parent. */
  lemma {:induction false} DirectoriesStayMirrored(s: State, events: seq<Event>, s': State)
    requires Good(s) && Clean(s) && InStep(s) && Reaches(s, events, s') && AllCareful(s, events) && AllFollowed(s, events)
    ensures Good(s') && Clean(s') && InStep(s')
    decreases |events|
  {
    if events != [] {
      StepClean(s, events[0]);
      StepInStepExactly(s, events[0]);
      DirectoriesStayMirrored(After(s, events[0]), events[1..], s');
    }
  }
}
