/** The two tables of the database that mirror `metadata/`: the torrents by source
    path and file name, and the directories. */
module MetadataDatabase {
  import opened Text
  import opened InodeTree
  import opened DirectoryRows
  import opened Protocol

  lemma IdIs(rows: Rows, path: string, id: int)
    requires OnePerPath(rows) && At(rows, id, path)
    ensures HasPath(rows, path) && IdAt(rows, path) == id
  {
  }

  lemma NoneCollide(rows: Rows, from: string, parent: Option<int>, name: string, to: string)
    requires !DirsCollide(rows, from, to)
    ensures OnePerPath(map id | id in rows :: MovedRow(rows[id], from, parent, name, to))
  {
    var rows' := map id | id in rows :: MovedRow(rows[id], from, parent, name, to);
    assert forall id :: id in rows ==> rows'[id].path == SqlMoved(from, to, rows[id].path);
  }

  lemma EnsureOne(table: DirTable, current: string, parent: Option<int>, parts: seq<string>)
    requires parts != []
    ensures var path := ChildPath(current, parts[0]);
            EnsureFrom(table, current, parent, parts) ==
              if HasPath(table.rows, path) then EnsureFrom(table, path, IdOf(table.rows, Some(path)), parts[1..])
              else EnsureFrom(DirTable(table.rows[table.next := Dir(parent, parts[0], path)], table.next + 1), path, Some(table.next), parts[1..])
  {
  }

  lemma EmptyOrNot(ids: set<int>)
    ensures ids == {} || exists id :: id in ids
  {
    if !exists id :: id in ids { assert ids == {}; }
  }

  class MetadataDb {
    var torrents: map<Key, string>
    var dirs: Rows
    var next: int

    ghost predicate Valid()
      reads this
    {
      OnePerPath(dirs) && forall id :: id in dirs ==> id < next
    }

    ghost function Directories(): DirTable
      reads this
    {
      DirTable(dirs, next)
    }

    constructor ()
      ensures Valid() && torrents == map[] && Directories() == DirTable(map[], 1)
    {
      torrents, dirs, next := map[], map[], 1;
    }

    // ── Directories ────────────────────────────────────────────────────────

    method FindDirectory(path: string) returns (r: Option<int>)
      requires Valid()
      ensures r == IdOf(dirs, Some(path))
    {
      var rest := dirs.Keys;
      while rest != {}
        invariant rest <= dirs.Keys && forall id :: id in dirs && id !in rest ==> !At(dirs, id, path)
        decreases |rest|
      {
        EmptyOrNot(rest);
        var id :| id in rest;
        rest := rest - {id};
        if dirs[id].path == path {
          IdIs(dirs, path, id);
          return Some(id);
        }
      }
      return None;
    }

    method InsertDirectory(r: Dir) returns (id: int)
      requires Valid() && !HasPath(dirs, r.path)
      modifies this`dirs, this`next
      ensures Valid() && id == old(next) && Directories() == DirTable(old(dirs)[id := r], id + 1)
    {
      OneMorePath(dirs, next, r);
      id := next;
      dirs := dirs[id := r];
      next := next + 1;
    }

    /** Inserts what is missing on the way down, the parent's row first. */
    method EnsureMetadataDirectories(path: string)
      requires Valid()
      modifies this`dirs, this`next
      ensures Valid() && Directories() == Ensured(old(Directories()), path)
    {
      var parts, currentPath := Parts(path), "";
      var parentId: Option<int> := None;
      ghost var goal := Ensured(Directories(), path);
      while parts != []
        invariant Valid() && EnsureFrom(Directories(), currentPath, parentId, parts) == goal
        decreases |parts|
      {
        EnsureOne(Directories(), currentPath, parentId, parts);
        var part := parts[0];
        parts := parts[1..];
        currentPath := ChildPath(currentPath, part);
        var existing := FindDirectory(currentPath);
        if existing.Some? {
          parentId := existing;
        } else {
          var id := InsertDirectory(Dir(parentId, part, currentPath));
          parentId := Some(id);
        }
      }
    }

    /** Deletes the row and, the table cascading, every row below it. */
    method DeleteMetadataDirectory(path: string)
      requires Valid()
      modifies this`dirs
      ensures Valid() && Directories() == Deleted(old(Directories()), path)
    {
      var found := FindDirectory(path);
      if found.None? { return; }
      var ids, n := {found.value}, |dirs|;
      while n > 0
        invariant 0 <= n && Cascade(dirs, ids, n) == Cascade(dirs, {found.value}, |dirs|)
      {
        ids := ids + ChildRows(dirs, ids);
        n := n - 1;
      }
      dirs := dirs - ids;
    }

    method MoveDirectories(from: string, name: string, to: string)
      requires Valid() && !DirsCollide(dirs, from, to)
      modifies this`dirs
      ensures Valid() && Directories() == Renamed(old(Directories()), from, name, to)
    {
      var parentPath := ParentPath(to);
      var parent: Option<int> := None;
      if parentPath.Some? { parent := FindDirectory(parentPath.value); }
      assert parent == IdOf(dirs, ParentPath(to));
      NoneCollide(dirs, from, parent, name, to);
      dirs := map id | id in dirs :: MovedRow(dirs[id], from, parent, name, to);
      assert dirs == Renamed(old(Directories()), from, name, to).rows;
    }

    method MoveTorrents(from: string, to: string)
      requires !Collides(torrents, from, to)
      modifies this`torrents
      ensures torrents == MovedRows(old(torrents), from, to)
    {
      torrents := map k | k in torrents :: MovedKey(from, to, k) := torrents[k];
    }

    /** One transaction over both tables: all rows move, or none. */
    method RenameMetadataDirectory(from: string, name: string, to: string, dbFails: bool) returns (ok: bool)
      requires Valid()
      modifies this`torrents, this`dirs
      ensures Valid()
      ensures ok <==> !dbFails && !Collides(old(torrents), from, to) && !DirsCollide(old(dirs), from, to)
      ensures torrents == if ok then MovedRows(old(torrents), from, to) else old(torrents)
      ensures Directories() == if ok then Renamed(old(Directories()), from, name, to) else old(Directories())
    {
      if dbFails || DirsCollide(dirs, from, to) || Collides(torrents, from, to) { return false; }
      MoveDirectories(from, name, to);
      MoveTorrents(from, to);
      return true;
    }

    // ── Torrents ───────────────────────────────────────────────────────────

    /** A torrent's row, and then the directories above it. */
    method InsertTorrent(k: Key, data: string)
      requires Valid()
      modifies this
      ensures Valid() && torrents == old(torrents)[k := data] && Directories() == Ensured(old(Directories()), k.sourcePath)
    {
      torrents := torrents[k := data];
      EnsureMetadataDirectories(k.sourcePath);
    }

    /** Moves the row of `k` to `l`, replacing what is there, and then ensures the
        directories above. */
    method MoveTorrent(k: Key, l: Key)
      requires Valid() && k in torrents
      modifies this
      ensures Valid() && torrents == (old(torrents) - {k})[l := old(torrents)[k]]
      ensures Directories() == Ensured(old(Directories()), l.sourcePath)
    {
      torrents := (torrents - {k})[l := torrents[k]];
      EnsureMetadataDirectories(l.sourcePath);
    }
  }
}
