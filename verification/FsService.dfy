/** The filesystem service: each call refines one commit of the protocol.

    A call reads and changes the tables step by step, and may move an inode before
    it waits and move it back when the wait is given up.  Each contract says that
    the whole call amounts to background steps of the adders followed by a single
    commit. */
module Service {
  import opened Text
  import opened InodeTree
  import opened DirectoryRows
  import opened Protocol
  import opened ProtocolSafety
  import opened Runs
  import opened InodeManagement
  import opened MetadataDatabase

  /** Zero-fills a file's buffer up to the write, then writes. */
  method PatchBuffer(buffer: string, offset: nat, bytes: string) returns (data: string)
    ensures data == Patched(buffer, offset, bytes)
  {
    var end := offset + |bytes|;
    data := buffer;
    if offset > |data| { data := data + Zeros(offset - |data|); }
    if end > |data| { data := data + Zeros(end - |data|); }
    data := data[..offset] + bytes + data[end..];
  }

  class FsService {
    const inodeMgr: InodeManager
    const hasDb: bool
    const db: MetadataDb
    var errors: set<Key>
    var processing: set<Key>
    var adders: map<nat, Adder>
    var nextAdder: nat

    ghost function Abs(): State
      reads this, inodeMgr, db
    {
      State(hasDb, inodeMgr.inodes, inodeMgr.nextIno, inodeMgr.openFiles, inodeMgr.nextFh,
            db.torrents, errors, processing, adders, nextAdder, db.Directories())
    }

    ghost predicate Valid()
      reads this, inodeMgr, db
    {
      Good(Abs()) && db.Valid()
    }

    /** `view` agrees with the service on what the adders own. */
    ghost predicate SameBack(view: State)
      reads this, db
    {
      && view.rows == db.torrents && view.dirs == db.Directories() && db.Valid()
      && view.errors == errors && view.processing == processing
      && view.adders == adders && view.nextAdder == nextAdder && view.hasDb == hasDb
    }

    constructor (withDb: bool)
      ensures Valid() && Start(Abs()) && fresh(inodeMgr) && fresh(db) && hasDb == withDb
    {
      inodeMgr := new InodeManager();
      db := new MetadataDb();
      hasDb := withDb;
      errors, processing, adders, nextAdder := {}, {}, map[], 0;
      new;
      StartGood(Abs());
    }

    // ── Background ─────────────────────────────────────────────────────────

    /** One adder makes one move, if any is alive. */
    method AdderStep(ghost view: State) returns (ghost moves: seq<Move>, ghost view': State)
      requires SameBack(view)
      modifies this, db
      ensures SameBack(view') && Settles(view, moves, view')
    {
      if adders == map[] {
        moves, view' := [], view;
        return;
      }
      var id :| id in adders;
      var ok: bool := *;
      moves, view' := [Move(id, ok)], AdderTo(view, id, ok);
      assert Settles(view', moves[1..], view');
      var a := adders[id];
      match a.phase
      case Persisting =>
        if ok {
          db.InsertTorrent(a.key, a.data);
          adders := adders[id := a.(phase := Landed)];
        } else {
          adders := adders[id := a.(phase := Failed)];
        }
      case Landed =>
        errors := errors - {a.key};
        adders := adders[id := a.(phase := Recorded)];
      case Failed =>
        errors := errors + {a.key};
        adders := adders[id := a.(phase := Recorded)];
      case Recorded =>
        processing := processing - {a.key};
        adders := adders - {id};
    }

    /** Waits for a key to leave the in-flight set, at most `timeout` wake-ups long. */
    method WaitForPendingAdd(k: Key, timeout: nat, ghost view: State)
      returns (r: Result, ghost moves: seq<Move>, ghost view': State)
      requires Good(view) && SameBack(view)
      modifies this, db
      ensures SameBack(view') && Settles(view, moves, view')
      ensures Good(view') && SameFront(view, view') && processing <= old(processing)
      ensures r == if k in processing then Err(StillProcessing) else Done(0)
    {
      var remaining := timeout;
      moves, view' := [], view;
      while k in processing
        invariant SameBack(view') && Settles(view, moves, view')
        decreases remaining
      {
        if remaining == 0 { break; }
        ghost var more, next := AdderStep(view');
        SettlesOn(view, moves, view', more, next);
        moves, view' := moves + more, next;
        remaining := remaining - 1;
      }
      SettlingKeeps(view, moves, view');
      SettlingStaysBehind(view, moves, view');
      r := if k in processing then Err(StillProcessing) else Done(0);
    }

    /** Waits for two keys, one after the other. */
    method WaitForBoth(k: Key, l: Key, timeout: nat, ghost view: State)
      returns (r: Result, ghost moves: seq<Move>, ghost view': State)
      requires Good(view) && SameBack(view)
      modifies this, db
      ensures SameBack(view') && Settles(view, moves, view')
      ensures Good(view') && SameFront(view, view')
      ensures r == if k in processing || l in processing then Err(StillProcessing) else Done(0)
    {
      r, moves, view' := WaitForPendingAdd(k, timeout, view);
      if r.Done? {
        ghost var first, between := moves, view';
        r, moves, view' := WaitForPendingAdd(l, timeout, view');
        SettlesOn(view, first, between, moves, view');
        moves := first + moves;
      }
    }

    // ── Namespace calls ────────────────────────────────────────────────────

    /** Numbers an inode and puts it in the table. */
    method AddInode(n: Inode) returns (ino: Ino)
      modifies inodeMgr
      ensures ino == old(inodeMgr.nextIno)
      ensures Abs() == old(Abs()).(inodes := old(inodeMgr.inodes)[ino := n], nextIno := ino + 1)
    {
      ino := inodeMgr.nextIno;
      inodeMgr.nextIno := ino + 1;
      inodeMgr.inodes := inodeMgr.inodes[ino := n];
    }

    /** Hands out a handle. */
    method AddHandle(ino: Ino) returns (fh: nat)
      modifies inodeMgr
      ensures fh == old(inodeMgr.nextFh)
      ensures Abs() == old(Abs()).(open := old(inodeMgr.openFiles)[fh := ino], nextFh := fh + 1)
    {
      fh := inodeMgr.nextFh;
      inodeMgr.nextFh := fh + 1;
      inodeMgr.openFiles := inodeMgr.openFiles[fh := ino];
    }

    /** An empty file, with a handle on it if one is wanted. */
    method AddFile(parent: Ino, name: string, handle: bool) returns (r: Result)
      modifies inodeMgr
      ensures var s := old(Abs());
              var s1 := s.(inodes := s.inodes[s.nextIno := File(parent, name, "", false)], nextIno := s.nextIno + 1);
              && r == Done(if handle then s.nextFh else s.nextIno)
              && Abs() == if handle then s1.(open := s.open[s.nextFh := s.nextIno], nextFh := s.nextFh + 1) else s1
    {
      var ino := AddInode(File(parent, name, "", false));
      if !handle { return Done(ino); }
      var fh := AddHandle(ino);
      return Done(fh);
    }

    /** Why nothing may be created or removed in a directory, if so. */
    method MayNotChange(parent: Ino) returns (e: Option<Error>)
      requires Valid()
      ensures e == if IsDataNamespace(parent) then Some(ReadOnly)
                   else if !MetadataChild(inodeMgr.inodes, parent) then Some(PermissionDenied) else None
    {
      if IsDataNamespace(parent) { return Some(ReadOnly); }
      var below := inodeMgr.IsMetadataChild(parent);
      return if below then None else Some(PermissionDenied);
    }

    method HasEntries(ino: Ino) returns (full: bool)
      ensures full <==> HasChildren(inodeMgr.inodes, ino)
    {
      var t := inodeMgr.inodes;
      full := exists i :: i in t && t[i].Linked() && t[i].parent == ino;
    }

    method Create(parent: Ino, name: string, handle: bool) returns (r: Result)
      requires Valid() && FromKernel(Abs(), Protocol.Create(parent, name, handle))
      modifies inodeMgr
      ensures (Abs(), r) == CreateTo(old(Abs()), parent, name, handle) && Valid()
    {
      CreateKeeps(Abs(), parent, name, handle);
      var refused := MayNotChange(parent);
      if refused.Some? { return Err(refused.value); }
      if !EndsWith(name, TORRENT) { return Err(InvalidArgument); }
      var child := inodeMgr.FindChildByName(parent, name);
      if child.Some? { return Err(AlreadyExists); }
      r := AddFile(parent, name, handle);
    }

    /** The source path of a directory below `metadata/`. */
    method SourcePathOf(d: Ino) returns (path: string)
      requires Valid() && InMetadata(Paths(inodeMgr.inodes), d)
      ensures path == SourcePath(Paths(inodeMgr.inodes), d)
    {
      path := inodeMgr.ExtractSourcePath(d);
    }

    /** The source path of a new entry, as a call puts it together. */
    method ChildSourcePath(parent: Ino, name: string) returns (path: string)
      requires Valid() && InMetadata(Paths(inodeMgr.inodes), parent) && IsName(name)
      ensures path == Join(Paths(inodeMgr.inodes)[parent][1..] + [name])
    {
      JoinedBelow(Abs(), parent, name);
      if parent == METADATA { return name; }
      var above := SourcePathOf(parent);
      return if above == "" then name else above + "/" + name;
    }

    /** Writes the row of a new directory, or does not; nobody asks. */
    method RecordDirectory(path: string, dbFails: bool)
      requires db.Valid()
      modifies db`dirs, db`next
      ensures db.Valid()
      ensures db.Directories() == if hasDb && !dbFails then Ensured(old(db.Directories()), path) else old(db.Directories())
    {
      if hasDb && !dbFails { db.EnsureMetadataDirectories(path); }
    }

    /** Deletes the row of a directory, or does not. */
    method ForgetDirectory(path: string, dbFails: bool)
      requires db.Valid()
      modifies db`dirs
      ensures db.Valid()
      ensures db.Directories() == if hasDb && !dbFails then Deleted(old(db.Directories()), path) else old(db.Directories())
    {
      if hasDb && !dbFails { db.DeleteMetadataDirectory(path); }
    }

    method MakeDirectory(parent: Ino, name: string, dbFails: bool) returns (ino: Ino)
      requires Valid() && InMetadata(Paths(inodeMgr.inodes), parent) && IsName(name)
      modifies inodeMgr, db
      ensures db.Valid() && ino == old(inodeMgr.nextIno)
      ensures var s, path := old(Abs()), Join(Paths(old(inodeMgr.inodes))[parent][1..] + [name]);
              Abs() == s.(inodes := s.inodes[ino := Directory(parent, name)], nextIno := ino + 1,
                          dirs := if hasDb && !dbFails then Ensured(s.dirs, path) else s.dirs)
    {
      var path := ChildSourcePath(parent, name);
      ino := AddInode(Directory(parent, name));
      RecordDirectory(path, dbFails);
    }

    method RemoveDirectory(ino: Ino, dbFails: bool)
      requires Valid() && InMetadata(Paths(inodeMgr.inodes), ino)
      modifies inodeMgr, db
      ensures db.Valid()
      ensures var s, path := old(Abs()), SourcePath(Paths(old(inodeMgr.inodes)), ino);
              Abs() == s.(inodes := s.inodes - {ino}, dirs := if hasDb && !dbFails then Deleted(s.dirs, path) else s.dirs)
    {
      var path := SourcePathOf(ino);
      inodeMgr.inodes := inodeMgr.inodes - {ino};
      ForgetDirectory(path, dbFails);
    }

    method Mkdir(parent: Ino, name: string, dbFails: bool) returns (r: Result)
      requires Valid() && FromKernel(Abs(), Protocol.Mkdir(parent, name, dbFails))
      modifies inodeMgr, db
      ensures (Abs(), r) == MkdirTo(old(Abs()), parent, name, dbFails) && Valid()
    {
      MkdirKeeps(Abs(), parent, name, dbFails);
      var refused := MayNotChange(parent);
      if refused.Some? { return Err(refused.value); }
      var child := inodeMgr.FindChildByName(parent, name);
      if child.Some? { return Err(AlreadyExists); }
      DirInMetadata(Abs(), parent);
      var ino := MakeDirectory(parent, name, dbFails);
      return Done(ino);
    }

    method Rmdir(parent: Ino, name: string, dbFails: bool) returns (r: Result)
      requires Valid() && FromKernel(Abs(), Protocol.Rmdir(parent, name, dbFails))
      modifies inodeMgr, db
      ensures (Abs(), r) == RmdirTo(old(Abs()), parent, name, dbFails) && Valid()
    {
      RmdirKeeps(Abs(), parent, name, dbFails);
      var refused := MayNotChange(parent);
      if refused.Some? { return Err(refused.value); }
      var child := inodeMgr.FindChildByName(parent, name);
      if child.None? { return Err(NotFound); }
      var ino := child.value;
      if inodeMgr.inodes[ino].File? { return Err(NotDirectory); }
      var full := HasEntries(ino);
      if full { return Err(DirectoryNotEmpty); }
      DirInMetadata(Abs(), parent);
      ChildIsOurs(Abs(), parent, name);
      RemoveDirectory(ino, dbFails);
      return Done(0);
    }

    method Open(ino: Ino, dataFile: bool) returns (r: Result)
      requires Valid()
      modifies inodeMgr
      ensures (Abs(), r) == OpenTo(old(Abs()), ino, dataFile) && Valid()
    {
      OpenKeeps(Abs(), ino, dataFile);
      if ino == ROOT || ino == METADATA || ino == DATA { return Done(0); }
      if !IsStats(ino) {
        if ino >= DATA_BASE {
          if !dataFile { return Done(0); }
        } else if ino !in inodeMgr.inodes {
          return Err(NotFound);
        }
      }
      var fh := AddHandle(ino);
      return Done(fh);
    }

    method Write(ino: Ino, offset: int, bytes: string) returns (r: Result)
      requires Valid()
      modifies inodeMgr
      ensures (Abs(), r) == WriteTo(old(Abs()), ino, offset, bytes) && Valid()
    {
      WriteKeeps(Abs(), ino, offset, bytes);
      if IsStats(ino) { return Err(NotPermitted); }
      if IsDataNamespace(ino) { return Err(ReadOnly); }
      if ino !in inodeMgr.inodes { return Err(NotFound); }
      var f := inodeMgr.inodes[ino];
      if f.Directory? { return Err(IsDirectory); }
      if offset < 0 { return Err(InvalidArgument); }
      var end := offset + |bytes|;
      if end > MAX_TORRENT_SIZE { return Err(FileTooLarge); }
      var data := PatchBuffer(f.data, offset, bytes);
      inodeMgr.inodes := inodeMgr.inodes[ino := f.(data := data)];
      return Done(|bytes|);
    }

    method SetAttr(ino: Ino, size: Option<nat>) returns (r: Result)
      requires Valid()
      modifies inodeMgr
      ensures (Abs(), r) == SetSizeTo(old(Abs()), ino, size) && Valid()
    {
      SetSizeKeeps(Abs(), ino, size);
      if IsStats(ino) { return Err(NotPermitted); }
      if IsDataNamespace(ino) { return Err(ReadOnly); }
      var below := inodeMgr.IsMetadataChild(ino);
      if below || ino == ROOT {
        if size.None? { return Err(NotPermitted); }
        if ino !in inodeMgr.inodes { return Err(NotPermitted); }
        match inodeMgr.inodes[ino]
        case Directory(_, _) =>
          return Err(NotPermitted);
        case File(_, _, data, _) =>
          if size.value > MAX_TORRENT_SIZE { return Err(FileTooLarge); }
          inodeMgr.inodes := inodeMgr.inodes[ino := inodeMgr.inodes[ino].(data := Resized(data, size.value))];
          return Done(size.value);
      }
      if ino !in inodeMgr.inodes { return Err(NotFound); }
      return Done(if inodeMgr.inodes[ino].File? then |inodeMgr.inodes[ino].data| else 0);
    }

    /** The dedup key of a file, from the walk up its directories. */
    method DedupKey(ino: Ino) returns (k: Key)
      requires Valid() && IsMetaFile(inodeMgr.inodes, ino)
      ensures k == FileKey(Abs(), ino)
    {
      ghost var t := inodeMgr.inodes;
      ParentInMetadata(t, inodeMgr.nextIno, Paths(t), ino);
      var sourcePath := SourcePathOf(inodeMgr.inodes[ino].parent);
      k := Key(sourcePath, inodeMgr.inodes[ino].name);
    }

    // ── Closing and unlinking ──────────────────────────────────────────────

    /** Clears the recorded failure, removes the row if there is one, and then the
        in-flight key. */
    method RemoveTorrentAndDataState(k: Key, dbFails: bool) returns (r: Result)
      requires k !in processing
      modifies db`torrents, this`errors, this`processing
      ensures errors == old(errors) - {k} && processing == old(processing)
      ensures r == if hasDb && dbFails then Err(Database) else Done(0)
      ensures db.torrents == if hasDb && !dbFails then old(db.torrents) - {k} else old(db.torrents)
    {
      errors := errors - {k};
      if !hasDb { return Done(0); }
      if dbFails { return Err(Database); }
      if k !in db.torrents {
        assert db.torrents == db.torrents - {k};
        return Done(0);
      }
      db.torrents := db.torrents - {k};
      processing := processing - {k};
      return Done(0);
    }

    method Release(fh: nat, parses: bool, dbFails: bool, timeout: nat)
      returns (r: Result, ghost moves: seq<Move>, ghost mid: State)
      requires Valid()
      modifies this, inodeMgr, db
      ensures Good(mid) && Settles(old(Abs()), moves, mid)
      ensures (Abs(), r) == ReleaseTo(mid, fh, parses, dbFails) && Valid()
    {
      moves, mid := [], Abs();
      if fh !in inodeMgr.openFiles { return Done(0), moves, mid; }
      var ino := inodeMgr.openFiles[fh];
      ReleaseKeeps(mid, fh, parses, dbFails);
      if inodeMgr.IsUnlinkedFile(ino) {
        inodeMgr.openFiles := inodeMgr.openFiles - {fh};
        if inodeMgr.OpenHandleCount(ino) == 0 { inodeMgr.inodes := inodeMgr.inodes - {ino}; }
        return Done(0), moves, mid;
      }
      if ino !in inodeMgr.inodes || inodeMgr.inodes[ino].Directory? || !EndsWith(inodeMgr.inodes[ino].name, TORRENT) {
        inodeMgr.openFiles := inodeMgr.openFiles - {fh};
        assert ino in mid.inodes ==> NodeOk(mid.inodes, mid.nextIno, ino);
        return Done(0), moves, mid;
      }
      IsOurTorrent(mid, ino);
      r, moves, mid := CloseTorrent(fh, parses, dbFails, timeout);
      ReleaseKeeps(mid, fh, parses, dbFails);
    }

    /** Removes what the database has of a discarded file, and then the file. */
    method Discard(ino: Ino, k: Key, dbFails: bool) returns (r: Result)
      requires k !in processing && (!hasDb ==> db.torrents == map[])
      modifies inodeMgr`inodes, db`torrents, this`errors, this`processing
      ensures r == if hasDb && dbFails then Err(Database) else Done(0)
      ensures var s := old(Abs());
              Abs() == if r.Err? then s.(errors := s.errors - {k})
                       else s.(errors := s.errors - {k}, rows := s.rows - {k}, inodes := s.inodes - {ino})
    {
      r := RemoveTorrentAndDataState(k, dbFails);
      if r.Done? {
        inodeMgr.inodes := inodeMgr.inodes - {ino};
        if !hasDb { assert db.torrents == db.torrents - {k}; }
      }
    }

    /** Starts the add of a key, unless one is in flight. */
    method StartAdd(k: Key, data: string)
      modifies this`processing, this`adders, this`nextAdder
      ensures var s := old(Abs());
              Abs() == if k in s.processing || !hasDb then s
                       else s.(processing := s.processing + {k}, adders := s.adders[s.nextAdder := Adder(k, data, Persisting)],
                               nextAdder := s.nextAdder + 1)
    {
      if k !in processing && hasDb {
        processing := processing + {k};
        adders := adders[nextAdder := Adder(k, data, Persisting)];
        nextAdder := nextAdder + 1;
      }
    }

    /** Closing a linked `.torrent`: discard it, skip it, or start its add. */
    method CloseTorrent(fh: nat, parses: bool, dbFails: bool, timeout: nat)
      returns (r: Result, ghost moves: seq<Move>, ghost mid: State)
      requires Valid() && fh in inodeMgr.openFiles && IsMetaFile(inodeMgr.inodes, inodeMgr.openFiles[fh])
      modifies this, inodeMgr, db
      ensures Good(mid) && Settles(old(Abs()), moves, mid) && SameFront(old(Abs()), mid)
      ensures (Abs(), r) == CloseTo(mid, fh, parses, dbFails) && db.Valid()
    {
      moves, mid := [], Abs();
      var ino := inodeMgr.openFiles[fh];
      var f := inodeMgr.inodes[ino];
      var k := DedupKey(ino);
      inodeMgr.openFiles := inodeMgr.openFiles - {fh};
      if f.data == "" || |f.data| > MAX_TORRENT_SIZE || !parses {
        r, moves, mid := WaitForPendingAdd(k, timeout, mid);
        if r.Done? {
          r := Discard(ino, k, dbFails);
          if r.Done? && f.data == "" { r := Err(NotFound); }
        }
      } else {
        StartAdd(k, f.data);
        r := Done(0);
      }
    }

    method Unlink(parent: Ino, name: string, dbFails: bool, timeout: nat)
      returns (r: Result, ghost moves: seq<Move>, ghost mid: State)
      requires Valid() && FromKernel(Abs(), Protocol.Unlink(parent, name, dbFails))
      modifies this, inodeMgr, db
      ensures Good(mid) && Settles(old(Abs()), moves, mid) && FromKernel(mid, Protocol.Unlink(parent, name, dbFails))
      ensures (Abs(), r) == UnlinkTo(mid, parent, name, dbFails) && Valid()
    {
      moves, mid := [], Abs();
      if name == ".stats" { return Err(NotPermitted), moves, mid; }
      if IsDataNamespace(parent) { return Err(ReadOnly), moves, mid; }
      var below := inodeMgr.IsMetadataChild(parent);
      if !below { return Err(PermissionDenied), moves, mid; }
      if !EndsWith(name, TORRENT) { return Err(InvalidArgument), moves, mid; }
      var child := inodeMgr.FindChildByName(parent, name);
      if child.None? { return Err(NotFound), moves, mid; }
      if inodeMgr.inodes[child.value].Directory? { return Err(IsDirectory), moves, mid; }
      DirInMetadata(mid, parent);
      ChildIsOurs(mid, parent, name);
      r, moves, mid := UnlinkTorrent(child.value, dbFails, timeout);
      UnlinkKeeps(mid, parent, name, dbFails);
    }

    /** Waits for the file's add, removes its row, then its name. */
    method UnlinkTorrent(ino: Ino, dbFails: bool, timeout: nat)
      returns (r: Result, ghost moves: seq<Move>, ghost mid: State)
      requires Valid() && IsMetaFile(inodeMgr.inodes, ino)
      modifies this, inodeMgr`inodes, db
      ensures Good(mid) && Settles(old(Abs()), moves, mid) && SameFront(old(Abs()), mid)
      ensures (Abs(), r) == RemoveTo(mid, ino, dbFails) && db.Valid()
    {
      r, moves, mid := Done(0), [], Abs();
      if hasDb {
        var k := DedupKey(ino);
        r, moves, mid := WaitForPendingAdd(k, timeout, mid);
        if r.Done? { r := RemoveTorrentAndDataState(k, dbFails); }
      }
      if r.Done? { var _ := inodeMgr.UnlinkFile(ino); }
    }

    // ── Renaming ───────────────────────────────────────────────────────────

    method RenameDirectory(ino: Ino, newparent: Ino, newname: string, dbFails: bool) returns (r: Result)
      requires Valid() && ino in inodeMgr.inodes && inodeMgr.inodes[ino].Directory? && IsName(newname)
      requires InMetadata(Paths(inodeMgr.inodes), ino) && InMetadata(Paths(inodeMgr.inodes), newparent)
      modifies inodeMgr`inodes, db
      ensures (Abs(), r) == RenameDirTo(old(Abs()), ino, newparent, newname, dbFails) && db.Valid()
    {
      var from := SourcePathOf(ino);
      var to := ChildSourcePath(newparent, newname);
      inodeMgr.inodes := inodeMgr.inodes[ino := Directory(newparent, newname)];
      if hasDb {
        var moved := db.RenameMetadataDirectory(from, newname, to, dbFails);
        if !moved { return Err(Database); }
      }
      return Done(0);
    }

    /** To a free name: move the inode, wait, then let the database follow; only a
        failed wait moves the inode back. */
    method RenameFile(ino: Ino, newparent: Ino, newname: string, dbFails: bool, timeout: nat)
      returns (r: Result, ghost moves: seq<Move>, ghost mid: State)
      requires Valid() && IsMetaFile(inodeMgr.inodes, ino) && InMetadata(Paths(inodeMgr.inodes), newparent)
      modifies this, inodeMgr`inodes, db
      ensures Good(mid) && Settles(old(Abs()), moves, mid) && SameFront(old(Abs()), mid)
      ensures (Abs(), r) == RenameFileTo(mid, ino, newparent, newname, dbFails) && db.Valid()
    {
      moves, mid := [], Abs();
      var was := inodeMgr.inodes[ino];
      var k := DedupKey(ino);
      var newSourcePath := SourcePathOf(newparent);
      inodeMgr.inodes := inodeMgr.inodes[ino := was.(parent := newparent, name := newname)];
      if !hasDb { return Done(0), moves, mid; }
      var l := Key(newSourcePath, newname);
      r, moves, mid := WaitForPendingAdd(k, timeout, mid);
      if r.Err? {
        inodeMgr.inodes := inodeMgr.inodes[ino := was];
        assert inodeMgr.inodes == mid.inodes;
        return;
      }
      r := RenameTorrent(k, l, dbFails);
    }

    /** The database's rename of a torrent, if it has it. */
    method RenameTorrent(k: Key, l: Key, dbFails: bool) returns (r: Result)
      requires db.Valid()
      modifies db
      ensures db.Valid()
      ensures r == if dbFails || (k in old(db.torrents) && l in old(db.torrents)) then Err(Database) else Done(0)
      ensures var s := old(Abs());
              Abs() == if r.Err? || k !in s.rows then s
                       else s.(rows := (s.rows - {k})[l := s.rows[k]], dirs := Ensured(s.dirs, l.sourcePath))
    {
      if dbFails || (k in db.torrents && l in db.torrents) { return Err(Database); }
      if k in db.torrents { db.MoveTorrent(k, l); }
      return Done(0);
    }

    /** Over another file: every failure moves the inode back. */
    method RenameOverwriting(ino: Ino, target: Ino, dbFails: bool, timeout: nat)
      returns (r: Result, ghost moves: seq<Move>, ghost mid: State)
      requires Valid() && IsMetaFile(inodeMgr.inodes, ino) && IsMetaFile(inodeMgr.inodes, target) && target != ino
      modifies this, inodeMgr`inodes, db
      ensures Good(mid) && Settles(old(Abs()), moves, mid) && SameFront(old(Abs()), mid)
      ensures (Abs(), r) == OverwriteTo(mid, ino, target, dbFails) && db.Valid()
    {
      r, moves, mid := MoveOnto(ino, target, dbFails, timeout);
      if r.Done? {
        RetireAfterMove(mid, ino, target);
        var _ := inodeMgr.UnlinkFile(target);
      }
    }

    /** The move itself; the file in the way is still there. */
    method MoveOnto(ino: Ino, target: Ino, dbFails: bool, timeout: nat)
      returns (r: Result, ghost moves: seq<Move>, ghost mid: State)
      requires Valid() && IsMetaFile(inodeMgr.inodes, ino) && IsMetaFile(inodeMgr.inodes, target) && target != ino
      modifies this, inodeMgr`inodes, db
      ensures Good(mid) && Settles(old(Abs()), moves, mid) && SameFront(old(Abs()), mid) && db.Valid()
      ensures r == OverwriteTo(mid, ino, target, dbFails).1
      ensures Abs() == if r.Err? then mid else OverwriteTo(mid, ino, target, dbFails).0.(inodes := MovedOnto(mid, ino, target))
    {
      moves, mid := [], Abs();
      var was, onto := inodeMgr.inodes[ino], inodeMgr.inodes[target];
      var k := DedupKey(ino);
      var l := DedupKey(target);
      inodeMgr.inodes := inodeMgr.inodes[ino := was.(parent := onto.parent, name := onto.name)];
      if hasDb {
        r, moves, mid := MoveWhenSettled(k, l, dbFails, timeout, mid);
        if r.Err? {
          inodeMgr.inodes := inodeMgr.inodes[ino := was];
          assert inodeMgr.inodes == mid.inodes;
          return;
        }
      }
      r := Done(0);
    }

    /** Waits for both keys and then moves the row. */
    method MoveWhenSettled(k: Key, l: Key, dbFails: bool, timeout: nat, ghost view: State)
      returns (r: Result, ghost moves: seq<Move>, ghost mid: State)
      requires Good(view) && SameBack(view)
      modifies this, db
      ensures Good(mid) && Settles(view, moves, mid) && SameFront(view, mid)
      ensures r == if k in mid.processing || l in mid.processing then Err(StillProcessing)
                   else if dbFails then Err(Database)
                   else if k !in mid.rows then Err(NoPersistedRow) else Done(0)
      ensures r.Err? ==> SameBack(mid)
      ensures r.Done? ==> SameBack(mid.(rows := (mid.rows - {k})[l := mid.rows[k]], errors := mid.errors - {l},
                                        dirs := Ensured(mid.dirs, l.sourcePath)))
    {
      r, moves, mid := WaitForBoth(k, l, timeout, view);
      if r.Done? { r := MoveTorrentReplacing(k, l, dbFails); }
    }

    /** The database's move over another row, and the cleanup that follows it. */
    method MoveTorrentReplacing(k: Key, l: Key, dbFails: bool) returns (r: Result)
      requires l !in processing && db.Valid()
      modifies db, this`errors, this`processing
      ensures db.Valid()
      ensures r == if dbFails then Err(Database) else if k !in old(db.torrents) then Err(NoPersistedRow) else Done(0)
      ensures r.Err? ==> db.torrents == old(db.torrents) && db.Directories() == old(db.Directories()) && errors == old(errors)
      ensures r.Done? ==> db.torrents == (old(db.torrents) - {k})[l := old(db.torrents)[k]] && errors == old(errors) - {l}
      ensures r.Done? ==> db.Directories() == Ensured(old(db.Directories()), l.sourcePath)
      ensures processing == old(processing)
    {
      if dbFails { return Err(Database); }
      if k !in db.torrents { return Err(NoPersistedRow); }
      var removedTarget := l in db.torrents;
      db.MoveTorrent(k, l);
      errors := errors - {l};
      if removedTarget { processing := processing - {l}; }
      return Done(0);
    }

    method Rename(parent: Ino, name: string, newparent: Ino, newname: string, dbFails: bool, timeout: nat)
      returns (r: Result, ghost moves: seq<Move>, ghost mid: State)
      requires Valid() && FromKernel(Abs(), Protocol.Rename(parent, name, newparent, newname, dbFails))
      modifies this, inodeMgr, db
      ensures Good(mid) && Settles(old(Abs()), moves, mid)
      ensures FromKernel(mid, Protocol.Rename(parent, name, newparent, newname, dbFails))
      ensures (Abs(), r) == RenameTo(mid, parent, name, newparent, newname, dbFails) && Valid()
    {
      moves, mid := [], Abs();
      if IsDataNamespace(parent) || IsDataNamespace(newparent) { return Err(ReadOnly), moves, mid; }
      if parent !in inodeMgr.inodes || newparent !in inodeMgr.inodes { return Err(NotFound), moves, mid; }
      var below := inodeMgr.IsMetadataChild(parent);
      var newBelow := inodeMgr.IsMetadataChild(newparent);
      if !below || !newBelow { return Err(NotPermitted), moves, mid; }
      var source := inodeMgr.FindChildByName(parent, name);
      if source.None? { return Err(NotFound), moves, mid; }
      var ino := source.value;
      var target := inodeMgr.FindChildByName(newparent, newname);
      if target.Some? {
        if target.value == ino { return Done(0), moves, mid; }
        if inodeMgr.inodes[ino].Directory? || inodeMgr.inodes[target.value].Directory? {
          return Err(AlreadyExists), moves, mid;
        }
      }
      r, moves, mid := RenameResolved(ino, target, parent, name, newparent, newname, dbFails, timeout);
      RenameGood(mid, parent, name, newparent, newname, dbFails);
    }

    /** The rename proper, once source and target are known. */
    method RenameResolved(ino: Ino, target: Option<Ino>, parent: Ino, name: string, newparent: Ino, newname: string,
                          dbFails: bool, timeout: nat)
      returns (r: Result, ghost moves: seq<Move>, ghost mid: State)
      requires Valid() && FromKernel(Abs(), Protocol.Rename(parent, name, newparent, newname, dbFails))
      requires Renames(Abs(), parent, name, newparent, newname)
      requires ino == Child(inodeMgr.inodes, parent, name)
      requires target.Some? <==> HasChild(inodeMgr.inodes, newparent, newname)
      requires target.Some? ==> target.value == Child(inodeMgr.inodes, newparent, newname)
      requires target.Some? ==> inodeMgr.inodes[ino].File? && inodeMgr.inodes[target.value].File?
      modifies this, inodeMgr`inodes, db
      ensures Good(mid) && Settles(old(Abs()), moves, mid)
      ensures FromKernel(mid, Protocol.Rename(parent, name, newparent, newname, dbFails))
      ensures (Abs(), r) == RenameTo(mid, parent, name, newparent, newname, dbFails) && db.Valid()
    {
      moves, mid := [], Abs();
      if target.Some? {
        RenameToTaken(mid, parent, name, newparent, newname, dbFails);
        r, moves, mid := RenameOverwriting(ino, target.value, dbFails, timeout);
        RenameToTaken(mid, parent, name, newparent, newname, dbFails);
      } else {
        RenameToFree(mid, parent, name, newparent, newname, dbFails);
        if inodeMgr.inodes[ino].Directory? {
          r := RenameDirectory(ino, newparent, newname, dbFails);
        } else if !EndsWith(name, TORRENT) || !EndsWith(newname, TORRENT) {
          assert NodeOk(mid.inodes, mid.nextIno, ino);
          r := Err(InvalidArgument);
        } else {
          r, moves, mid := RenameFile(ino, newparent, newname, dbFails, timeout);
          RenameToFree(mid, parent, name, newparent, newname, dbFails);
        }
      }
    }
  }

  /** Moving the source first and retiring the target after gives the same table. */
  /** The inodes with one moved to the place of another that is still there. */
  ghost function MovedOnto(s: State, i: Ino, target: Ino): Table
    requires IsMetaFile(s.inodes, i) && IsMetaFile(s.inodes, target)
  {
    s.inodes[i := s.inodes[i].(parent := s.inodes[target].parent, name := s.inodes[target].name)]
  }

  lemma RetireAfterMove(s: State, i: Ino, target: Ino)
    requires IsMetaFile(s.inodes, i) && IsMetaFile(s.inodes, target) && i != target
    ensures Retired(MovedOnto(s, i, target), s.open, target) == Replaced(s, i, target)
  {
  }

  lemma IsOurTorrent(s: State, i: Ino)
    requires Good(s) && i in s.inodes && s.inodes[i].File? && s.inodes[i].Linked() && EndsWith(s.inodes[i].name, TORRENT)
    ensures IsMetaFile(s.inodes, i)
  {
    assert NodeOk(s.inodes, s.nextIno, i);
  }

  /** The new path of a renamed directory, as the call puts it together. */
  lemma JoinedBelow(s: State, e: Ino, m: string)
    requires Good(s) && InMetadata(Paths(s.inodes), e) && IsName(m)
    ensures var p := Paths(s.inodes);
            Join(p[e][1..] + [m]) == if SourcePath(p, e) == "" then m else SourcePath(p, e) + "/" + m
    ensures SourcePath(Paths(s.inodes), e) == "" <== e == METADATA
  {
    var p := Paths(s.inodes);
    LabelNames(s.inodes, s.nextIno, p, e);
    SkeletonLabels(s.inodes, s.nextIno, p);
    if p[e][1..] != [] {
      JoinNonEmpty(p[e][1..]);
      JoinAppend(p[e][1..], m);
    } else {
      assert p[e][1..] + [m] == [m];
    }
  }
}
