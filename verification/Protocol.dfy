/** The metadata namespace and its detached adds, as a transition system.

    Dispatcher calls commit one at a time.  A call that must not overtake a
    detached add waits for its key to leave the in-flight set; what the adders do
    meanwhile are steps of their own, so at its commit a call sees the key either
    gone (it proceeds) or still there (the wait was given up). */
module Protocol {
  import opened Text
  import opened InodeTree
  import opened DirectoryRows

  const MAX_TORRENT_SIZE: nat := 10 * 1024 * 1024

  // ── State ────────────────────────────────────────────────────────────────

  /** Where a detached add stands: before its insert, after it, or with only the
      key left to drop. */
  datatype Phase = Persisting | Landed | Failed | Recorded

  datatype Adder = Adder(key: Key, data: string, phase: Phase)

  datatype State = State(
    hasDb: bool,
    inodes: Table,
    nextIno: Ino,
    open: map<nat, Ino>,
    nextFh: nat,
    rows: map<Key, string>,
    errors: set<Key>,
    processing: set<Key>,
    adders: map<nat, Adder>,
    nextAdder: nat,
    dirs: DirTable)

  datatype Error =
    | ReadOnly | PermissionDenied | NotPermitted | InvalidArgument | AlreadyExists
    | NotFound | IsDirectory | NotDirectory | DirectoryNotEmpty | FileTooLarge
    | StillProcessing | NoPersistedRow | Database

  datatype Result = Done(value: nat) | Err(error: Error)

  ghost predicate IsOpen(open: map<nat, Ino>, i: Ino) {
    exists fh :: fh in open && open[fh] == i
  }

  ghost predicate HandlesBelow(open: map<nat, Ino>, next: nat) {
    forall fh :: fh in open ==> fh < next
  }

  /** An unlinked inode is kept by an open handle. */
  ghost predicate UnlinkedOpen(t: Table, open: map<nat, Ino>) {
    forall i :: i in t && !t[i].Linked() ==> IsOpen(open, i)
  }

  ghost predicate Adds(adders: map<nat, Adder>, id: nat, k: Key) {
    id in adders && adders[id].key == k
  }

  ghost predicate HasAdder(adders: map<nat, Adder>, k: Key) { exists id :: Adds(adders, id, k) }

  /** In-flight keys and live adders correspond one to one. */
  ghost predicate AddersMatch(processing: set<Key>, adders: map<nat, Adder>, next: nat) {
    && (forall id :: id in adders ==> id < next && adders[id].key in processing)
    && (forall k :: k in processing ==> HasAdder(adders, k))
    && (forall a, b, k :: Adds(adders, a, k) && Adds(adders, b, k) ==> a == b)
  }

  ghost predicate Good(s: State) {
    && Tree(s.inodes, s.nextIno)
    && HandlesBelow(s.open, s.nextFh) && UnlinkedOpen(s.inodes, s.open)
    && AddersMatch(s.processing, s.adders, s.nextAdder)
    && (!s.hasDb ==> s.adders == map[] && s.rows == map[] && s.errors == {})
  }

  ghost predicate AllNamed(t: Table, keys: set<Key>)
    requires Acyclic(t)
  {
    forall k :: k in keys ==> Named(t, Paths(t), k)
  }

  /** No orphan: every row and every in-flight key names a linked metadata file. */
  ghost predicate Clean(s: State)
    requires Good(s)
  {
    AllNamed(s.inodes, s.rows.Keys) && AllNamed(s.inodes, s.processing)
  }

  /** Every recorded failure names a linked metadata file. */
  ghost predicate Reported(s: State)
    requires Good(s)
  {
    AllNamed(s.inodes, s.errors)
  }

  ghost predicate Start(s: State) {
    && s.inodes == StartTable() && s.nextIno == FIRST_INO && s.open == map[] && s.rows == map[]
    && s.errors == {} && s.processing == {} && s.adders == map[] && s.dirs == DirTable(map[], 1)
  }

  // ── Calls ────────────────────────────────────────────────────────────────

  /** A dispatcher call.  `parses` is the verdict of the torrent parser on the
      buffer, `dbFails` that of the database, `dataFile` whether a `data/` inode
      is a file there. */
  datatype Op =
    | Create(parent: Ino, name: string, handle: bool)
    | Mkdir(parent: Ino, name: string, dbFails: bool)
    | Rmdir(parent: Ino, name: string, dbFails: bool)
    | Open(ino: Ino, dataFile: bool)
    | Write(ino: Ino, offset: int, bytes: string)
    | SetSize(ino: Ino, size: Option<nat>)
    | Release(fh: nat, parses: bool, dbFails: bool)
    | Unlink(parent: Ino, name: string, dbFails: bool)
    | Rename(parent: Ino, name: string, newparent: Ino, newname: string, dbFails: bool)

  ghost predicate KernelDir(t: Table, d: Ino) { d in t ==> t[d].Directory? }

  /** What the kernel guarantees of a call. */
  ghost predicate FromKernel(s: State, op: Op)
    requires Acyclic(s.inodes)
  {
    match op
    case Create(d, n, _) => KernelDir(s.inodes, d) && IsName(n)
    case Mkdir(d, n, _) => KernelDir(s.inodes, d) && IsName(n)
    case Rmdir(d, n, _) => KernelDir(s.inodes, d) && IsName(n)
    case Unlink(d, n, _) => KernelDir(s.inodes, d) && IsName(n)
    case Rename(d, n, e, m, _) =>
      && KernelDir(s.inodes, d) && IsName(n) && KernelDir(s.inodes, e) && IsName(m)
      && var p := Paths(s.inodes);
      && (forall i :: IsChild(s.inodes, d, n, i) && s.inodes[i].Directory? && i in p && e in p ==> !(p[i] <= p[e]))
    case _ => true
  }

  /** Below `metadata/` as the upward walk decides it: an unlinked file counts
      while its directory is still there. */
  ghost predicate MetadataChild(t: Table, i: Ino)
    requires Acyclic(t)
  {
    var p := Paths(t);
    InMetadata(p, i) || (i in t && t[i].File? && InMetadata(p, t[i].parent))
  }

  /** A name directly below `metadata/` belongs to an inode of ours. */
  lemma ChildIsOurs(s: State, d: Ino, name: string)
    requires Good(s) && InMetadata(Paths(s.inodes), d) && HasChild(s.inodes, d, name)
    ensures var i := Child(s.inodes, d, name);
            i >= FIRST_INO && i in Paths(s.inodes) && LabelOk(s.inodes, Paths(s.inodes), i)
  {
    var t, i := s.inodes, Child(s.inodes, d, name);
    NextIsFresh(t, s.nextIno);
    assert NodeOk(t, s.nextIno, i);
    assert i != ROOT && i != METADATA && i != DATA && i != STATS;
    assert LabelOk(t, Paths(t), i);
  }

  lemma DirInMetadata(s: State, d: Ino)
    requires Good(s) && KernelDir(s.inodes, d) && MetadataChild(s.inodes, d)
    ensures InMetadata(Paths(s.inodes), d) && d in s.inodes && s.inodes[d].Directory?
  {
  }

  ghost function FileKey(s: State, i: Ino): Key
    requires Good(s) && IsMetaFile(s.inodes, i)
  {
    ParentInMetadata(s.inodes, s.nextIno, Paths(s.inodes), i);
    KeyOf(s.inodes, Paths(s.inodes), i)
  }

  ghost function CreateTo(s: State, d: Ino, name: string, handle: bool): (State, Result)
    requires Good(s)
  {
    if IsDataNamespace(d) then (s, Err(ReadOnly))
    else if !MetadataChild(s.inodes, d) then (s, Err(PermissionDenied))
    else if !EndsWith(name, TORRENT) then (s, Err(InvalidArgument))
    else if HasChild(s.inodes, d, name) then (s, Err(AlreadyExists))
    else
      var s1 := s.(inodes := s.inodes[s.nextIno := File(d, name, "", false)], nextIno := s.nextIno + 1);
      if !handle then (s1, Done(s.nextIno))
      else (s1.(open := s.open[s.nextFh := s.nextIno], nextFh := s.nextFh + 1), Done(s.nextFh))
  }

  /** A new directory; what becomes of its row does not show in the answer. */
  ghost function MkdirTo(s: State, d: Ino, name: string, dbFails: bool): (State, Result)
    requires Good(s) && FromKernel(s, Mkdir(d, name, dbFails))
  {
    if IsDataNamespace(d) then (s, Err(ReadOnly))
    else if !MetadataChild(s.inodes, d) then (s, Err(PermissionDenied))
    else if HasChild(s.inodes, d, name) then (s, Err(AlreadyExists))
    else
      DirInMetadata(s, d);
      var path := Join(Paths(s.inodes)[d][1..] + [name]);
      (s.(inodes := s.inodes[s.nextIno := Directory(d, name)], nextIno := s.nextIno + 1,
          dirs := if s.hasDb && !dbFails then Ensured(s.dirs, path) else s.dirs), Done(s.nextIno))
  }

  ghost function RmdirTo(s: State, d: Ino, name: string, dbFails: bool): (State, Result)
    requires Good(s) && FromKernel(s, Rmdir(d, name, dbFails))
  {
    if IsDataNamespace(d) then (s, Err(ReadOnly))
    else if !MetadataChild(s.inodes, d) then (s, Err(PermissionDenied))
    else if !HasChild(s.inodes, d, name) then (s, Err(NotFound))
    else
      var i := Child(s.inodes, d, name);
      DirInMetadata(s, d);
      ChildIsOurs(s, d, name);
      if s.inodes[i].File? then (s, Err(NotDirectory))
      else if HasChildren(s.inodes, i) then (s, Err(DirectoryNotEmpty))
      else (s.(inodes := s.inodes - {i},
               dirs := if s.hasDb && !dbFails then Deleted(s.dirs, SourcePath(Paths(s.inodes), i)) else s.dirs), Done(0))
  }

  ghost function OpenTo(s: State, i: Ino, dataFile: bool): (State, Result) {
    var handed := (s.(open := s.open[s.nextFh := i], nextFh := s.nextFh + 1), Done(s.nextFh));
    if i == ROOT || i == METADATA || i == DATA then (s, Done(0))
    else if IsStats(i) then handed
    else if i >= DATA_BASE then if dataFile then handed else (s, Done(0))
    else if i in s.inodes then handed
    else (s, Err(NotFound))
  }

  function Resized(data: string, n: nat): (r: string)
    ensures |r| == n
  {
    if n <= |data| then data[..n] else data + Zeros(n - |data|)
  }

  /** `data` with `bytes` written at `offset`, zero-filled up to there. */
  function Patched(data: string, offset: nat, bytes: string): (r: string)
    ensures |r| == if |data| < offset + |bytes| then offset + |bytes| else |data|
    ensures r[offset..offset + |bytes|] == bytes
    ensures forall i :: 0 <= i < |r| && !(offset <= i < offset + |bytes|) ==>
              r[i] == if i < |data| then data[i] else '\0'
  {
    var base := if |data| < offset + |bytes| then Resized(data, offset + |bytes|) else data;
    base[..offset] + bytes + base[offset + |bytes|..]
  }

  ghost function WriteTo(s: State, i: Ino, offset: int, bytes: string): (State, Result) {
    if IsStats(i) then (s, Err(NotPermitted))
    else if IsDataNamespace(i) then (s, Err(ReadOnly))
    else if i !in s.inodes then (s, Err(NotFound))
    else if s.inodes[i].Directory? then (s, Err(IsDirectory))
    else if offset < 0 then (s, Err(InvalidArgument))
    else if offset + |bytes| > MAX_TORRENT_SIZE then (s, Err(FileTooLarge))
    else
      var f := s.inodes[i];
      (s.(inodes := s.inodes[i := f.(data := Patched(f.data, offset, bytes))]), Done(|bytes|))
  }

  ghost function SetSizeTo(s: State, i: Ino, size: Option<nat>): (State, Result)
    requires Good(s)
  {
    if IsStats(i) then (s, Err(NotPermitted))
    else if IsDataNamespace(i) then (s, Err(ReadOnly))
    else if MetadataChild(s.inodes, i) || i == ROOT then
      if size.None? || i !in s.inodes || s.inodes[i].Directory? then (s, Err(NotPermitted))
      else if size.value > MAX_TORRENT_SIZE then (s, Err(FileTooLarge))
      else
        var f := s.inodes[i];
        (s.(inodes := s.inodes[i := f.(data := Resized(f.data, size.value))]), Done(size.value))
    else if i in s.inodes then (s, Done(if s.inodes[i].File? then |s.inodes[i].data| else 0))
    else (s, Err(NotFound))
  }

  /** Closing a linked `.torrent`: discard it, skip it, or start its add. */
  ghost function CloseTo(s: State, fh: nat, parses: bool, dbFails: bool): (State, Result)
    requires Good(s) && fh in s.open && IsMetaFile(s.inodes, s.open[fh])
  {
    var i, s1 := s.open[fh], s.(open := s.open - {fh});
    var data, k := s.inodes[i].data, FileKey(s, i);
    if data == "" || |data| > MAX_TORRENT_SIZE || !parses then
      if k in s.processing then (s1, Err(StillProcessing))
      else if s.hasDb && dbFails then (s1.(errors := s.errors - {k}), Err(Database))
      else (s1.(errors := s.errors - {k}, rows := s.rows - {k}, inodes := s.inodes - {i}),
            if data == "" then Err(NotFound) else Done(0))
    else if k in s.processing || !s.hasDb then (s1, Done(0))
    else (s1.(processing := s.processing + {k}, adders := s.adders[s.nextAdder := Adder(k, data, Persisting)],
              nextAdder := s.nextAdder + 1), Done(0))
  }

  ghost function ReleaseTo(s: State, fh: nat, parses: bool, dbFails: bool): (State, Result)
    requires Good(s)
  {
    if fh !in s.open then (s, Done(0)) else
    var i, s1 := s.open[fh], s.(open := s.open - {fh});
    if i in s.inodes && !s.inodes[i].Linked() then
      (if IsOpen(s1.open, i) then s1 else s1.(inodes := s.inodes - {i}), Done(0))
    else if IsMetaFile(s.inodes, i) then CloseTo(s, fh, parses, dbFails)
    else (s1, Done(0))
  }

  /** The table once a file's name is gone: an open file stays, unlinked. */
  ghost function Retired(t: Table, open: map<nat, Ino>, i: Ino): Table
    requires i in t && t[i].File?
  {
    if IsOpen(open, i) then t[i := t[i].(unlinked := true)] else t - {i}
  }

  /** Unlinking a file: its row goes first, then its name. */
  ghost function RemoveTo(s: State, i: Ino, dbFails: bool): (State, Result)
    requires Good(s) && IsMetaFile(s.inodes, i)
  {
    var k, t := FileKey(s, i), Retired(s.inodes, s.open, i);
    if !s.hasDb then (s.(inodes := t), Done(0))
    else if k in s.processing then (s, Err(StillProcessing))
    else if dbFails then (s.(errors := s.errors - {k}), Err(Database))
    else (s.(inodes := t, errors := s.errors - {k}, rows := s.rows - {k}), Done(0))
  }

  ghost function UnlinkTo(s: State, d: Ino, name: string, dbFails: bool): (State, Result)
    requires Good(s) && FromKernel(s, Unlink(d, name, dbFails))
  {
    if name == ".stats" then (s, Err(NotPermitted))
    else if IsDataNamespace(d) then (s, Err(ReadOnly))
    else if !MetadataChild(s.inodes, d) then (s, Err(PermissionDenied))
    else if !EndsWith(name, TORRENT) then (s, Err(InvalidArgument))
    else if !HasChild(s.inodes, d, name) then (s, Err(NotFound))
    else
      var i := Child(s.inodes, d, name);
      if s.inodes[i].Directory? then (s, Err(IsDirectory)) else
      ChildIsOurs(s, d, name);
      RemoveTo(s, i, dbFails)
  }

  function MovedKey(from: string, to: string, k: Key): Key {
    Key(SqlMoved(from, to, k.sourcePath), k.filename)
  }

  predicate Collides(rows: map<Key, string>, from: string, to: string) {
    exists k, l :: k in rows && l in rows && k != l && MovedKey(from, to, k) == MovedKey(from, to, l)
  }

  ghost function MovedRows(rows: map<Key, string>, from: string, to: string): map<Key, string>
    requires !Collides(rows, from, to)
  {
    map k | k in rows :: MovedKey(from, to, k) := rows[k]
  }

  /** Directory rename: the inode moves first, and nothing undoes that.  The rows of
      both tables move in one transaction, which a path taken twice in either
      rolls back. */
  ghost function RenameDirTo(s: State, i: Ino, e: Ino, m: string, dbFails: bool): (State, Result)
    requires Good(s) && i in s.inodes && s.inodes[i].Directory?
    requires InMetadata(Paths(s.inodes), i) && InMetadata(Paths(s.inodes), e)
  {
    var p := Paths(s.inodes);
    var from, to := SourcePath(p, i), Join(p[e][1..] + [m]);
    var s1 := s.(inodes := s.inodes[i := Directory(e, m)]);
    if !s.hasDb then (s1, Done(0))
    else if dbFails || Collides(s.rows, from, to) || DirsCollide(s.dirs.rows, from, to) then (s1, Err(Database))
    else (s1.(rows := MovedRows(s.rows, from, to), dirs := Renamed(s.dirs, from, m, to)), Done(0))
  }

  /** The table once `i` is `m` in directory `e`. */
  ghost function Placed(s: State, i: Ino, e: Ino, m: string): Table
    requires IsMetaFile(s.inodes, i)
  {
    s.inodes[i := s.inodes[i].(parent := e, name := m)]
  }

  /** File rename to a free name: a database error does not undo the move. */
  ghost function RenameFileTo(s: State, i: Ino, e: Ino, m: string, dbFails: bool): (State, Result)
    requires Good(s) && IsMetaFile(s.inodes, i) && InMetadata(Paths(s.inodes), e)
  {
    var k, l := FileKey(s, i), Key(SourcePath(Paths(s.inodes), e), m);
    var s1 := s.(inodes := Placed(s, i, e, m));
    if !s.hasDb then (s1, Done(0))
    else if k in s.processing then (s, Err(StillProcessing))
    else if dbFails || (k in s.rows && l in s.rows) then (s1, Err(Database))
    else if k !in s.rows then (s1, Done(0))
    else (s1.(rows := (s.rows - {k})[l := s.rows[k]], dirs := Ensured(s.dirs, l.sourcePath)), Done(0))
  }

  /** The table once `i` has taken the name of `target`. */
  ghost function Replaced(s: State, i: Ino, target: Ino): Table
    requires IsMetaFile(s.inodes, i) && IsMetaFile(s.inodes, target) && i != target
  {
    Retired(s.inodes, s.open, target)[i := s.inodes[i].(parent := s.inodes[target].parent, name := s.inodes[target].name)]
  }

  /** File rename over another file: every failure leaves both in place. */
  ghost function OverwriteTo(s: State, i: Ino, target: Ino, dbFails: bool): (State, Result)
    requires Good(s) && IsMetaFile(s.inodes, i) && IsMetaFile(s.inodes, target) && i != target
  {
    var k, l := FileKey(s, i), FileKey(s, target);
    var s1 := s.(inodes := Replaced(s, i, target));
    if !s.hasDb then (s1, Done(0))
    else if k in s.processing || l in s.processing then (s, Err(StillProcessing))
    else if dbFails then (s, Err(Database))
    else if k !in s.rows then (s, Err(NoPersistedRow))
    else (s1.(rows := (s.rows - {k})[l := s.rows[k]], errors := s.errors - {l}, dirs := Ensured(s.dirs, l.sourcePath)), Done(0))
  }

  ghost function RenameTo(s: State, d: Ino, n: string, e: Ino, m: string, dbFails: bool): (State, Result)
    requires Good(s) && FromKernel(s, Rename(d, n, e, m, dbFails))
  {
    var t := s.inodes;
    if IsDataNamespace(d) || IsDataNamespace(e) then (s, Err(ReadOnly))
    else if d !in t || e !in t then (s, Err(NotFound))
    else if !MetadataChild(t, d) || !MetadataChild(t, e) then (s, Err(NotPermitted))
    else if !HasChild(t, d, n) then (s, Err(NotFound))
    else
      var i := Child(t, d, n);
      ChildIsOurs(s, d, n);
      ParentInMetadata(t, s.nextIno, Paths(t), i);
      if HasChild(t, e, m) then
        ChildIsOurs(s, e, m);
        var j := Child(t, e, m);
        if j == i then (s, Done(0))
        else if t[i].Directory? || t[j].Directory? then (s, Err(AlreadyExists))
        else if !EndsWith(n, TORRENT) || !EndsWith(m, TORRENT) then (s, Err(InvalidArgument))
        else OverwriteTo(s, i, j, dbFails)
      else if t[i].Directory? then RenameDirTo(s, i, e, m, dbFails)
      else if !EndsWith(n, TORRENT) || !EndsWith(m, TORRENT) then (s, Err(InvalidArgument))
      else RenameFileTo(s, i, e, m, dbFails)
  }

  /** The state a call commits and the answer it gives. */
  ghost function Commit(s: State, op: Op): (State, Result)
    requires Good(s) && FromKernel(s, op)
  {
    match op
    case Create(d, n, handle) => CreateTo(s, d, n, handle)
    case Mkdir(d, n, dbFails) => MkdirTo(s, d, n, dbFails)
    case Rmdir(d, n, dbFails) => RmdirTo(s, d, n, dbFails)
    case Open(i, dataFile) => OpenTo(s, i, dataFile)
    case Write(i, offset, bytes) => WriteTo(s, i, offset, bytes)
    case SetSize(i, size) => SetSizeTo(s, i, size)
    case Release(fh, parses, dbFails) => ReleaseTo(s, fh, parses, dbFails)
    case Unlink(d, n, dbFails) => UnlinkTo(s, d, n, dbFails)
    case Rename(d, n, e, m, dbFails) => RenameTo(s, d, n, e, m, dbFails)
  }

  // ── Adders ───────────────────────────────────────────────────────────────

  /** One step of a detached add: insert the row and the directories above it (or
      fail to), record the outcome, drop the key. */
  ghost function AdderTo(s: State, id: nat, ok: bool): State
    requires id in s.adders
  {
    var a := s.adders[id];
    match a.phase
    case Persisting =>
      if ok then s.(rows := s.rows[a.key := a.data], dirs := Ensured(s.dirs, a.key.sourcePath),
                    adders := s.adders[id := a.(phase := Landed)])
      else s.(adders := s.adders[id := a.(phase := Failed)])
    case Landed => s.(errors := s.errors - {a.key}, adders := s.adders[id := a.(phase := Recorded)])
    case Failed => s.(errors := s.errors + {a.key}, adders := s.adders[id := a.(phase := Recorded)])
    case Recorded => s.(processing := s.processing - {a.key}, adders := s.adders - {id})
  }

  /** What the adders did, in order: which one moved, and whether its insert worked. */
  datatype Move = Move(id: nat, ok: bool)

  /** `s'` is what these moves of the adders make of `s`. */
  ghost predicate Settles(s: State, moves: seq<Move>, s': State)
    decreases |moves|
  {
    if moves == [] then s' == s
    else moves[0].id in s.adders && Settles(AdderTo(s, moves[0].id, moves[0].ok), moves[1..], s')
  }

  /** Only what adders own differs. */
  ghost predicate SameFront(s: State, s': State) {
    && s'.hasDb == s.hasDb && s'.inodes == s.inodes && s'.nextIno == s.nextIno
    && s'.open == s.open && s'.nextFh == s.nextFh && s'.nextAdder == s.nextAdder
  }

  datatype Event = Background(id: nat, ok: bool) | Call(op: Op)

  ghost predicate Enabled(s: State, e: Event)
    requires Good(s)
  {
    match e
    case Background(id, _) => id in s.adders
    case Call(op) => FromKernel(s, op)
  }

  ghost function After(s: State, e: Event): State
    requires Good(s) && Enabled(s, e)
  {
    match e
    case Background(id, ok) => AdderTo(s, id, ok)
    case Call(op) => Commit(s, op).0
  }
}
