/** Exactly what each call does, stated on the state it meets: when it succeeds,
    what it changes, and that nothing else changes. */
module Effects {
  import opened Text
  import opened InodeTree
  import opened DirectoryRows
  import opened Protocol
  import opened ProtocolSafety
  import opened RenameSafety
  import opened Runs

  // ── Writing and truncating ───────────────────────────────────────────────

  /** A number the calls on open files act on. */
  predicate Plain(i: Ino) { !IsStats(i) && !IsDataNamespace(i) }

  /** `now` is `was` with `bytes` at `offset`: every other byte stays, and a gap
      before the offset reads as zeros. */
  ghost predicate HasWritten(was: string, now: string, offset: nat, bytes: string) {
    && |now| == (if |was| < offset + |bytes| then offset + |bytes| else |was|)
    && (forall x :: 0 <= x < |bytes| ==> now[offset + x] == bytes[x])
    && (forall x :: 0 <= x < |now| && !(offset <= x < offset + |bytes|) ==> now[x] == if x < |was| then was[x] else '\0')
  }

  /** `now` is `was` cut at `n`, or filled up to there with zeros. */
  ghost predicate HasSize(was: string, now: string, n: nat) {
    |now| == n && forall x :: 0 <= x < n ==> now[x] == if x < |was| then was[x] else '\0'
  }

  /** Of the inodes only the buffer of `i` may differ, and nothing else at all. */
  ghost predicate OnlyBuffer(s: State, s': State, i: Ino) {
    && s' == s.(inodes := s'.inodes) && s'.inodes.Keys == s.inodes.Keys
    && (forall j :: j in s.inodes && j != i ==> s'.inodes[j] == s.inodes[j])
    && i in s.inodes && s.inodes[i].File? && s'.inodes[i].File? && s'.inodes[i] == s.inodes[i].(data := s'.inodes[i].data)
  }

  lemma PatchedHasWritten(was: string, offset: nat, bytes: string)
    ensures HasWritten(was, Patched(was, offset, bytes), offset, bytes)
  {
    var now := Patched(was, offset, bytes);
    forall x | 0 <= x < |bytes| ensures now[offset + x] == bytes[x] {
      assert now[offset..offset + |bytes|][x] == now[offset + x];
    }
  }

  /** A write to a file, linked or not: it succeeds exactly on a number of ours and
      a range within the limit, and then writes the range and nothing else. */
  lemma WriteExactly(s: State, i: Ino, offset: int, bytes: string)
    requires Good(s)
    ensures var (s', r) := WriteTo(s, i, offset, bytes);
            && (r.Done? <==> && i in s.inodes && s.inodes[i].File? && Plain(i)
                             && 0 <= offset && offset + |bytes| <= MAX_TORRENT_SIZE)
            && (r.Err? ==> s' == s)
            && (r.Done? ==> && r.value == |bytes| && OnlyBuffer(s, s', i)
                            && HasWritten(s.inodes[i].data, s'.inodes[i].data, offset, bytes))
  {
    if i in s.inodes && s.inodes[i].File? && offset >= 0 { PatchedHasWritten(s.inodes[i].data, offset, bytes); }
  }

  /** A truncation of a linked file of ours, in the same way. */
  lemma TruncateExactly(s: State, i: Ino, size: Option<nat>)
    requires Good(s) && IsMetaFile(s.inodes, i)
    ensures var (s', r) := SetSizeTo(s, i, size);
            && (r.Done? <==> Plain(i) && size.Some? && size.value <= MAX_TORRENT_SIZE)
            && (r.Err? ==> s' == s)
            && (r.Done? ==> && r.value == size.value && OnlyBuffer(s, s', i)
                            && HasSize(s.inodes[i].data, s'.inodes[i].data, size.value))
  {
    var p := Paths(s.inodes);
    ParentInMetadata(s.inodes, s.nextIno, p, i);
  }

  // ── Opening and closing ──────────────────────────────────────────────────

  /** A handle is given out for `.stats`, a file of `data/` and everything there is
      below the root except the top directories; it is a new one and changes no
      other. */
  lemma OpenExactly(s: State, i: Ino, dataFile: bool)
    requires Good(s)
    ensures var (s', r) := OpenTo(s, i, dataFile);
            var top := i == ROOT || i == METADATA || i == DATA;
            var gives := !top && (IsStats(i) || if i >= DATA_BASE then dataFile else i in s.inodes);
            && (r.Err? <==> !top && !IsStats(i) && i < DATA_BASE && i !in s.inodes)
            && (if gives then
                  && r.Done? && r.value !in s.open && s' == s.(open := s'.open, nextFh := s'.nextFh)
                  && s'.open == s.open[r.value := i] && HandlesBelow(s'.open, s'.nextFh)
                else s' == s && (r.Done? ==> r.value == 0))
  {
  }

  /** What is not worth keeping. */
  predicate Discarded(data: string, parses: bool) { data == "" || |data| > MAX_TORRENT_SIZE || !parses }

  /** Closing a linked file.  Its inode, its row and its recorded failure go exactly
      when the content is to be discarded, no add of its key is in flight and the
      database does not fail; an add starts, with the bytes of the file, exactly
      when the content is to be kept and none is in flight.  A failing database
      keeps all but the failure. */
  lemma CloseExactly(s: State, fh: nat, parses: bool, dbFails: bool)
    requires Good(s) && fh in s.open && IsMetaFile(s.inodes, s.open[fh])
    ensures var (s', r) := ReleaseTo(s, fh, parses, dbFails);
            var i := s.open[fh];
            var k, data := FileKey(s, i), s.inodes[i].data;
            var bad, free := Discarded(data, parses), k !in s.processing;
            var removed, starts := bad && free && !(s.hasDb && dbFails), !bad && free && s.hasDb;
            && s'.open == s.open - {fh} && s'.nextFh == s.nextFh && s'.nextIno == s.nextIno
            && s'.hasDb == s.hasDb && s'.dirs == s.dirs
            && (i !in s'.inodes <==> removed) && (k in s.rows ==> (k !in s'.rows <==> removed))
            && (k in s'.errors <==> k in s.errors && !(bad && free))
            && (forall j :: j != i ==> (j in s'.inodes <==> j in s.inodes))
            && (forall j :: j in s'.inodes ==> s'.inodes[j] == s.inodes[j])
            && (forall l :: l in s'.rows ==> l in s.rows && s'.rows[l] == s.rows[l])
            && (forall l :: l in s.rows && l != k ==> l in s'.rows)
            && (forall l :: l != k ==> (l in s'.errors <==> l in s.errors))
            && (if starts then
                  && s'.processing == s.processing + {k} && s.nextAdder !in s.adders
                  && s'.adders == s.adders[s.nextAdder := Adder(k, data, Persisting)] && s'.nextAdder == s.nextAdder + 1
                else s'.processing == s.processing && s'.adders == s.adders && s'.nextAdder == s.nextAdder)
            && r == (if bad && !free then Err(StillProcessing)
                     else if bad && s.hasDb && dbFails then Err(Database)
                     else if data == "" then Err(NotFound)
                     else Done(0))
  {
  }

  // ── Names that come and go ───────────────────────────────────────────────

  /** Everything but the inodes, and a new number. */
  ghost predicate OnlyNode(s: State, s': State, i: Ino) {
    && (forall j :: j != i ==> (j in s'.inodes <==> j in s.inodes))
    && (forall j :: j in s.inodes && j != i ==> s'.inodes[j] == s.inodes[j])
    && s'.hasDb == s.hasDb && s'.rows == s.rows && s'.errors == s.errors && s'.processing == s.processing
    && s'.adders == s.adders && s'.nextAdder == s.nextAdder
  }

  /** A directory of ours in which the name may be made. */
  ghost predicate MayMake(s: State, d: Ino, name: string)
    requires Good(s)
  {
    d < DATA_BASE && InMetadata(Paths(s.inodes), d) && !HasChild(s.inodes, d, name)
  }

  lemma NamespaceSides(s: State, d: Ino)
    requires Good(s) && KernelDir(s.inodes, d)
    ensures MetadataChild(s.inodes, d) && !IsDataNamespace(d) <==> d < DATA_BASE && InMetadata(Paths(s.inodes), d)
  {
    SkeletonLabels(s.inodes, s.nextIno, Paths(s.inodes));
    assert "data"[0] == 'd' && "metadata"[0] == 'm';
  }

  /** A `create` that succeeds adds an empty file under a number nothing had, with a
      handle on it or without; else nothing changes. */
  lemma CreateExactly(s: State, d: Ino, name: string, handle: bool)
    requires Good(s) && FromKernel(s, Create(d, name, handle))
    ensures var (s', r) := CreateTo(s, d, name, handle);
            var i := s.nextIno;
            && (r.Done? <==> MayMake(s, d, name) && EndsWith(name, TORRENT))
            && (r.Err? ==> s' == s)
            && (r.Done? ==>
                  && i !in s.inodes && i in s'.inodes && s'.inodes[i] == File(d, name, "", false)
                  && OnlyNode(s, s', i) && s'.nextIno == i + 1 && s'.dirs == s.dirs
                  && (if handle then r.value !in s.open && s'.open == s.open[r.value := i] && s'.nextFh == r.value + 1
                      else r.value == i && s'.open == s.open && s'.nextFh == s.nextFh))
  {
    NamespaceSides(s, d);
    NextIsFresh(s.inodes, s.nextIno);
  }

  /** A `mkdir` does the same with a directory. */
  lemma MkdirExactly(s: State, d: Ino, name: string, dbFails: bool)
    requires Good(s) && FromKernel(s, Mkdir(d, name, dbFails))
    ensures var (s', r) := MkdirTo(s, d, name, dbFails);
            var i := s.nextIno;
            && (r.Done? <==> MayMake(s, d, name))
            && (r.Err? ==> s' == s)
            && (r.Done? ==>
                  && i !in s.inodes && i in s'.inodes && s'.inodes[i] == Directory(d, name) && r.value == i
                  && OnlyNode(s, s', i) && s'.nextIno == i + 1 && s'.open == s.open && s'.nextFh == s.nextFh)
  {
    NamespaceSides(s, d);
    NextIsFresh(s.inodes, s.nextIno);
  }

  /** An `rmdir` removes the directory of that name exactly when nothing is in it. */
  lemma RmdirExactly(s: State, d: Ino, name: string, dbFails: bool)
    requires Good(s) && FromKernel(s, Rmdir(d, name, dbFails))
    ensures var (s', r) := RmdirTo(s, d, name, dbFails);
            && (r.Done? <==> && d < DATA_BASE && InMetadata(Paths(s.inodes), d) && HasChild(s.inodes, d, name)
                             && s.inodes[Child(s.inodes, d, name)].Directory? && !HasChildren(s.inodes, Child(s.inodes, d, name)))
            && (r.Err? ==> s' == s)
            && (r.Done? ==> var i := Child(s.inodes, d, name);
                            && i !in s'.inodes && OnlyNode(s, s', i)
                            && s'.nextIno == s.nextIno && s'.open == s.open && s'.nextFh == s.nextFh)
  {
    NamespaceSides(s, d);
  }

  /** A row more or less for `k`, and a failure recorded or forgotten; no other key. */
  ghost predicate OnlyKey(s: State, s': State, k: Key) {
    && (forall l :: l != k ==> SameRow(s.rows, s'.rows, l) && (l in s'.errors <==> l in s.errors))
    && s'.processing == s.processing && s'.adders == s.adders && s'.nextAdder == s.nextAdder
    && s'.hasDb == s.hasDb && s'.dirs == s.dirs && s'.open == s.open && s'.nextFh == s.nextFh && s'.nextIno == s.nextIno
  }

  ghost predicate UnlinkFinds(s: State, d: Ino, name: string)
    requires Good(s)
  {
    && name != ".stats" && d < DATA_BASE && InMetadata(Paths(s.inodes), d) && HasChild(s.inodes, d, name)
    && s.inodes[Child(s.inodes, d, name)].File?
  }

  lemma UnlinkMeets(s: State, d: Ino, name: string, dbFails: bool)
    requires Good(s) && FromKernel(s, Unlink(d, name, dbFails))
    ensures if UnlinkFinds(s, d, name) then
              && IsMetaFile(s.inodes, Child(s.inodes, d, name))
              && UnlinkTo(s, d, name, dbFails) == RemoveTo(s, Child(s.inodes, d, name), dbFails)
            else UnlinkTo(s, d, name, dbFails).0 == s && UnlinkTo(s, d, name, dbFails).1.Err?
  {
    NamespaceSides(s, d);
    if MetadataChild(s.inodes, d) && !IsDataNamespace(d) && HasChild(s.inodes, d, name) {
      DirInMetadata(s, d);
      ChildIsOurs(s, d, name);
      assert NodeOk(s.inodes, s.nextIno, Child(s.inodes, d, name));
    }
  }

  /** An `unlink` that finds a file succeeds exactly when no add of it is in flight
      and the database does not fail.  The name, the row and the recorded failure
      are then gone, and the bytes stay for the handles there are.  A failing
      database keeps all but the failure. */
  lemma UnlinkExactly(s: State, d: Ino, name: string, dbFails: bool)
    requires Good(s) && FromKernel(s, Unlink(d, name, dbFails))
    ensures var (s', r) := UnlinkTo(s, d, name, dbFails);
            if !UnlinkFinds(s, d, name) then r.Err? && s' == s
            else
              var i := Child(s.inodes, d, name);
              && IsMetaFile(s.inodes, i)
              && var k := FileKey(s, i);
                 var busy := s.hasDb && k in s.processing;
              && (r.Done? <==> !busy && !(s.hasDb && dbFails))
              && OnlyKey(s, s', k) && (forall j :: j != i ==> (j in s'.inodes <==> j in s.inodes))
              && (forall j :: j in s.inodes && j != i ==> s'.inodes[j] == s.inodes[j])
              && (k in s'.errors <==> k in s.errors && busy)
              && (if r.Done? then
                    && k !in s'.rows && (i in s'.inodes <==> IsOpen(s.open, i))
                    && (i in s'.inodes ==> s'.inodes[i] == s.inodes[i].(unlinked := true))
                  else s'.inodes == s.inodes && s'.rows == s.rows)
  {
    UnlinkMeets(s, d, name, dbFails);
  }

  // ── Renames ──────────────────────────────────────────────────────────────

  /** The row of `k` is now that of `l`, whatever `l` had; no other row differs. */
  ghost predicate RowMoved(rows: map<Key, string>, rows': map<Key, string>, k: Key, l: Key) {
    && k in rows && k !in rows' && l in rows' && rows'[l] == rows[k]
    && (forall x :: x != k && x != l ==> SameRow(rows, rows', x))
  }

  /** Only the entry of `i` differs, and it is the file of before under a new name. */
  ghost predicate OnlyEntry(t: Table, t': Table, i: Ino, e: Ino, m: string) {
    && t'.Keys == t.Keys && (forall j :: j in t && j != i ==> t'[j] == t[j])
    && i in t && t'[i] == if t[i].Directory? then Directory(e, m) else t[i].(parent := e, name := m)
  }

  lemma KeyIsNew(s: State, i: Ino, e: Ino, m: string)
    requires Good(s) && IsMetaFile(s.inodes, i)
    requires InMetadata(Paths(s.inodes), e) && e in s.inodes && s.inodes[e].Directory?
    requires IsName(m) && EndsWith(m, TORRENT) && !HasChild(s.inodes, e, m)
    ensures FileKey(s, i) != Key(SourcePath(Paths(s.inodes), e), m)
  {
    FilePlaced(s, i, e, m);
  }

  /** A file renamed to a free name.  It keeps its number and its bytes; where the
      database has its row, the new key gets exactly that row and the old one has
      none.  No other inode and no other row changes. */
  lemma RenameFileMoves(s: State, i: Ino, e: Ino, m: string, dbFails: bool)
    requires Good(s) && IsMetaFile(s.inodes, i)
    requires InMetadata(Paths(s.inodes), e) && e in s.inodes && s.inodes[e].Directory?
    requires IsName(m) && EndsWith(m, TORRENT) && !HasChild(s.inodes, e, m)
    ensures var (s', r) := RenameFileTo(s, i, e, m, dbFails);
            var k, l := FileKey(s, i), Key(SourcePath(Paths(s.inodes), e), m);
            var busy, fails := s.hasDb && k in s.processing, s.hasDb && (dbFails || (k in s.rows && l in s.rows));
            && (r.Done? <==> !busy && !fails)
            && (if busy then s'.inodes == s.inodes else OnlyEntry(s.inodes, s'.inodes, i, e, m))
            && (if r.Done? && k in s.rows then RowMoved(s.rows, s'.rows, k, l) else s'.rows == s.rows && s'.dirs == s.dirs)
            && s' == s.(inodes := s'.inodes, rows := s'.rows, dirs := s'.dirs)
  {
    KeyIsNew(s, i, e, m);
    if FileKey(s, i) in s.rows { RowMovedIs(s.rows, FileKey(s, i), Key(SourcePath(Paths(s.inodes), e), m)); }
  }

  lemma MovedRowsAre(rows: map<Key, string>, from: string, to: string)
    requires !Collides(rows, from, to)
    ensures forall k :: k in rows ==> MovedKey(from, to, k) in MovedRows(rows, from, to) &&
                                      MovedRows(rows, from, to)[MovedKey(from, to, k)] == rows[k]
  {
  }

  lemma EntryIs(t: Table, d: Ino, e: Ino, m: string)
    requires d in t && t[d].Directory?
    ensures OnlyEntry(t, t[d := Directory(e, m)], d, e, m)
  {
  }

  /** Where the rename leaves a row, its bytes are. */
  lemma RowsKeepBytes(s: State, d: Ino, e: Ino, m: string, dbFails: bool)
    requires MovesDirectory(s, d, e, m)
    ensures var rows' := RenameDirTo(s, d, e, m, dbFails).0.rows;
            && rows'.Keys == (set k | k in s.rows :: RowAfter(s, d, e, m, dbFails, k))
            && (forall k :: k in s.rows ==> rows'[RowAfter(s, d, e, m, dbFails, k)] == s.rows[k])
  {
    RowsAfter(s, d, e, m, dbFails);
    if s.hasDb && !RowsStay(s, d, e, m, dbFails) { MovedRowsAre(s.rows, From(s, d), To(s, e, m)); }
  }

  /** A directory renamed.  Of the inodes only its own entry changes; each row of the
      database goes, with its bytes, where the statement sends it, or none does. */
  lemma RenameDirMoves(s: State, d: Ino, e: Ino, m: string, dbFails: bool)
    requires MovesDirectory(s, d, e, m)
    ensures var (s', r) := RenameDirTo(s, d, e, m, dbFails);
            && (r.Done? <==> !RowsStay(s, d, e, m, dbFails))
            && OnlyEntry(s.inodes, s'.inodes, d, e, m)
            && s'.rows.Keys == (set k | k in s.rows :: RowAfter(s, d, e, m, dbFails, k))
            && (forall k :: k in s.rows ==> s'.rows[RowAfter(s, d, e, m, dbFails, k)] == s.rows[k])
            && s' == s.(inodes := s'.inodes, rows := s'.rows, dirs := s'.dirs) && (r.Err? ==> s'.dirs == s.dirs)
  {
    RowsKeepBytes(s, d, e, m, dbFails);
    EntryIs(s.inodes, d, e, m);
  }

  ghost predicate Succeeds(s: State, s': State, i: Ino, target: Ino)
    requires IsMetaFile(s.inodes, i) && IsMetaFile(s.inodes, target)
  {
    && (forall j :: j in s.inodes && j != i && j != target ==> j in s'.inodes && s'.inodes[j] == s.inodes[j])
    && s'.inodes.Keys <= s.inodes.Keys
    && i in s'.inodes && s'.inodes[i] == s.inodes[i].(parent := s.inodes[target].parent, name := s.inodes[target].name)
    && (target in s'.inodes <==> IsOpen(s.open, target))
    && (target in s'.inodes ==> s'.inodes[target] == s.inodes[target].(unlinked := true))
  }

  lemma ReplacedIs(s: State, i: Ino, target: Ino)
    requires Good(s) && IsMetaFile(s.inodes, i) && IsMetaFile(s.inodes, target) && i != target
    ensures Succeeds(s, s.(inodes := Replaced(s, i, target)), i, target)
  {
  }

  lemma RowMovedIs(rows: map<Key, string>, k: Key, l: Key)
    requires k in rows && k != l
    ensures RowMoved(rows, (rows - {k})[l := rows[k]], k, l)
  {
  }

  /** A file renamed over another.  It succeeds exactly when, with a database, neither
      key is in flight, the database does not fail and has the source's row. */
  lemma OverwriteExactly(s: State, i: Ino, target: Ino, dbFails: bool)
    requires Good(s) && IsMetaFile(s.inodes, i) && IsMetaFile(s.inodes, target) && i != target
    ensures var (s', r) := OverwriteTo(s, i, target, dbFails);
            var k, l := FileKey(s, i), FileKey(s, target);
            && (r.Done? <==> !OverwriteRefused(s, i, target, dbFails))
            && (r.Err? ==> s' == s)
            && (r.Done? ==>
                  && Succeeds(s, s', i, target)
                  && (if s.hasDb then RowMoved(s.rows, s'.rows, k, l) else s'.rows == s.rows && s'.dirs == s.dirs)
                  && (forall x :: x in s'.errors <==> x in s.errors && !(s.hasDb && x == l))
                  && s' == s.(inodes := s'.inodes, rows := s'.rows, errors := s'.errors, dirs := s'.dirs))
  {
    assert FileKey(s, i) != FileKey(s, target) by { ReplacedNames(s, i, target); }
    ReplacedIs(s, i, target);
    if FileKey(s, i) in s.rows { RowMovedIs(s.rows, FileKey(s, i), FileKey(s, target)); }
  }

  // ── Adds ─────────────────────────────────────────────────────────────────

  /** An add from its start to its end: a row with its bytes and no recorded failure
      if the insert works, the row as it was and a recorded failure if it does not;
      then its key is free, and nothing else has changed. */
  ghost predicate AddIsOver(s: State, id: nat, ok: bool, s': State)
    requires id in s.adders
  {
    var k, data := s.adders[id].key, s.adders[id].data;
    && SameFront(s, s')
    && (if ok then k in s'.rows && s'.rows[k] == data else SameRow(s.rows, s'.rows, k))
    && (k in s'.errors <==> !ok)
    && (forall l :: l != k ==> SameRow(s.rows, s'.rows, l) && (l in s'.errors <==> l in s.errors))
    && s'.processing == s.processing - {k} && s'.adders == s.adders - {id}
    && s'.dirs == if ok then Ensured(s.dirs, k.sourcePath) else s.dirs
  }

  lemma AddExactly(s: State, id: nat, ok: bool, x: bool, y: bool)
    requires id in s.adders && s.adders[id].phase == Persisting
    ensures var s1 := AdderTo(s, id, ok);
            && id in s1.adders
            && var s2 := AdderTo(s1, id, x);
            && id in s2.adders && AddIsOver(s, id, ok, AdderTo(s2, id, y))
  {
    var a := s.adders[id];
    var s1 := AdderTo(s, id, ok);
    var s2 := AdderTo(s1, id, x);
    assert s1.adders[id] == a.(phase := if ok then Landed else Failed);
    assert s2.adders[id] == a.(phase := Recorded);
    assert AdderTo(s2, id, y).adders == s.adders - {id};
  }
}
