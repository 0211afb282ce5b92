/** The bytes of a file over whole runs: what was written to it is what it holds,
    whatever else happens in between, and what is copied in is what is stored. */
module Buffers {
  import opened Text
  import opened InodeTree
  import opened DirectoryRows
  import opened Protocol
  import opened ProtocolSafety
  import opened RenameSafety
  import opened Runs
  import opened Effects

  // ── One step ─────────────────────────────────────────────────────────────

  ghost predicate IsFile(s: State, i: Ino) { i in s.inodes && i >= FIRST_INO && s.inodes[i].File? }

  predicate WritesTo(ev: Event, i: Ino) { ev.Call? && ev.op.Write? && ev.op.ino == i }

  predicate Resizes(ev: Event, i: Ino) { ev.Call? && ev.op.SetSize? && ev.op.ino == i }

  /** What a step makes of the bytes of `i`: only an accepted write or truncation of
      this very file changes them. */
  ghost function BytesAfter(s: State, ev: Event, i: Ino, data: string): string
    requires IsFile(s, i)
  {
    if WritesTo(ev, i) && Plain(i) && 0 <= ev.op.offset && ev.op.offset + |ev.op.bytes| <= MAX_TORRENT_SIZE then
      Patched(data, ev.op.offset, ev.op.bytes)
    else if Resizes(ev, i) && Plain(i) && ev.op.size.Some? && ev.op.size.value <= MAX_TORRENT_SIZE && s.inodes[i].parent in s.inodes then
      Resized(data, ev.op.size.value)
    else data
  }

  lemma ResizeIs(s: State, i: Ino, size: Option<nat>)
    requires Good(s) && IsFile(s, i)
    ensures var s' := SetSizeTo(s, i, size).0;
            IsFile(s', i) && s'.inodes[i].data == BytesAfter(s, Call(SetSize(i, size)), i, s.inodes[i].data)
  {
    var t, p, f := s.inodes, Paths(s.inodes), s.inodes[i];
    SkeletonLabels(t, s.nextIno, p);
    assert NodeOk(t, s.nextIno, i);
    if f.Linked() { assert LabelOk(t, p, i); }
    if f.parent in t && f.parent != METADATA { assert LabelOk(t, p, f.parent); }
  }

  /** No number comes in, and the files there are keep their bytes; handles are as
      they were. */
  ghost predicate KeepsFiles(s: State, s': State) {
    && s'.inodes.Keys <= s.inodes.Keys && s'.nextIno == s.nextIno && s'.open == s.open && s'.nextFh == s.nextFh
    && s'.hasDb == s.hasDb
    && (forall i :: i in s'.inodes && s.inodes[i].File? ==> s'.inodes[i].File? && s'.inodes[i].data == s.inodes[i].data)
  }

  lemma OverwriteKeepsFiles(s: State, i: Ino, target: Ino, dbFails: bool)
    requires Good(s) && IsMetaFile(s.inodes, i) && IsMetaFile(s.inodes, target) && i != target
    ensures KeepsFiles(s, OverwriteTo(s, i, target, dbFails).0)
  {
    OverwriteExactly(s, i, target, dbFails);
  }

  lemma FileRenameKeepsFiles(s: State, i: Ino, e: Ino, m: string, dbFails: bool)
    requires Good(s) && IsMetaFile(s.inodes, i)
    requires InMetadata(Paths(s.inodes), e) && e in s.inodes && s.inodes[e].Directory?
    requires IsName(m) && EndsWith(m, TORRENT) && !HasChild(s.inodes, e, m)
    ensures KeepsFiles(s, RenameFileTo(s, i, e, m, dbFails).0)
  {
    RenameFileMoves(s, i, e, m, dbFails);
  }

  lemma DirectoryRenameKeepsFiles(s: State, d: Ino, e: Ino, m: string, dbFails: bool)
    requires MovesDirectory(s, d, e, m)
    ensures KeepsFiles(s, RenameDirTo(s, d, e, m, dbFails).0)
  {
    RenameDirMoves(s, d, e, m, dbFails);
  }

  lemma RenameKeepsFiles(s: State, d: Ino, n: string, e: Ino, m: string, dbFails: bool)
    requires Good(s) && FromKernel(s, Rename(d, n, e, m, dbFails))
    ensures KeepsFiles(s, RenameTo(s, d, n, e, m, dbFails).0)
  {
    if !Renames(s, d, n, e, m) {
      RenameRefused(s, d, n, e, m, dbFails);
    } else {
      var i := Child(s.inodes, d, n);
      if HasChild(s.inodes, e, m) {
        var j := Child(s.inodes, e, m);
        RenameToTaken(s, d, n, e, m, dbFails);
        if s.inodes[i].File? && s.inodes[j].File? { OverwriteKeepsFiles(s, i, j, dbFails); }
      } else {
        RenameToFree(s, d, n, e, m, dbFails);
        if s.inodes[i].Directory? {
          DirectoryRenameKeepsFiles(s, i, e, m, dbFails);
        } else if EndsWith(m, TORRENT) {
          FileRenameKeepsFiles(s, i, e, m, dbFails);
        }
      }
    }
  }

  lemma UnlinkKeepsFiles(s: State, d: Ino, n: string, dbFails: bool)
    requires Good(s) && FromKernel(s, Unlink(d, n, dbFails))
    ensures KeepsFiles(s, UnlinkTo(s, d, n, dbFails).0)
  {
    UnlinkExactly(s, d, n, dbFails);
  }

  /** A close takes its handle away, and at most the file it was on. */
  lemma CloseKeepsFiles(s: State, fh: nat, parses: bool, dbFails: bool)
    requires Good(s)
    ensures var s' := ReleaseTo(s, fh, parses, dbFails).0;
            && KeepsFiles(s, s'.(open := s.open)) && s'.open == s.open - {fh}
  {
    if fh in s.open && IsMetaFile(s.inodes, s.open[fh]) {
      CloseExactly(s, fh, parses, dbFails);
    } else if fh !in s.open {
      assert s.open - {fh} == s.open;
    }
  }

  lemma BytesStep(s: State, ev: Event, i: Ino)
    requires Good(s) && Enabled(s, ev) && IsFile(s, i)
    ensures i in After(s, ev).inodes ==>
              IsFile(After(s, ev), i) && After(s, ev).inodes[i].data == BytesAfter(s, ev, i, s.inodes[i].data)
  {
    match ev
    case Background(id, ok) => AdderWrites(s, id, ok);
    case Call(op) =>
      match op
      case SetSize(j, size) => if j == i { ResizeIs(s, i, size); }
      case Rename(d, n, e, m, dbFails) => RenameKeepsFiles(s, d, n, e, m, dbFails);
      case Unlink(d, n, dbFails) => UnlinkKeepsFiles(s, d, n, dbFails);
      case Release(fh, parses, dbFails) => CloseKeepsFiles(s, fh, parses, dbFails);
      case Write(j, offset, bytes) => WriteIs(s, j, offset, bytes, i);
      case _ => NodesKeepFiles(s, op);
  }

  lemma WriteIs(s: State, j: Ino, offset: int, bytes: string, i: Ino)
    requires Good(s) && IsFile(s, i)
    ensures var s' := WriteTo(s, j, offset, bytes).0;
            IsFile(s', i) && s'.inodes[i].data == BytesAfter(s, Call(Write(j, offset, bytes)), i, s.inodes[i].data)
  {
    WriteExactly(s, j, offset, bytes);
  }

  /** Calls that make or remove names, and `open`: every file there is stays as it
      is, and numbers come from the counters. */
  lemma NodesKeepFiles(s: State, op: Op)
    requires Good(s) && FromKernel(s, op) && (op.Create? || op.Mkdir? || op.Rmdir? || op.Open?)
    ensures var s' := Commit(s, op).0;
            && s'.hasDb == s.hasDb && s'.nextIno >= s.nextIno && s'.nextFh >= s.nextFh
            && (forall i :: i in s.inodes && s.inodes[i].File? ==> i in s'.inodes && s'.inodes[i] == s.inodes[i])
            && (forall i :: i in s'.inodes && i < s.nextIno ==> i in s.inodes)
            && (forall fh :: fh in s'.open && fh < s.nextFh ==> fh in s.open && s'.open[fh] == s.open[fh])
  {
    match op
    case Create(d, n, handle) => CreateExactly(s, d, n, handle);
    case Mkdir(d, n, dbFails) => MkdirExactly(s, d, n, dbFails);
    case Rmdir(d, n, dbFails) => RmdirExactly(s, d, n, dbFails);
    case Open(i, dataFile) => OpenExactly(s, i, dataFile);
  }

  /** Numbers of inodes and handles are never given out again. */
  lemma NotReused(s: State, ev: Event)
    requires Good(s) && Enabled(s, ev)
    ensures var s' := After(s, ev);
            && s'.hasDb == s.hasDb && s'.nextIno >= s.nextIno && s'.nextFh >= s.nextFh
            && (forall i :: i in s'.inodes && i < s.nextIno ==> i in s.inodes)
            && (forall fh :: fh in s'.open && fh < s.nextFh ==> fh in s.open && s'.open[fh] == s.open[fh])
  {
    match ev
    case Background(id, ok) => AdderWrites(s, id, ok);
    case Call(op) =>
      match op
      case Rename(d, n, e, m, dbFails) => RenameKeepsFiles(s, d, n, e, m, dbFails);
      case Unlink(d, n, dbFails) => UnlinkKeepsFiles(s, d, n, dbFails);
      case Release(fh, parses, dbFails) => CloseKeepsFiles(s, fh, parses, dbFails);
      case Write(i, offset, bytes) => WriteExactly(s, i, offset, bytes);
      case SetSize(i, size) =>
      case _ => NodesKeepFiles(s, op);
  }

  // ── Runs ─────────────────────────────────────────────────────────────────

  /** The bytes of `i` after a run, told from the calls on this file alone. */
  ghost function Replay(s: State, events: seq<Event>, i: Ino, data: string): string
    requires Good(s)
    decreases |events|
  {
    if events == [] || !IsFile(s, i) || !Enabled(s, events[0]) then data
    else
      StepGood(s, events[0]);
      Replay(After(s, events[0]), events[1..], i, BytesAfter(s, events[0], i, data))
  }

  lemma {:induction false} GoneForGood(s: State, events: seq<Event>, s': State, i: Ino)
    requires Good(s) && Reaches(s, events, s') && i < s.nextIno && i in s'.inodes
    ensures i in s.inodes
    decreases |events|
  {
    if events != [] {
      StepGood(s, events[0]);
      NotReused(s, events[0]);
      GoneForGood(After(s, events[0]), events[1..], s', i);
    }
  }

  /** A file that is there at the end of a run is there after its first step. */
  lemma FileGoesOn(s: State, events: seq<Event>, s': State, i: Ino)
    requires Good(s) && events != [] && Reaches(s, events, s') && IsFile(s, i) && i in s'.inodes
    ensures var s1 := After(s, events[0]);
            Good(s1) && IsFile(s1, i) && s1.inodes[i].data == BytesAfter(s, events[0], i, s.inodes[i].data)
  {
    assert NodeOk(s.inodes, s.nextIno, i);
    StepGood(s, events[0]);
    NotReused(s, events[0]);
    GoneForGood(After(s, events[0]), events[1..], s', i);
    BytesStep(s, events[0], i);
  }

  /** However calls and adds interleave, a file holds what its own accepted writes
      and truncations, in their order, make of the bytes it had. */
  lemma {:induction false} BytesAreReplayed(s: State, events: seq<Event>, s': State, i: Ino)
    requires Good(s) && Reaches(s, events, s') && IsFile(s, i) && i in s'.inodes
    ensures IsFile(s', i) && s'.inodes[i].data == Replay(s, events, i, s.inodes[i].data)
    decreases |events|
  {
    if events != [] {
      FileGoesOn(s, events, s', i);
      BytesAreReplayed(After(s, events[0]), events[1..], s', i);
    }
  }

  function Concat(chunks: seq<string>): string {
    if chunks == [] then "" else chunks[0] + Concat(chunks[1..])
  }

  /** The calls on the bytes of `i` are writes of these chunks, one after the other
      from `at` on; any other calls may come in between. */
  ghost predicate InOrder(events: seq<Event>, i: Ino, at: nat, chunks: seq<string>)
    decreases |events|
  {
    if events == [] then chunks == []
    else if WritesTo(events[0], i) then
      && chunks != [] && events[0].op.offset == at && events[0].op.bytes == chunks[0]
      && InOrder(events[1..], i, at + |chunks[0]|, chunks[1..])
    else !Resizes(events[0], i) && InOrder(events[1..], i, at, chunks)
  }

  lemma PatchAtEnd(data: string, bytes: string)
    ensures Patched(data, |data|, bytes) == data + bytes
  {
    PatchedHasWritten(data, |data|, bytes);
    var r := Patched(data, |data|, bytes);
    assert forall x :: |data| <= x < |r| ==> r[x] == r[|data| + (x - |data|)];
  }

  /** A file copied in chunk by chunk holds their concatenation. */
  lemma {:induction false} ChunksAreConcatenated(s: State, events: seq<Event>, s': State, i: Ino, chunks: seq<string>)
    requires Good(s) && Reaches(s, events, s') && IsFile(s, i) && Plain(i) && i in s'.inodes
    requires InOrder(events, i, |s.inodes[i].data|, chunks)
    requires |s.inodes[i].data + Concat(chunks)| <= MAX_TORRENT_SIZE
    ensures IsFile(s', i) && s'.inodes[i].data == s.inodes[i].data + Concat(chunks)
    decreases |events|
  {
    var data := s.inodes[i].data;
    if events == [] {
      assert data + "" == data;
    } else {
      var ev, s1 := events[0], After(s, events[0]);
      FileGoesOn(s, events, s', i);
      if WritesTo(ev, i) {
        PatchAtEnd(data, chunks[0]);
        assert data + Concat(chunks) == (data + chunks[0]) + Concat(chunks[1..]);
        ChunksAreConcatenated(s1, events[1..], s', i, chunks[1..]);
      } else {
        ChunksAreConcatenated(s1, events[1..], s', i, chunks);
      }
    }
  }

  lemma {:induction false} HandleStays(s: State, events: seq<Event>, s': State, fh: nat)
    requires Good(s) && Reaches(s, events, s') && fh < s.nextFh && fh in s'.open
    ensures fh in s.open && s'.open[fh] == s.open[fh]
    decreases |events|
  {
    if events != [] {
      StepGood(s, events[0]);
      NotReused(s, events[0]);
      HandleStays(After(s, events[0]), events[1..], s', fh);
    }
  }

  /** Copying a torrent in: a file is created, its chunks are written through the
      handle while anything else goes on, and it is closed.  Once its add is over
      the database holds the concatenation of the chunks under the key the file
      was closed with. */
  lemma CopyIsStored(s0: State, d: Ino, name: string, during: seq<Event>, s: State, chunks: seq<string>,
                     dbFails: bool, after: seq<Event>, s': State)
    requires Good(s0) && s0.hasDb && FromKernel(s0, Create(d, name, true)) && CreateTo(s0, d, name, true).1.Done?
    requires Good(CreateTo(s0, d, name, true).0) && Reaches(CreateTo(s0, d, name, true).0, during, s)
    requires Good(s) && s0.nextIno < DATA_BASE && InOrder(during, s0.nextIno, 0, chunks) && 0 < |Concat(chunks)| <= MAX_TORRENT_SIZE
    requires s0.nextFh in s.open && IsMetaFile(s.inodes, s0.nextIno) && FileKey(s, s0.nextIno) !in s.processing
    requires Good(ReleaseTo(s, s0.nextFh, true, dbFails).0) && Reaches(ReleaseTo(s, s0.nextFh, true, dbFails).0, after, s')
    requires AllInsert(after) && NoneTouches(ReleaseTo(s, s0.nextFh, true, dbFails).0, after, FileKey(s, s0.nextIno))
    requires FileKey(s, s0.nextIno) !in s'.processing
    ensures FileKey(s, s0.nextIno) in s'.rows && s'.rows[FileKey(s, s0.nextIno)] == Concat(chunks)
  {
    var i, fh, s1 := s0.nextIno, s0.nextFh, CreateTo(s0, d, name, true).0;
    CreateExactly(s0, d, name, true);
    assert NodeOk(s1.inodes, s1.nextIno, i);
    HandleStays(s1, during, s, fh);
    assert "" + Concat(chunks) == Concat(chunks);
    ChunksAreConcatenated(s1, during, s, i, chunks);
    HasDbStays(s1, during, s);
    LandsWhatWasClosed(s, fh, dbFails, after, s');
  }

  lemma {:induction false} HasDbStays(s: State, events: seq<Event>, s': State)
    requires Good(s) && Reaches(s, events, s')
    ensures s'.hasDb == s.hasDb
    decreases |events|
  {
    if events != [] {
      StepGood(s, events[0]);
      NotReused(s, events[0]);
      HasDbStays(After(s, events[0]), events[1..], s');
    }
  }
}
