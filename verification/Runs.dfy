/** Whole runs of the namespace protocol: what holds in every reachable state. */
module Runs {
  import opened Text
  import opened InodeTree
  import opened DirectoryRows
  import opened Protocol
  import opened ProtocolSafety
  import opened RenameSafety

  // ── One step ─────────────────────────────────────────────────────────────

  /** What a rename has found once its guards passed: both directories below
      `metadata/`, and the inode called `n`. */
  ghost predicate Renames(s: State, d: Ino, n: string, e: Ino, m: string)
    requires Good(s)
  {
    && !IsDataNamespace(d) && !IsDataNamespace(e)
    && MetadataChild(s.inodes, d) && MetadataChild(s.inodes, e)
    && d in s.inodes && e in s.inodes && HasChild(s.inodes, d, n)
    && (HasChild(s.inodes, e, m) ==> Child(s.inodes, e, m) != Child(s.inodes, d, n))
  }

  /** The source of a rename, with everything the transition needs to know of it. */
  lemma RenameSource(s: State, d: Ino, n: string, e: Ino, m: string, dbFails: bool)
    requires Good(s) && FromKernel(s, Rename(d, n, e, m, dbFails)) && Renames(s, d, n, e, m)
    ensures var p, i := Paths(s.inodes), Child(s.inodes, d, n);
            && InMetadata(p, d) && InMetadata(p, e) && s.inodes[e].Directory?
            && i >= FIRST_INO && i in p && InMetadata(p, i)
            && (s.inodes[i].File? ==> IsMetaFile(s.inodes, i))
            && (s.inodes[i].Directory? && !HasChild(s.inodes, e, m) ==> MovesDirectory(s, i, e, m))
  {
    DirInMetadata(s, d);
    DirInMetadata(s, e);
    ChildIsOurs(s, d, n);
  }

  /** A rename that does not get past its guards changes nothing. */
  lemma RenameRefused(s: State, d: Ino, n: string, e: Ino, m: string, dbFails: bool)
    requires Good(s) && FromKernel(s, Rename(d, n, e, m, dbFails)) && !Renames(s, d, n, e, m)
    ensures RenameTo(s, d, n, e, m, dbFails).0 == s
  {
  }

  lemma RenameToTaken(s: State, d: Ino, n: string, e: Ino, m: string, dbFails: bool)
    requires Good(s) && FromKernel(s, Rename(d, n, e, m, dbFails)) && Renames(s, d, n, e, m) && HasChild(s.inodes, e, m)
    ensures var i, j := Child(s.inodes, d, n), Child(s.inodes, e, m);
            if s.inodes[i].Directory? || s.inodes[j].Directory? then RenameTo(s, d, n, e, m, dbFails).0 == s
            else IsMetaFile(s.inodes, i) && IsMetaFile(s.inodes, j) &&
                 RenameTo(s, d, n, e, m, dbFails) == OverwriteTo(s, i, j, dbFails)
  {
    var i, j := Child(s.inodes, d, n), Child(s.inodes, e, m);
    RenameSource(s, d, n, e, m, dbFails);
    ChildIsOurs(s, e, m);
    assert NodeOk(s.inodes, s.nextIno, i) && NodeOk(s.inodes, s.nextIno, j);
  }

  lemma RenameToFree(s: State, d: Ino, n: string, e: Ino, m: string, dbFails: bool)
    requires Good(s) && FromKernel(s, Rename(d, n, e, m, dbFails)) && Renames(s, d, n, e, m) && !HasChild(s.inodes, e, m)
    ensures var i := Child(s.inodes, d, n);
            if s.inodes[i].Directory? then
              MovesDirectory(s, i, e, m) && RenameTo(s, d, n, e, m, dbFails) == RenameDirTo(s, i, e, m, dbFails)
            else
              && IsMetaFile(s.inodes, i) && InMetadata(Paths(s.inodes), e) && s.inodes[e].Directory?
              && (EndsWith(m, TORRENT) ==> RenameTo(s, d, n, e, m, dbFails) == RenameFileTo(s, i, e, m, dbFails))
              && (!EndsWith(m, TORRENT) ==> RenameTo(s, d, n, e, m, dbFails) == (s, Err(InvalidArgument)))
  {
    var i := Child(s.inodes, d, n);
    RenameSource(s, d, n, e, m, dbFails);
    assert NodeOk(s.inodes, s.nextIno, i);
  }

  lemma RenameGood(s: State, d: Ino, n: string, e: Ino, m: string, dbFails: bool)
    requires Good(s) && FromKernel(s, Rename(d, n, e, m, dbFails))
    ensures Good(RenameTo(s, d, n, e, m, dbFails).0)
  {
    if !Renames(s, d, n, e, m) {
      RenameRefused(s, d, n, e, m, dbFails);
    } else if HasChild(s.inodes, e, m) {
      var i, j := Child(s.inodes, d, n), Child(s.inodes, e, m);
      RenameToTaken(s, d, n, e, m, dbFails);
      if s.inodes[i].File? && s.inodes[j].File? { OverwriteGood(s, i, j, dbFails); }
    } else {
      var i := Child(s.inodes, d, n);
      RenameToFree(s, d, n, e, m, dbFails);
      if s.inodes[i].Directory? {
        DirectoryMoved(s, i, e, m, dbFails);
      } else if EndsWith(m, TORRENT) {
        RenameFileGood(s, i, e, m, dbFails);
      }
    }
  }

  /** Every step of every call and every adder leads to a good state. */
  lemma StepGood(s: State, ev: Event)
    requires Good(s) && Enabled(s, ev)
    ensures Good(After(s, ev))
  {
    match ev
    case Background(id, ok) => AdderKeeps(s, id, ok);
    case Call(op) =>
      match op
      case Create(d, n, handle) => CreateKeeps(s, d, n, handle);
      case Mkdir(d, n, dbFails) => MkdirKeeps(s, d, n, dbFails);
      case Rmdir(d, n, dbFails) => RmdirKeeps(s, d, n, dbFails);
      case Open(i, dataFile) => OpenKeeps(s, i, dataFile);
      case Write(i, offset, bytes) => WriteKeeps(s, i, offset, bytes);
      case SetSize(i, size) => SetSizeKeeps(s, i, size);
      case Release(fh, parses, dbFails) => ReleaseKeeps(s, fh, parses, dbFails);
      case Unlink(d, n, dbFails) => UnlinkKeeps(s, d, n, dbFails);
      case Rename(d, n, e, m, dbFails) => RenameGood(s, d, n, e, m, dbFails);
  }

  /** The renames that orphan nothing: to a free name, the database must not fail
      on the row of a file, and a directory must be one that may move. */
  ghost predicate Careful(s: State, ev: Event)
    requires Good(s) && Enabled(s, ev)
  {
    ev.Call? && ev.op.Rename? && Renames(s, ev.op.parent, ev.op.name, ev.op.newparent, ev.op.newname) ==>
      var d, n, e, m, dbFails := ev.op.parent, ev.op.name, ev.op.newparent, ev.op.newname, ev.op.dbFails;
      RenameSource(s, d, n, e, m, dbFails);
      var i := Child(s.inodes, d, n);
      !HasChild(s.inodes, e, m) ==>
        if s.inodes[i].Directory? then MayMove(s, i, e, m, dbFails)
        else EndsWith(m, TORRENT) ==> !LosesRow(s, i, dbFails)
  }

  lemma RenameClean(s: State, d: Ino, n: string, e: Ino, m: string, dbFails: bool)
    requires Good(s) && Clean(s) && FromKernel(s, Rename(d, n, e, m, dbFails))
    requires Careful(s, Call(Rename(d, n, e, m, dbFails)))
    ensures Good(RenameTo(s, d, n, e, m, dbFails).0) && Clean(RenameTo(s, d, n, e, m, dbFails).0)
  {
    if !Renames(s, d, n, e, m) {
      RenameRefused(s, d, n, e, m, dbFails);
    } else if HasChild(s.inodes, e, m) {
      var i, j := Child(s.inodes, d, n), Child(s.inodes, e, m);
      RenameToTaken(s, d, n, e, m, dbFails);
      if s.inodes[i].File? && s.inodes[j].File? { OverwriteKeeps(s, i, j, dbFails); }
    } else {
      var i := Child(s.inodes, d, n);
      RenameToFree(s, d, n, e, m, dbFails);
      if s.inodes[i].Directory? {
        RenameDirExactly(s, i, e, m, dbFails);
      } else if EndsWith(m, TORRENT) {
        RenameFileExactly(s, i, e, m, dbFails);
      }
    }
  }

  lemma StepClean(s: State, ev: Event)
    requires Good(s) && Enabled(s, ev) && Clean(s) && Careful(s, ev)
    ensures Good(After(s, ev)) && Clean(After(s, ev))
  {
    match ev
    case Background(id, ok) => AdderKeeps(s, id, ok);
    case Call(op) =>
      match op
      case Create(d, n, handle) => CreateKeeps(s, d, n, handle);
      case Mkdir(d, n, dbFails) => MkdirKeeps(s, d, n, dbFails);
      case Rmdir(d, n, dbFails) => RmdirKeeps(s, d, n, dbFails);
      case Open(i, dataFile) => OpenKeeps(s, i, dataFile);
      case Write(i, offset, bytes) => WriteKeeps(s, i, offset, bytes);
      case SetSize(i, size) => SetSizeKeeps(s, i, size);
      case Release(fh, parses, dbFails) => ReleaseKeeps(s, fh, parses, dbFails);
      case Unlink(d, n, dbFails) => UnlinkKeeps(s, d, n, dbFails);
      case Rename(d, n, e, m, dbFails) => RenameClean(s, d, n, e, m, dbFails);
  }

  // ── Recorded failures ────────────────────────────────────────────────────

  /** The renames that leave no recorded failure behind: those of a file or a
      directory without one, and those that are refused. */
  ghost predicate LeavesNoFailure(s: State, ev: Event)
    requires Good(s) && Enabled(s, ev)
  {
    ev.Call? && ev.op.Rename? && Renames(s, ev.op.parent, ev.op.name, ev.op.newparent, ev.op.newname) ==>
      var d, n, e, m, dbFails := ev.op.parent, ev.op.name, ev.op.newparent, ev.op.newname, ev.op.dbFails;
      RenameSource(s, d, n, e, m, dbFails);
      var i := Child(s.inodes, d, n);
      if HasChild(s.inodes, e, m) then
        ChildIsOurs(s, e, m);
        var j := Child(s.inodes, e, m);
        s.inodes[i].File? && s.inodes[j].File? ==> FileKey(s, i) !in s.errors || OverwriteRefused(s, i, j, dbFails)
      else if s.inodes[i].Directory? then NoKeyUnder(s.errors, From(s, i))
      else EndsWith(m, TORRENT) ==> FileKey(s, i) !in s.errors || (s.hasDb && FileKey(s, i) in s.processing)
  }

  lemma ReportedOnTaken(s: State, d: Ino, n: string, e: Ino, m: string, dbFails: bool)
    requires Good(s) && Reported(s) && FromKernel(s, Rename(d, n, e, m, dbFails))
    requires Renames(s, d, n, e, m) && HasChild(s.inodes, e, m)
    ensures var s' := RenameTo(s, d, n, e, m, dbFails).0;
            Good(s') && (Reported(s') <==> LeavesNoFailure(s, Call(Rename(d, n, e, m, dbFails))))
  {
    var i, j := Child(s.inodes, d, n), Child(s.inodes, e, m);
    RenameToTaken(s, d, n, e, m, dbFails);
    if s.inodes[i].File? && s.inodes[j].File? { StaleFailureOnOverwrite(s, i, j, dbFails); }
  }

  lemma ReportedOnFree(s: State, d: Ino, n: string, e: Ino, m: string, dbFails: bool)
    requires Good(s) && Reported(s) && FromKernel(s, Rename(d, n, e, m, dbFails))
    requires Renames(s, d, n, e, m) && !HasChild(s.inodes, e, m)
    ensures var s' := RenameTo(s, d, n, e, m, dbFails).0;
            Good(s') && (Reported(s') <==> LeavesNoFailure(s, Call(Rename(d, n, e, m, dbFails))))
  {
    var i := Child(s.inodes, d, n);
    RenameToFree(s, d, n, e, m, dbFails);
    if s.inodes[i].Directory? {
      StaleFailureOnDirectory(s, i, e, m, dbFails);
    } else if EndsWith(m, TORRENT) {
      StaleFailureExactly(s, i, e, m, dbFails);
    }
  }

  lemma RenameReported(s: State, d: Ino, n: string, e: Ino, m: string, dbFails: bool)
    requires Good(s) && Reported(s) && FromKernel(s, Rename(d, n, e, m, dbFails))
    ensures var s' := RenameTo(s, d, n, e, m, dbFails).0;
            Good(s') && (Reported(s') <==> LeavesNoFailure(s, Call(Rename(d, n, e, m, dbFails))))
  {
    if !Renames(s, d, n, e, m) {
      RenameRefused(s, d, n, e, m, dbFails);
    } else if HasChild(s.inodes, e, m) {
      ReportedOnTaken(s, d, n, e, m, dbFails);
    } else {
      ReportedOnFree(s, d, n, e, m, dbFails);
    }
  }

  /** Only such renames make a recorded failure outlive the name it was recorded for. */
  lemma StepReported(s: State, ev: Event)
    requires Good(s) && Enabled(s, ev) && Clean(s) && Reported(s)
    ensures Good(After(s, ev)) && (Reported(After(s, ev)) <==> LeavesNoFailure(s, ev))
  {
    match ev
    case Background(id, ok) => AdderKeeps(s, id, ok);
    case Call(op) =>
      match op
      case Create(d, n, handle) => CreateKeeps(s, d, n, handle);
      case Mkdir(d, n, dbFails) => MkdirKeeps(s, d, n, dbFails);
      case Rmdir(d, n, dbFails) => RmdirKeeps(s, d, n, dbFails);
      case Open(i, dataFile) => OpenKeeps(s, i, dataFile);
      case Write(i, offset, bytes) => WriteKeeps(s, i, offset, bytes);
      case SetSize(i, size) => SetSizeKeeps(s, i, size);
      case Release(fh, parses, dbFails) => ReleaseKeeps(s, fh, parses, dbFails);
      case Unlink(d, n, dbFails) => UnlinkKeeps(s, d, n, dbFails);
      case Rename(d, n, e, m, dbFails) => RenameReported(s, d, n, e, m, dbFails);
  }

  // ── Runs ─────────────────────────────────────────────────────────────────

  /** `s'` is reached from `s` by these events, each possible in its turn. */
  ghost predicate Reaches(s: State, events: seq<Event>, s': State)
    requires Good(s)
    decreases |events|
  {
    if events == [] then s' == s
    else Enabled(s, events[0]) && (StepGood(s, events[0]); Reaches(After(s, events[0]), events[1..], s'))
  }

  /** What the adders did is part of a run. */
  lemma {:induction false} SettlingIsARun(s: State, moves: seq<Move>, s': State)
    requires Good(s) && Settles(s, moves, s')
    ensures Reaches(s, seq(|moves|, i requires 0 <= i < |moves| => Background(moves[i].id, moves[i].ok)), s')
    decreases |moves|
  {
    var events := seq(|moves|, i requires 0 <= i < |moves| => Background(moves[i].id, moves[i].ok));
    if moves != [] {
      var next := AdderTo(s, moves[0].id, moves[0].ok);
      StepGood(s, events[0]);
      SettlingIsARun(next, moves[1..], s');
      assert events[1..] == seq(|moves[1..]|, i requires 0 <= i < |moves[1..]| => Background(moves[1..][i].id, moves[1..][i].ok));
    }
  }

  ghost predicate AllCareful(s: State, events: seq<Event>)
    requires Good(s)
    decreases |events|
  {
    events == [] ||
    (Enabled(s, events[0]) && Careful(s, events[0]) &&
     (StepGood(s, events[0]); AllCareful(After(s, events[0]), events[1..])))
  }

  lemma StartGood(s: State)
    requires Start(s)
    ensures Good(s) && Clean(s) && Reported(s)
  {
    StartIsTree();
  }

  /** Every reachable state is a tree with unique paths, keeps unlinked files only
      for their handles, and has one adder per in-flight key. */
  lemma {:induction false} ReachableIsGood(s: State, events: seq<Event>, s': State)
    requires Good(s) && Reaches(s, events, s')
    ensures Good(s')
    decreases |events|
  {
    if events != [] {
      StepGood(s, events[0]);
      ReachableIsGood(After(s, events[0]), events[1..], s');
    }
  }

  /** Some run from a fresh mount leads here. */
  ghost predicate Reachable(s: State) {
    exists s0, events :: Start(s0) && (StartGood(s0); Reaches(s0, events, s))
  }

  lemma FirstStep(s: State, ev: Event, rest: seq<Event>, s': State)
    requires Good(s) && Enabled(s, ev) && Good(After(s, ev)) && Reaches(After(s, ev), rest, s')
    ensures Reaches(s, [ev] + rest, s')
  {
    assert ([ev] + rest)[0] == ev && ([ev] + rest)[1..] == rest;
  }

  lemma {:induction false} RunGoesOn(s: State, events: seq<Event>, mid: State, more: seq<Event>, s': State) returns (all: seq<Event>)
    requires Good(s) && Good(mid) && Reaches(s, events, mid) && Reaches(mid, more, s')
    ensures Reaches(s, all, s')
    decreases |events|
  {
    if events == [] {
      all := more;
    } else {
      StepGood(s, events[0]);
      var rest := RunGoesOn(After(s, events[0]), events[1..], mid, more, s');
      FirstStep(s, events[0], rest, s');
      all := [events[0]] + rest;
    }
  }

  lemma OneMoreStep(s: State, ev: Event)
    requires Good(s) && Reachable(s) && Enabled(s, ev)
    ensures Good(After(s, ev)) && Reachable(After(s, ev))
  {
    var s0, events :| Start(s0) && (StartGood(s0); Reaches(s0, events, s));
    StartGood(s0);
    StepGood(s, ev);
    FirstStep(s, ev, [], After(s, ev));
    var all := RunGoesOn(s0, events, s, [ev] + [], After(s, ev));
  }

  /** No run of careful renames ever leaves a row or an in-flight key without its
      file. */
  lemma {:induction false} NoOrphanMirror(s: State, events: seq<Event>, s': State)
    requires Good(s) && Clean(s) && Reaches(s, events, s') && AllCareful(s, events)
    ensures Good(s') && Clean(s')
    decreases |events|
  {
    if events != [] {
      StepClean(s, events[0]);
      NoOrphanMirror(After(s, events[0]), events[1..], s');
    }
  }

  ghost predicate AllLeaveNoFailure(s: State, events: seq<Event>)
    requires Good(s)
    decreases |events|
  {
    events == [] ||
    (Enabled(s, events[0]) && LeavesNoFailure(s, events[0]) &&
     (StepGood(s, events[0]); AllLeaveNoFailure(After(s, events[0]), events[1..])))
  }

  /** In such runs every recorded failure names a file, so that removing or
      replacing that file is enough to clear it. */
  lemma {:induction false} NoStaleFailure(s: State, events: seq<Event>, s': State)
    requires Good(s) && Clean(s) && Reported(s) && Reaches(s, events, s')
    requires AllCareful(s, events) && AllLeaveNoFailure(s, events)
    ensures Good(s') && Reported(s')
    decreases |events|
  {
    if events != [] {
      StepClean(s, events[0]);
      StepReported(s, events[0]);
      NoStaleFailure(After(s, events[0]), events[1..], s');
    }
  }

  // ── Removal is final ─────────────────────────────────────────────────────

  /** Nothing in the database and nothing on its way there for this key. */
  ghost predicate Quiet(s: State, k: Key) { k !in s.rows && k !in s.processing }

  /** A successful `unlink` leaves its key quiet. */
  lemma UnlinkIsQuiet(s: State, d: Ino, n: string, dbFails: bool)
    requires Good(s) && FromKernel(s, Unlink(d, n, dbFails))
    requires UnlinkTo(s, d, n, dbFails).1.Done?
    ensures MetadataChild(s.inodes, d) && InMetadata(Paths(s.inodes), d)
    ensures Quiet(UnlinkTo(s, d, n, dbFails).0, Key(SourcePath(Paths(s.inodes), d), n))
    ensures !HasChild(UnlinkTo(s, d, n, dbFails).0.inodes, d, n)
  {
    var s', i := UnlinkTo(s, d, n, dbFails).0, Child(s.inodes, d, n);
    DirInMetadata(s, d);
    ChildIsOurs(s, d, n);
    if !s.hasDb { NoDbNoKeys(s); }
    forall j | IsChild(s'.inodes, d, n, j) ensures false {
      assert SameEntry(s.inodes, i, j);
    }
  }

  /** So does a `release` that discards what was written. */
  lemma DiscardIsQuiet(s: State, fh: nat, parses: bool, dbFails: bool)
    requires Good(s) && fh in s.open && IsMetaFile(s.inodes, s.open[fh])
    requires s.open[fh] !in ReleaseTo(s, fh, parses, dbFails).0.inodes
    ensures Quiet(ReleaseTo(s, fh, parses, dbFails).0, FileKey(s, s.open[fh]))
  {
  }

  /** The calls that may bring a key back: closing the file that has it, and
      renaming onto it or onto a directory above it. */
  ghost predicate Targets(s: State, ev: Event, k: Key)
    requires Good(s) && Enabled(s, ev)
  {
    && ev.Call?
    && match ev.op
       case Release(fh, _, _) => fh in s.open && IsMetaFile(s.inodes, s.open[fh]) && FileKey(s, s.open[fh]) == k
       case Rename(d, n, e, m, _) =>
         InMetadata(Paths(s.inodes), e) &&
         (k == Key(SourcePath(Paths(s.inodes), e), m) || Under(k.sourcePath, To(s, e, m)))
       case _ => false
  }

  lemma MovedRowsAreUnder(rows: map<Key, string>, from: string, to: string, k: Key)
    requires k !in rows && !Under(k.sourcePath, to) && !Collides(rows, from, to)
    ensures k !in MovedRows(rows, from, to)
  {
    forall r | r in rows ensures MovedKey(from, to, r) != k {
      var q := SqlMoved(from, to, r.sourcePath);
      assert q == r.sourcePath || Under(q, to);
    }
  }

  lemma DirectoryRenameStaysQuiet(s: State, i: Ino, e: Ino, m: string, dbFails: bool, k: Key)
    requires MovesDirectory(s, i, e, m) && Quiet(s, k) && !Under(k.sourcePath, To(s, e, m))
    ensures Quiet(RenameDirTo(s, i, e, m, dbFails).0, k)
  {
    if !Collides(s.rows, From(s, i), To(s, e, m)) { MovedRowsAreUnder(s.rows, From(s, i), To(s, e, m), k); }
  }

  lemma RenameStaysQuiet(s: State, d: Ino, n: string, e: Ino, m: string, dbFails: bool, k: Key)
    requires Good(s) && FromKernel(s, Rename(d, n, e, m, dbFails)) && Quiet(s, k)
    requires !Targets(s, Call(Rename(d, n, e, m, dbFails)), k)
    ensures Quiet(RenameTo(s, d, n, e, m, dbFails).0, k)
  {
    if !Renames(s, d, n, e, m) {
      RenameRefused(s, d, n, e, m, dbFails);
    } else if HasChild(s.inodes, e, m) {
      RenameToTaken(s, d, n, e, m, dbFails);
      RenameSource(s, d, n, e, m, dbFails);
    } else {
      var i := Child(s.inodes, d, n);
      RenameToFree(s, d, n, e, m, dbFails);
      if s.inodes[i].Directory? { DirectoryRenameStaysQuiet(s, i, e, m, dbFails, k); }
    }
  }

  lemma NamesOnly(s: State, op: Op)
    requires Good(s) && FromKernel(s, op) && (op.Create? || op.Mkdir? || op.Rmdir?)
    ensures var s' := Commit(s, op).0;
            s' == s.(inodes := s'.inodes, nextIno := s'.nextIno, open := s'.open, nextFh := s'.nextFh, dirs := s'.dirs)
  {
  }

  /** Only closing, unlinking and renaming touch rows or the in-flight set. */
  lemma RowsUntouched(s: State, op: Op)
    requires Good(s) && FromKernel(s, op) && !op.Release? && !op.Unlink? && !op.Rename?
    ensures var s' := Commit(s, op).0; s'.rows == s.rows && s'.processing == s.processing && s'.adders == s.adders
  {
    match op
    case Create(_, _, _) => NamesOnly(s, op);
    case Mkdir(_, _, _) => NamesOnly(s, op);
    case Rmdir(_, _, _) => NamesOnly(s, op);
    case Open(_, _) =>
    case Write(_, _, _) =>
    case SetSize(_, _) =>
  }

  lemma CloseStaysQuiet(s: State, fh: nat, parses: bool, dbFails: bool, k: Key)
    requires Good(s) && Quiet(s, k) && !Targets(s, Call(Release(fh, parses, dbFails)), k)
    ensures Quiet(ReleaseTo(s, fh, parses, dbFails).0, k)
  {
  }

  lemma StepStaysQuiet(s: State, ev: Event, k: Key)
    requires Good(s) && Enabled(s, ev) && Quiet(s, k) && !Targets(s, ev, k)
    ensures Quiet(After(s, ev), k)
  {
    match ev
    case Background(id, ok) =>
    case Call(op) =>
      match op
      case Release(fh, parses, dbFails) => CloseStaysQuiet(s, fh, parses, dbFails, k);
      case Unlink(d, n, dbFails) =>
      case Rename(d, n, e, m, dbFails) => RenameStaysQuiet(s, d, n, e, m, dbFails, k);
      case _ => RowsUntouched(s, op);
  }

  ghost predicate NoneTargets(s: State, events: seq<Event>, k: Key)
    requires Good(s)
    decreases |events|
  {
    events == [] ||
    (Enabled(s, events[0]) && !Targets(s, events[0], k) &&
     (StepGood(s, events[0]); NoneTargets(After(s, events[0]), events[1..], k)))
  }

  /** Once a key is quiet it stays so, whatever else runs, until a call targets it. */
  lemma {:induction false} RemovalIsFinal(s: State, events: seq<Event>, s': State, k: Key)
    requires Good(s) && Quiet(s, k) && Reaches(s, events, s') && NoneTargets(s, events, k)
    ensures Quiet(s', k)
    decreases |events|
  {
    if events != [] {
      StepGood(s, events[0]);
      StepStaysQuiet(s, events[0], k);
      RemovalIsFinal(After(s, events[0]), events[1..], s', k);
    }
  }

  // ── Overwriting rename ───────────────────────────────────────────────────

  /** Renaming a file over another: every failure leaves the state as it was;
      success leaves one file and one row at the destination, the source's, and
      nothing at the old name. */
  lemma OverwriteAllOrNothing(s: State, d: Ino, n: string, e: Ino, m: string, dbFails: bool)
    requires Good(s) && FromKernel(s, Rename(d, n, e, m, dbFails)) && Renames(s, d, n, e, m)
    requires HasChild(s.inodes, e, m)
    requires s.inodes[Child(s.inodes, d, n)].File? && s.inodes[Child(s.inodes, e, m)].File?
    ensures InMetadata(Paths(s.inodes), d) && InMetadata(Paths(s.inodes), e)
    ensures var (s', r) := RenameTo(s, d, n, e, m, dbFails);
            var i, j, p := Child(s.inodes, d, n), Child(s.inodes, e, m), Paths(s.inodes);
            var k, l := Key(SourcePath(p, d), n), Key(SourcePath(p, e), m);
            && (r.Err? ==> s' == s)
            && (r.Done? ==>
                  && IsChild(s'.inodes, e, m, i) && s'.inodes[i].data == s.inodes[i].data
                  && (forall x :: IsChild(s'.inodes, e, m, x) ==> x == i)
                  && !HasChild(s'.inodes, d, n)
                  && (j in s'.inodes <==> IsOpen(s.open, j))
                  && (s.hasDb ==> k in s.rows && s'.rows == (s.rows - {k})[l := s.rows[k]] && k !in s'.rows))
  {
    RenameSource(s, d, n, e, m, dbFails);
    RenameToTaken(s, d, n, e, m, dbFails);
    ReplacedNames(s, Child(s.inodes, d, n), Child(s.inodes, e, m));
  }

  // ── Open but unlinked ────────────────────────────────────────────────────

  ghost predicate Unlinked(s: State, i: Ino) { i in s.inodes && !s.inodes[i].Linked() }

  /** The release of the only handle on an inode. */
  ghost predicate LastClose(s: State, ev: Event, i: Ino) {
    ev.Call? && ev.op.Release? && ev.op.fh in s.open && s.open[ev.op.fh] == i && !IsOpen(s.open - {ev.op.fh}, i)
  }

  /** An unlinked inode is destroyed by the release of its last handle and by
      nothing else; until then only writes and truncations touch its buffer. */
  lemma UnlinkedFate(s: State, ev: Event, i: Ino)
    requires Good(s) && Enabled(s, ev) && Unlinked(s, i)
    ensures i !in After(s, ev).inodes <==> LastClose(s, ev, i)
    ensures !LastClose(s, ev, i) ==>
              && Unlinked(After(s, ev), i)
              && After(s, ev).inodes[i] == s.inodes[i].(data := After(s, ev).inodes[i].data)
    ensures !LastClose(s, ev, i) && After(s, ev).inodes[i] != s.inodes[i] ==>
              ev.Call? && (ev.op.Write? || ev.op.SetSize?) && ev.op.ino == i
  {
    match ev
    case Background(id, ok) =>
    case Call(op) =>
      match op
      case Release(fh, parses, dbFails) => UnlinkedOnClose(s, fh, parses, dbFails, i);
      case Rename(d, n, e, m, dbFails) => UnlinkedSurvivesRename(s, d, n, e, m, dbFails, i);
      case _ => UnlinkedSurvives(s, op, i);
  }

  lemma UnlinkedSurvives(s: State, op: Op, i: Ino)
    requires Good(s) && FromKernel(s, op) && !op.Release? && !op.Rename? && Unlinked(s, i)
    ensures i in Commit(s, op).0.inodes
    ensures Commit(s, op).0.inodes[i] == s.inodes[i] ||
            ((op.Write? || op.SetSize?) && op.ino == i && Commit(s, op).0.inodes[i].File? &&
             Commit(s, op).0.inodes[i] == s.inodes[i].(data := Commit(s, op).0.inodes[i].data))
  {
    NextIsFresh(s.inodes, s.nextIno);
  }

  lemma UnlinkedOnClose(s: State, fh: nat, parses: bool, dbFails: bool, i: Ino)
    requires Good(s) && Unlinked(s, i)
    ensures i !in ReleaseTo(s, fh, parses, dbFails).0.inodes <==> LastClose(s, Call(Release(fh, parses, dbFails)), i)
    ensures i in ReleaseTo(s, fh, parses, dbFails).0.inodes ==>
              ReleaseTo(s, fh, parses, dbFails).0.inodes[i] == s.inodes[i]
  {
  }

  lemma UnlinkedSurvivesOverwrite(s: State, x: Ino, target: Ino, dbFails: bool, i: Ino)
    requires Good(s) && IsMetaFile(s.inodes, x) && IsMetaFile(s.inodes, target) && x != target && Unlinked(s, i)
    ensures i in OverwriteTo(s, x, target, dbFails).0.inodes && OverwriteTo(s, x, target, dbFails).0.inodes[i] == s.inodes[i]
  {
    assert i != x && i != target;
    assert i in Retired(s.inodes, s.open, target) && Retired(s.inodes, s.open, target)[i] == s.inodes[i];
  }

  lemma UnlinkedSurvivesMove(s: State, x: Ino, e: Ino, m: string, dbFails: bool, i: Ino)
    requires Good(s) && IsMetaFile(s.inodes, x) && InMetadata(Paths(s.inodes), e) && Unlinked(s, i)
    ensures i in RenameFileTo(s, x, e, m, dbFails).0.inodes && RenameFileTo(s, x, e, m, dbFails).0.inodes[i] == s.inodes[i]
  {
    assert i != x;
  }

  lemma UnlinkedSurvivesDirectoryMove(s: State, d: Ino, e: Ino, m: string, dbFails: bool, i: Ino)
    requires MovesDirectory(s, d, e, m) && Unlinked(s, i)
    ensures i in RenameDirTo(s, d, e, m, dbFails).0.inodes && RenameDirTo(s, d, e, m, dbFails).0.inodes[i] == s.inodes[i]
  {
    assert i != d;
  }

  lemma UnlinkedSurvivesRename(s: State, d: Ino, n: string, e: Ino, m: string, dbFails: bool, i: Ino)
    requires Good(s) && FromKernel(s, Rename(d, n, e, m, dbFails)) && Unlinked(s, i)
    ensures i in RenameTo(s, d, n, e, m, dbFails).0.inodes
    ensures RenameTo(s, d, n, e, m, dbFails).0.inodes[i] == s.inodes[i]
  {
    if !Renames(s, d, n, e, m) {
      RenameRefused(s, d, n, e, m, dbFails);
    } else if HasChild(s.inodes, e, m) {
      var x, y := Child(s.inodes, d, n), Child(s.inodes, e, m);
      RenameToTaken(s, d, n, e, m, dbFails);
      if s.inodes[x].File? && s.inodes[y].File? { UnlinkedSurvivesOverwrite(s, x, y, dbFails, i); }
    } else {
      var x := Child(s.inodes, d, n);
      RenameToFree(s, d, n, e, m, dbFails);
      if s.inodes[x].Directory? {
        UnlinkedSurvivesDirectoryMove(s, x, e, m, dbFails, i);
      } else if EndsWith(m, TORRENT) {
        UnlinkedSurvivesMove(s, x, e, m, dbFails, i);
      }
    }
  }

  /** Writing through a handle works on an unlinked file as on any other, except
      that numbers of the `data/` range are refused. */
  lemma UnlinkedStaysWritable(s: State, i: Ino, offset: int, bytes: string)
    requires Good(s) && Unlinked(s, i)
    ensures var (s', r) := WriteTo(s, i, offset, bytes);
            && (r.Done? <==> i < DATA_BASE && 0 <= offset && offset + |bytes| <= MAX_TORRENT_SIZE)
            && (r.Err? ==> s' == s)
            && (r.Done? ==>
                  && r == Done(|bytes|) && Unlinked(s', i)
                  && |s'.inodes[i].data| >= offset + |bytes|
                  && s'.inodes[i].data[offset..offset + |bytes|] == bytes
                  && (forall x :: 0 <= x < |s.inodes[i].data| && !(offset <= x < offset + |bytes|) ==>
                        x < |s'.inodes[i].data| && s'.inodes[i].data[x] == s.inodes[i].data[x]))
  {
    assert NodeOk(s.inodes, s.nextIno, i);
    if offset >= 0 { var r := Patched(s.inodes[i].data, offset, bytes); }
  }

  /** Truncating does not: once the directory of the file is removed as well, the
      call reports success and leaves the buffer alone. */
  lemma TruncateUnlinkedExactly(s: State, i: Ino, n: nat)
    requires Good(s) && Unlinked(s, i)
    ensures var (s', r) := SetSizeTo(s, i, Some(n));
            var data, there := s.inodes[i].data, s.inodes[i].parent in s.inodes;
            && Unlinked(s', i)
            && (r.Done? <==> i < DATA_BASE && (there ==> n <= MAX_TORRENT_SIZE))
            && (s'.inodes[i].data == Resized(data, n) <==>
                  n == |data| || (i < DATA_BASE && there && n <= MAX_TORRENT_SIZE))
            && (s' == s || s' == s.(inodes := s.inodes[i := s.inodes[i].(data := Resized(data, n))]))
  {
    var t, p, data := s.inodes, Paths(s.inodes), s.inodes[i].data;
    if n == |data| { assert Resized(data, n) == data; }
    assert NodeOk(t, s.nextIno, i);
    SkeletonLabels(t, s.nextIno, p);
    if t[i].parent in t && t[i].parent != METADATA { assert LabelOk(t, p, t[i].parent); }
  }

  // ── What lands ───────────────────────────────────────────────────────────

  /** The calls that act on a key: closing, unlinking or renaming the file that has
      it, renaming onto it or onto a directory above it, and renaming a directory
      whose statement moves it. */
  ghost predicate Touches(s: State, ev: Event, k: Key)
    requires Good(s) && Enabled(s, ev)
  {
    || Targets(s, ev, k)
    || (&& ev.Call?
        && match ev.op
           case Unlink(d, n, _) => InMetadata(Paths(s.inodes), d) && k == Key(SourcePath(Paths(s.inodes), d), n)
           case Rename(d, n, e, m, dbFails) =>
             || (InMetadata(Paths(s.inodes), d) && k == Key(SourcePath(Paths(s.inodes), d), n))
             || (&& Renames(s, d, n, e, m) && s.inodes[Child(s.inodes, d, n)].Directory?
                 && (RenameSource(s, d, n, e, m, dbFails);
                     MovedKey(From(s, Child(s.inodes, d, n)), To(s, e, m), k) != k))
           case _ => false)
  }

  /** The same row for a key, or none in both. */
  ghost predicate SameRow(rows: map<Key, string>, rows': map<Key, string>, k: Key) {
    (k in rows' <==> k in rows) && (k in rows ==> rows'[k] == rows[k])
  }

  /** Row, flight and add of a key are left alone. */
  ghost predicate Alone(s: State, s': State, k: Key) {
    && SameRow(s.rows, s'.rows, k) && (k in s'.processing <==> k in s.processing)
    && (forall id :: Adds(s.adders, id, k) ==> id in s'.adders && s'.adders[id] == s.adders[id])
  }

  lemma OtherAddLeaves(s: State, id: nat, ok: bool, k: Key)
    requires id in s.adders && s.adders[id].key != k
    ensures Alone(s, AdderTo(s, id, ok), k)
  {
    match s.adders[id].phase
    case Persisting =>
    case Landed =>
    case Failed =>
    case Recorded =>
  }

  lemma CloseLeaves(s: State, fh: nat, parses: bool, dbFails: bool, k: Key)
    requires Good(s) && !Touches(s, Call(Release(fh, parses, dbFails)), k)
    ensures Alone(s, ReleaseTo(s, fh, parses, dbFails).0, k)
  {
  }

  lemma UnlinkLeaves(s: State, d: Ino, n: string, dbFails: bool, k: Key)
    requires Good(s) && FromKernel(s, Unlink(d, n, dbFails)) && !Touches(s, Call(Unlink(d, n, dbFails)), k)
    ensures Alone(s, UnlinkTo(s, d, n, dbFails).0, k)
  {
    if MetadataChild(s.inodes, d) && HasChild(s.inodes, d, n) {
      DirInMetadata(s, d);
      ChildIsOurs(s, d, n);
    }
  }

  lemma MovedRowsLeave(rows: map<Key, string>, from: string, to: string, k: Key)
    requires !Collides(rows, from, to) && MovedKey(from, to, k) == k && !Under(k.sourcePath, to)
    ensures SameRow(rows, MovedRows(rows, from, to), k)
  {
    if k in rows {
      assert MovedRows(rows, from, to)[MovedKey(from, to, k)] == rows[k];
    } else {
      MovedRowsAreUnder(rows, from, to, k);
    }
  }

  lemma DirectoryRenameLeaves(s: State, i: Ino, e: Ino, m: string, dbFails: bool, k: Key)
    requires MovesDirectory(s, i, e, m) && MovedKey(From(s, i), To(s, e, m), k) == k && !Under(k.sourcePath, To(s, e, m))
    ensures Alone(s, RenameDirTo(s, i, e, m, dbFails).0, k)
  {
    if s.hasDb && !RowsStay(s, i, e, m, dbFails) { MovedRowsLeave(s.rows, From(s, i), To(s, e, m), k); }
  }

  lemma OverwriteLeaves(s: State, i: Ino, target: Ino, dbFails: bool, k: Key)
    requires Good(s) && IsMetaFile(s.inodes, i) && IsMetaFile(s.inodes, target) && i != target
    requires k != FileKey(s, i) && k != FileKey(s, target)
    ensures Alone(s, OverwriteTo(s, i, target, dbFails).0, k)
  {
  }

  lemma FileRenameLeaves(s: State, i: Ino, e: Ino, m: string, dbFails: bool, k: Key)
    requires Good(s) && IsMetaFile(s.inodes, i) && InMetadata(Paths(s.inodes), e)
    requires k != FileKey(s, i) && k != Key(SourcePath(Paths(s.inodes), e), m)
    ensures Alone(s, RenameFileTo(s, i, e, m, dbFails).0, k)
  {
  }

  lemma RenameLeaves(s: State, d: Ino, n: string, e: Ino, m: string, dbFails: bool, k: Key)
    requires Good(s) && FromKernel(s, Rename(d, n, e, m, dbFails)) && !Touches(s, Call(Rename(d, n, e, m, dbFails)), k)
    ensures Alone(s, RenameTo(s, d, n, e, m, dbFails).0, k)
  {
    if !Renames(s, d, n, e, m) {
      RenameRefused(s, d, n, e, m, dbFails);
    } else {
      var i := Child(s.inodes, d, n);
      RenameSource(s, d, n, e, m, dbFails);
      if HasChild(s.inodes, e, m) {
        var j := Child(s.inodes, e, m);
        RenameToTaken(s, d, n, e, m, dbFails);
        if s.inodes[i].File? && s.inodes[j].File? { OverwriteLeaves(s, i, j, dbFails, k); }
      } else {
        RenameToFree(s, d, n, e, m, dbFails);
        if s.inodes[i].Directory? {
          DirectoryRenameLeaves(s, i, e, m, dbFails, k);
        } else if EndsWith(m, TORRENT) {
          FileRenameLeaves(s, i, e, m, dbFails, k);
        }
      }
    }
  }

  /** Every step but those of the key's own add and those that touch the key. */
  lemma StepLeaves(s: State, ev: Event, k: Key)
    requires Good(s) && Enabled(s, ev) && !Touches(s, ev, k) && (ev.Background? ==> s.adders[ev.id].key != k)
    ensures Alone(s, After(s, ev), k)
  {
    match ev
    case Background(id, ok) => OtherAddLeaves(s, id, ok, k);
    case Call(op) =>
      match op
      case Release(fh, parses, dbFails) => CloseLeaves(s, fh, parses, dbFails, k);
      case Unlink(d, n, dbFails) => UnlinkLeaves(s, d, n, dbFails, k);
      case Rename(d, n, e, m, dbFails) => RenameLeaves(s, d, n, e, m, dbFails, k);
      case _ => RowsUntouched(s, op);
  }

  ghost predicate NoneTouches(s: State, events: seq<Event>, k: Key)
    requires Good(s)
    decreases |events|
  {
    events == [] ||
    (Enabled(s, events[0]) && !Touches(s, events[0], k) &&
     (StepGood(s, events[0]); NoneTouches(After(s, events[0]), events[1..], k)))
  }

  ghost predicate AllInsert(events: seq<Event>) { forall x :: 0 <= x < |events| && events[x].Background? ==> events[x].ok }

  /** A step of the add itself inserts its bytes, or has inserted them. */
  lemma OwnAdd(s: State, id: nat)
    requires id in s.adders
    ensures var a, s' := s.adders[id], AdderTo(s, id, true);
            && (if a.phase == Persisting then a.key in s'.rows && s'.rows[a.key] == a.data else SameRow(s.rows, s'.rows, a.key))
            && (if a.phase == Recorded then a.key !in s'.processing
                else id in s'.adders && s'.adders[id].key == a.key && s'.adders[id].phase != Persisting)
  {
  }

  /** Without an add in flight, the row of a key is left alone. */
  lemma {:induction false} LeftAlone(s: State, events: seq<Event>, s': State, k: Key)
    requires Good(s) && k !in s.processing && Reaches(s, events, s') && NoneTouches(s, events, k)
    ensures SameRow(s.rows, s'.rows, k)
    decreases |events|
  {
    if events != [] {
      StepGood(s, events[0]);
      StepLeaves(s, events[0], k);
      LeftAlone(After(s, events[0]), events[1..], s', k);
    }
  }

  /** The row an add leaves once it is over: its own bytes if it had still to
      insert them, else the row as it was. */
  lemma {:induction false} AddLands(s: State, events: seq<Event>, s': State, id: nat)
    requires Good(s) && id in s.adders && Reaches(s, events, s') && AllInsert(events)
    requires NoneTouches(s, events, s.adders[id].key) && s.adders[id].key !in s'.processing
    ensures var a := s.adders[id];
            if a.phase == Persisting then a.key in s'.rows && s'.rows[a.key] == a.data
            else SameRow(s.rows, s'.rows, a.key)
    decreases |events|
  {
    var k, ev := s.adders[id].key, events[0];
    StepGood(s, ev);
    assert AllInsert(events[1..]);
    assert Adds(s.adders, id, k);
    if ev.Background? && s.adders[ev.id].key == k {
      assert Adds(s.adders, ev.id, k);
      OwnAdd(s, id);
      if s.adders[id].phase == Recorded {
        LeftAlone(After(s, ev), events[1..], s', k);
      } else {
        AddLands(After(s, ev), events[1..], s', id);
      }
    } else {
      StepLeaves(s, ev, k);
      AddLands(After(s, ev), events[1..], s', id);
    }
  }

  ghost function AdderOf(s: State, k: Key): (id: nat)
    requires Good(s) && k in s.processing
    ensures Adds(s.adders, id, k)
  {
    assert HasAdder(s.adders, k);
    var id :| Adds(s.adders, id, k); id
  }

  /** Closing a file that parses, all inserts working: after any run in which no call
      touches its key, once no add of it is in flight, the database holds the bytes
      closed last exactly when no older add was in flight, or that add was still to
      insert the same bytes, or it had inserted them. */
  lemma LandsWhatWasClosed(s: State, fh: nat, dbFails: bool, events: seq<Event>, s': State)
    requires Good(s) && s.hasDb && fh in s.open && IsMetaFile(s.inodes, s.open[fh])
    requires 0 < |s.inodes[s.open[fh]].data| <= MAX_TORRENT_SIZE
    requires Good(ReleaseTo(s, fh, true, dbFails).0) && Reaches(ReleaseTo(s, fh, true, dbFails).0, events, s') && AllInsert(events)
    requires NoneTouches(ReleaseTo(s, fh, true, dbFails).0, events, FileKey(s, s.open[fh]))
    requires FileKey(s, s.open[fh]) !in s'.processing
    ensures var k, data := FileKey(s, s.open[fh]), s.inodes[s.open[fh]].data;
            k in s'.rows && s'.rows[k] == data <==>
              || k !in s.processing
              || (var a := s.adders[AdderOf(s, k)];
                  if a.phase == Persisting then a.data == data else k in s.rows && s.rows[k] == data)
  {
    var k := FileKey(s, s.open[fh]);
    AddLands(ReleaseTo(s, fh, true, dbFails).0, events, s', if k in s.processing then AdderOf(s, k) else s.nextAdder);
  }
}
