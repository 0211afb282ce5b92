/** Where the bytes in the database come from: in a run of careful renames the row
    of a file holds bytes this very file had when it was closed and parsed. */
module Provenance {
  import opened Text
  import opened InodeTree
  import opened DirectoryRows
  import opened Protocol
  import opened ProtocolSafety
  import opened RenameSafety
  import opened Runs
  import opened Effects

  /** The files closed so far, with the bytes they had. */
  type History = set<(Ino, string)>

  /** What a step adds: a close of a linked file whose content is worth keeping. */
  ghost function ClosedBy(s: State, ev: Event): History {
    if && ev.Call? && ev.op.Release? && ev.op.fh in s.open && IsMetaFile(s.inodes, s.open[ev.op.fh])
       && !Discarded(s.inodes[s.open[ev.op.fh]].data, ev.op.parses) then
      {(s.open[ev.op.fh], s.inodes[s.open[ev.op.fh]].data)}
    else {}
  }

  ghost function Closed(s: State, events: seq<Event>): History
    requires Good(s)
    decreases |events|
  {
    if events == [] || !Enabled(s, events[0]) then {}
    else
      StepGood(s, events[0]);
      ClosedBy(s, events[0]) + Closed(After(s, events[0]), events[1..])
  }

  ghost predicate Has(s: State, i: Ino, k: Key)
    requires Good(s)
  {
    HasKey(s.inodes, Paths(s.inodes), i, k)
  }

  /** An add of `k` with these bytes is in flight. */
  ghost predicate Carries(s: State, k: Key, data: string) {
    exists id :: Adds(s.adders, id, k) && s.adders[id].data == data
  }

  ghost predicate InRow(s: State, k: Key, data: string) { k in s.rows && s.rows[k] == data }

  ghost predicate Holds(s: State, k: Key, data: string) { InRow(s, k, data) || Carries(s, k, data) }

  /** Rows and adds hold only bytes their own file was closed with. */
  ghost predicate Backed(s: State, h: History)
    requires Good(s)
  {
    forall i: Ino, k, data :: Has(s, i, k) && Holds(s, k, data) ==> (i, data) in h
  }

  /** These bytes under `k` in `s'` were in `s` under the key the same file had. */
  ghost predicate Stems(s: State, s': State, k: Key, data: string)
    requires Good(s) && Good(s')
  {
    exists j, l :: Has(s, j, l) && Has(s', j, k) && Holds(s, l, data)
  }

  ghost predicate AllStem(s: State, s': State)
    requires Good(s) && Good(s')
  {
    forall k, data :: Holds(s', k, data) ==> Stems(s, s', k, data)
  }

  lemma StemsBacked(s: State, s': State, h: History)
    requires Good(s) && Good(s') && Backed(s, h) && AllStem(s, s')
    ensures Backed(s', h)
  {
    forall i: Ino, k, data | Has(s', i, k) && Holds(s', k, data) ensures (i, data) in h {
      StemBacked(s, s', h, i, k, data);
    }
  }

  lemma StemBacked(s: State, s': State, h: History, i: Ino, k: Key, data: string)
    requires Good(s) && Good(s') && Backed(s, h) && Stems(s, s', k, data) && Has(s', i, k)
    ensures (i, data) in h
  {
    var j, l :| Has(s, j, l) && Has(s', j, k) && Holds(s, l, data);
    KeyInjective(s'.inodes, s'.nextIno, Paths(s'.inodes), i, j, k);
  }

  // ── Who keeps its key ────────────────────────────────────────────────────

  /** Every key but the lost ones is still that of the same file. */
  ghost predicate OwnersKept(t: Table, t': Table, lost: set<Key>)
    requires Acyclic(t) && Acyclic(t')
  {
    forall i, k :: HasKey(t, Paths(t), i, k) && k !in lost ==> HasKey(t', Paths(t'), i, k)
  }

  lemma OwnersStay(t: Table, p: Labels, t': Table, p': Labels, i: Ino, lost: set<Key>)
    requires Labelled(t, p) && Labelled(t', p') && OthersStay(t, p, t', p', i)
    requires forall k :: HasKey(t, p, i, k) ==> HasKey(t', p', i, k) || k in lost
    ensures Acyclic(t) && Acyclic(t') && OwnersKept(t, t', lost)
  {
    PathsAre(t, p);
    PathsAre(t', p');
    forall j, k | HasKey(t, p, j, k) && k !in lost ensures HasKey(t', p', j, k) {
      if j != i { KeyStays(t, p, t', p', i, j, k); }
    }
  }

  lemma CarriedIsInFlight(s: State, k: Key)
    requires Good(s)
    ensures forall data :: Carries(s, k, data) ==> k in s.processing
  {
  }

  /** With the owners kept, a row or an add that is still there, under its key,
      stems from itself. */
  lemma StemsFromItself(s: State, s': State, lost: set<Key>, k: Key, data: string)
    requires Good(s) && Good(s') && Clean(s) && OwnersKept(s.inodes, s'.inodes, lost) && k !in lost
    requires Holds(s, k, data)
    ensures Stems(s, s', k, data)
  {
    CarriedIsInFlight(s, k);
    assert Named(s.inodes, Paths(s.inodes), k);
    var j :| HasKey(s.inodes, Paths(s.inodes), j, k);
    assert Has(s, j, k) && Has(s', j, k);
  }

  /** Rows and adds that were there, none of them under a lost key. */
  ghost predicate Fewer(s: State, s': State, lost: set<Key>) {
    forall k, data :: Holds(s', k, data) ==> k !in lost && Holds(s, k, data)
  }

  lemma FewerStem(s: State, s': State, lost: set<Key>)
    requires Good(s) && Good(s') && Clean(s) && OwnersKept(s.inodes, s'.inodes, lost) && Fewer(s, s', lost)
    ensures AllStem(s, s')
  {
    forall k, data | Holds(s', k, data) ensures Stems(s, s', k, data) {
      StemsFromItself(s, s', lost, k, data);
    }
  }

  // ── Calls that leave the keys alone ──────────────────────────────────────

  lemma SameTable(s: State, s': State)
    requires Good(s) && s'.inodes == s.inodes
    ensures OwnersKept(s.inodes, s'.inodes, {})
  {
  }

  lemma LeafOwners(s: State, n: Inode)
    requires Good(s) && InMetadata(Paths(s.inodes), n.parent) && s.inodes[n.parent].Directory?
    requires n.Linked() && IsName(n.name) && (n.File? ==> EndsWith(n.name, TORRENT)) && !HasChild(s.inodes, n.parent, n.name)
    ensures Acyclic(s.inodes[s.nextIno := n]) && OwnersKept(s.inodes, s.inodes[s.nextIno := n], {})
  {
    var t, p, next := s.inodes, Paths(s.inodes), s.nextIno;
    NextIsFresh(t, next);
    AddLeaf(t, next, p, n);
    OwnersStay(t, p, t[next := n], p[next := p[n.parent] + [n.name]], next, {});
  }

  lemma DropOwners(s: State, i: Ino, t': Table, lost: set<Key>)
    requires Good(s) && i in Paths(s.inodes) && i >= FIRST_INO && !HasChildren(s.inodes, i)
    requires t' == s.inodes - {i} || (s.inodes[i].File? && t' == s.inodes[i := s.inodes[i].(unlinked := true)])
    requires forall k :: Has(s, i, k) ==> k in lost
    ensures Acyclic(t') && OwnersKept(s.inodes, t', lost)
  {
    var t: Table, p: Labels := s.inodes, Paths(s.inodes);
    var p': Labels := p - {i};
    DropLeaf(t, s.nextIno, p, i, t');
    forall j | IsMetaFile(t, j) ensures t[j].parent != i { assert t[j].Linked(); }
    OwnersStay(t, p, t', p', i, lost);
  }

  lemma BufferOwners(s: State, s': State, i: Ino)
    requires Good(s) && i >= FIRST_INO && OnlyBuffer(s, s', i)
    ensures Acyclic(s'.inodes) && OwnersKept(s.inodes, s'.inodes, {})
  {
    var t, p := s.inodes, Paths(s.inodes);
    SameLinks(t, s.nextIno, p, s'.inodes);
    OwnersStay(t, p, s'.inodes, p, i, {});
  }

  /** An inode that has no name any more may go. */
  lemma LooseOwners(s: State, s': State, i: Ino)
    requires Good(s) && i in s.inodes && !s.inodes[i].Linked() && s'.inodes == s.inodes - {i}
    ensures Acyclic(s'.inodes) && OwnersKept(s.inodes, s'.inodes, {})
  {
    var t, p := s.inodes, Paths(s.inodes);
    SameLinks(t, s.nextIno, p, s'.inodes);
    OwnersStay(t, p, s'.inodes, p, i, {});
  }

  /** Calls that add or drop names of directories, add files, or change bytes. */
  lemma OtherStems(s: State, op: Op)
    requires Good(s) && Clean(s) && FromKernel(s, op) && !op.Release? && !op.Unlink? && !op.Rename?
    requires Good(Commit(s, op).0)
    ensures AllStem(s, Commit(s, op).0)
  {
    var s' := Commit(s, op).0;
    RowsUntouched(s, op);
    OtherOwners(s, op);
    FewerStem(s, s', {});
  }

  lemma OtherOwners(s: State, op: Op)
    requires Good(s) && FromKernel(s, op) && !op.Release? && !op.Unlink? && !op.Rename?
    requires Good(Commit(s, op).0)
    ensures OwnersKept(s.inodes, Commit(s, op).0.inodes, {})
  {
    match op
    case Create(d, n, handle) => CreateOwners(s, d, n, handle);
    case Mkdir(d, n, dbFails) => MkdirOwners(s, d, n, dbFails);
    case Rmdir(d, n, dbFails) => RmdirOwners(s, d, n, dbFails);
    case Open(i, dataFile) => OpenExactly(s, i, dataFile);
    case Write(i, offset, bytes) => WriteOwners(s, i, offset, bytes);
    case SetSize(i, size) => SetSizeOwners(s, i, size);
  }

  lemma CreateOwners(s: State, d: Ino, n: string, handle: bool)
    requires Good(s) && FromKernel(s, Create(d, n, handle)) && Good(CreateTo(s, d, n, handle).0)
    ensures OwnersKept(s.inodes, CreateTo(s, d, n, handle).0.inodes, {})
  {
    CreateExactly(s, d, n, handle);
    if CreateTo(s, d, n, handle).1.Done? {
      LeafOwners(s, File(d, n, "", false));
      assert CreateTo(s, d, n, handle).0.inodes == s.inodes[s.nextIno := File(d, n, "", false)];
    }
  }

  lemma MkdirOwners(s: State, d: Ino, n: string, dbFails: bool)
    requires Good(s) && FromKernel(s, Mkdir(d, n, dbFails)) && Good(MkdirTo(s, d, n, dbFails).0)
    ensures OwnersKept(s.inodes, MkdirTo(s, d, n, dbFails).0.inodes, {})
  {
    MkdirExactly(s, d, n, dbFails);
    if MkdirTo(s, d, n, dbFails).1.Done? {
      LeafOwners(s, Directory(d, n));
      assert MkdirTo(s, d, n, dbFails).0.inodes == s.inodes[s.nextIno := Directory(d, n)];
    }
  }

  lemma RmdirOwners(s: State, d: Ino, n: string, dbFails: bool)
    requires Good(s) && FromKernel(s, Rmdir(d, n, dbFails)) && Good(RmdirTo(s, d, n, dbFails).0)
    ensures OwnersKept(s.inodes, RmdirTo(s, d, n, dbFails).0.inodes, {})
  {
    var s' := RmdirTo(s, d, n, dbFails).0;
    RmdirExactly(s, d, n, dbFails);
    if RmdirTo(s, d, n, dbFails).1.Done? {
      ChildIsOurs(s, d, n);
      assert s'.inodes == s.inodes - {Child(s.inodes, d, n)};
      DropOwners(s, Child(s.inodes, d, n), s'.inodes, {});
    }
  }

  lemma WriteOwners(s: State, i: Ino, offset: int, bytes: string)
    requires Good(s) && Good(WriteTo(s, i, offset, bytes).0)
    ensures OwnersKept(s.inodes, WriteTo(s, i, offset, bytes).0.inodes, {})
  {
    WriteExactly(s, i, offset, bytes);
    if WriteTo(s, i, offset, bytes).1.Done? {
      assert NodeOk(s.inodes, s.nextIno, i);
      BufferOwners(s, WriteTo(s, i, offset, bytes).0, i);
    }
  }

  lemma SetSizeOwners(s: State, i: Ino, size: Option<nat>)
    requires Good(s) && Good(SetSizeTo(s, i, size).0)
    ensures OwnersKept(s.inodes, SetSizeTo(s, i, size).0.inodes, {})
  {
    var s' := SetSizeTo(s, i, size).0;
    if s' != s {
      assert NodeOk(s.inodes, s.nextIno, i);
      BufferOwners(s, s', i);
    }
  }

  // ── Calls that drop a key, or start its add ──────────────────────────────

  lemma UnlinkStems(s: State, d: Ino, n: string, dbFails: bool)
    requires Good(s) && Clean(s) && FromKernel(s, Unlink(d, n, dbFails)) && Good(UnlinkTo(s, d, n, dbFails).0)
    ensures AllStem(s, UnlinkTo(s, d, n, dbFails).0)
  {
    var (s', r) := UnlinkTo(s, d, n, dbFails);
    UnlinkExactly(s, d, n, dbFails);
    if r.Done? {
      var i := Child(s.inodes, d, n);
      UnlinkMeets(s, d, n, dbFails);
      RemoveStems(s, s', i);
    } else {
      FewerStem(s, s', {});
    }
  }

  /** The file `i` gone from the tree, and nothing of its key left. */
  lemma RemoveStems(s: State, s': State, i: Ino)
    requires Good(s) && Clean(s) && Good(s') && IsMetaFile(s.inodes, i) && i in Paths(s.inodes)
    requires s'.inodes == s.inodes - {i} || s'.inodes == s.inodes[i := s.inodes[i].(unlinked := true)]
    requires forall k :: k in s'.rows ==> k in s.rows && s'.rows[k] == s.rows[k]
    requires s'.adders == s.adders && FileKey(s, i) !in s'.rows && FileKey(s, i) !in s.processing
    ensures AllStem(s, s')
  {
    FilesAreLeaves(s, i);
    DropOwners(s, i, s'.inodes, {FileKey(s, i)});
    RemovedIsFewer(s, s', FileKey(s, i));
    FewerStem(s, s', {FileKey(s, i)});
  }

  lemma RemovedIsFewer(s: State, s': State, k: Key)
    requires Good(s) && s'.adders == s.adders && k !in s'.rows && k !in s.processing
    requires forall l :: l in s'.rows ==> l in s.rows && s'.rows[l] == s.rows[l]
    ensures Fewer(s, s', {k})
  {
    CarriedIsInFlight(s, k);
    forall l, data | Holds(s', l, data) ensures l != k && Holds(s, l, data) {
      if Carries(s', l, data) { assert Carries(s, l, data); }
    }
  }

  lemma ReleaseBacked(s: State, fh: nat, parses: bool, dbFails: bool, h: History)
    requires Good(s) && Clean(s) && Backed(s, h) && Good(ReleaseTo(s, fh, parses, dbFails).0)
    ensures Backed(ReleaseTo(s, fh, parses, dbFails).0, h + ClosedBy(s, Call(Release(fh, parses, dbFails))))
  {
    var s' := ReleaseTo(s, fh, parses, dbFails).0;
    if fh in s.open && IsMetaFile(s.inodes, s.open[fh]) {
      CloseBacked(s, fh, parses, dbFails, h);
    } else if s'.inodes == s.inodes {
      SameBacked(s, s', h);
    } else {
      LooseOwners(s, s', s.open[fh]);
      SameDatabase(s, s');
      FewerStem(s, s', {});
      StemsBacked(s, s', h);
    }
  }

  lemma CloseBacked(s: State, fh: nat, parses: bool, dbFails: bool, h: History)
    requires Good(s) && Clean(s) && Backed(s, h) && fh in s.open && IsMetaFile(s.inodes, s.open[fh])
    requires Good(ReleaseTo(s, fh, parses, dbFails).0)
    ensures Backed(ReleaseTo(s, fh, parses, dbFails).0, h + ClosedBy(s, Call(Release(fh, parses, dbFails))))
  {
    var i, s' := s.open[fh], ReleaseTo(s, fh, parses, dbFails).0;
    var k := FileKey(s, i);
    CloseExactly(s, fh, parses, dbFails);
    if i !in s'.inodes {
      assert s'.inodes == s.inodes - {i};
      RemoveStems(s, s', i);
      StemsBacked(s, s', h);
    } else {
      assert s'.inodes == s.inodes && s'.rows == s.rows;
      if s'.adders == s.adders { SameBacked(s, s', h); } else { StartBacked(s, s', i, h); }
    }
  }

  lemma SameBacked(s: State, s': State, h: History)
    requires Good(s) && Backed(s, h) && Good(s') && s'.inodes == s.inodes && s'.rows == s.rows && s'.adders == s.adders
    ensures forall more :: Backed(s', h + more)
  {
    SameDatabase(s, s');
    forall i: Ino, k, data | Has(s', i, k) && Holds(s', k, data) ensures (i, data) in h {
      assert Has(s, i, k) && Holds(s, k, data);
    }
  }

  /** A new add of the file `i`. */
  lemma StartBacked(s: State, s': State, i: Ino, h: History)
    requires Good(s) && Backed(s, h) && Good(s') && IsMetaFile(s.inodes, i)
    requires s'.inodes == s.inodes && s'.rows == s.rows && s.nextAdder !in s.adders
    requires s'.adders == s.adders[s.nextAdder := Adder(FileKey(s, i), s.inodes[i].data, Persisting)]
    ensures Backed(s', h + {(i, s.inodes[i].data)})
  {
    var p := Paths(s.inodes);
    ParentInMetadata(s.inodes, s.nextIno, p, i);
    assert Has(s, i, FileKey(s, i));
    forall j: Ino, k, data | Has(s', j, k) && Holds(s', k, data)
      ensures (j, data) in h + {(i, s.inodes[i].data)}
    {
      assert Has(s, j, k);
      if InRow(s, k, data) {
        assert Holds(s, k, data);
      } else {
        var id :| Adds(s'.adders, id, k) && s'.adders[id].data == data;
        if id != s.nextAdder {
          assert Adds(s.adders, id, k);
          assert Holds(s, k, data);
        } else {
          KeyInjective(s.inodes, s.nextIno, p, i, j, k);
        }
      }
    }
  }

  // ── Renames ──────────────────────────────────────────────────────────────

  lemma PlaceOwners(s: State, i: Ino, e: Ino, m: string)
    requires Good(s) && IsMetaFile(s.inodes, i)
    requires InMetadata(Paths(s.inodes), e) && e in s.inodes && s.inodes[e].Directory?
    requires IsName(m) && EndsWith(m, TORRENT) && !HasChild(s.inodes, e, m)
    ensures Acyclic(Placed(s, i, e, m)) && OwnersKept(s.inodes, Placed(s, i, e, m), {FileKey(s, i)})
  {
    var t, p, t' := s.inodes, Paths(s.inodes), Placed(s, i, e, m);
    ParentInMetadata(t, s.nextIno, p, i);
    FileMoved(t, s.nextIno, p, i, e, m);
    OwnersStay(t, p, t', p[i := p[e] + [m]], i, {FileKey(s, i)});
  }

  /** The row of `k` moved along with its file `i` to the key `l`. */
  lemma MovedStem(s: State, s': State, i: Ino, k: Key, l: Key, lost: set<Key>)
    requires Good(s) && Clean(s) && Good(s') && OwnersKept(s.inodes, s'.inodes, lost) && lost <= {k, l} && k in lost
    requires Has(s, i, k) && Has(s', i, l) && s'.adders == s.adders && k !in s.processing && (l in lost ==> l !in s.processing)
    requires RowMoved(s.rows, s'.rows, k, l)
    ensures AllStem(s, s')
  {
    CarriedIsInFlight(s, k);
    CarriedIsInFlight(s, l);
    forall x, data | Holds(s', x, data) ensures Stems(s, s', x, data) {
      if InRow(s', x, data) && x == l {
        assert InRow(s, k, data);
      } else {
        assert x !in lost by { if Carries(s', x, data) { assert Carries(s, x, data); } }
        assert Holds(s, x, data) by {
          if InRow(s', x, data) { assert SameRow(s.rows, s'.rows, x); } else { assert Carries(s, x, data); }
        }
        StemsFromItself(s, s', lost, x, data);
      }
    }
  }

  lemma FileRenameStems(s: State, i: Ino, e: Ino, m: string, dbFails: bool)
    requires Good(s) && Clean(s) && IsMetaFile(s.inodes, i) && !LosesRow(s, i, dbFails)
    requires InMetadata(Paths(s.inodes), e) && e in s.inodes && s.inodes[e].Directory?
    requires IsName(m) && EndsWith(m, TORRENT) && !HasChild(s.inodes, e, m) && Good(RenameFileTo(s, i, e, m, dbFails).0)
    ensures AllStem(s, RenameFileTo(s, i, e, m, dbFails).0)
  {
    var s' := RenameFileTo(s, i, e, m, dbFails).0;
    if !s.hasDb {
      NothingStems(s, s');
    } else if FileKey(s, i) in s.processing {
      FewerStem(s, s', {});
    } else {
      RenameFileMoves(s, i, e, m, dbFails);
      NewKeyIsFree(s, i, e, m);
      PlaceStems(s, s', i, e, m);
    }
  }

  lemma PlaceStems(s: State, s': State, i: Ino, e: Ino, m: string)
    requires Good(s) && Clean(s) && IsMetaFile(s.inodes, i) && FileKey(s, i) !in s.processing
    requires InMetadata(Paths(s.inodes), e) && e in s.inodes && s.inodes[e].Directory?
    requires IsName(m) && EndsWith(m, TORRENT) && !HasChild(s.inodes, e, m)
    requires Good(s') && s'.inodes == Placed(s, i, e, m) && s'.adders == s.adders
    requires if FileKey(s, i) in s.rows then RowMoved(s.rows, s'.rows, FileKey(s, i), Key(SourcePath(Paths(s.inodes), e), m))
             else s'.rows == s.rows
    ensures AllStem(s, s')
  {
    var k, l := FileKey(s, i), Key(SourcePath(Paths(s.inodes), e), m);
    PlaceOwners(s, i, e, m);
    NewKeyIsFree(s, i, e, m);
    if k in s.rows {
      MovedStem(s, s', i, k, l, {k});
    } else {
      CarriedIsInFlight(s, k);
      SameDatabase(s, s');
      FewerStem(s, s', {k});
    }
  }

  lemma NewKeyIsFree(s: State, i: Ino, e: Ino, m: string)
    requires Good(s) && Clean(s) && IsMetaFile(s.inodes, i)
    requires InMetadata(Paths(s.inodes), e) && e in s.inodes && s.inodes[e].Directory?
    requires IsName(m) && EndsWith(m, TORRENT) && !HasChild(s.inodes, e, m)
    ensures var t, l := Placed(s, i, e, m), Key(SourcePath(Paths(s.inodes), e), m);
            Has(s, i, FileKey(s, i)) && l !in s.rows && Acyclic(t) && HasKey(t, Paths(t), i, l)
  {
    ParentInMetadata(s.inodes, s.nextIno, Paths(s.inodes), i);
    FilePlaced(s, i, e, m);
  }

  lemma SameDatabase(s: State, s': State)
    requires s'.rows == s.rows && s'.adders == s.adders
    ensures forall k, data :: Holds(s', k, data) <==> Holds(s, k, data)
  {
  }

  lemma ReplaceOwners(s: State, i: Ino, target: Ino)
    requires Good(s) && IsMetaFile(s.inodes, i) && IsMetaFile(s.inodes, target) && i != target
    ensures var t := Replaced(s, i, target);
            && Acyclic(t) && OwnersKept(s.inodes, t, {FileKey(s, i), FileKey(s, target)})
            && HasKey(t, Paths(t), i, FileKey(s, target))
  {
    var t: Table, p: Labels := s.inodes, Paths(s.inodes);
    ParentInMetadata(t, s.nextIno, p, i);
    ParentInMetadata(t, s.nextIno, p, target);
    FilesAreLeaves(s, target);
    FileReplaced(t, s.nextIno, p, i, target, Retired(t, s.open, target));
    var p': Labels := (p - {target})[i := p[t[target].parent] + [t[target].name]];
    PathsAre(Replaced(s, i, target), p');
  }

  lemma OverwriteStems(s: State, i: Ino, target: Ino, dbFails: bool)
    requires Good(s) && Clean(s) && IsMetaFile(s.inodes, i) && IsMetaFile(s.inodes, target) && i != target
    requires Good(OverwriteTo(s, i, target, dbFails).0)
    ensures AllStem(s, OverwriteTo(s, i, target, dbFails).0)
  {
    var s', k, l := OverwriteTo(s, i, target, dbFails).0, FileKey(s, i), FileKey(s, target);
    if OverwriteRefused(s, i, target, dbFails) {
      FewerStem(s, s', {});
    } else {
      ReplaceOwners(s, i, target);
      OverwriteExactly(s, i, target, dbFails);
      ParentInMetadata(s.inodes, s.nextIno, Paths(s.inodes), i);
      if s.hasDb {
        MovedStem(s, s', i, k, l, {k, l});
      } else {
        NothingStems(s, s');
      }
    }
  }

  /** Without a database there is nothing to ask about. */
  lemma NothingStems(s: State, s': State)
    requires Good(s) && Good(s') && !s.hasDb && !s'.hasDb
    ensures AllStem(s, s')
  {
    NoDbNoKeys(s');
  }

  lemma DirectoryRenameStems(s: State, d: Ino, e: Ino, m: string, dbFails: bool)
    requires MovesDirectory(s, d, e, m) && Clean(s) && MayMove(s, d, e, m, dbFails) && Good(RenameDirTo(s, d, e, m, dbFails).0)
    ensures AllStem(s, RenameDirTo(s, d, e, m, dbFails).0)
  {
    var s' := RenameDirTo(s, d, e, m, dbFails).0;
    RenameDirExactly(s, d, e, m, dbFails);
    RenameDirMoves(s, d, e, m, dbFails);
    forall k, data | Holds(s', k, data) ensures Stems(s, s', k, data) {
      if InRow(s', k, data) {
        var l :| l in s.rows && RowAfter(s, d, e, m, dbFails, l) == k;
        OwnerStems(s, s', l, k, data);
      } else {
        CarriedIsInFlight(s, k);
        assert Carries(s, k, data);
        OwnerStems(s, s', k, k, data);
      }
    }
  }

  /** Bytes under `l`, now under `k`, the file being the same. */
  lemma OwnerStems(s: State, s': State, l: Key, k: Key, data: string)
    requires Good(s) && Good(s') && Clean(s) && Holds(s, l, data)
    requires SameOwner(s.inodes, Paths(s.inodes), s'.inodes, Paths(s'.inodes), l, k)
    ensures Stems(s, s', k, data)
  {
    CarriedIsInFlight(s, l);
    assert Named(s.inodes, Paths(s.inodes), l);
    var j :| HasKey(s.inodes, Paths(s.inodes), j, l);
    assert Has(s, j, l) && Has(s', j, k);
  }

  lemma RenameStems(s: State, d: Ino, n: string, e: Ino, m: string, dbFails: bool)
    requires Good(s) && Clean(s) && FromKernel(s, Rename(d, n, e, m, dbFails)) && Careful(s, Call(Rename(d, n, e, m, dbFails)))
    requires Good(RenameTo(s, d, n, e, m, dbFails).0)
    ensures AllStem(s, RenameTo(s, d, n, e, m, dbFails).0)
  {
    if !Renames(s, d, n, e, m) {
      RenameRefused(s, d, n, e, m, dbFails);
      FewerStem(s, s, {});
    } else if HasChild(s.inodes, e, m) {
      var i, j := Child(s.inodes, d, n), Child(s.inodes, e, m);
      RenameToTaken(s, d, n, e, m, dbFails);
      if s.inodes[i].File? && s.inodes[j].File? { OverwriteStems(s, i, j, dbFails); } else { FewerStem(s, s, {}); }
    } else {
      var i := Child(s.inodes, d, n);
      RenameToFree(s, d, n, e, m, dbFails);
      if s.inodes[i].Directory? {
        DirectoryRenameStems(s, i, e, m, dbFails);
      } else if EndsWith(m, TORRENT) {
        FileRenameStems(s, i, e, m, dbFails);
      } else {
        FewerStem(s, s, {});
      }
    }
  }

  // ── Every step and every run ─────────────────────────────────────────────

  /** An add brings nothing but the bytes it carries. */
  lemma AdderBringsNothing(s: State, id: nat, ok: bool)
    requires id in s.adders
    ensures Fewer(s, AdderTo(s, id, ok), {})
  {
    var s' := AdderTo(s, id, ok);
    forall k, data | Holds(s', k, data) ensures Holds(s, k, data) {
      if Carries(s', k, data) { AddsAreOld(s, id, ok, k, data); } else { RowIsOldOrCarried(s, id, ok, k, data); }
    }
  }

  lemma AddsAreOld(s: State, id: nat, ok: bool, k: Key, data: string)
    requires id in s.adders && Carries(AdderTo(s, id, ok), k, data)
    ensures Carries(s, k, data)
  {
    var s' := AdderTo(s, id, ok);
    var x :| Adds(s'.adders, x, k) && s'.adders[x].data == data;
    assert Adds(s.adders, x, k) && s.adders[x].data == data;
  }

  lemma RowIsOldOrCarried(s: State, id: nat, ok: bool, k: Key, data: string)
    requires id in s.adders && InRow(AdderTo(s, id, ok), k, data)
    ensures Holds(s, k, data)
  {
    assert Adds(s.adders, id, s.adders[id].key);
  }

  lemma AdderStems(s: State, id: nat, ok: bool)
    requires Good(s) && Clean(s) && id in s.adders && Good(AdderTo(s, id, ok))
    ensures AllStem(s, AdderTo(s, id, ok))
  {
    AdderWrites(s, id, ok);
    AdderBringsNothing(s, id, ok);
    FewerStem(s, AdderTo(s, id, ok), {});
  }

  /** Every step but a close: rows and adds stem from those there were. */
  lemma StepStems(s: State, ev: Event)
    requires Good(s) && Clean(s) && Enabled(s, ev) && Careful(s, ev) && Good(After(s, ev))
    requires ev.Call? ==> !ev.op.Release?
    ensures AllStem(s, After(s, ev))
  {
    match ev
    case Background(id, ok) => AdderStems(s, id, ok);
    case Call(op) =>
      match op
      case Unlink(d, n, dbFails) => UnlinkStems(s, d, n, dbFails);
      case Rename(d, n, e, m, dbFails) => RenameStems(s, d, n, e, m, dbFails);
      case _ => OtherStems(s, op);
  }

  lemma StepBacked(s: State, ev: Event, h: History)
    requires Good(s) && Clean(s) && Enabled(s, ev) && Careful(s, ev) && Backed(s, h) && Good(After(s, ev))
    ensures Backed(After(s, ev), h + ClosedBy(s, ev))
  {
    if ev.Call? && ev.op.Release? {
      ReleaseBacked(s, ev.op.fh, ev.op.parses, ev.op.dbFails, h);
    } else {
      StepStems(s, ev);
      StemsBacked(s, After(s, ev), h);
      assert h + ClosedBy(s, ev) == h;
    }
  }

  lemma {:induction false} RunBacked(s: State, events: seq<Event>, s': State, h: History)
    requires Good(s) && Clean(s) && Reaches(s, events, s') && AllCareful(s, events) && Backed(s, h)
    ensures Good(s') && Clean(s') && Backed(s', h + Closed(s, events))
    decreases |events|
  {
    if events == [] {
      assert h + {} == h;
    } else {
      StepClean(s, events[0]);
      StepBacked(s, events[0], h);
      var h1 := h + ClosedBy(s, events[0]);
      RunBacked(After(s, events[0]), events[1..], s', h1);
      assert h1 + Closed(After(s, events[0]), events[1..]) == h + Closed(s, events);
    }
  }

  /** In every run of careful renames from a fresh mount each row belongs to one
      file, and its bytes are bytes that file, whatever it was called then, had when
      it was closed and its content parsed. */
  lemma StoredWasClosed(s0: State, events: seq<Event>, s: State, k: Key) returns (i: Ino)
    requires Start(s0) && Good(s0) && Reaches(s0, events, s) && AllCareful(s0, events) && k in s.rows
    ensures Good(s) && Has(s, i, k) && (i, s.rows[k]) in Closed(s0, events) && 0 < |s.rows[k]| <= MAX_TORRENT_SIZE
  {
    StartGood(s0);
    RunBacked(s0, events, s, {});
    assert {} + Closed(s0, events) == Closed(s0, events);
    i := BackedRow(s, Closed(s0, events), k);
    ClosedIsKept(s0, events, i, s.rows[k]);
  }

  lemma BackedRow(s: State, h: History, k: Key) returns (i: Ino)
    requires Good(s) && Clean(s) && Backed(s, h) && k in s.rows
    ensures Has(s, i, k) && (i, s.rows[k]) in h
  {
    assert Named(s.inodes, Paths(s.inodes), k);
    i :| HasKey(s.inodes, Paths(s.inodes), i, k);
    assert Has(s, i, k) && Holds(s, k, s.rows[k]);
  }

  lemma {:induction false} ClosedIsKept(s: State, events: seq<Event>, i: Ino, data: string)
    requires Good(s) && (i, data) in Closed(s, events)
    ensures data != "" && |data| <= MAX_TORRENT_SIZE
    decreases |events|
  {
    if (i, data) !in ClosedBy(s, events[0]) {
      StepGood(s, events[0]);
      ClosedIsKept(After(s, events[0]), events[1..], i, data);
    }
  }
}
