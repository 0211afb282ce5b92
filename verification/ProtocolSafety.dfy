/** What every step of the namespace protocol keeps. */
module ProtocolSafety {
  import opened Text
  import opened InodeTree
  import opened DirectoryRows
  import opened Protocol

  /** `s'` is a good state, clean if `s` was, and its recorded failures name files
      if those of `s` did. */
  ghost predicate Kept(s: State, s': State)
    requires Good(s)
  {
    Good(s') && (Clean(s) ==> Clean(s') && (Reported(s) ==> Reported(s')))
  }

  /** Files other than `i` keep their keys when their directories keep their labels. */
  ghost predicate OthersStay(t: Table, p: Labels, t': Table, p': Labels, i: Ino) {
    forall j :: IsMetaFile(t, j) && j != i ==>
      && IsMetaFile(t', j) && t'[j].parent == t[j].parent && t'[j].name == t[j].name
      && (t[j].parent in p ==> t[j].parent in p' && p'[t[j].parent] == p[t[j].parent])
  }

  lemma KeyStays(t: Table, p: Labels, t': Table, p': Labels, i: Ino, j: Ino, k: Key)
    requires OthersStay(t, p, t', p', i) && HasKey(t, p, j, k) && j != i
    ensures HasKey(t', p', j, k)
  {
  }

  /** Every key named in `t` is named in `t'`, except perhaps `lost`. */
  ghost predicate NamesKept(t: Table, t': Table, lost: set<Key>)
    requires Acyclic(t) && Acyclic(t')
  {
    forall k :: Named(t, Paths(t), k) && k !in lost ==> Named(t', Paths(t'), k)
  }

  lemma NamesStay(t: Table, p: Labels, t': Table, p': Labels, i: Ino, lost: set<Key>)
    requires Labelled(t, p) && Labelled(t', p') && OthersStay(t, p, t', p', i)
    requires forall k :: HasKey(t, p, i, k) ==> HasKey(t', p', i, k) || k in lost
    ensures Acyclic(t) && Acyclic(t') && NamesKept(t, t', lost)
  {
    PathsAre(t, p);
    PathsAre(t', p');
    forall k | Named(t, p, k) && k !in lost ensures Named(t', p', k) {
      var j :| HasKey(t, p, j, k);
      if j != i { KeyStays(t, p, t', p', i, j, k); }
      assert HasKey(t', p', j, k);
    }
  }

  // ── Tables ───────────────────────────────────────────────────────────────

  lemma TableGrows(t: Table, next: Ino, n: Inode)
    requires Tree(t, next)
    requires n.parent in t && t[n.parent].Directory? && InMetadata(Paths(t), n.parent)
    requires n.Linked() && IsName(n.name) && (n.File? ==> EndsWith(n.name, TORRENT))
    requires !HasChild(t, n.parent, n.name)
    ensures Tree(t[next := n], next + 1) && NamesKept(t, t[next := n], {})
  {
    var p := Paths(t);
    var p' := p[next := p[n.parent] + [n.name]];
    NextIsFresh(t, next);
    AddLeaf(t, next, p, n);
    TreeIs(t[next := n], next + 1, p');
    NamesStay(t, p, t[next := n], p', next, {});
  }

  lemma TableDrops(t: Table, next: Ino, i: Ino, t': Table, lost: set<Key>)
    requires Tree(t, next) && i in Paths(t) && i >= FIRST_INO && !HasChildren(t, i)
    requires t' == t - {i} || (t[i].File? && t' == t[i := t[i].(unlinked := true)])
    requires forall k :: HasKey(t, Paths(t), i, k) ==> k in lost
    ensures Tree(t', next) && NamesKept(t, t', lost)
  {
    var p := Paths(t);
    DropLeaf(t, next, p, i, t');
    TreeIs(t', next, p - {i});
    forall j | IsMetaFile(t, j) ensures t[j].parent != i { assert t[j].Linked(); }
    NamesStay(t, p, t', p - {i}, i, lost);
  }

  /** A new buffer for `i`, or `i` gone though it was unlinked already. */
  lemma TableKeepsNames(t: Table, next: Ino, i: Ino, t': Table)
    requires Tree(t, next) && i in t && i >= FIRST_INO && t[i].File?
    requires (t' == t - {i} && t[i].unlinked) || (i in t' && t'[i].File? && t' == t[i := t[i].(data := t'[i].data)])
    ensures Tree(t', next) && NamesKept(t, t', {})
  {
    var p := Paths(t);
    SameLinks(t, next, p, t');
    TreeIs(t', next, p);
    NamesStay(t, p, t', p, i, {});
  }

  // ── Calls that add or drop a name ────────────────────────────────────────

  lemma CreateKeeps(s: State, d: Ino, name: string, handle: bool)
    requires Good(s) && FromKernel(s, Create(d, name, handle))
    ensures Kept(s, CreateTo(s, d, name, handle).0)
  {
    var s' := CreateTo(s, d, name, handle).0;
    if s' != s {
      DirInMetadata(s, d);
      LeafAdded(s, s', File(d, name, "", false));
    }
  }

  lemma MkdirKeeps(s: State, d: Ino, name: string, dbFails: bool)
    requires Good(s) && FromKernel(s, Mkdir(d, name, dbFails))
    ensures Kept(s, MkdirTo(s, d, name, dbFails).0)
  {
    var s' := MkdirTo(s, d, name, dbFails).0;
    if s' != s {
      DirInMetadata(s, d);
      LeafAdded(s, s', Directory(d, name));
    }
  }

  lemma LeafAdded(s: State, s': State, n: Inode)
    requires Good(s)
    requires n.parent in s.inodes && s.inodes[n.parent].Directory? && InMetadata(Paths(s.inodes), n.parent)
    requires n.Linked() && IsName(n.name) && (n.File? ==> EndsWith(n.name, TORRENT))
    requires !HasChild(s.inodes, n.parent, n.name)
    requires s'.inodes == s.inodes[s.nextIno := n] && s'.nextIno == s.nextIno + 1
    requires s'.rows == s.rows && s'.processing == s.processing && s'.adders == s.adders && s'.errors == s.errors
    requires s'.nextAdder == s.nextAdder && s'.hasDb == s.hasDb
    requires (s'.open == s.open && s'.nextFh == s.nextFh)
          || (s'.open == s.open[s.nextFh := s.nextIno] && s'.nextFh == s.nextFh + 1)
    ensures Kept(s, s')
  {
    TableGrows(s.inodes, s.nextIno, n);
    NextIsFresh(s.inodes, s.nextIno);
    OpenMore(s.inodes, s'.inodes, s.open, s'.open);
  }

  lemma OpenMore(t: Table, t': Table, open: map<nat, Ino>, open': map<nat, Ino>)
    requires UnlinkedOpen(t, open)
    requires forall fh :: fh in open ==> fh in open' && open'[fh] == open[fh]
    requires forall i :: i in t' && !t'[i].Linked() ==> i in t && !t[i].Linked()
    ensures UnlinkedOpen(t', open')
  {
    forall i | i in t' && !t'[i].Linked() ensures IsOpen(open', i) {
      var fh :| fh in open && open[fh] == i;
      assert open'[fh] == i;
    }
  }

  lemma RmdirKeeps(s: State, d: Ino, name: string, dbFails: bool)
    requires Good(s) && FromKernel(s, Rmdir(d, name, dbFails))
    ensures Kept(s, RmdirTo(s, d, name, dbFails).0)
  {
    var s' := RmdirTo(s, d, name, dbFails).0;
    if s' != s {
      var i := Child(s.inodes, d, name);
      DirInMetadata(s, d);
      ChildIsOurs(s, d, name);
      NameDropped(s, s', i);
    }
  }

  lemma KeysOutlive(t: Table, t': Table, lost: set<Key>, keys: set<Key>, keys': set<Key>)
    requires Acyclic(t) && Acyclic(t') && NamesKept(t, t', lost) && AllNamed(t, keys)
    requires keys' <= keys && keys' !! lost
    ensures AllNamed(t', keys')
  {
  }

  /** A linked inode without children loses its name; if it is a file, its key is
      neither in the database nor in flight any more, nor recorded as failed. */
  lemma NameDropped(s: State, s': State, i: Ino)
    requires Good(s) && i in Paths(s.inodes) && i >= FIRST_INO && !HasChildren(s.inodes, i)
    requires s'.inodes == s.inodes - {i} || (s.inodes[i].File? && s'.inodes == Retired(s.inodes, s.open, i))
    requires s'.nextIno == s.nextIno && s'.adders == s.adders && s'.processing == s.processing
    requires s'.nextAdder == s.nextAdder && s'.hasDb == s.hasDb
    requires HandlesBelow(s'.open, s'.nextFh) && UnlinkedOpen(s'.inodes, s'.open)
    requires s'.rows.Keys <= s.rows.Keys && s'.errors <= s.errors
    requires IsMetaFile(s.inodes, i) ==> FileKey(s, i) !in s'.rows && FileKey(s, i) !in s'.processing
    requires IsMetaFile(s.inodes, i) && s.hasDb ==> FileKey(s, i) !in s'.errors
    ensures Kept(s, s')
  {
    var lost := if IsMetaFile(s.inodes, i) then {FileKey(s, i)} else {};
    TableDrops(s.inodes, s.nextIno, i, s'.inodes, lost);
    if !s.hasDb { assert s'.rows.Keys == {}; }
    if Clean(s) {
      KeysOutlive(s.inodes, s'.inodes, lost, s.rows.Keys, s'.rows.Keys);
      KeysOutlive(s.inodes, s'.inodes, lost, s.processing, s'.processing);
      if Reported(s) { KeysOutlive(s.inodes, s'.inodes, lost, s.errors, s'.errors); }
    }
  }

  /** A file has no children. */
  lemma FilesAreLeaves(s: State, i: Ino)
    requires Good(s) && i in s.inodes && s.inodes[i].File?
    ensures !HasChildren(s.inodes, i)
  {
    var t := s.inodes;
    NextIsFresh(t, s.nextIno);
    forall j | j in t && t[j].Linked() ensures t[j].parent != i {
      if j != ROOT { assert LabelOk(t, Paths(t), j); }
    }
  }

  lemma RemoveKeeps(s: State, i: Ino, dbFails: bool)
    requires Good(s) && IsMetaFile(s.inodes, i)
    ensures Kept(s, RemoveTo(s, i, dbFails).0)
  {
    var (s', r) := RemoveTo(s, i, dbFails);
    if r.Done? {
      FilesAreLeaves(s, i);
      if !s.hasDb { NoDbNoKeys(s); }
      NameDropped(s, s', i);
    }
  }

  lemma UnlinkKeeps(s: State, d: Ino, name: string, dbFails: bool)
    requires Good(s) && FromKernel(s, Unlink(d, name, dbFails))
    ensures Kept(s, UnlinkTo(s, d, name, dbFails).0)
  {
    if MetadataChild(s.inodes, d) && HasChild(s.inodes, d, name) {
      var i := Child(s.inodes, d, name);
      DirInMetadata(s, d);
      ChildIsOurs(s, d, name);
      if IsMetaFile(s.inodes, i) { RemoveKeeps(s, i, dbFails); }
    }
  }

  lemma NoDbNoKeys(s: State)
    requires Good(s) && !s.hasDb
    ensures s.processing == {}
  {
    assert forall k :: k in s.processing ==> HasAdder(s.adders, k);
  }

  // ── Calls on open files ──────────────────────────────────────────────────

  lemma OpenKeeps(s: State, i: Ino, dataFile: bool)
    requires Good(s)
    ensures Kept(s, OpenTo(s, i, dataFile).0)
  {
    var s' := OpenTo(s, i, dataFile).0;
    assert s' == s || s' == s.(open := s.open[s.nextFh := i], nextFh := s.nextFh + 1);
    if s' != s { OpenMore(s.inodes, s.inodes, s.open, s'.open); }
  }

  /** Changing the buffer of one file of ours. */
  lemma BufferKeeps(s: State, s': State, i: Ino, data: string)
    requires Good(s) && i in s.inodes && s.inodes[i].File? && i >= FIRST_INO
    requires s' == s.(inodes := s.inodes[i := s.inodes[i].(data := data)])
    ensures Kept(s, s')
  {
    TableKeepsNames(s.inodes, s.nextIno, i, s'.inodes);
    OpenMore(s.inodes, s'.inodes, s.open, s.open);
  }

  lemma WriteKeeps(s: State, i: Ino, offset: int, bytes: string)
    requires Good(s)
    ensures Kept(s, WriteTo(s, i, offset, bytes).0)
  {
    var s' := WriteTo(s, i, offset, bytes).0;
    if s' != s {
      assert NodeOk(s.inodes, s.nextIno, i);
      BufferKeeps(s, s', i, s'.inodes[i].data);
    }
  }

  lemma SetSizeKeeps(s: State, i: Ino, size: Option<nat>)
    requires Good(s)
    ensures Kept(s, SetSizeTo(s, i, size).0)
  {
    var s' := SetSizeTo(s, i, size).0;
    if s' != s {
      assert NodeOk(s.inodes, s.nextIno, i);
      BufferKeeps(s, s', i, s'.inodes[i].data);
    }
  }

  lemma ReleaseKeeps(s: State, fh: nat, parses: bool, dbFails: bool)
    requires Good(s)
    ensures Kept(s, ReleaseTo(s, fh, parses, dbFails).0)
  {
    if fh in s.open {
      var i, s' := s.open[fh], ReleaseTo(s, fh, parses, dbFails).0;
      CloseKeepsOthers(s, fh);
      if i in s.inodes && !s.inodes[i].Linked() {
        UnlinkedGone(s, s', i);
      } else {
        assert UnlinkedOpen(s.inodes, s.open - {fh});
        if IsMetaFile(s.inodes, i) { CloseKeeps(s, fh, parses, dbFails); }
      }
    }
  }

  /** Closing a linked `.torrent`: discard it, skip it, or start its add. */
  lemma CloseKeeps(s: State, fh: nat, parses: bool, dbFails: bool)
    requires Good(s) && fh in s.open && IsMetaFile(s.inodes, s.open[fh])
    requires UnlinkedOpen(s.inodes, s.open - {fh})
    ensures Kept(s, CloseTo(s, fh, parses, dbFails).0)
  {
    var i, s' := s.open[fh], CloseTo(s, fh, parses, dbFails).0;
    var k, bad := FileKey(s, i), s.inodes[i].data == "" || |s.inodes[i].data| > MAX_TORRENT_SIZE || !parses;
    if bad && k !in s.processing && !(s.hasDb && dbFails) {
      FilesAreLeaves(s, i);
      NameDropped(s, s', i);
    } else if !bad && k !in s.processing && s.hasDb {
      SpawnKeeps(s, s', i);
    }
  }

  lemma CloseKeepsOthers(s: State, fh: nat)
    requires Good(s) && fh in s.open
    ensures forall j :: j in s.inodes && !s.inodes[j].Linked() && j != s.open[fh] ==> IsOpen(s.open - {fh}, j)
  {
    forall j | j in s.inodes && !s.inodes[j].Linked() && j != s.open[fh] ensures IsOpen(s.open - {fh}, j) {
      var g :| g in s.open && s.open[g] == j;
      assert g in s.open - {fh};
    }
  }

  /** An inode already unlinked leaves the table, or stays as it is. */
  lemma UnlinkedGone(s: State, s': State, i: Ino)
    requires Good(s) && i in s.inodes && !s.inodes[i].Linked()
    requires s'.inodes == s.inodes || s'.inodes == s.inodes - {i}
    requires HandlesBelow(s'.open, s'.nextFh) && UnlinkedOpen(s'.inodes, s'.open)
    requires s' == s.(inodes := s'.inodes, open := s'.open, nextFh := s'.nextFh)
    ensures Kept(s, s')
  {
    if s'.inodes != s.inodes {
      assert NodeOk(s.inodes, s.nextIno, i);
      TableKeepsNames(s.inodes, s.nextIno, i, s'.inodes);
    }
  }

  /** A new add for the key of a linked file. */
  lemma SpawnKeeps(s: State, s': State, i: Ino)
    requires Good(s) && IsMetaFile(s.inodes, i) && s.hasDb && FileKey(s, i) !in s.processing
    requires HandlesBelow(s'.open, s'.nextFh) && UnlinkedOpen(s'.inodes, s'.open)
    requires s'.inodes == s.inodes && s'.nextIno == s.nextIno && s'.hasDb && s'.rows == s.rows && s'.errors == s.errors
    requires s'.processing == s.processing + {FileKey(s, i)} && s'.nextAdder == s.nextAdder + 1
    requires s'.adders == s.adders[s.nextAdder := Adder(FileKey(s, i), s.inodes[i].data, Persisting)]
    ensures Kept(s, s')
  {
    var k := FileKey(s, i);
    AdderJoins(s.processing, s.adders, s.nextAdder, Adder(k, s.inodes[i].data, Persisting));
    ParentInMetadata(s.inodes, s.nextIno, Paths(s.inodes), i);
    assert HasKey(s.inodes, Paths(s.inodes), i, k);
  }

  // ── Adders ───────────────────────────────────────────────────────────────

  lemma AdderJoins(processing: set<Key>, adders: map<nat, Adder>, next: nat, a: Adder)
    requires AddersMatch(processing, adders, next) && a.key !in processing
    ensures AddersMatch(processing + {a.key}, adders[next := a], next + 1)
  {
    var adders' := adders[next := a];
    forall l | l in processing + {a.key} ensures HasAdder(adders', l) {
      if l == a.key {
        assert Adds(adders', next, l);
      } else {
        var id :| Adds(adders, id, l);
        assert Adds(adders', id, l);
      }
    }
    forall x, y, l | Adds(adders', x, l) && Adds(adders', y, l) ensures x == y {
      if x != next && y != next { assert Adds(adders, x, l) && Adds(adders, y, l); }
    }
  }

  lemma AdderAdvances(processing: set<Key>, adders: map<nat, Adder>, next: nat, id: nat, phase: Phase)
    requires AddersMatch(processing, adders, next) && id in adders
    ensures AddersMatch(processing, adders[id := adders[id].(phase := phase)], next)
  {
    var adders' := adders[id := adders[id].(phase := phase)];
    forall l | l in processing ensures HasAdder(adders', l) {
      var j :| Adds(adders, j, l);
      assert Adds(adders', j, l);
    }
    forall x, y, l | Adds(adders', x, l) && Adds(adders', y, l) ensures x == y {
      assert Adds(adders, x, l) && Adds(adders, y, l);
    }
  }

  lemma AdderLeaves(processing: set<Key>, adders: map<nat, Adder>, next: nat, id: nat)
    requires AddersMatch(processing, adders, next) && id in adders
    ensures AddersMatch(processing - {adders[id].key}, adders - {id}, next)
  {
    var k, adders' := adders[id].key, adders - {id};
    assert Adds(adders, id, k);
    forall l | l in processing - {k} ensures HasAdder(adders', l) {
      var j :| Adds(adders, j, l);
      assert Adds(adders', j, l);
    }
    forall x, y, l | Adds(adders', x, l) && Adds(adders', y, l) ensures x == y {
      assert Adds(adders, x, l) && Adds(adders, y, l);
    }
    forall j | j in adders' ensures adders'[j].key in processing - {k} {
      assert Adds(adders, j, adders[j].key);
    }
  }

  lemma AdderGood(s: State, id: nat, ok: bool)
    requires Good(s) && id in s.adders
    ensures Good(AdderTo(s, id, ok))
  {
    var s' := AdderTo(s, id, ok);
    if s.adders[id].phase == Recorded {
      AdderLeaves(s.processing, s.adders, s.nextAdder, id);
    } else {
      AdderAdvances(s.processing, s.adders, s.nextAdder, id, s'.adders[id].phase);
    }
  }

  /** An adder touches its own key only, and never the table. */
  lemma AdderWrites(s: State, id: nat, ok: bool)
    requires id in s.adders
    ensures var s', k := AdderTo(s, id, ok), s.adders[id].key;
            && SameFront(s, s') && s'.processing <= s.processing
            && s'.rows.Keys <= s.rows.Keys + {k} && s'.errors <= s.errors + {k}
  {
  }

  /** That key is in flight and so names a file. */
  lemma AdderKeeps(s: State, id: nat, ok: bool)
    requires Good(s) && id in s.adders
    ensures Kept(s, AdderTo(s, id, ok))
  {
    var s', k := AdderTo(s, id, ok), s.adders[id].key;
    AdderGood(s, id, ok);
    AdderWrites(s, id, ok);
    if Clean(s) {
      assert Named(s.inodes, Paths(s.inodes), k);
      assert AllNamed(s.inodes, s.rows.Keys + {k});
      if Reported(s) { assert AllNamed(s.inodes, s.errors + {k}); }
    }
  }

  lemma {:induction false} SettlesOn(s: State, a: seq<Move>, mid: State, b: seq<Move>, s': State)
    requires Settles(s, a, mid) && Settles(mid, b, s')
    ensures Settles(s, a + b, s')
    decreases |a|
  {
    if a == [] {
      assert a + b == b;
    } else {
      SettlesOn(AdderTo(s, a[0].id, a[0].ok), a[1..], mid, b, s');
      assert (a + b)[1..] == a[1..] + b;
    }
  }

  /** Adders never touch the table, and only drop keys. */
  lemma {:induction false} SettlingStaysBehind(s: State, moves: seq<Move>, s': State)
    requires Settles(s, moves, s')
    ensures SameFront(s, s') && s'.processing <= s.processing
    decreases |moves|
  {
    if moves != [] {
      AdderWrites(s, moves[0].id, moves[0].ok);
      SettlingStaysBehind(AdderTo(s, moves[0].id, moves[0].ok), moves[1..], s');
    }
  }

  /** Adders keep every invariant, and the table. */
  lemma {:induction false} SettlingKeeps(s: State, moves: seq<Move>, s': State)
    requires Good(s) && Settles(s, moves, s')
    ensures Kept(s, s') && SameFront(s, s')
    decreases |moves|
  {
    SettlingStaysBehind(s, moves, s');
    if moves != [] {
      AdderKeeps(s, moves[0].id, moves[0].ok);
      SettlingKeeps(AdderTo(s, moves[0].id, moves[0].ok), moves[1..], s');
    }
  }
}
