/** The tree as its users see it: what stands at each path.  The daemon keeps inodes
    with parent links and finds paths by walking them; every call, however it works
    on those, comes to one simple change of what stands where. */
module PathView {
  import opened Text
  import opened InodeTree
  import opened DirectoryRows
  import opened Protocol
  import opened ProtocolSafety
  import opened RenameSafety
  import opened Runs
  import opened Effects
  import P = Paging
  import L = Listings

  type Path = seq<string>

  datatype Thing = Nothing | Folder | Bytes(data: string)

  ghost predicate Stands(p: Labels, i: Ino, path: Path) { i in p && p[i] == path }

  function ThingOf(n: Inode): Thing { if n.Directory? then Folder else Bytes(n.data) }

  /** What stands at a path of the tree `t` labelled `p`. */
  ghost function Seen(t: Table, p: Labels, path: Path): Thing {
    if i :| Stands(p, i, path) && i in t then ThingOf(t[i]) else Nothing
  }

  ghost function At(s: State, path: Path): Thing
    requires Good(s)
  {
    Seen(s.inodes, Paths(s.inodes), path)
  }

  lemma SeenIs(t: Table, next: Ino, p: Labels, i: Ino)
    requires TreeWith(t, next, p) && i in p
    ensures Seen(t, p, p[i]) == ThingOf(t[i])
  {
    assert Stands(p, i, p[i]) && i in t;
    forall j | Stands(p, j, p[i]) ensures j == i { PathInjective(t, next, p, i, j); }
  }

  lemma NothingSeen(t: Table, p: Labels, path: Path)
    requires Labelled(t, p)
    ensures Seen(t, p, path) == Nothing <==> forall i :: !Stands(p, i, path)
  {
    if i :| Stands(p, i, path) { assert i in t; }
  }

  // ── Changes ──────────────────────────────────────────────────────────────

  datatype Change =
    | Keep
    | Put(path: Path, thing: Thing)
    | Remove(path: Path)
    | Shift(from: Path, to: Path)

  /** What stands at `path` after the change: a shift takes along all that is below,
      and replaces what is there. */
  function Changed(view: Path -> Thing, c: Change, path: Path): Thing {
    match c
    case Keep => view(path)
    case Put(q, thing) => if path == q then thing else view(path)
    case Remove(q) => if path == q then Nothing else view(path)
    case Shift(from, to) =>
      if to <= path then view(from + path[|to|..]) else if from <= path then Nothing else view(path)
  }

  ghost function View(s: State): Path -> Thing
    requires Good(s)
  {
    path => if Good(s) then At(s, path) else Nothing
  }

  // ── Tables ───────────────────────────────────────────────────────────────

  lemma GrownSeen(t: Table, next: Ino, p: Labels, n: Inode, path: Path)
    requires TreeWith(t, next, p) && n.parent in p
    requires TreeWith(t[next := n], next + 1, p[next := p[n.parent] + [n.name]])
    ensures Seen(t[next := n], p[next := p[n.parent] + [n.name]], path) ==
            if path == p[n.parent] + [n.name] then ThingOf(n) else Seen(t, p, path)
  {
    var t', p' := t[next := n], p[next := p[n.parent] + [n.name]];
    NextIsFresh(t, next);
    SeenIs(t', next + 1, p', next);
    SameElsewhere(t, next, p, t', next + 1, p', {next}, path);
  }

  /** Where only some inodes differ, and none of them stands at `path` before or
      after, the same is seen. */
  lemma SameElsewhere(t: Table, next: Ino, p: Labels, t': Table, next': Ino, p': Labels, those: set<Ino>, path: Path)
    requires TreeWith(t, next, p) && TreeWith(t', next', p')
    requires forall i :: i !in those ==> (i in p <==> i in p') && (i in p ==> p'[i] == p[i] && ThingOf(t'[i]) == ThingOf(t[i]))
    ensures (forall i :: i in those ==> !Stands(p, i, path) && !Stands(p', i, path)) ==> Seen(t', p', path) == Seen(t, p, path)
  {
    NothingSeen(t, p, path);
    NothingSeen(t', p', path);
    if i :| Stands(p, i, path) {
      SeenIs(t, next, p, i);
      if i !in those { assert Stands(p', i, path); SeenIs(t', next', p', i); }
    } else if i :| Stands(p', i, path) {
      if i !in those { assert Stands(p, i, path); }
    }
  }

  lemma DroppedSeen(t: Table, next: Ino, p: Labels, i: Ino, t': Table, path: Path)
    requires TreeWith(t, next, p) && i in p && TreeWith(t', next, p - {i})
    requires forall j :: j in p && j != i ==> t'[j] == t[j]
    ensures Seen(t', p - {i}, path) == if path == p[i] then Nothing else Seen(t, p, path)
  {
    NothingSeen(t', p - {i}, path);
    forall j | Stands(p - {i}, j, p[i]) ensures false { PathInjective(t, next, p, i, j); }
    SameElsewhere(t, next, p, t', next, p - {i}, {i}, path);
  }

  lemma RewrittenSeen(t: Table, next: Ino, p: Labels, i: Ino, t': Table, path: Path)
    requires TreeWith(t, next, p) && TreeWith(t', next, p) && i in t && i in t'
    requires forall j :: j in p && j != i ==> t'[j] == t[j]
    ensures Seen(t', p, path) == if i in p && path == p[i] then ThingOf(t'[i]) else Seen(t, p, path)
  {
    if i in p { SeenIs(t', next, p, i); }
    SameElsewhere(t, next, p, t', next, p, {i}, path);
  }

  /** Nothing is below a file. */
  lemma BelowFile(t: Table, next: Ino, p: Labels, i: Ino, j: Ino)
    requires TreeWith(t, next, p) && i in p && j in p && t[i].File? && p[i] <= p[j]
    ensures j == i
  {
    if p[i] == p[j] {
      PathInjective(t, next, p, i, j);
    } else {
      var x := AncestorAt(t, p, j, |p[i]| + 1);
      assert LabelOk(t, p, x);
      assert p[t[x].parent] == p[x][..|p[i]|] == p[i];
      PathInjective(t, next, p, i, t[x].parent);
    }
  }

  /** The labels once a file has a new one. */
  lemma ShiftedFileSeen(t: Table, next: Ino, p: Labels, i: Ino, t': Table, p': Labels, path: Path)
    requires TreeWith(t, next, p) && TreeWith(t', next, p') && i in p && i in p' && t[i].File? && ThingOf(t'[i]) == ThingOf(t[i])
    requires forall j :: j in p' && j != i ==> j in p && p'[j] == p[j] && t'[j] == t[j]
    requires forall j :: j in p && j != i && j !in p' ==> p[j] == p'[i]
    requires p'[i] != p[i]
    ensures Seen(t', p', path) ==
            if p'[i] <= path then Seen(t, p, p[i] + path[|p'[i]|..]) else if p[i] <= path then Nothing else Seen(t, p, path)
  {
    var from, to := p[i], p'[i];
    NothingSeen(t', p', path);
    SeenIs(t', next, p', i);
    SeenIs(t, next, p, i);
    if to <= path {
      if path == to {
        assert from + path[|to|..] == from;
      } else {
        forall j ensures !Stands(p', j, path) { if Stands(p', j, path) { BelowFile(t', next, p', i, j); } }
        var q := from + path[|to|..];
        NothingSeen(t, p, q);
        assert from <= q && q != from;
        forall j ensures !Stands(p, j, q) { if Stands(p, j, q) { BelowFile(t, next, p, i, j); } }
      }
    } else if from <= path {
      forall j ensures !Stands(p', j, path) { if Stands(p', j, path) && j != i { BelowFile(t, next, p, i, j); } }
    } else {
      SameElsewhere(t, next, p, t', next, p', {i} + (set j | j in p && j !in p'), path);
    }
  }

  lemma RelabelledAt(p: Labels, d: Ino, to: Path, i: Ino, path: Path)
    requires d in p && i in p && p[d] <= p[i]
    ensures Relabel(p[i], p[d], to) == path <==> to <= path && p[i] == p[d] + path[|to|..]
  {
    var from, rest := p[d], p[i][|p[d]|..];
    assert p[i] == from + rest;
    if to + rest == path { assert path[|to|..] == rest; }
    if to <= path && p[i] == from + path[|to|..] { assert path == to + path[|to|..] && rest == path[|to|..]; }
  }

  /** The labels once a directory has moved, with all that is below it. */
  lemma ShiftedDirSeen(t: Table, next: Ino, p: Labels, d: Ino, e: Ino, m: string, path: Path)
    requires TreeWith(t, next, p) && d in p && t[d].Directory? && e in p && !HasChild(t, e, m)
    requires TreeWith(t[d := Directory(e, m)], next, MovedLabels(p, d, p[e] + [m]))
    ensures var to := p[e] + [m];
            Seen(t[d := Directory(e, m)], MovedLabels(p, d, to), path) ==
            if to <= path then Seen(t, p, p[d] + path[|to|..]) else if p[d] <= path then Nothing else Seen(t, p, path)
  {
    var t', from, to := t[d := Directory(e, m)], p[d], p[e] + [m];
    var p' := MovedLabels(p, d, to);
    var q := if to <= path then from + path[|to|..] else path;
    forall i | i in p ensures Stands(p', i, path) <==> Stands(p, i, q) && (to <= path || !(from <= path)) {
      if from <= p[i] { RelabelledAt(p, d, to, i, path); }
      if to <= p[i] { PrefixIsChild(t, next, p, i, e, m); }
    }
    NothingSeen(t', p', path);
    NothingSeen(t, p, q);
    if i :| Stands(p', i, path) {
      assert Stands(p, i, q);
      SeenIs(t', next, p', i);
      SeenIs(t, next, p, i);
    } else if to <= path || !(from <= path) {
      assert forall i :: Stands(p, i, q) ==> Stands(p', i, path);
    }
  }

  // ── What each call comes to ──────────────────────────────────────────────

  /** A directory at or below `metadata/`, under a number of ours. */
  ghost predicate OurDir(s: State, d: Ino)
    requires Good(s)
  {
    d < DATA_BASE && InMetadata(Paths(s.inodes), d)
  }

  ghost function Entry(s: State, d: Ino, name: string): Path
    requires Good(s) && OurDir(s, d)
  {
    Paths(s.inodes)[d] + [name]
  }

  /** The dedup key of the file at a path. */
  function KeyAt(path: Path): Key
    requires |path| >= 2
  {
    Key(Join(path[1..|path| - 1]), path[|path| - 1])
  }

  ghost predicate Vacant(s: State, path: Path)
    requires Good(s)
  {
    forall q :: path < q ==> At(s, q) == Nothing
  }

  /** A file of ours that can be reached by name. */
  ghost predicate Shown(s: State, i: Ino)
    requires Good(s)
  {
    IsMetaFile(s.inodes, i) && i in Paths(s.inodes) && |Paths(s.inodes)[i]| >= 2
  }

  ghost function MeantByCreate(s: State, d: Ino, name: string): Change
    requires Good(s)
  {
    if OurDir(s, d) && EndsWith(name, TORRENT) && At(s, Entry(s, d, name)) == Nothing then Put(Entry(s, d, name), Bytes("")) else Keep
  }

  ghost function MeantByMkdir(s: State, d: Ino, name: string): Change
    requires Good(s)
  {
    if OurDir(s, d) && At(s, Entry(s, d, name)) == Nothing then Put(Entry(s, d, name), Folder) else Keep
  }

  ghost function MeantByRmdir(s: State, d: Ino, name: string): Change
    requires Good(s)
  {
    if OurDir(s, d) && At(s, Entry(s, d, name)) == Folder && Vacant(s, Entry(s, d, name)) then Remove(Entry(s, d, name)) else Keep
  }

  ghost function MeantByWrite(s: State, i: Ino, offset: int, bytes: string): Change
    requires Good(s)
  {
    if Shown(s, i) && Plain(i) && 0 <= offset && offset + |bytes| <= MAX_TORRENT_SIZE then
      Put(Paths(s.inodes)[i], Bytes(Patched(s.inodes[i].data, offset, bytes)))
    else Keep
  }

  ghost function MeantBySetSize(s: State, i: Ino, size: Option<nat>): Change
    requires Good(s)
  {
    if Shown(s, i) && Plain(i) && size.Some? && size.value <= MAX_TORRENT_SIZE then
      Put(Paths(s.inodes)[i], Bytes(Resized(s.inodes[i].data, size.value)))
    else Keep
  }

  ghost function MeantByRelease(s: State, fh: nat, parses: bool, dbFails: bool): Change
    requires Good(s)
  {
    if fh in s.open && Shown(s, s.open[fh]) && Discarded(s.inodes[s.open[fh]].data, parses) then
      var path := Paths(s.inodes)[s.open[fh]];
      if KeyAt(path) !in s.processing && !(s.hasDb && dbFails) then Remove(path) else Keep
    else Keep
  }

  ghost function MeantByUnlink(s: State, d: Ino, name: string, dbFails: bool): Change
    requires Good(s)
  {
    if name != ".stats" && OurDir(s, d) && At(s, Entry(s, d, name)).Bytes? then
      var path := Entry(s, d, name);
      if s.hasDb && (KeyAt(path) in s.processing || dbFails) then Keep else Remove(path)
    else Keep
  }

  ghost function MeantByRename(s: State, from: Path, to: Path, dbFails: bool): Change
    requires Good(s) && |from| >= 2 && |to| >= 2
  {
    var k, l := KeyAt(from), KeyAt(to);
    if from == to then Keep
    else match At(s, from)
      case Nothing => Keep
      case Folder => if At(s, to) == Nothing then Shift(from, to) else Keep
      case Bytes(_) =>
        match At(s, to)
        case Nothing => if EndsWith(to[|to| - 1], TORRENT) && !(s.hasDb && k in s.processing) then Shift(from, to) else Keep
        case Folder => Keep
        case Bytes(_) =>
          if s.hasDb && (k in s.processing || l in s.processing || dbFails || k !in s.rows) then Keep else Shift(from, to)
  }

  /** What a step should do to the tree, told in paths. */
  ghost function Meant(s: State, ev: Event): Change
    requires Good(s) && Enabled(s, ev)
  {
    if ev.Background? then Keep
    else match ev.op
      case Create(d, n, _) => MeantByCreate(s, d, n)
      case Mkdir(d, n, _) => MeantByMkdir(s, d, n)
      case Rmdir(d, n, _) => MeantByRmdir(s, d, n)
      case Open(_, _) => Keep
      case Write(i, offset, bytes) => MeantByWrite(s, i, offset, bytes)
      case SetSize(i, size) => MeantBySetSize(s, i, size)
      case Release(fh, parses, dbFails) => MeantByRelease(s, fh, parses, dbFails)
      case Unlink(d, n, dbFails) => MeantByUnlink(s, d, n, dbFails)
      case Rename(d, n, e, m, dbFails) =>
        if OurDir(s, d) && OurDir(s, e) then MeantByRename(s, Entry(s, d, n), Entry(s, e, m), dbFails) else Keep
  }

  /** `s'` is a good state in which the change has happened. */
  ghost predicate Shows(s: State, c: Change, s': State)
    requires Good(s)
  {
    Good(s') && forall path :: At(s', path) == Changed(View(s), c, path)
  }

  lemma Unchanged(s: State, s': State)
    requires Good(s) && Good(s') && s'.inodes == s.inodes
    ensures Shows(s, Keep, s')
  {
  }

  /** A name is taken exactly when something stands at its path. */
  lemma EntryIs(s: State, d: Ino, name: string)
    requires Good(s) && OurDir(s, d)
    ensures HasChild(s.inodes, d, name) <==> At(s, Entry(s, d, name)) != Nothing
    ensures HasChild(s.inodes, d, name) ==>
              var i := Child(s.inodes, d, name);
              && i in Paths(s.inodes) && i >= FIRST_INO && Paths(s.inodes)[i] == Entry(s, d, name)
              && At(s, Entry(s, d, name)) == ThingOf(s.inodes[i])
  {
    var t, p, path := s.inodes, Paths(s.inodes), Entry(s, d, name);
    NothingSeen(t, p, path);
    if HasChild(t, d, name) {
      var i := Child(t, d, name);
      ChildIsOurs(s, d, name);
      SeenIs(t, s.nextIno, p, i);
      assert Stands(p, i, path);
    }
    if i :| Stands(p, i, path) { PrefixIsChild(t, s.nextIno, p, i, d, name); }
  }

  lemma KeyIs(s: State, i: Ino)
    requires Good(s) && IsMetaFile(s.inodes, i)
    ensures Shown(s, i) && FileKey(s, i) == KeyAt(Paths(s.inodes)[i])
    ensures At(s, Paths(s.inodes)[i]) == Bytes(s.inodes[i].data)
  {
    var p := Paths(s.inodes);
    ParentInMetadata(s.inodes, s.nextIno, p, i);
    SeenIs(s.inodes, s.nextIno, p, i);
    var d := s.inodes[i].parent;
    assert p[i] == p[d] + [s.inodes[i].name];
    assert p[i][1..|p[i]| - 1] == p[d][1..];
  }

  lemma LeafMeans(s: State, s': State, n: Inode)
    requires Good(s) && Good(s') && InMetadata(Paths(s.inodes), n.parent) && s.inodes[n.parent].Directory?
    requires n.Linked() && IsName(n.name) && (n.File? ==> EndsWith(n.name, TORRENT)) && !HasChild(s.inodes, n.parent, n.name)
    requires s'.inodes == s.inodes[s.nextIno := n]
    ensures Shows(s, Put(Paths(s.inodes)[n.parent] + [n.name], ThingOf(n)), s')
  {
    var t, p, next := s.inodes, Paths(s.inodes), s.nextIno;
    AddLeaf(t, next, p, n);
    PathsAre(s'.inodes, p[next := p[n.parent] + [n.name]]);
    forall path ensures At(s', path) == Changed(View(s), Put(p[n.parent] + [n.name], ThingOf(n)), path) {
      GrownSeen(t, next, p, n, path);
    }
  }

  lemma DropMeans(s: State, s': State, i: Ino)
    requires Good(s) && Good(s') && i in Paths(s.inodes) && i >= FIRST_INO && !HasChildren(s.inodes, i)
    requires s'.inodes == s.inodes - {i} || (s.inodes[i].File? && s'.inodes == s.inodes[i := s.inodes[i].(unlinked := true)])
    ensures Shows(s, Remove(Paths(s.inodes)[i]), s')
  {
    var t: Table, p: Labels := s.inodes, Paths(s.inodes);
    var p': Labels := p - {i};
    DropLeaf(t, s.nextIno, p, i, s'.inodes);
    PathsAre(s'.inodes, p');
    forall path ensures At(s', path) == Changed(View(s), Remove(p[i]), path) {
      DroppedSeen(t, s.nextIno, p, i, s'.inodes, path);
    }
  }

  lemma BufferMeans(s: State, s': State, i: Ino)
    requires Good(s) && Good(s') && i >= FIRST_INO && OnlyBuffer(s, s', i)
    ensures Shows(s, if i in Paths(s.inodes) then Put(Paths(s.inodes)[i], Bytes(s'.inodes[i].data)) else Keep, s')
  {
    var t, p := s.inodes, Paths(s.inodes);
    SameLinks(t, s.nextIno, p, s'.inodes);
    PathsAre(s'.inodes, p);
    var c := if i in p then Put(p[i], Bytes(s'.inodes[i].data)) else Keep;
    forall path ensures At(s', path) == Changed(View(s), c, path) {
      RewrittenSeen(t, s.nextIno, p, i, s'.inodes, path);
    }
  }

  lemma CreateMeans(s: State, d: Ino, name: string, handle: bool)
    requires Good(s) && FromKernel(s, Create(d, name, handle))
    ensures Shows(s, MeantByCreate(s, d, name), CreateTo(s, d, name, handle).0)
  {
    var (s', r) := CreateTo(s, d, name, handle);
    CreateKeeps(s, d, name, handle);
    NamespaceSides(s, d);
    if OurDir(s, d) { EntryIs(s, d, name); }
    if r.Done? {
      LeafMeans(s, s', File(d, name, "", false));
    } else {
      Unchanged(s, s');
    }
  }

  lemma MkdirMeans(s: State, d: Ino, name: string, dbFails: bool)
    requires Good(s) && FromKernel(s, Mkdir(d, name, dbFails))
    ensures Shows(s, MeantByMkdir(s, d, name), MkdirTo(s, d, name, dbFails).0)
  {
    var (s', r) := MkdirTo(s, d, name, dbFails);
    MkdirKeeps(s, d, name, dbFails);
    NamespaceSides(s, d);
    if OurDir(s, d) { EntryIs(s, d, name); }
    if r.Done? {
      LeafMeans(s, s', Directory(d, name));
    } else {
      Unchanged(s, s');
    }
  }

  /** Something stands below a path exactly when the inode there has a linked child. */
  lemma VacantIs(s: State, i: Ino)
    requires Good(s) && i in Paths(s.inodes)
    ensures Vacant(s, Paths(s.inodes)[i]) <==> !HasChildren(s.inodes, i)
  {
    var t, p := s.inodes, Paths(s.inodes);
    if HasChildren(t, i) { ChildIsBelow(s, i); }
    forall q | p[i] < q && At(s, q) != Nothing ensures HasChildren(t, i) {
      NothingSeen(t, p, q);
      var j :| Stands(p, j, q);
      var x := AncestorAt(t, p, j, |p[i]| + 1);
      assert LabelOk(t, p, x);
      assert p[t[x].parent] == p[x][..|p[i]|] == p[i];
      PathInjective(t, s.nextIno, p, t[x].parent, i);
    }
  }

  lemma ChildIsBelow(s: State, i: Ino)
    requires Good(s) && i in Paths(s.inodes) && HasChildren(s.inodes, i)
    ensures !Vacant(s, Paths(s.inodes)[i])
  {
    var t, p := s.inodes, Paths(s.inodes);
    NextIsFresh(t, s.nextIno);
    var c :| c in t && t[c].Linked() && t[c].parent == i;
    assert c != ROOT && LabelOk(t, p, c);
    assert p[i] < p[c];
    SeenIs(t, s.nextIno, p, c);
    assert At(s, p[c]) != Nothing;
  }

  lemma RmdirMeans(s: State, d: Ino, name: string, dbFails: bool)
    requires Good(s) && FromKernel(s, Rmdir(d, name, dbFails))
    ensures Shows(s, MeantByRmdir(s, d, name), RmdirTo(s, d, name, dbFails).0)
  {
    var (s', r) := RmdirTo(s, d, name, dbFails);
    RmdirKeeps(s, d, name, dbFails);
    RmdirExactly(s, d, name, dbFails);
    if OurDir(s, d) {
      EntryIs(s, d, name);
      if HasChild(s.inodes, d, name) { VacantIs(s, Child(s.inodes, d, name)); }
    }
    if r.Done? {
      DropMeans(s, s', Child(s.inodes, d, name));
    } else {
      Unchanged(s, s');
    }
  }

  lemma WriteMeans(s: State, i: Ino, offset: int, bytes: string)
    requires Good(s)
    ensures Shows(s, MeantByWrite(s, i, offset, bytes), WriteTo(s, i, offset, bytes).0)
  {
    var (s', r) := WriteTo(s, i, offset, bytes);
    WriteKeeps(s, i, offset, bytes);
    WriteExactly(s, i, offset, bytes);
    if IsMetaFile(s.inodes, i) { KeyIs(s, i); }
    if r.Done? {
      assert NodeOk(s.inodes, s.nextIno, i);
      BufferMeans(s, s', i);
    } else {
      Unchanged(s, s');
    }
  }

  lemma SetSizeMeans(s: State, i: Ino, size: Option<nat>)
    requires Good(s)
    ensures Shows(s, MeantBySetSize(s, i, size), SetSizeTo(s, i, size).0)
  {
    var s' := SetSizeTo(s, i, size).0;
    SetSizeKeeps(s, i, size);
    if s' == s {
      SameSize(s, i, size);
    } else {
      assert NodeOk(s.inodes, s.nextIno, i);
      if IsMetaFile(s.inodes, i) { KeyIs(s, i); }
      BufferMeans(s, s', i);
    }
  }

  /** A truncation that leaves the state as it is was refused, or changed nothing. */
  lemma SameSize(s: State, i: Ino, size: Option<nat>)
    requires Good(s) && SetSizeTo(s, i, size).0 == s
    ensures Shows(s, MeantBySetSize(s, i, size), s)
  {
    if IsMetaFile(s.inodes, i) {
      KeyIs(s, i);
      TruncateExactly(s, i, size);
      if MeantBySetSize(s, i, size).Put? { assert Resized(s.inodes[i].data, size.value) == s.inodes[i].data; }
    }
  }

  lemma ReleaseMeans(s: State, fh: nat, parses: bool, dbFails: bool)
    requires Good(s)
    ensures Shows(s, MeantByRelease(s, fh, parses, dbFails), ReleaseTo(s, fh, parses, dbFails).0)
  {
    var s' := ReleaseTo(s, fh, parses, dbFails).0;
    ReleaseKeeps(s, fh, parses, dbFails);
    if fh in s.open && IsMetaFile(s.inodes, s.open[fh]) {
      CloseMeans(s, fh, parses, dbFails);
    } else if s'.inodes == s.inodes {
      Unchanged(s, s');
    } else {
      LooseMeans(s, s', s.open[fh]);
    }
  }

  lemma CloseMeans(s: State, fh: nat, parses: bool, dbFails: bool)
    requires Good(s) && fh in s.open && IsMetaFile(s.inodes, s.open[fh]) && Good(ReleaseTo(s, fh, parses, dbFails).0)
    ensures Shows(s, MeantByRelease(s, fh, parses, dbFails), ReleaseTo(s, fh, parses, dbFails).0)
  {
    var i, s' := s.open[fh], ReleaseTo(s, fh, parses, dbFails).0;
    KeyIs(s, i);
    CloseExactly(s, fh, parses, dbFails);
    if i !in s'.inodes {
      FilesAreLeaves(s, i);
      assert s'.inodes == s.inodes - {i};
      DropMeans(s, s', i);
    } else {
      assert s'.inodes == s.inodes;
      Unchanged(s, s');
    }
  }

  /** An inode without a name goes unseen. */
  lemma LooseMeans(s: State, s': State, i: Ino)
    requires Good(s) && Good(s') && i in s.inodes && !s.inodes[i].Linked() && s'.inodes == s.inodes - {i}
    ensures Shows(s, Keep, s')
  {
    var t, p := s.inodes, Paths(s.inodes);
    SameLinks(t, s.nextIno, p, s'.inodes);
    PathsAre(s'.inodes, p);
    forall path ensures At(s', path) == At(s, path) {
      SameElsewhere(t, s.nextIno, p, s'.inodes, s.nextIno, p, {}, path);
    }
  }

  lemma RemoveMeans(s: State, i: Ino, dbFails: bool)
    requires Good(s) && IsMetaFile(s.inodes, i)
    ensures Shown(s, i)
    ensures Shows(s, if s.hasDb && (KeyAt(Paths(s.inodes)[i]) in s.processing || dbFails) then Keep else Remove(Paths(s.inodes)[i]),
                  RemoveTo(s, i, dbFails).0)
  {
    var (s', r) := RemoveTo(s, i, dbFails);
    RemoveKeeps(s, i, dbFails);
    KeyIs(s, i);
    if r.Done? {
      FilesAreLeaves(s, i);
      DropMeans(s, s', i);
    } else {
      Unchanged(s, s');
    }
  }

  lemma UnlinkMeans(s: State, d: Ino, name: string, dbFails: bool)
    requires Good(s) && FromKernel(s, Unlink(d, name, dbFails))
    ensures Shows(s, MeantByUnlink(s, d, name, dbFails), UnlinkTo(s, d, name, dbFails).0)
  {
    UnlinkMeets(s, d, name, dbFails);
    if OurDir(s, d) { EntryIs(s, d, name); }
    if UnlinkFinds(s, d, name) {
      RemoveMeans(s, Child(s.inodes, d, name), dbFails);
    } else {
      Unchanged(s, s);
    }
  }

  // ── Renames ──────────────────────────────────────────────────────────────

  ghost function ShiftedThing(s: State, from: Path, to: Path, path: Path): Thing
    requires Good(s)
  {
    if to <= path then At(s, from + path[|to|..]) else if from <= path then Nothing else At(s, path)
  }

  ghost predicate Shifted(s: State, from: Path, to: Path, s': State)
    requires Good(s) && Good(s')
  {
    forall path :: At(s', path) == ShiftedThing(s, from, to, path)
  }

  lemma ShiftedShows(s: State, from: Path, to: Path, s': State)
    requires Good(s) && Good(s') && Shifted(s, from, to, s')
    ensures Shows(s, Shift(from, to), s')
  {
  }

  lemma DirectoryRenameMeans(s: State, d: Ino, e: Ino, m: string, dbFails: bool)
    requires MovesDirectory(s, d, e, m)
    ensures Shows(s, Shift(Paths(s.inodes)[d], Paths(s.inodes)[e] + [m]), RenameDirTo(s, d, e, m, dbFails).0)
  {
    var s', p := RenameDirTo(s, d, e, m, dbFails).0, Paths(s.inodes);
    DirectoryMoved(s, d, e, m, dbFails);
    assert Shifted(s, p[d], p[e] + [m], s') by {
      forall path ensures At(s', path) == ShiftedThing(s, p[d], p[e] + [m], path) {
        ShiftedDirSeen(s.inodes, s.nextIno, p, d, e, m, path);
      }
    }
    ShiftedShows(s, p[d], p[e] + [m], s');
  }

  lemma FilePlaceMeans(s: State, s': State, i: Ino, e: Ino, m: string)
    requires Good(s) && Good(s') && IsMetaFile(s.inodes, i) && i in Paths(s.inodes)
    requires InMetadata(Paths(s.inodes), e) && e in s.inodes && s.inodes[e].Directory?
    requires IsName(m) && EndsWith(m, TORRENT) && !HasChild(s.inodes, e, m) && s'.inodes == Placed(s, i, e, m)
    ensures Shows(s, Shift(Paths(s.inodes)[i], Paths(s.inodes)[e] + [m]), s')
  {
    var t, p, to := s.inodes, Paths(s.inodes), Paths(s.inodes)[e] + [m];
    MoveFile(t, s.nextIno, p, i, e, m);
    PathsAre(s'.inodes, p[i := to]);
    if p[i] == to { PrefixIsChild(t, s.nextIno, p, i, e, m); }
    assert Shifted(s, p[i], to, s') by {
      forall path ensures At(s', path) == ShiftedThing(s, p[i], to, path) {
        ShiftedFileSeen(t, s.nextIno, p, i, s'.inodes, p[i := to], path);
      }
    }
    ShiftedShows(s, p[i], to, s');
  }

  lemma FileRenameMeans(s: State, i: Ino, e: Ino, m: string, dbFails: bool)
    requires Good(s) && IsMetaFile(s.inodes, i)
    requires InMetadata(Paths(s.inodes), e) && e in s.inodes && s.inodes[e].Directory?
    requires IsName(m) && EndsWith(m, TORRENT) && !HasChild(s.inodes, e, m)
    ensures Shown(s, i)
    ensures Shows(s, if s.hasDb && KeyAt(Paths(s.inodes)[i]) in s.processing then Keep
                     else Shift(Paths(s.inodes)[i], Paths(s.inodes)[e] + [m]), RenameFileTo(s, i, e, m, dbFails).0)
  {
    var s' := RenameFileTo(s, i, e, m, dbFails).0;
    RenameFileGood(s, i, e, m, dbFails);
    KeyIs(s, i);
    if s.hasDb && FileKey(s, i) in s.processing {
      Unchanged(s, s');
    } else {
      FilePlaceMeans(s, s', i, e, m);
    }
  }

  /** The labels once a file has taken the name of another. */
  ghost function NamesTaken(p: Labels, i: Ino, target: Ino): Labels
    requires target in p
  {
    map j | j in p && j != target :: if j == i then p[target] else p[j]
  }

  lemma ReplaceLabels(s: State, i: Ino, target: Ino)
    requires Good(s) && IsMetaFile(s.inodes, i) && IsMetaFile(s.inodes, target) && i != target
    requires i in Paths(s.inodes) && target in Paths(s.inodes)
    ensures TreeWith(Replaced(s, i, target), s.nextIno, NamesTaken(Paths(s.inodes), i, target))
  {
    var t: Table, p: Labels := s.inodes, Paths(s.inodes);
    var e, m := t[target].parent, t[target].name;
    ParentInMetadata(t, s.nextIno, p, i);
    ParentInMetadata(t, s.nextIno, p, target);
    FilesAreLeaves(s, target);
    FileReplaced(t, s.nextIno, p, i, target, Retired(t, s.open, target));
    assert NamesTaken(p, i, target) == (p - {target})[i := p[e] + [m]];
  }

  lemma ReplacedSeen(s: State, i: Ino, target: Ino, path: Path)
    requires Good(s) && IsMetaFile(s.inodes, i) && IsMetaFile(s.inodes, target) && i != target
    requires i in Paths(s.inodes) && target in Paths(s.inodes)
    ensures var p := Paths(s.inodes);
            Seen(Replaced(s, i, target), NamesTaken(p, i, target), path) ==
            if p[target] <= path then At(s, p[i] + path[|p[target]|..]) else if p[i] <= path then Nothing else At(s, path)
  {
    var t, p, p' := s.inodes, Paths(s.inodes), NamesTaken(Paths(s.inodes), i, target);
    ReplaceLabels(s, i, target);
    if p[i] == p[target] { PathInjective(t, s.nextIno, p, i, target); }
    ShiftedFileSeen(t, s.nextIno, p, i, Replaced(s, i, target), p', path);
  }

  lemma ReplaceMeans(s: State, s': State, i: Ino, target: Ino)
    requires Good(s) && Good(s') && IsMetaFile(s.inodes, i) && IsMetaFile(s.inodes, target) && i != target
    requires i in Paths(s.inodes) && target in Paths(s.inodes) && s'.inodes == Replaced(s, i, target)
    ensures Shows(s, Shift(Paths(s.inodes)[i], Paths(s.inodes)[target]), s')
  {
    var p := Paths(s.inodes);
    ReplaceLabels(s, i, target);
    PathsAre(s'.inodes, NamesTaken(p, i, target));
    assert Shifted(s, p[i], p[target], s') by {
      forall path ensures At(s', path) == ShiftedThing(s, p[i], p[target], path) { ReplacedSeen(s, i, target, path); }
    }
    ShiftedShows(s, p[i], p[target], s');
  }

  lemma OverwriteMeans(s: State, i: Ino, target: Ino, dbFails: bool)
    requires Good(s) && IsMetaFile(s.inodes, i) && IsMetaFile(s.inodes, target) && i != target
    ensures Shown(s, i) && Shown(s, target)
    ensures Shows(s, if OverwriteRefused(s, i, target, dbFails) then Keep else Shift(Paths(s.inodes)[i], Paths(s.inodes)[target]),
                  OverwriteTo(s, i, target, dbFails).0)
  {
    var (s', r) := OverwriteTo(s, i, target, dbFails);
    OverwriteGood(s, i, target, dbFails);
    KeyIs(s, i);
    KeyIs(s, target);
    if OverwriteRefused(s, i, target, dbFails) {
      Unchanged(s, s');
    } else {
      ReplaceMeans(s, s', i, target);
    }
  }

  /** The entries of a rename, and what the guards make of them. */
  lemma RenameMeets(s: State, d: Ino, n: string, e: Ino, m: string, dbFails: bool)
    requires Good(s) && FromKernel(s, Rename(d, n, e, m, dbFails))
    ensures Renames(s, d, n, e, m) <==>
              && OurDir(s, d) && OurDir(s, e) && At(s, Entry(s, d, n)) != Nothing && Entry(s, d, n) != Entry(s, e, m)
  {
    NamespaceSides(s, d);
    NamespaceSides(s, e);
    if OurDir(s, d) && OurDir(s, e) {
      EntryIs(s, d, n);
      EntryIs(s, e, m);
      if HasChild(s.inodes, d, n) && HasChild(s.inodes, e, m) && Entry(s, d, n) == Entry(s, e, m) {
        PathInjective(s.inodes, s.nextIno, Paths(s.inodes), Child(s.inodes, d, n), Child(s.inodes, e, m));
      }
    }
  }

  lemma RenameMeans(s: State, d: Ino, n: string, e: Ino, m: string, dbFails: bool)
    requires Good(s) && FromKernel(s, Rename(d, n, e, m, dbFails))
    ensures Shows(s, if OurDir(s, d) && OurDir(s, e) then MeantByRename(s, Entry(s, d, n), Entry(s, e, m), dbFails) else Keep,
                  RenameTo(s, d, n, e, m, dbFails).0)
  {
    RenameMeets(s, d, n, e, m, dbFails);
    if !Renames(s, d, n, e, m) {
      RenameRefused(s, d, n, e, m, dbFails);
      Unchanged(s, s);
    } else if HasChild(s.inodes, e, m) {
      RenameToTakenMeans(s, d, n, e, m, dbFails);
    } else {
      RenameToFreeMeans(s, d, n, e, m, dbFails);
    }
  }

  lemma OverwriteIsMeant(s: State, i: Ino, target: Ino, dbFails: bool)
    requires Good(s) && IsMetaFile(s.inodes, i) && IsMetaFile(s.inodes, target) && i != target
    ensures Shown(s, i) && Shown(s, target)
    ensures var from, to := Paths(s.inodes)[i], Paths(s.inodes)[target];
            MeantByRename(s, from, to, dbFails) == if OverwriteRefused(s, i, target, dbFails) then Keep else Shift(from, to)
  {
    var p := Paths(s.inodes);
    KeyIs(s, i);
    KeyIs(s, target);
    if p[i] == p[target] { PathInjective(s.inodes, s.nextIno, p, i, target); }
  }

  lemma RenameToTakenMeans(s: State, d: Ino, n: string, e: Ino, m: string, dbFails: bool)
    requires Good(s) && FromKernel(s, Rename(d, n, e, m, dbFails)) && Renames(s, d, n, e, m) && HasChild(s.inodes, e, m)
    requires OurDir(s, d) && OurDir(s, e) && Entry(s, d, n) != Entry(s, e, m)
    ensures Shows(s, MeantByRename(s, Entry(s, d, n), Entry(s, e, m), dbFails), RenameTo(s, d, n, e, m, dbFails).0)
  {
    var i, j := Child(s.inodes, d, n), Child(s.inodes, e, m);
    RenameToTaken(s, d, n, e, m, dbFails);
    EntryIs(s, d, n);
    EntryIs(s, e, m);
    if s.inodes[i].File? && s.inodes[j].File? {
      OverwriteIsMeant(s, i, j, dbFails);
      OverwriteMeans(s, i, j, dbFails);
    } else {
      Unchanged(s, s);
    }
  }

  lemma RenameToFreeMeans(s: State, d: Ino, n: string, e: Ino, m: string, dbFails: bool)
    requires Good(s) && FromKernel(s, Rename(d, n, e, m, dbFails)) && Renames(s, d, n, e, m) && !HasChild(s.inodes, e, m)
    requires OurDir(s, d) && OurDir(s, e) && Entry(s, d, n) != Entry(s, e, m)
    ensures Shows(s, MeantByRename(s, Entry(s, d, n), Entry(s, e, m), dbFails), RenameTo(s, d, n, e, m, dbFails).0)
  {
    var i := Child(s.inodes, d, n);
    RenameToFree(s, d, n, e, m, dbFails);
    EntryIs(s, d, n);
    EntryIs(s, e, m);
    if s.inodes[i].Directory? {
      DirectoryRenameMeans(s, i, e, m, dbFails);
    } else if EndsWith(m, TORRENT) {
      FileRenameMeans(s, i, e, m, dbFails);
    } else {
      Unchanged(s, s);
    }
  }

  // ── Every step and every run ─────────────────────────────────────────────

  lemma AdderMeans(s: State, id: nat, ok: bool)
    requires Good(s) && id in s.adders
    ensures Shows(s, Keep, AdderTo(s, id, ok))
  {
    AdderGood(s, id, ok);
    AdderWrites(s, id, ok);
    Unchanged(s, AdderTo(s, id, ok));
  }

  lemma OpenMeans(s: State, i: Ino, dataFile: bool)
    requires Good(s)
    ensures Shows(s, Keep, OpenTo(s, i, dataFile).0)
  {
    OpenKeeps(s, i, dataFile);
    OpenExactly(s, i, dataFile);
    Unchanged(s, OpenTo(s, i, dataFile).0);
  }

  /** Every step of every call and add does to the tree exactly what is meant. */
  lemma StepMeans(s: State, ev: Event)
    requires Good(s) && Enabled(s, ev)
    ensures Shows(s, Meant(s, ev), After(s, ev))
  {
    match ev
    case Background(id, ok) => AdderMeans(s, id, ok);
    case Call(op) =>
      match op
      case Create(d, n, handle) => CreateMeans(s, d, n, handle);
      case Mkdir(d, n, dbFails) => MkdirMeans(s, d, n, dbFails);
      case Rmdir(d, n, dbFails) => RmdirMeans(s, d, n, dbFails);
      case Open(i, dataFile) => OpenMeans(s, i, dataFile);
      case Write(i, offset, bytes) => WriteMeans(s, i, offset, bytes);
      case SetSize(i, size) => SetSizeMeans(s, i, size);
      case Release(fh, parses, dbFails) => ReleaseMeans(s, fh, parses, dbFails);
      case Unlink(d, n, dbFails) => UnlinkMeans(s, d, n, dbFails);
      case Rename(d, n, e, m, dbFails) => RenameMeans(s, d, n, e, m, dbFails);
  }

  /** The changes a run is meant to make, in order. */
  ghost function Meanings(s: State, events: seq<Event>): seq<Change>
    requires Good(s)
    decreases |events|
  {
    if events == [] || !Enabled(s, events[0]) then []
    else
      StepGood(s, events[0]);
      [Meant(s, events[0])] + Meanings(After(s, events[0]), events[1..])
  }

  /** What stands at a path after changes to what `view` shows. */
  function AfterAll(view: Path -> Thing, changes: seq<Change>, path: Path): Thing
    decreases |changes|
  {
    if changes == [] then view(path) else AfterAll(q => Changed(view, changes[0], q), changes[1..], path)
  }

  lemma {:induction false} AfterAllSame(view: Path -> Thing, view': Path -> Thing, changes: seq<Change>, path: Path)
    requires forall q :: view(q) == view'(q)
    ensures AfterAll(view, changes, path) == AfterAll(view', changes, path)
    decreases |changes|
  {
    if changes != [] { AfterAllSame(q => Changed(view, changes[0], q), q => Changed(view', changes[0], q), changes[1..], path); }
  }

  /** A run of the daemon shows what the changes meant by its calls, one after the
      other, make of a map from paths to bytes. */
  lemma {:induction false} RunMeans(s: State, events: seq<Event>, s': State, path: Path)
    requires Good(s) && Reaches(s, events, s')
    ensures Good(s') && At(s', path) == AfterAll(View(s), Meanings(s, events), path)
    decreases |events|
  {
    if events != [] {
      var s1, c := After(s, events[0]), Meant(s, events[0]);
      StepGood(s, events[0]);
      StepMeans(s, events[0]);
      RunMeans(s1, events[1..], s', path);
      AfterAllSame(View(s1), q => Changed(View(s), c, q), Meanings(s1, events[1..]), path);
    }
  }

  /** Whatever stands below the root stands in a directory. */
  lemma ViewIsTree(s: State, path: Path, name: string)
    requires Good(s) && At(s, path + [name]) != Nothing
    ensures At(s, path) == Folder
  {
    var t, p := s.inodes, Paths(s.inodes);
    NothingSeen(t, p, path + [name]);
    var i :| Stands(p, i, path + [name]);
    assert LabelOk(t, p, i);
    LastApart(p[t[i].parent], t[i].name, path, name);
    SeenIs(t, s.nextIno, p, t[i].parent);
  }

  // ── Listings ─────────────────────────────────────────────────────────────

  function KindOf(thing: Thing): P.FileKind { if thing == Folder then P.DirectoryKind else P.RegularKind }

  /** Below the root there are the three fixed names, below `metadata/` our own. */
  lemma ParentIs(s: State, c: Ino, d: Ino)
    requires Good(s) && c in Paths(s.inodes) && s.inodes[c].parent == d && d in s.inodes
    ensures c != ROOT && LabelOk(s.inodes, Paths(s.inodes), c)
    ensures d == ROOT <==> c == METADATA || c == DATA || c == STATS
  {
    assert NodeOk(s.inodes, s.nextIno, c) && NodeOk(s.inodes, s.nextIno, d);
    NextIsFresh(s.inodes, s.nextIno);
  }

  /** A child is shown exactly when it stands at its name's path. */
  lemma ShownExactly(s: State, d: Ino, c: Ino, name: string)
    requires Good(s) && d in Paths(s.inodes)
    ensures L.IsShown(s.inodes, d, c) && s.inodes[c].name == name <==> Stands(Paths(s.inodes), c, Paths(s.inodes)[d] + [name])
  {
    var t, p := s.inodes, Paths(s.inodes);
    if L.IsShown(t, d, c) && t[c].name == name {
      assert c in p;
      ParentIs(s, c, d);
    }
    if Stands(p, c, p[d] + [name]) {
      assert LabelOk(t, p, c) && NodeOk(t, s.nextIno, c);
      LastApart(p[t[c].parent], t[c].name, p[d], name);
      PathInjective(t, s.nextIno, p, t[c].parent, d);
    }
  }

  /** A directory of `metadata/` lists, beside the dots, a name with a kind and a
      number exactly when that stands there. */
  lemma ListingShowsView(s: State, d: Ino, children: seq<Ino>, item: P.Item)
    requires Good(s) && d in Paths(s.inodes) && d != ROOT
    requires (forall c :: c in children ==> c in s.inodes) && forall c :: c in children <==> L.IsShown(s.inodes, d, c)
    ensures var path := Paths(s.inodes)[d] + [item.name];
            item in L.ShownItems(s.inodes, children) <==>
            At(s, path) != Nothing && KindOf(At(s, path)) == item.kind && Stands(Paths(s.inodes), item.ino, path)
  {
    var t, p, c, path := s.inodes, Paths(s.inodes), item.ino, Paths(s.inodes)[d] + [item.name];
    var items := L.ShownItems(t, children);
    ShownExactly(s, d, c, item.name);
    if Stands(p, c, path) { SeenIs(t, s.nextIno, p, c); }
    if item in items {
      var n :| 0 <= n < |items| && items[n] == item;
      assert children[n] in children && items[n] == L.ShownItem(t, children[n]);
    }
    if c in children {
      var n :| 0 <= n < |children| && children[n] == c;
      assert items[n] == L.ShownItem(t, c);
    }
  }

  /** So does the root. */
  lemma RootShowsView(s: State, item: P.Item)
    requires Good(s) && item.name != "." && item.name != ".."
    ensures item in L.RootItems() <==>
            At(s, [item.name]) != Nothing && KindOf(At(s, [item.name])) == item.kind && Stands(Paths(s.inodes), item.ino, [item.name])
  {
    var t, p, c := s.inodes, Paths(s.inodes), item.ino;
    SkeletonLabels(t, s.nextIno, p);
    assert p[ROOT] + [item.name] == [item.name];
    ShownExactly(s, ROOT, c, item.name);
    if Stands(p, c, [item.name]) {
      ParentIs(s, c, ROOT);
      SeenIs(t, s.nextIno, p, c);
    }
    RootItemsAre(item);
  }

  lemma RootItemsAre(item: P.Item)
    requires item.name != "." && item.name != ".."
    ensures item in L.RootItems() <==>
            || item == P.Item(METADATA, P.DirectoryKind, "metadata") || item == P.Item(DATA, P.DirectoryKind, "data")
            || item == P.Item(STATS, P.RegularKind, ".stats")
  {
    var items := L.RootItems();
    assert items[2] == P.Item(METADATA, P.DirectoryKind, "metadata") && items[3] == P.Item(DATA, P.DirectoryKind, "data");
    assert items[4] == P.Item(STATS, P.RegularKind, ".stats");
  }
}
