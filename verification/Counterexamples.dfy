/** Runs from a fresh mount that show where the namespace protocol falls short. */
module Counterexamples {
  import opened Text
  import opened InodeTree
  import opened DirectoryRows
  import opened Protocol
  import opened ProtocolSafety
  import opened RenameSafety
  import opened Runs
  import opened DirectoryTable

  const NAME: string := "x.torrent"
  const OTHER: string := "y.torrent"

  lemma Names()
    ensures EndsWith(NAME, TORRENT) && IsName(NAME) && NAME != ".stats"
    ensures EndsWith(OTHER, TORRENT) && IsName(OTHER) && NAME != OTHER
    ensures IsName("a") && IsName("b") && IsName("s") && IsName("abc") && IsName("ABC") && IsName("new")
    ensures "a" != "b" && "abc" != "ABC" && "abc" != "new" && "ABC" != "new"
  {
    assert NAME[1..] == TORRENT && OTHER[1..] == TORRENT;
    assert NAME[0] == 'x' && ".stats"[0] == '.' && OTHER[0] == 'y' && "a"[0] == 'a' && "b"[0] == 'b';
    assert "abc"[0] == 'a' && "ABC"[0] == 'A' && "new"[0] == 'n';
  }

  // ── Building a run ───────────────────────────────────────────────────────

  /** A state on the way: reachable, and with nothing wrong yet. */
  ghost predicate OnTheWay(s: State) {
    Good(s) && Reachable(s) && Clean(s) && Reported(s) && InStep(s) && s.hasDb && s.nextIno < 100
  }

  /** A directory of ours, free to take a new name. */
  ghost predicate Takes(s: State, x: Ino, name: string)
    requires Good(s)
  {
    && x in s.inodes && s.inodes[x].Directory? && InMetadata(Paths(s.inodes), x)
    && (x == METADATA || FIRST_INO <= x < s.nextIno)
    && IsName(name) && !HasChild(s.inodes, x, name)
  }

  lemma FreshMount() returns (s: State)
    ensures OnTheWay(s) && s.inodes == StartTable() && s.nextIno == FIRST_INO && s.open == map[]
    ensures s.nextFh == 1 && s.nextAdder == 0
    ensures s.rows == map[] && s.processing == {} && s.adders == map[] && s.errors == {}
    ensures METADATA in Paths(s.inodes) && Paths(s.inodes)[METADATA] == ["metadata"]
  {
    s := State(true, StartTable(), FIRST_INO, map[], 1, map[], {}, {}, map[], 0, DirTable(map[], 1));
    StartGood(s);
    StartInStep(s);
    assert Reaches(s, [], s);
    SkeletonLabels(s.inodes, s.nextIno, Paths(s.inodes));
  }

  lemma LabelsGrow(t: Table, next: Ino, n: Inode)
    requires Tree(t, next) && n.parent in t && t[n.parent].Directory? && InMetadata(Paths(t), n.parent)
    requires n.Linked() && IsName(n.name) && (n.File? ==> EndsWith(n.name, TORRENT)) && !HasChild(t, n.parent, n.name)
    ensures Tree(t[next := n], next + 1) && Paths(t[next := n]) == Paths(t)[next := Paths(t)[n.parent] + [n.name]]
  {
    AddLeaf(t, next, Paths(t), n);
    TreeIs(t[next := n], next + 1, Paths(t)[next := Paths(t)[n.parent] + [n.name]]);
  }

  lemma MayTake(s: State, x: Ino, name: string)
    requires Good(s) && Takes(s, x, name)
    ensures !IsDataNamespace(x) || s.nextIno > DATA_BASE
    ensures MetadataChild(s.inodes, x) && KernelDir(s.inodes, x)
  {
  }

  lemma MakesDirectory(s: State, x: Ino, name: string) returns (s': State)
    requires OnTheWay(s) && s.nextIno < 99 && Takes(s, x, name)
    ensures OnTheWay(s')
    ensures s' == s.(inodes := s.inodes[s.nextIno := Directory(x, name)], nextIno := s.nextIno + 1, dirs := s'.dirs)
    ensures Paths(s'.inodes) == Paths(s.inodes)[s.nextIno := Paths(s.inodes)[x] + [name]]
  {
    MayTake(s, x, name);
    var ev := Call(Mkdir(x, name, false));
    assert Enabled(s, ev);
    s' := After(s, ev);
    assert s' == s.(inodes := s.inodes[s.nextIno := Directory(x, name)], nextIno := s.nextIno + 1, dirs := s'.dirs);
    NothingWrong(s, ev);
    LabelsGrow(s.inodes, s.nextIno, Directory(x, name));
  }

  /** Steps other than renames do nothing wrong. */
  lemma NothingWrong(s: State, ev: Event)
    requires Good(s) && Reachable(s) && Clean(s) && Reported(s) && InStep(s)
    requires Enabled(s, ev) && (ev.Call? ==> !ev.op.Rename?) && Followed(s, ev)
    ensures var s' := After(s, ev);
            Good(s') && Reachable(s') && Clean(s') && Reported(s') && InStep(s')
  {
    OneMoreStep(s, ev);
    StepClean(s, ev);
    StepReported(s, ev);
    StepInStepExactly(s, ev);
  }

  /** `x.torrent` created in a directory. */
  lemma CreatesFile(s: State, x: Ino) returns (s': State)
    requires OnTheWay(s) && s.nextIno < 99 && Takes(s, x, NAME)
    ensures OnTheWay(s')
    ensures s' == s.(inodes := s.inodes[s.nextIno := File(x, NAME, "", false)], nextIno := s.nextIno + 1,
                     open := s.open[s.nextFh := s.nextIno], nextFh := s.nextFh + 1)
    ensures Paths(s'.inodes) == Paths(s.inodes)[s.nextIno := Paths(s.inodes)[x] + [NAME]]
  {
    Names();
    MayTake(s, x, NAME);
    var ev := Call(Create(x, NAME, true));
    assert Enabled(s, ev);
    s' := After(s, ev);
    assert s' == s.(inodes := s.inodes[s.nextIno := File(x, NAME, "", false)], nextIno := s.nextIno + 1,
                    open := s.open[s.nextFh := s.nextIno], nextFh := s.nextFh + 1);
    NothingWrong(s, ev);
    LabelsGrow(s.inodes, s.nextIno, File(x, NAME, "", false));
  }

  lemma SameLabels(t: Table, next: Ino, i: Ino, data: string)
    requires Tree(t, next) && i in t && i >= FIRST_INO && t[i].File?
    ensures Tree(t[i := t[i].(data := data)], next) && Paths(t[i := t[i].(data := data)]) == Paths(t)
  {
    SameLinks(t, next, Paths(t), t[i := t[i].(data := data)]);
    TreeIs(t[i := t[i].(data := data)], next, Paths(t));
  }

  /** One byte at the front of a file. */
  lemma WritesByte(s: State, i: Ino, c: char) returns (s': State)
    requires OnTheWay(s) && IsMetaFile(s.inodes, i)
    ensures OnTheWay(s')
    ensures s' == s.(inodes := s.inodes[i := s.inodes[i].(data := Patched(s.inodes[i].data, 0, [c]))])
    ensures Paths(s'.inodes) == Paths(s.inodes)
  {
    var ev := Call(Write(i, 0, [c]));
    assert NodeOk(s.inodes, s.nextIno, i);
    s' := After(s, ev);
    assert s' == s.(inodes := s.inodes[i := s.inodes[i].(data := Patched(s.inodes[i].data, 0, [c]))]);
    NothingWrong(s, ev);
    SameLabels(s.inodes, s.nextIno, i, Patched(s.inodes[i].data, 0, [c]));
  }

  /** `x.torrent` in a directory, written to and still open. */
  lemma WritesFile(s: State, x: Ino) returns (s': State)
    requires OnTheWay(s) && s.nextIno < 99 && Takes(s, x, NAME)
    ensures OnTheWay(s')
    ensures s' == s.(inodes := s.inodes[s.nextIno := File(x, NAME, "d", false)], nextIno := s.nextIno + 1,
                     open := s.open[s.nextFh := s.nextIno], nextFh := s.nextFh + 1)
    ensures Paths(s'.inodes) == Paths(s.inodes)[s.nextIno := Paths(s.inodes)[x] + [NAME]]
  {
    var s1 := CreatesFile(s, x);
    s' := WritesByte(s1, s.nextIno, 'd');
    ByteInNewFile(s.inodes, s.nextIno, x);
  }

  lemma ByteInNewFile(t: Table, i: Ino, x: Ino)
    ensures t[i := File(x, NAME, "", false)][i := File(x, NAME, "", false).(data := Patched("", 0, "d"))] ==
            t[i := File(x, NAME, "d", false)]
  {
    assert Patched("", 0, "d") == "d";
  }

  /** The file closed, its add in flight. */
  lemma ClosesFile(s: State, fh: nat) returns (s': State)
    requires OnTheWay(s) && fh in s.open && IsMetaFile(s.inodes, s.open[fh]) && FileKey(s, s.open[fh]) !in s.processing
    requires 0 < |s.inodes[s.open[fh]].data| <= MAX_TORRENT_SIZE
    ensures OnTheWay(s')
    ensures var k := FileKey(s, s.open[fh]);
            s' == s.(open := s.open - {fh}, processing := s.processing + {k}, nextAdder := s.nextAdder + 1,
                     adders := s.adders[s.nextAdder := Adder(k, s.inodes[s.open[fh]].data, Persisting)])
  {
    var ev := Call(Release(fh, true, false));
    s' := After(s, ev);
    NothingWrong(s, ev);
  }

  lemma ThreeSteps(s: State, id: nat, ok: bool)
    requires id in s.adders && s.adders[id].phase == Persisting
    ensures var a, s1 := s.adders[id], AdderTo(s, id, ok);
            && id in s1.adders && s1.adders[id].key == a.key
            && var s2 := AdderTo(s1, id, ok);
            && id in s2.adders
            && AdderTo(s2, id, ok) ==
                 s.(rows := if ok then s.rows[a.key := a.data] else s.rows,
                    errors := if ok then s.errors - {a.key} else s.errors + {a.key},
                    processing := s.processing - {a.key}, adders := s.adders - {id},
                    dirs := if ok then Ensured(s.dirs, a.key.sourcePath) else s.dirs)
  {
    var s1 := AdderTo(s, id, ok);
    var s2 := AdderTo(s1, id, ok);
    assert s2.adders[id] == Adder(s.adders[id].key, s.adders[id].data, Recorded);
    assert s2.adders - {id} == s.adders - {id};
  }

  lemma AdderSteps(s: State, id: nat, ok: bool)
    requires Good(s) && Reachable(s) && id in s.adders
    ensures Good(AdderTo(s, id, ok)) && Reachable(AdderTo(s, id, ok))
    ensures Clean(s) ==> Clean(AdderTo(s, id, ok)) && (Reported(s) ==> Reported(AdderTo(s, id, ok)))
    ensures Clean(s) && InStep(s) ==> InStep(AdderTo(s, id, ok))
  {
    OneMoreStep(s, Background(id, ok));
    AdderKeeps(s, id, ok);
    if Clean(s) && InStep(s) { StepInStepExactly(s, Background(id, ok)); }
  }

  /** An add runs to its end, with or without success. */
  lemma AddEnds(s: State, id: nat, ok: bool) returns (s': State)
    requires Good(s) && Reachable(s) && id in s.adders && s.adders[id].phase == Persisting
    ensures Good(s') && Reachable(s') && (Clean(s) ==> Clean(s') && (Reported(s) ==> Reported(s')) && (InStep(s) ==> InStep(s')))
    ensures var a := s.adders[id];
            s' == s.(rows := if ok then s.rows[a.key := a.data] else s.rows,
                     errors := if ok then s.errors - {a.key} else s.errors + {a.key},
                     processing := s.processing - {a.key}, adders := s.adders - {id}, dirs := s'.dirs)
  {
    ThreeSteps(s, id, ok);
    AdderSteps(s, id, ok);
    AdderSteps(AdderTo(s, id, ok), id, ok);
    AdderSteps(AdderTo(AdderTo(s, id, ok), id, ok), id, ok);
    s' := AdderTo(AdderTo(AdderTo(s, id, ok), id, ok), id, ok);
  }

  /** A directory `a` with `x.torrent` open in it. */
  lemma FileOpen() returns (s: State)
    ensures OnTheWay(s) && s.nextIno == 7 && s.open == map[1 := 6] && s.nextFh == 2 && s.nextAdder == 0
    ensures s.rows == map[] && s.errors == {} && s.processing == {} && s.adders == map[]
    ensures s.inodes == StartTable()[5 := Directory(METADATA, "a")][6 := File(5, NAME, "d", false)]
    ensures 5 in Paths(s.inodes) && Paths(s.inodes)[5] == ["metadata", "a"]
  {
    Names();
    var s0 := FreshMount();
    var s1 := MakesDirectory(s0, METADATA, "a");
    assert !HasChild(s1.inodes, 5, NAME);
    s := WritesFile(s1, 5);
  }

  /** The table of these runs: `a` and, in it, `x.torrent`. */
  ghost predicate OneFile(s: State) {
    && Good(s) && s.inodes == StartTable()[5 := Directory(METADATA, "a")][6 := File(5, NAME, "d", false)]
    && 5 in Paths(s.inodes) && Paths(s.inodes)[5] == ["metadata", "a"]
  }

  lemma TheFile(s: State)
    requires OneFile(s)
    ensures IsMetaFile(s.inodes, 6) && InMetadata(Paths(s.inodes), 5) && FileKey(s, 6) == Key("a", NAME)
    ensures HasKey(s.inodes, Paths(s.inodes), 6, Key("a", NAME))
    ensures HasChild(s.inodes, METADATA, "a") && Child(s.inodes, METADATA, "a") == 5
    ensures HasChild(s.inodes, 5, NAME) && Child(s.inodes, 5, NAME) == 6
    ensures !HasChild(s.inodes, METADATA, "b") && !HasChild(s.inodes, 5, OTHER)
  {
    var t, p := s.inodes, Paths(s.inodes);
    Names();
    assert p[5][1..] == ["a"];
    ParentInMetadata(t, s.nextIno, p, 6);
    ChildIs(t, METADATA, "a", 5);
    ChildIs(t, 5, NAME, 6);
  }

  /** The file closed, its add in flight. */
  lemma AddInFlight() returns (s: State)
    ensures OnTheWay(s) && OneFile(s) && s.open == map[] && s.nextFh == 2 && s.rows == map[] && s.errors == {}
    ensures s.processing == {Key("a", NAME)} && s.adders == map[0 := Adder(Key("a", NAME), "d", Persisting)]
  {
    var s1 := FileOpen();
    TheFile(s1);
    s := ClosesFile(s1, 1);
  }

  /** The add over, with or without success. */
  lemma AddOver(ok: bool) returns (s: State)
    ensures OnTheWay(s) && OneFile(s) && s.processing == {} && s.adders == map[]
    ensures s.rows == if ok then map[Key("a", NAME) := "d"] else map[]
    ensures s.errors == if ok then {} else {Key("a", NAME)}
  {
    var s1 := AddInFlight();
    s := AddEnds(s1, 0, ok);
  }

  /** The directory may be renamed to `b`. */
  lemma DirectoryMayMove(s: State)
    requires OneFile(s)
    ensures Enabled(s, Call(Rename(METADATA, "a", METADATA, "b", false))) && MovesDirectory(s, 5, METADATA, "b")
    ensures RenameTo(s, METADATA, "a", METADATA, "b", false) == RenameDirTo(s, 5, METADATA, "b", false)
    ensures From(s, 5) == "a"
  {
    var t, p := s.inodes, Paths(s.inodes);
    Names();
    TheFile(s);
    SkeletonLabels(t, s.nextIno, p);
    assert p[5][1..] == ["a"];
    forall i | IsChild(t, METADATA, "a", i) ensures i == 5 { ChildIs(t, METADATA, "a", i); }
    assert Renames(s, METADATA, "a", METADATA, "b");
    RenameToFree(s, METADATA, "a", METADATA, "b", false);
  }

  /** The file may be renamed to `y.torrent`. */
  lemma FileMayMove(s: State, dbFails: bool)
    requires OneFile(s)
    ensures Enabled(s, Call(Rename(5, NAME, 5, OTHER, dbFails)))
    ensures 5 in s.inodes && s.inodes[5].Directory? && InMetadata(Paths(s.inodes), 5) && IsMetaFile(s.inodes, 6)
    ensures RenameTo(s, 5, NAME, 5, OTHER, dbFails) == RenameFileTo(s, 6, 5, OTHER, dbFails)
  {
    Names();
    TheFile(s);
    forall i | IsChild(s.inodes, 5, NAME, i) ensures i == 6 { ChildIs(s.inodes, 5, NAME, i); }
    assert Renames(s, 5, NAME, 5, OTHER);
    RenameToFree(s, 5, NAME, 5, OTHER, dbFails);
  }

  // ── Orphans ──────────────────────────────────────────────────────────────

  /** Nothing is in flight and yet some row is the key of no file. */
  ghost predicate Orphaned(s: State) {
    Good(s) && Reachable(s) && s.processing == {} && !AllNamed(s.inodes, s.rows.Keys)
  }

  /** Renaming a directory while the add of a file in it is in flight: the row
      lands at the old path. */
  lemma DirectoryRenameOrphans() returns (s: State)
    ensures Orphaned(s)
  {
    var s1 := AddInFlight();
    var k := Key("a", NAME);
    var ev := Call(Rename(METADATA, "a", METADATA, "b", false));
    DirectoryMayMove(s1);
    OneMoreStep(s1, ev);
    var s2 := After(s1, ev);
    TheFile(s1);
    KeysAfterMove(s1, 5, METADATA, "b", {k});
    s := AddEnds(s2, 0, true);
    assert k in s.rows && s.inodes == s2.inodes;
  }

  /** Renaming a file when the database fails: the row stays at the old name. */
  lemma FailedRenameOrphans() returns (s: State)
    ensures Orphaned(s)
  {
    var s1 := AddOver(true);
    var ev := Call(Rename(5, NAME, 5, OTHER, true));
    Names();
    TheFile(s1);
    FileMayMove(s1, true);
    OneMoreStep(s1, ev);
    RenameFileExactly(s1, 6, 5, OTHER, true);
    s := After(s1, ev);
  }

  /** A row of the only file that the statement does not move with its directory. */
  lemma OnlyRowIsLost(s: State, d: Ino, e: Ino, m: string, i: Ino, k: Key)
    requires MovesDirectory(s, d, e, m) && Clean(s) && s.hasDb && k in s.rows && s.rows.Keys == {k}
    requires !DirsCollide(s.dirs.rows, From(s, d), To(s, e, m))
    requires HasKey(s.inodes, Paths(s.inodes), i, k) && forall j :: IsMetaFile(s.inodes, j) ==> j == i
    requires !SqlExact(From(s, d), To(s, e, m), k.sourcePath)
    ensures var s' := RenameDirTo(s, d, e, m, false).0;
            Good(s') && s'.processing == s.processing && !AllNamed(s'.inodes, s'.rows.Keys)
  {
    var s', l := RenameDirTo(s, d, e, m, false).0, MovedKey(From(s, d), To(s, e, m), k);
    DirectoryMoved(s, d, e, m, false);
    OnlyKeyIsLost(s, d, e, m, i, k);
    RowsAfter(s, d, e, m, false);
    assert RowAfter(s, d, e, m, false, k) == l && l in s'.rows;
  }

  lemma OnlyKeyIsLost(s: State, d: Ino, e: Ino, m: string, i: Ino, k: Key)
    requires MovesDirectory(s, d, e, m)
    requires HasKey(s.inodes, Paths(s.inodes), i, k) && forall j :: IsMetaFile(s.inodes, j) ==> j == i
    requires !SqlExact(From(s, d), To(s, e, m), k.sourcePath)
    ensures !Named(s.inodes[d := Directory(e, m)], NewLabels(s, d, e, m), MovedKey(From(s, d), To(s, e, m), k))
  {
    var t', p', l := s.inodes[d := Directory(e, m)], NewLabels(s, d, e, m), MovedKey(From(s, d), To(s, e, m), k);
    OwnerKept(s, d, e, m, i, k);
    forall j | HasKey(t', p', j, l) ensures false { assert IsMetaFile(s.inodes, j); }
  }

  /** Two directories, a third below one of them, and a stored file in that. */
  ghost predicate Scene(s: State, a: string, b: string, x: Ino) {
    && Good(s)
    && s.inodes == StartTable()[5 := Directory(METADATA, a)][6 := Directory(METADATA, b)][7 := Directory(x, "s")][8 := File(7, NAME, "d", false)]
    && var p := Paths(s.inodes);
    && 5 in p && p[5] == ["metadata", a] && 6 in p && p[6] == ["metadata", b]
    && 7 in p && p[7] == ["metadata", if x == 5 then a else b, "s"]
  }

  lemma TwoDirectories(a: string, b: string) returns (s: State)
    requires IsName(a) && IsName(b) && a != b
    ensures OnTheWay(s) && s.nextIno == 7 && s.open == map[] && s.nextFh == 1 && s.nextAdder == 0
    ensures s.rows == map[] && s.errors == {} && s.processing == {} && s.adders == map[]
    ensures s.inodes == StartTable()[5 := Directory(METADATA, a)][6 := Directory(METADATA, b)]
    ensures var p := Paths(s.inodes);
            5 in p && p[5] == ["metadata", a] && 6 in p && p[6] == ["metadata", b]
  {
    var s0 := FreshMount();
    var s1 := MakesDirectory(s0, METADATA, a);
    s := MakesDirectory(s1, METADATA, b);
  }

  /** Two directories and one more below one of them. */
  lemma ThreeDirectories(a: string, b: string, x: Ino, n: string) returns (s: State)
    requires IsName(a) && IsName(b) && a != b && (x == 5 || x == 6) && IsName(n)
    ensures OnTheWay(s) && s.nextIno == 8 && s.open == map[] && s.nextFh == 1 && s.nextAdder == 0
    ensures s.rows == map[] && s.errors == {} && s.processing == {} && s.adders == map[]
    ensures s.inodes == StartTable()[5 := Directory(METADATA, a)][6 := Directory(METADATA, b)][7 := Directory(x, n)]
    ensures var p := Paths(s.inodes);
            && 5 in p && p[5] == ["metadata", a] && 6 in p && p[6] == ["metadata", b]
            && 7 in p && p[7] == ["metadata", if x == 5 then a else b, n]
  {
    var s1 := TwoDirectories(a, b);
    assert !HasChild(s1.inodes, x, n);
    s := MakesDirectory(s1, x, n);
  }

  lemma SceneOpen(a: string, b: string, x: Ino) returns (s: State)
    requires IsName(a) && IsName(b) && a != b && (x == 5 || x == 6)
    ensures OnTheWay(s) && Scene(s, a, b, x) && s.open == map[1 := 8]
    ensures s.rows == map[] && s.errors == {} && s.processing == {} && s.adders == map[]
  {
    Names();
    var s1 := ThreeDirectories(a, b, x, "s");
    assert !HasChild(s1.inodes, 7, NAME);
    s := WritesFile(s1, 7);
  }

  lemma SceneStored(a: string, b: string, x: Ino) returns (s: State)
    requires IsName(a) && IsName(b) && a != b && (x == 5 || x == 6)
    ensures OnTheWay(s) && Scene(s, a, b, x) && s.processing == {}
    ensures IsMetaFile(s.inodes, 8) && s.rows == map[FileKey(s, 8) := "d"]
  {
    var s1 := SceneOpen(a, b, x);
    var s2 := ClosesFile(s1, 1);
    s := AddEnds(s2, s1.nextAdder, true);
  }

  /** A directory at the top, free to be renamed to `m`. */
  ghost predicate TopDirectory(s: State, i: Ino, a: string, m: string) {
    && Good(s) && i >= FIRST_INO && i in s.inodes && s.inodes[i] == Directory(METADATA, a)
    && i in Paths(s.inodes) && Paths(s.inodes)[i] == ["metadata", a]
    && IsName(a) && IsName(m) && !HasChild(s.inodes, METADATA, m)
  }

  lemma TopMoves(s: State, i: Ino, a: string, m: string)
    requires TopDirectory(s, i, a, m)
    ensures Enabled(s, Call(Rename(METADATA, a, METADATA, m, false))) && MovesDirectory(s, i, METADATA, m)
    ensures RenameTo(s, METADATA, a, METADATA, m, false) == RenameDirTo(s, i, METADATA, m, false)
    ensures From(s, i) == a && To(s, METADATA, m) == m
  {
    var t, p := s.inodes, Paths(s.inodes);
    SkeletonLabels(t, s.nextIno, p);
    assert p[i][1..] == [a] && p[METADATA][1..] + [m] == [m];
    ChildIs(t, METADATA, a, i);
    forall j | IsChild(t, METADATA, a, j) ensures j == i { ChildIs(t, METADATA, a, j); }
    assert Renames(s, METADATA, a, METADATA, m);
    RenameToFree(s, METADATA, a, METADATA, m, false);
  }

  lemma SceneMoves(s: State, a: string, b: string, x: Ino, m: string)
    requires Scene(s, a, b, x) && (x == 5 || x == 6) && IsName(a) && IsName(m) && a != b && m != a && m != b
    ensures TopDirectory(s, 5, a, m)
  {
  }

  lemma SceneKey(s: State, a: string, b: string, x: Ino)
    requires Scene(s, a, b, x) && (x == 5 || x == 6)
    ensures IsMetaFile(s.inodes, 8) && forall j :: IsMetaFile(s.inodes, j) ==> j == 8
    ensures FileKey(s, 8) == Key((if x == 5 then a else b) + "/s", NAME)
    ensures HasKey(s.inodes, Paths(s.inodes), 8, FileKey(s, 8))
  {
    var c := if x == 5 then a else b;
    assert Paths(s.inodes)[7][1..] == [c, "s"] && [c, "s"][1..] == ["s"];
    assert Join([c, "s"]) == c + "/" + "s" == c + "/s";
    ParentInMetadata(s.inodes, s.nextIno, Paths(s.inodes), 8);
  }

  /** A rename of directory 5 that will move the row of the only file wrongly. */
  ghost predicate WillLoseRow(s: State, a: string, m: string) {
    && MovesDirectory(s, 5, METADATA, m) && FromKernel(s, Rename(METADATA, a, METADATA, m, false))
    && RenameTo(s, METADATA, a, METADATA, m, false) == RenameDirTo(s, 5, METADATA, m, false)
    && Clean(s) && s.hasDb && IsMetaFile(s.inodes, 8) && s.rows.Keys == {FileKey(s, 8)}
    && HasKey(s.inodes, Paths(s.inodes), 8, FileKey(s, 8)) && (forall j :: IsMetaFile(s.inodes, j) ==> j == 8)
    && !SqlExact(From(s, 5), To(s, METADATA, m), FileKey(s, 8).sourcePath)
    && !DirsCollide(s.dirs.rows, From(s, 5), To(s, METADATA, m))
  }

  /** The three directories go to three different paths. */
  predicate PathsApart(a: string, b: string, m: string, path: string) {
    && SqlMoved(a, m, a) != SqlMoved(a, m, b) && SqlMoved(a, m, a) != SqlMoved(a, m, path)
    && SqlMoved(a, m, b) != SqlMoved(a, m, path)
  }

  lemma SceneDirs(s: State, a: string, b: string, x: Ino)
    requires Scene(s, a, b, x) && (x == 5 || x == 6)
    ensures forall y :: IsDir(s.inodes, Paths(s.inodes), y) ==> y == 5 || y == 6 || y == 7
    ensures SourcePath(Paths(s.inodes), 5) == a && SourcePath(Paths(s.inodes), 6) == b
    ensures SourcePath(Paths(s.inodes), 7) == (if x == 5 then a else b) + "/s"
  {
    var p, c := Paths(s.inodes), if x == 5 then a else b;
    SkeletonLabels(s.inodes, s.nextIno, p);
    assert p[5][1..] == [a] && p[6][1..] == [b] && p[7][1..] == [c, "s"] && [c, "s"][1..] == ["s"];
    assert Join([c, "s"]) == c + "/" + "s" == c + "/s";
  }

  lemma SceneApart(s: State, a: string, b: string, x: Ino, m: string)
    requires Scene(s, a, b, x) && InStep(s) && (x == 5 || x == 6) && PathsApart(a, b, m, (if x == 5 then a else b) + "/s")
    ensures !DirsCollide(s.dirs.rows, a, m)
  {
    SceneDirs(s, a, b, x);
    CollideExactly(s, a, m);
  }

  lemma SceneWillLoseRow(s: State, a: string, b: string, x: Ino, m: string)
    requires Scene(s, a, b, x) && (x == 5 || x == 6) && IsName(a) && IsName(m) && a != b && m != a && m != b
    requires Clean(s) && InStep(s) && s.hasDb && IsMetaFile(s.inodes, 8) && s.rows == map[FileKey(s, 8) := "d"]
    requires !SqlExact(a, m, (if x == 5 then a else b) + "/s") && PathsApart(a, b, m, (if x == 5 then a else b) + "/s")
    ensures WillLoseRow(s, a, m)
  {
    SceneApart(s, a, b, x, m);
    SceneMoves(s, a, b, x, m);
    TopMoves(s, 5, a, m);
    SceneKey(s, a, b, x);
  }

  lemma LosesIt(s: State, a: string, m: string)
    requires WillLoseRow(s, a, m)
    ensures var s' := RenameTo(s, METADATA, a, METADATA, m, false).0;
            Good(s') && s'.processing == s.processing && !AllNamed(s'.inodes, s'.rows.Keys)
  {
    OnlyRowIsLost(s, 5, METADATA, m, 8, FileKey(s, 8));
  }

  /** Wherever the statement is not exact, some run ends in an orphan. */
  lemma InexactRenameOrphans(a: string, b: string, x: Ino, m: string) returns (s: State)
    requires IsName(a) && IsName(b) && IsName(m) && a != b && m != a && m != b && (x == 5 || x == 6)
    requires !SqlExact(a, m, (if x == 5 then a else b) + "/s") && PathsApart(a, b, m, (if x == 5 then a else b) + "/s")
    ensures Orphaned(s)
  {
    var s1 := SceneStored(a, b, x);
    SceneWillLoseRow(s1, a, b, x, m);
    LosesIt(s1, a, m);
    OneMoreStep(s1, Call(Rename(METADATA, a, METADATA, m, false)));
    s := After(s1, Call(Rename(METADATA, a, METADATA, m, false)));
  }

  /** Renaming `abc` takes the row of `ABC/s/x.torrent` along. */
  lemma CaseVariantOrphans() returns (s: State)
    ensures Orphaned(s)
  {
    Names();
    var q := "ABC/s";
    assert forall i :: 0 <= i < 4 ==> Lower(q[i]) == Lower("abc/"[i]);
    assert "abc" + "/" == "abc/" && "ABC" + "/s" == q && q[0] == 'A';
    CaseVariantIsDragged();
    assert SqlMoved("abc", "new", "abc") == "new" && SqlMoved("abc", "new", "ABC") == "ABC";
    assert "new"[0] == 'n' && "ABC"[0] == 'A' && |"new/s"| == 5;
    s := InexactRenameOrphans("abc", "ABC", 6, "new");
  }

  /** Renaming a directory whose name is one two-byte character cuts the name of
      its subdirectory off the row below. */
  lemma MultiByteOrphans() returns (s: State)
    ensures Orphaned(s)
  {
    Names();
    var a := ['\U{00C3}', '\U{00A9}'];
    assert Continues(a[1]) && a[0] != "b"[0] && a[0] != "new"[0];
    assert a + "/s" == a + "/" + "s";
    assert (a + "/")[0] == a[0] && Lower('n') != Lower(a[0]) && "new"[0] == 'n';
    assert SqlMoved(a, "new", a) == "new" && SqlMoved(a, "new", "b") == "b";
    assert Like(a + "/", a + "/s") && |SqlMoved(a, "new", a + "/s")| >= 4;
    s := InexactRenameOrphans(a, "b", 5, "new");
  }

  /** Two directories, one more below each of two of them, and a stored file in the
      first. */
  ghost predicate Crowd(s: State, a: string, b: string, x: Ino, n: string, y: Ino, o: string) {
    && Good(s)
    && s.inodes == StartTable()[5 := Directory(METADATA, a)][6 := Directory(METADATA, b)][7 := Directory(x, n)][8 := Directory(y, o)][9 := File(5, NAME, "d", false)]
    && var p := Paths(s.inodes);
    && 5 in p && p[5] == ["metadata", a]
    && 7 in p && p[7] == ["metadata", if x == 5 then a else b, n]
    && 8 in p && p[8] == ["metadata", if y == 5 then a else b, o]
  }

  /** Names for a crowd, the file's among them. */
  predicate CrowdNames(a: string, b: string, x: Ino, n: string, y: Ino, o: string) {
    && IsName(a) && IsName(b) && a != b && IsName(n) && IsName(o) && n != NAME && o != NAME
    && (x == 5 || x == 6) && (y == 5 || y == 6) && (x == y ==> n != o)
  }

  lemma CrowdFree(t: Table, a: string, b: string, x: Ino, n: string, y: Ino, o: string)
    requires t == StartTable()[5 := Directory(METADATA, a)][6 := Directory(METADATA, b)] && CrowdNames(a, b, x, n, y, o)
    ensures !HasChild(t, x, n) && !HasChild(t[7 := Directory(x, n)], y, o)
    ensures !HasChild(t[7 := Directory(x, n)][8 := Directory(y, o)], 5, NAME)
  {
  }

  lemma CrowdDirectories(a: string, b: string, x: Ino, n: string, y: Ino, o: string) returns (s: State)
    requires CrowdNames(a, b, x, n, y, o)
    ensures OnTheWay(s) && s.nextIno == 9 && s.open == map[] && s.nextFh == 1
    ensures s.rows == map[] && s.processing == {} && s.adders == map[]
    ensures s.inodes == StartTable()[5 := Directory(METADATA, a)][6 := Directory(METADATA, b)][7 := Directory(x, n)][8 := Directory(y, o)]
    ensures var p := Paths(s.inodes);
            && 5 in p && p[5] == ["metadata", a]
            && 7 in p && p[7] == ["metadata", if x == 5 then a else b, n]
            && 8 in p && p[8] == ["metadata", if y == 5 then a else b, o]
  {
    var s1 := ThreeDirectories(a, b, x, n);
    CrowdFree(StartTable()[5 := Directory(METADATA, a)][6 := Directory(METADATA, b)], a, b, x, n, y, o);
    s := MakesDirectory(s1, y, o);
  }

  lemma CrowdOpen(a: string, b: string, x: Ino, n: string, y: Ino, o: string) returns (s: State)
    requires CrowdNames(a, b, x, n, y, o)
    ensures OnTheWay(s) && Crowd(s, a, b, x, n, y, o) && s.open == map[1 := 9]
    ensures s.rows == map[] && s.processing == {} && s.adders == map[]
  {
    Names();
    var s1 := CrowdDirectories(a, b, x, n, y, o);
    CrowdFree(StartTable()[5 := Directory(METADATA, a)][6 := Directory(METADATA, b)], a, b, x, n, y, o);
    s := WritesFile(s1, 5);
  }

  lemma CrowdStored(a: string, b: string, x: Ino, n: string, y: Ino, o: string) returns (s: State)
    requires CrowdNames(a, b, x, n, y, o)
    ensures OnTheWay(s) && Crowd(s, a, b, x, n, y, o) && s.processing == {}
    ensures IsMetaFile(s.inodes, 9) && FileKey(s, 9) in s.rows
  {
    var s1 := CrowdOpen(a, b, x, n, y, o);
    var s2 := ClosesFile(s1, 1);
    s := AddEnds(s2, s1.nextAdder, true);
  }

  lemma JoinTwo(c: string, n: string)
    ensures Join([c, n]) == c + "/" + n
  {
    assert [c, n][1..] == [n];
  }

  lemma CrowdPlaces(s: State, a: string, b: string, x: Ino, n: string, y: Ino, o: string)
    requires Crowd(s, a, b, x, n, y, o) && CrowdNames(a, b, x, n, y, o)
    ensures IsDir(s.inodes, Paths(s.inodes), 7) && SourcePath(Paths(s.inodes), 7) == (if x == 5 then a else b) + "/" + n
    ensures IsDir(s.inodes, Paths(s.inodes), 8) && SourcePath(Paths(s.inodes), 8) == (if y == 5 then a else b) + "/" + o
  {
    var p := Paths(s.inodes);
    var c, d := if x == 5 then a else b, if y == 5 then a else b;
    assert p[7][1..] == [c, n] && p[8][1..] == [d, o];
    JoinTwo(c, n);
    JoinTwo(d, o);
  }

  lemma CrowdFile(s: State, a: string, b: string, x: Ino, n: string, y: Ino, o: string, m: string)
    requires Crowd(s, a, b, x, n, y, o) && CrowdNames(a, b, x, n, y, o) && IsName(m) && m != a && m != b
    ensures TopDirectory(s, 5, a, m) && IsMetaFile(s.inodes, 9) && FileKey(s, 9) == Key(a, NAME)
  {
    assert Paths(s.inodes)[5][1..] == [a];
    ParentInMetadata(s.inodes, s.nextIno, Paths(s.inodes), 9);
  }

  /** The rows of two directories would take one path: the transaction fails, the
      inode has moved, and the row of the file stays behind. */
  lemma CollidingRenameOrphans(a: string, b: string, x: Ino, n: string, y: Ino, o: string, m: string) returns (s: State)
    requires CrowdNames(a, b, x, n, y, o) && IsName(m) && m != a && m != b
    requires SqlMoved(a, m, (if x == 5 then a else b) + "/" + n) == SqlMoved(a, m, (if y == 5 then a else b) + "/" + o)
    ensures Orphaned(s)
  {
    var s1 := CrowdStored(a, b, x, n, y, o);
    var ev := Call(Rename(METADATA, a, METADATA, m, false));
    CrowdPlaces(s1, a, b, x, n, y, o);
    CrowdFile(s1, a, b, x, n, y, o, m);
    TopMoves(s1, 5, a, m);
    assert MeetAt(s1, a, m, 7, 8);
    CollideExactly(s1, a, m);
    OneMoreStep(s1, ev);
    KeysAfterMove(s1, 5, METADATA, m, s1.rows.Keys);
    s := After(s1, ev);
    assert s.rows == s1.rows && Under(a, a);
  }

  /** `abc/s` and `ABC/s` both become `new/s`. */
  lemma CaseVariantsCollide() returns (s: State)
    ensures Orphaned(s)
  {
    Names();
    CaseVariantIsDragged();
    assert "abc" + "/" + "s" == "abc/s" && "ABC" + "/" + "s" == "ABC/s" && "abc/s" == "abc/" + "s" && "abc" + "/" == "abc/";
    DropSingleBytes("abc/", "s");
    assert "s"[0] != NAME[0];
    s := CollidingRenameOrphans("abc", "ABC", 5, "s", 6, "s", "new");
  }

  /** Below a name of one two-byte character `as` and `bs` lose their first letter. */
  lemma MultiByteNamesCollide() returns (s: State)
    ensures Orphaned(s)
  {
    Names();
    var a := ['\U{00C3}', '\U{00A9}'];
    assert a[0] != "b"[0] && a[0] != "new"[0] && "as"[0] == 'a' && "bs"[0] == 'b' && "as" != NAME && "bs" != NAME;
    CutThree(a, "as");
    CutThree(a, "bs");
    s := CollidingRenameOrphans(a, "b", 5, "as", 5, "bs", "new");
  }

  lemma CutThree(a: string, n: string)
    requires a == ['\U{00C3}', '\U{00A9}'] && |n| == 2 && n[1] == 's' && !Continues(n[0])
    ensures SqlMoved(a, "new", a + "/" + n) == "new/s"
  {
    var q := a + "/" + n;
    assert Like(a + "/", q);
    assert q[1..] == [a[1]] + "/" + n && Continues(a[1]);
    assert SkipContinuation(q[1..]) == "/" + n by { assert q[1..][1..] == "/" + n && SkipContinuation("/" + n) == "/" + n; }
    assert ("/" + n)[1..] == n && SkipContinuation(n) == n && n[1..] == "s" && SkipContinuation("s") == "s";
    assert DropChars("s", 0) == "s" && DropChars(n, 1) == "s" && DropChars("/" + n, 2) == "s" && DropChars(q, 3) == "s";
    assert "new" + "/" + "s" == "new/s";
  }

  // ── Stale failures ───────────────────────────────────────────────────────

  /** A failed add, then a rename of its file: the failure is recorded for a name
      nothing has. */
  lemma FailureOutlivesFile() returns (s: State)
    ensures Good(s) && Reachable(s) && Clean(s) && s.processing == {} && !Reported(s)
  {
    var s1 := AddOver(false);
    var ev := Call(Rename(5, NAME, 5, OTHER, false));
    Names();
    TheFile(s1);
    FileMayMove(s1, false);
    OneMoreStep(s1, ev);
    StaleFailureExactly(s1, 6, 5, OTHER, false);
    RenameFileExactly(s1, 6, 5, OTHER, false);
    s := After(s1, ev);
  }

  /** The same when its directory is renamed. */
  lemma FailureOutlivesDirectory() returns (s: State)
    ensures Good(s) && Reachable(s) && s.processing == {} && !Reported(s)
  {
    var s1 := AddOver(false);
    var ev := Call(Rename(METADATA, "a", METADATA, "b", false));
    DirectoryMayMove(s1);
    OneMoreStep(s1, ev);
    StaleFailureOnDirectory(s1, 5, METADATA, "b", false);
    s := After(s1, ev);
  }

  // ── Bytes that are lost ──────────────────────────────────────────────────

  /** The file in flight opened again. */
  lemma ReopensFile() returns (s: State)
    ensures OnTheWay(s) && OneFile(s) && s.open == map[2 := 6]
    ensures s.processing == {Key("a", NAME)} && s.adders == map[0 := Adder(Key("a", NAME), "d", Persisting)]
  {
    var s1 := AddInFlight();
    var ev := Call(Open(6, false));
    s := After(s1, ev);
    assert s == s1.(open := map[2 := 6], nextFh := 3);
    NothingWrong(s1, ev);
  }

  /** And changed. */
  lemma ChangesFile() returns (s: State)
    ensures OnTheWay(s) && s.open == map[2 := 6] && IsMetaFile(s.inodes, 6)
    ensures s.inodes[6].data == "e" && FileKey(s, 6) == Key("a", NAME)
    ensures s.processing == {Key("a", NAME)} && s.adders == map[0 := Adder(Key("a", NAME), "d", Persisting)]
  {
    var s1 := ReopensFile();
    TheFile(s1);
    s := WritesByte(s1, 6, 'e');
    assert Patched("d", 0, "e") == "e";
  }

  /** A file closed, opened, changed and closed again while the first add is in
      flight: the second close is skipped, and the row keeps the older bytes. */
  lemma SecondCloseIsSkipped() returns (s: State)
    ensures Good(s) && Reachable(s) && Clean(s) && s.processing == {} && s.open == map[]
    ensures IsMetaFile(s.inodes, 6) && FileKey(s, 6) in s.rows && s.rows[FileKey(s, 6)] != s.inodes[6].data
  {
    var s1 := ChangesFile();
    var ev := Call(Release(2, true, false));
    var s2 := After(s1, ev);
    assert s2 == s1.(open := map[]);
    NothingWrong(s1, ev);
    s := AddEnds(s2, 0, true);
  }

  ghost predicate OneUnlinked(t: Table) {
    t == StartTable()[5 := Directory(METADATA, "a")][6 := File(5, NAME, "d", true)]
  }

  lemma UnlinkSucceeds(s: State)
    requires OneFile(s) && s.open == map[1 := 6] && s.hasDb && s.processing == {}
    ensures Enabled(s, Call(Unlink(5, NAME, false))) && OneUnlinked(After(s, Call(Unlink(5, NAME, false))).inodes)
  {
    Names();
    TheFile(s);
    assert s.open[1] == 6 && IsOpen(s.open, 6);
  }

  /** The open file unlinked, its directory still there. */
  lemma UnlinkedFile() returns (s: State)
    ensures Good(s) && Reachable(s) && OneUnlinked(s.inodes)
  {
    var s1 := FileOpen();
    UnlinkSucceeds(s1);
    OneMoreStep(s1, Call(Unlink(5, NAME, false)));
    s := After(s1, Call(Unlink(5, NAME, false)));
  }

  lemma EmptyDirectoryGoes(s: State, n: string, i: Ino)
    requires Good(s) && IsName(n) && IsChild(s.inodes, METADATA, n, i) && s.inodes[i].Directory? && !HasChildren(s.inodes, i)
    ensures Enabled(s, Call(Rmdir(METADATA, n, false))) && After(s, Call(Rmdir(METADATA, n, false))).inodes == s.inodes - {i}
  {
    SkeletonLabels(s.inodes, s.nextIno, Paths(s.inodes));
    ChildIs(s.inodes, METADATA, n, i);
  }

  lemma TheUnlinked(t: Table)
    requires OneUnlinked(t)
    ensures IsChild(t, METADATA, "a", 5) && t[5].Directory? && !HasChildren(t, 5)
  {
  }

  /** `unlink`, `rmdir`, then `ftruncate` on the handle still open: the call answers
      success and the byte is still there. */
  lemma TruncateIsLost() returns (s: State)
    ensures Good(s) && Reachable(s) && Unlinked(s, 6) && s.inodes[6].data == "d"
    ensures SetSizeTo(s, 6, Some(0)) == (s, Done(1))
  {
    var s1 := UnlinkedFile();
    Names();
    TheUnlinked(s1.inodes);
    EmptyDirectoryGoes(s1, "a", 5);
    OneMoreStep(s1, Call(Rmdir(METADATA, "a", false)));
    s := After(s1, Call(Rmdir(METADATA, "a", false)));
    TruncateDoesNothing(s);
  }

  lemma TruncateDoesNothing(s: State)
    requires Good(s) && Unlinked(s, 6) && s.inodes[6].data == "d" && s.inodes[6].parent == 5 && 5 !in s.inodes
    ensures SetSizeTo(s, 6, Some(0)) == (s, Done(1))
  {
    TruncateUnlinkedExactly(s, 6, 0);
  }
}
