/** Renames: what they keep, and exactly when they leave an orphan behind. */
module RenameSafety {
  import opened Text
  import opened InodeTree
  import opened DirectoryRows
  import opened Protocol
  import opened ProtocolSafety

  /** A file whose key is the free name `m` in directory `e` would be a child of `e`. */
  lemma KeyIsChild(t: Table, next: Ino, p: Labels, j: Ino, e: Ino, m: string)
    requires TreeWith(t, next, p) && InMetadata(p, e)
    requires HasKey(t, p, j, Key(SourcePath(p, e), m))
    ensures IsChild(t, e, m, j)
  {
    var d := t[j].parent;
    LabelNames(t, next, p, d);
    LabelNames(t, next, p, e);
    JoinInjective(p[d][1..], p[e][1..]);
    assert p[d] == [p[d][0]] + p[d][1..] && p[e] == [p[e][0]] + p[e][1..];
    PathInjective(t, next, p, d, e);
  }

  // ── Files ────────────────────────────────────────────────────────────────

  /** A file moved to a free name: it gives up its key, and takes one nothing had. */
  lemma FileMoved(t: Table, next: Ino, p: Labels, i: Ino, e: Ino, m: string)
    requires TreeWith(t, next, p) && IsMetaFile(t, i) && InMetadata(p, t[i].parent)
    requires InMetadata(p, e) && e in t && t[e].Directory?
    requires IsName(m) && EndsWith(m, TORRENT) && !HasChild(t, e, m)
    ensures var t', p' := t[i := t[i].(parent := e, name := m)], p[i := p[e] + [m]];
            var k, l := KeyOf(t, p, i), Key(SourcePath(p, e), m);
            && TreeWith(t', next, p')
            && OthersStay(t, p, t', p', i)
            && HasKey(t', p', i, l) && !Named(t, p, l) && !Named(t', p', k) && k != l
  {
    var t', p' := t[i := t[i].(parent := e, name := m)], p[i := p[e] + [m]];
    var k, l := KeyOf(t, p, i), Key(SourcePath(p, e), m);
    MoveFile(t, next, p, i, e, m);
    assert HasKey(t, p, i, k) && HasKey(t', p', i, l);
    forall j | HasKey(t, p, j, l) ensures false { KeyIsChild(t, next, p, j, e, m); }
    forall j | IsMetaFile(t, j) ensures t[j].parent != i { ParentInMetadata(t, next, p, j); }
    forall j | HasKey(t', p', j, k) ensures false {
      if j != i { KeyInjective(t, next, p, i, j, k); }
    }
  }

  /** `FileMoved` for a state. */
  lemma FilePlaced(s: State, i: Ino, e: Ino, m: string)
    requires Good(s) && IsMetaFile(s.inodes, i)
    requires InMetadata(Paths(s.inodes), e) && e in s.inodes && s.inodes[e].Directory?
    requires IsName(m) && EndsWith(m, TORRENT) && !HasChild(s.inodes, e, m)
    ensures var t, p := Placed(s, i, e, m), Paths(s.inodes);
            var k, l := FileKey(s, i), Key(SourcePath(p, e), m);
            && Tree(t, s.nextIno) && UnlinkedOpen(t, s.open)
            && HasKey(t, Paths(t), i, l) && !Named(s.inodes, p, l) && !Named(t, Paths(t), k)
            && NamesKept(s.inodes, t, {k})
  {
    var t, p, next, t' := s.inodes, Paths(s.inodes), s.nextIno, Placed(s, i, e, m);
    ParentInMetadata(t, next, p, i);
    FileMoved(t, next, p, i, e, m);
    TreeIs(t', next, p[i := p[e] + [m]]);
    OpenMore(t, t', s.open, s.open);
    NamesStay(t, p, t', Paths(t'), i, {FileKey(s, i)});
  }

  /** One file gave up the key `k` for the key `l`, every other key stayed. */
  lemma KeysAfterMoving(t: Table, t': Table, k: Key, l: Key, keys: set<Key>)
    requires Acyclic(t) && Acyclic(t') && NamesKept(t, t', {k})
    requires Named(t', Paths(t'), l) && !Named(t', Paths(t'), k) && AllNamed(t, keys)
    ensures AllNamed(t', keys) <==> k !in keys
    ensures AllNamed(t', keys - {k} + {l})
  {
  }

  lemma RenameFileGood(s: State, i: Ino, e: Ino, m: string, dbFails: bool)
    requires Good(s) && IsMetaFile(s.inodes, i)
    requires InMetadata(Paths(s.inodes), e) && e in s.inodes && s.inodes[e].Directory?
    requires IsName(m) && EndsWith(m, TORRENT) && !HasChild(s.inodes, e, m)
    ensures Good(RenameFileTo(s, i, e, m, dbFails).0)
  {
    FilePlaced(s, i, e, m);
  }

  /** The database is asked to move a row it has, and fails. */
  ghost predicate LosesRow(s: State, i: Ino, dbFails: bool)
    requires Good(s) && IsMetaFile(s.inodes, i)
  {
    s.hasDb && dbFails && FileKey(s, i) !in s.processing && FileKey(s, i) in s.rows
  }

  /** A rename to a free name leaves no orphan exactly when the database does not
      fail on a row it has. */
  lemma RenameFileExactly(s: State, i: Ino, e: Ino, m: string, dbFails: bool)
    requires Good(s) && Clean(s) && IsMetaFile(s.inodes, i)
    requires InMetadata(Paths(s.inodes), e) && e in s.inodes && s.inodes[e].Directory?
    requires IsName(m) && EndsWith(m, TORRENT) && !HasChild(s.inodes, e, m)
    ensures var s' := RenameFileTo(s, i, e, m, dbFails).0;
            Good(s') && (Clean(s') <==> !LosesRow(s, i, dbFails))
  {
    var k, l := FileKey(s, i), Key(SourcePath(Paths(s.inodes), e), m);
    var t' := Placed(s, i, e, m);
    RenameFileGood(s, i, e, m, dbFails);
    FilePlaced(s, i, e, m);
    KeysAfterMoving(s.inodes, t', k, l, s.processing);
    KeysAfterMoving(s.inodes, t', k, l, s.rows.Keys);
    if !s.hasDb {
      NoDbNoKeys(s);
    } else if k !in s.processing && k in s.rows {
      assert l !in s.rows by { assert !Named(s.inodes, Paths(s.inodes), l); }
      assert (s.rows - {k})[l := s.rows[k]].Keys == s.rows.Keys - {k} + {l};
    }
  }

  /** A file moved onto the name of another, which is retired. */
  lemma FileReplaced(t: Table, next: Ino, p: Labels, i: Ino, target: Ino, t1: Table)
    requires TreeWith(t, next, p) && IsMetaFile(t, i) && IsMetaFile(t, target) && i != target && !HasChildren(t, target)
    requires t1 == t - {target} || t1 == t[target := t[target].(unlinked := true)]
    requires InMetadata(p, t[i].parent) && InMetadata(p, t[target].parent)
    ensures var e, m := t[target].parent, t[target].name;
            var t', p' := t1[i := t[i].(parent := e, name := m)], (p - {target})[i := p[e] + [m]];
            && TreeWith(t', next, p')
            && HasKey(t', p', i, KeyOf(t, p, target))
            && (forall j, k :: HasKey(t, p, j, k) && j != i && j != target ==> HasKey(t', p', j, k))
            && (forall k :: Named(t, p, k) && k != KeyOf(t, p, i) ==> Named(t', p', k))
            && !Named(t', p', KeyOf(t, p, i))
  {
    var e, m, p1 := t[target].parent, t[target].name, p - {target};
    ParentInMetadata(t, next, p, target);
    assert NodeOk(t, next, target);
    DropLeaf(t, next, p, target, t1);
    assert !HasChild(t1, e, m) by {
      forall j | IsChild(t1, e, m, j) ensures false { assert SameEntry(t, j, target); }
    }
    MoveFile(t1, next, p1, i, e, m);
    var t', p' := t1[i := t[i].(parent := e, name := m)], p1[i := p[e] + [m]];
    var x, y := KeyOf(t, p, i), KeyOf(t, p, target);
    assert HasKey(t, p, i, x) && HasKey(t, p, target, y) && HasKey(t', p', i, y);
    forall j, k | HasKey(t, p, j, k) && j != i && j != target ensures HasKey(t', p', j, k) {
      ParentInMetadata(t, next, p, j);
    }
    forall k | Named(t, p, k) && k != x ensures Named(t', p', k) {
      var j :| HasKey(t, p, j, k);
      if j != target { assert HasKey(t', p', j, k); }
    }
    forall j | HasKey(t', p', j, x) ensures false {
      if j == i {
        KeyInjective(t, next, p, i, target, x);
      } else {
        ParentInMetadata(t, next, p, j);
        KeyInjective(t, next, p, i, j, x);
      }
    }
  }

  /** `FileReplaced` for a state. */
  lemma TargetReplaced(s: State, i: Ino, target: Ino)
    requires Good(s) && IsMetaFile(s.inodes, i) && IsMetaFile(s.inodes, target) && i != target
    ensures var t := Replaced(s, i, target);
            && Tree(t, s.nextIno) && UnlinkedOpen(t, s.open)
            && HasKey(t, Paths(t), i, FileKey(s, target))
            && NamesKept(s.inodes, t, {FileKey(s, i)})
            && !Named(t, Paths(t), FileKey(s, i))
  {
    var t, p, next, t1 := s.inodes, Paths(s.inodes), s.nextIno, Retired(s.inodes, s.open, target);
    ParentInMetadata(t, next, p, i);
    ParentInMetadata(t, next, p, target);
    FilesAreLeaves(s, target);
    FileReplaced(t, next, p, i, target, t1);
    TreeIs(Replaced(s, i, target), next, (p - {target})[i := p[t[target].parent] + [t[target].name]]);
  }

  /** Who answers to the two names afterwards. */
  lemma ReplacedNames(s: State, i: Ino, target: Ino)
    requires Good(s) && IsMetaFile(s.inodes, i) && IsMetaFile(s.inodes, target) && i != target
    ensures var t := Replaced(s, i, target);
            && IsChild(t, s.inodes[target].parent, s.inodes[target].name, i)
            && (forall x :: IsChild(t, s.inodes[target].parent, s.inodes[target].name, x) ==> x == i)
            && !HasChild(t, s.inodes[i].parent, s.inodes[i].name)
            && (target in t <==> IsOpen(s.open, target))
            && FileKey(s, i) != FileKey(s, target)
  {
    var t := Replaced(s, i, target);
    TargetReplaced(s, i, target);
    forall x | IsChild(t, s.inodes[target].parent, s.inodes[target].name, x) ensures x == i {
      assert SameEntry(t, x, i);
    }
    assert !SameEntry(s.inodes, i, target);
    assert forall x :: x in s.inodes && x != i && s.inodes[x].Linked() ==> !SameEntry(s.inodes, x, i);
  }

  lemma OverwriteGood(s: State, i: Ino, target: Ino, dbFails: bool)
    requires Good(s) && IsMetaFile(s.inodes, i) && IsMetaFile(s.inodes, target) && i != target
    ensures Good(OverwriteTo(s, i, target, dbFails).0)
  {
    TargetReplaced(s, i, target);
  }

  /** Renaming over another file keeps the state clean, whatever happens. */
  lemma OverwriteKeeps(s: State, i: Ino, target: Ino, dbFails: bool)
    requires Good(s) && IsMetaFile(s.inodes, i) && IsMetaFile(s.inodes, target) && i != target
    ensures var s' := OverwriteTo(s, i, target, dbFails).0;
            Good(s') && (Clean(s) ==> Clean(s'))
  {
    var k, l, t' := FileKey(s, i), FileKey(s, target), Replaced(s, i, target);
    OverwriteGood(s, i, target, dbFails);
    TargetReplaced(s, i, target);
    if Clean(s) {
      KeysAfterMoving(s.inodes, t', k, l, s.processing);
      KeysAfterMoving(s.inodes, t', k, l, s.rows.Keys);
      if !s.hasDb {
        NoDbNoKeys(s);
      } else if k in s.rows {
        assert (s.rows - {k})[l := s.rows[k]].Keys == s.rows.Keys - {k} + {l};
      }
    }
  }

  // ── Directories ──────────────────────────────────────────────────────────

  /** At the renamed directory or anywhere below it. */
  predicate Under(path: string, dir: string) { path == dir || Below(path, dir) }

  lemma UnderIsPrefix(a: seq<string>, c: seq<string>)
    requires a != [] && AllNames(a) && AllNames(c)
    ensures Under(Join(c), Join(a)) <==> a <= c
    ensures Under(Join(c), Join(a)) <==> ["metadata"] + a <= ["metadata"] + c
  {
    BelowIsPrefix(a, c);
    if Join(a) == Join(c) { JoinInjective(a, c); }
    var m := ["metadata"];
    assert (m + a)[1..] == a && (m + c)[1..] == c;
    if m + a <= m + c { assert a == (m + a)[1..] == (m + c)[..|m + a|][1..] == c[..|a|]; }
    if a <= c {
      assert c == a + c[|a|..];
      assert m + c == (m + a) + c[|a|..];
      if |a| == |c| { assert a == c; }
    }
  }

  /** Every prefix of a label is the label of an inode. */
  lemma {:induction false} AncestorAt(t: Table, p: Labels, i: Ino, n: nat) returns (j: Ino)
    requires Labelled(t, p) && i in p && n <= |p[i]|
    ensures j in p && p[j] == p[i][..n]
    decreases |p[i]|
  {
    if n == |p[i]| {
      j := i;
    } else {
      assert LabelOk(t, p, i);
      j := AncestorAt(t, p, t[i].parent, n);
    }
  }

  /** A label that starts with the path of a name shows that the name is taken. */
  lemma PrefixIsChild(t: Table, next: Ino, p: Labels, i: Ino, e: Ino, m: string)
    requires TreeWith(t, next, p) && i in p && e in p && p[e] + [m] <= p[i]
    ensures HasChild(t, e, m)
  {
    var j := AncestorAt(t, p, i, |p[e]| + 1);
    assert p[j] == p[e] + [m];
    assert LabelOk(t, p, j);
    assert p[t[j].parent] == p[j][..|p[j]| - 1] == p[e] && t[j].name == p[j][|p[j]| - 1] == m;
    PathInjective(t, next, p, t[j].parent, e);
    assert IsChild(t, e, m, j);
  }

  lemma PrefixesOfOne(x: seq<string>, y: seq<string>, last: string, z: seq<string>)
    requires x <= z && y + [last] <= z
    ensures x <= y || y + [last] <= x
  {
    if |x| <= |y| { assert x == z[..|x|] && y == z[..|y|]; }
  }

  /** A directory rename from a good state: `d` becomes `m` in `e`. */
  ghost predicate MovesDirectory(s: State, d: Ino, e: Ino, m: string) {
    && Good(s)
    && d in s.inodes && s.inodes[d].Directory? && d >= FIRST_INO
    && e in s.inodes && s.inodes[e].Directory?
    && var p := Paths(s.inodes);
    && InMetadata(p, d) && InMetadata(p, e)
    && IsName(m) && !HasChild(s.inodes, e, m) && !(p[d] <= p[e])
  }

  ghost function From(s: State, d: Ino): string
    requires Good(s) && InMetadata(Paths(s.inodes), d)
  {
    SourcePath(Paths(s.inodes), d)
  }

  ghost function To(s: State, e: Ino, m: string): string
    requires Good(s) && InMetadata(Paths(s.inodes), e)
  {
    Join(Paths(s.inodes)[e][1..] + [m])
  }

  ghost function NewLabels(s: State, d: Ino, e: Ino, m: string): Labels
    requires MovesDirectory(s, d, e, m)
  {
    MovedLabels(Paths(s.inodes), d, Paths(s.inodes)[e] + [m])
  }

  /** Component lists below `metadata/`, of the directory and of its new place. */
  lemma DirectoryParts(s: State, d: Ino, e: Ino, m: string)
    requires MovesDirectory(s, d, e, m)
    ensures var p := Paths(s.inodes);
            && p[d][1..] != [] && AllNames(p[d][1..]) && AllNames(p[e][1..] + [m])
            && p[d] == ["metadata"] + p[d][1..]
            && p[e] + [m] == ["metadata"] + (p[e][1..] + [m])
  {
    var p := Paths(s.inodes);
    LabelNames(s.inodes, s.nextIno, p, d);
    LabelNames(s.inodes, s.nextIno, p, e);
  }

  /** Where a directory of the old tree stands in the new one. */
  lemma SourcePathMoves(s: State, d: Ino, e: Ino, m: string, x: Ino)
    requires MovesDirectory(s, d, e, m) && InMetadata(Paths(s.inodes), x)
    ensures var p, p' := Paths(s.inodes), NewLabels(s, d, e, m);
            && InMetadata(p', x)
            && SourcePath(p', x) == Moved(From(s, d), To(s, e, m), SourcePath(p, x))
            && (Under(SourcePath(p, x), From(s, d)) <==> p[d] <= p[x])
  {
    var p, p' := Paths(s.inodes), NewLabels(s, d, e, m);
    var a, b, c := p[d][1..], p[e][1..] + [m], p[x][1..];
    DirectoryParts(s, d, e, m);
    LabelNames(s.inodes, s.nextIno, p, x);
    assert p[x] == ["metadata"] + c;
    MovedJoin(a, b, c);
    UnderIsPrefix(a, c);
    if a <= c {
      assert p'[x] == ["metadata"] + (b + c[|a|..]);
      assert p'[x][1..] == b + c[|a|..];
    }
  }

  /** Nothing stands under the old path once the directory has moved. */
  lemma OldPathIsVacant(s: State, d: Ino, e: Ino, m: string, x: Ino)
    requires MovesDirectory(s, d, e, m) && InMetadata(Paths(s.inodes), x)
    ensures InMetadata(NewLabels(s, d, e, m), x)
    ensures !Under(SourcePath(NewLabels(s, d, e, m), x), From(s, d))
  {
    var p, p' := Paths(s.inodes), NewLabels(s, d, e, m);
    SourcePathMoves(s, d, e, m, x);
    DirectoryParts(s, d, e, m);
    LabelNames(s.inodes, s.nextIno, p, x);
    var a, b, c' := p[d][1..], p[e][1..] + [m], p'[x][1..];
    assert p'[x] == ["metadata"] + c';
    assert AllNames(c');
    UnderIsPrefix(a, c');
    if Under(Join(c'), Join(a)) && p[d] <= p[x] {
      PrefixesOfOne(p[d], p[e], m, p'[x]);
      PrefixIsChild(s.inodes, s.nextIno, p, d, e, m);
    }
  }

  ghost predicate NoKeyUnder(keys: set<Key>, dir: string) {
    forall k :: k in keys ==> !Under(k.sourcePath, dir)
  }

  /** The database statement treats every row as a rename should. */
  ghost predicate RowsExact(rows: map<Key, string>, from: string, to: string) {
    forall k :: k in rows ==> SqlExact(from, to, k.sourcePath)
  }

  lemma DirectoryMoved(s: State, d: Ino, e: Ino, m: string, dbFails: bool)
    requires MovesDirectory(s, d, e, m)
    ensures var s' := RenameDirTo(s, d, e, m, dbFails).0;
            Good(s') && Paths(s'.inodes) == NewLabels(s, d, e, m)
  {
    var s', t, p := RenameDirTo(s, d, e, m, dbFails).0, s.inodes, Paths(s.inodes);
    MoveDirectory(t, s.nextIno, p, d, e, m);
    TreeIs(s'.inodes, s.nextIno, NewLabels(s, d, e, m));
    OpenMore(t, s'.inodes, s.open, s.open);
  }

  /** The key of every file moves along with its directory. */
  lemma KeyMoves(s: State, d: Ino, e: Ino, m: string, j: Ino, k: Key)
    requires MovesDirectory(s, d, e, m) && HasKey(s.inodes, Paths(s.inodes), j, k)
    ensures HasKey(s.inodes[d := Directory(e, m)], NewLabels(s, d, e, m), j,
                   Key(Moved(From(s, d), To(s, e, m), k.sourcePath), k.filename))
  {
    SourcePathMoves(s, d, e, m, s.inodes[j].parent);
  }

  /** Keys outside the directory stay named; keys under it are named no more. */
  lemma KeysAfterMove(s: State, d: Ino, e: Ino, m: string, keys: set<Key>)
    requires MovesDirectory(s, d, e, m) && AllNamed(s.inodes, keys)
    ensures var t' := s.inodes[d := Directory(e, m)];
            && Acyclic(t')
            && (AllNamed(t', keys) <==> NoKeyUnder(keys, From(s, d)))
  {
    var t, p, t', p' := s.inodes, Paths(s.inodes), s.inodes[d := Directory(e, m)], NewLabels(s, d, e, m);
    MoveDirectory(t, s.nextIno, p, d, e, m);
    TreeIs(t', s.nextIno, p');
    forall k | k in keys ensures Named(t', p', k) <==> !Under(k.sourcePath, From(s, d)) {
      if !Under(k.sourcePath, From(s, d)) {
        assert Named(t, p, k);
        var j :| HasKey(t, p, j, k);
        KeyMoves(s, d, e, m, j, k);
        assert HasKey(t', p', j, k);
      } else {
        forall j | HasKey(t', p', j, k) ensures false {
          var x := t'[j].parent;
          assert x in p;
          assert InMetadata(p, x) by { ParentInMetadata(t, s.nextIno, p, j); }
          OldPathIsVacant(s, d, e, m, x);
        }
      }
    }
  }

  /** What follows the old path in the path of a directory below it is a name. */
  lemma RestStartsName(s: State, d: Ino, e: Ino, m: string, x: Ino)
    requires MovesDirectory(s, d, e, m) && InMetadata(Paths(s.inodes), x)
    requires Below(SourcePath(Paths(s.inodes), x), From(s, d))
    ensures var path := SourcePath(Paths(s.inodes), x);
            |path| > |From(s, d)| + 1 && !Continues(path[|From(s, d)| + 1])
  {
    var p := Paths(s.inodes);
    var a, c := p[d][1..], p[x][1..];
    DirectoryParts(s, d, e, m);
    LabelNames(s.inodes, s.nextIno, p, x);
    BelowIsPrefix(a, c);
    var rest := c[|a|..];
    assert c == a + rest;
    JoinConcat(a, rest);
    HeadOfJoin(rest);
    assert Join(rest)[0] == rest[0][0];
  }

  /** Every source path in the tree is free of the new place. */
  lemma NewPathIsVacant(s: State, d: Ino, e: Ino, m: string, x: Ino)
    requires MovesDirectory(s, d, e, m) && InMetadata(Paths(s.inodes), x)
    ensures !Under(SourcePath(Paths(s.inodes), x), To(s, e, m))
  {
    var p := Paths(s.inodes);
    DirectoryParts(s, d, e, m);
    LabelNames(s.inodes, s.nextIno, p, x);
    assert p[x] == ["metadata"] + p[x][1..];
    UnderIsPrefix(p[e][1..] + [m], p[x][1..]);
    if p[e] + [m] <= p[x] { PrefixIsChild(s.inodes, s.nextIno, p, x, e, m); }
  }

  /** A directory's path starts with a character of its name. */
  lemma FromStartsName(s: State, d: Ino, e: Ino, m: string)
    requires MovesDirectory(s, d, e, m)
    ensures From(s, d) != "" && !Continues(From(s, d)[0])
  {
    var a := Paths(s.inodes)[d][1..];
    DirectoryParts(s, d, e, m);
    HeadOfJoin(a);
    assert Join(a)[0] == a[0][0];
  }

  /** The statement moves the source path of a directory with it exactly when it is
      exact there. */
  lemma PathMovesExactly(s: State, d: Ino, e: Ino, m: string, x: Ino)
    requires MovesDirectory(s, d, e, m) && InMetadata(Paths(s.inodes), x)
    ensures var path := SourcePath(Paths(s.inodes), x);
            SqlMoved(From(s, d), To(s, e, m), path) == Moved(From(s, d), To(s, e, m), path)
            <==> SqlExact(From(s, d), To(s, e, m), path)
  {
    var path := SourcePath(Paths(s.inodes), x);
    FromStartsName(s, d, e, m);
    NewPathIsVacant(s, d, e, m, x);
    if Below(path, From(s, d)) { RestStartsName(s, d, e, m, x); }
    SqlMovedExactly(From(s, d), To(s, e, m), path);
  }

  /** A path changes with the directory exactly when it is under it. */
  lemma PathStaysExactly(s: State, d: Ino, e: Ino, m: string, x: Ino)
    requires MovesDirectory(s, d, e, m) && InMetadata(Paths(s.inodes), x)
    ensures var path := SourcePath(Paths(s.inodes), x);
            Moved(From(s, d), To(s, e, m), path) == path <==> !Under(path, From(s, d))
  {
    SourcePathMoves(s, d, e, m, x);
    OldPathIsVacant(s, d, e, m, x);
  }

  /** The rows stay where they are: the database fails, or a path would be taken
      twice in one of its two tables. */
  ghost predicate RowsStay(s: State, d: Ino, e: Ino, m: string, dbFails: bool)
    requires MovesDirectory(s, d, e, m)
  {
    s.hasDb && (dbFails || Collides(s.rows, From(s, d), To(s, e, m)) || DirsCollide(s.dirs.rows, From(s, d), To(s, e, m)))
  }

  /** Where the rename leaves the row `k`. */
  ghost function RowAfter(s: State, d: Ino, e: Ino, m: string, dbFails: bool, k: Key): Key
    requires MovesDirectory(s, d, e, m)
  {
    if RowsStay(s, d, e, m, dbFails) then k else MovedKey(From(s, d), To(s, e, m), k)
  }

  /** The file that had the key `k` now has the key `l`. */
  ghost predicate SameOwner(t: Table, p: Labels, t': Table, p': Labels, k: Key, l: Key) {
    forall j :: HasKey(t, p, j, k) ==> HasKey(t', p', j, l)
  }

  ghost predicate OwnersStay(s: State, d: Ino, e: Ino, m: string, dbFails: bool, t': Table, p': Labels)
    requires MovesDirectory(s, d, e, m)
  {
    var t, p := s.inodes, Paths(s.inodes);
    && (forall k :: k in s.rows ==> SameOwner(t, p, t', p', k, RowAfter(s, d, e, m, dbFails, k)))
    && (forall k :: k in s.processing ==> SameOwner(t, p, t', p', k, k))
  }

  /** Every row, and every key in flight, belongs to the file it belonged to. */
  ghost predicate KeepsOwners(s: State, d: Ino, e: Ino, m: string, dbFails: bool)
    requires MovesDirectory(s, d, e, m) && Good(RenameDirTo(s, d, e, m, dbFails).0)
  {
    var s' := RenameDirTo(s, d, e, m, dbFails).0;
    OwnersStay(s, d, e, m, dbFails, s'.inodes, Paths(s'.inodes))
  }

  /** When that is so: no key in flight lies under the directory, and either the
      database follows and its statement is exact at every row, or it does not
      and no row lies under the directory. */
  ghost predicate MayMove(s: State, d: Ino, e: Ino, m: string, dbFails: bool)
    requires MovesDirectory(s, d, e, m)
  {
    && NoKeyUnder(s.processing, From(s, d))
    && if RowsStay(s, d, e, m, dbFails) then NoKeyUnder(s.rows.Keys, From(s, d))
       else RowsExact(s.rows, From(s, d), To(s, e, m))
  }

  /** The row, or the key in flight, of one file. */
  lemma OwnerKept(s: State, d: Ino, e: Ino, m: string, j: Ino, k: Key)
    requires MovesDirectory(s, d, e, m) && HasKey(s.inodes, Paths(s.inodes), j, k)
    ensures var t', p', from, to := s.inodes[d := Directory(e, m)], NewLabels(s, d, e, m), From(s, d), To(s, e, m);
            && (HasKey(t', p', j, k) <==> !Under(k.sourcePath, from))
            && (HasKey(t', p', j, MovedKey(from, to, k)) <==> SqlExact(from, to, k.sourcePath))
  {
    KeyMoves(s, d, e, m, j, k);
    PathStaysExactly(s, d, e, m, s.inodes[j].parent);
    PathMovesExactly(s, d, e, m, s.inodes[j].parent);
  }

  lemma OwnerKeptExactly(s: State, d: Ino, e: Ino, m: string, k: Key)
    requires MovesDirectory(s, d, e, m) && Named(s.inodes, Paths(s.inodes), k)
    ensures var t, p, t', p' := s.inodes, Paths(s.inodes), s.inodes[d := Directory(e, m)], NewLabels(s, d, e, m);
            var from, to := From(s, d), To(s, e, m);
            && (SameOwner(t, p, t', p', k, k) <==> !Under(k.sourcePath, from))
            && (SameOwner(t, p, t', p', k, MovedKey(from, to, k)) <==> SqlExact(from, to, k.sourcePath))
  {
    var t, p := s.inodes, Paths(s.inodes);
    var i :| HasKey(t, p, i, k);
    OwnerKept(s, d, e, m, i, k);
    forall j | HasKey(t, p, j, k) ensures j == i { KeyInjective(t, s.nextIno, p, i, j, k); }
  }

  /** The rows of the new state are those of the old one, where the rename leaves them. */
  lemma RowsAfter(s: State, d: Ino, e: Ino, m: string, dbFails: bool)
    requires MovesDirectory(s, d, e, m)
    ensures RenameDirTo(s, d, e, m, dbFails).0.rows.Keys == set k | k in s.rows :: RowAfter(s, d, e, m, dbFails, k)
  {
    var rows := RenameDirTo(s, d, e, m, dbFails).0.rows;
    if s.hasDb && !RowsStay(s, d, e, m, dbFails) {
      assert rows == MovedRows(s.rows, From(s, d), To(s, e, m));
      forall l | l in rows ensures exists k :: k in s.rows && l == RowAfter(s, d, e, m, dbFails, k) {
        var k :| k in s.rows && l == MovedKey(From(s, d), To(s, e, m), k);
        assert l == RowAfter(s, d, e, m, dbFails, k);
      }
    }
  }

  lemma OwnersStayExactly(s: State, d: Ino, e: Ino, m: string, dbFails: bool)
    requires MovesDirectory(s, d, e, m) && Clean(s)
    ensures OwnersStay(s, d, e, m, dbFails, s.inodes[d := Directory(e, m)], NewLabels(s, d, e, m)) <==> MayMove(s, d, e, m, dbFails)
  {
    forall k | k in s.rows || k in s.processing ensures Named(s.inodes, Paths(s.inodes), k) { }
    forall k | Named(s.inodes, Paths(s.inodes), k)
      ensures var t, p, t', p' := s.inodes, Paths(s.inodes), s.inodes[d := Directory(e, m)], NewLabels(s, d, e, m);
              && (SameOwner(t, p, t', p', k, k) <==> !Under(k.sourcePath, From(s, d)))
              && (SameOwner(t, p, t', p', k, MovedKey(From(s, d), To(s, e, m), k)) <==>
                    SqlExact(From(s, d), To(s, e, m), k.sourcePath))
    {
      OwnerKeptExactly(s, d, e, m, k);
    }
  }

  lemma KeepingIsClean(s: State, d: Ino, e: Ino, m: string, dbFails: bool)
    requires MovesDirectory(s, d, e, m) && Clean(s)
    requires Good(RenameDirTo(s, d, e, m, dbFails).0) && KeepsOwners(s, d, e, m, dbFails)
    ensures Clean(RenameDirTo(s, d, e, m, dbFails).0)
  {
    var s', t, p := RenameDirTo(s, d, e, m, dbFails).0, s.inodes, Paths(s.inodes);
    RowsAfter(s, d, e, m, dbFails);
    forall k, l | Named(t, p, k) && SameOwner(t, p, s'.inodes, Paths(s'.inodes), k, l)
      ensures Named(s'.inodes, Paths(s'.inodes), l)
    {
      var j :| HasKey(t, p, j, k);
      assert HasKey(s'.inodes, Paths(s'.inodes), j, l);
    }
  }

  /** A directory rename keeps every row and every key in flight with its own
      file exactly when the directory may move; the state is then clean. */
  lemma RenameDirExactly(s: State, d: Ino, e: Ino, m: string, dbFails: bool)
    requires MovesDirectory(s, d, e, m) && Clean(s)
    ensures var (s', r) := RenameDirTo(s, d, e, m, dbFails);
            && Good(s')
            && (r == Err(Database) <==> RowsStay(s, d, e, m, dbFails))
            && (KeepsOwners(s, d, e, m, dbFails) <==> MayMove(s, d, e, m, dbFails))
            && (MayMove(s, d, e, m, dbFails) ==> Clean(s'))
  {
    DirectoryMoved(s, d, e, m, dbFails);
    OwnersStayExactly(s, d, e, m, dbFails);
    if KeepsOwners(s, d, e, m, dbFails) { KeepingIsClean(s, d, e, m, dbFails); }
  }

  /** A statement exact at every row never makes two of them collide. */
  lemma RowsDoNotCollide(s: State, d: Ino, e: Ino, m: string)
    requires MovesDirectory(s, d, e, m) && Clean(s) && RowsExact(s.rows, From(s, d), To(s, e, m))
    ensures !Collides(s.rows, From(s, d), To(s, e, m))
  {
    var t, p, p' := s.inodes, Paths(s.inodes), NewLabels(s, d, e, m);
    var t' := t[d := Directory(e, m)];
    MoveDirectory(t, s.nextIno, p, d, e, m);
    forall k, l | k in s.rows && l in s.rows && MovedKey(From(s, d), To(s, e, m), k) == MovedKey(From(s, d), To(s, e, m), l)
      ensures k == l
    {
      assert Named(t, p, k) && Named(t, p, l);
      var i :| HasKey(t, p, i, k);
      var j :| HasKey(t, p, j, l);
      OwnerKept(s, d, e, m, i, k);
      OwnerKept(s, d, e, m, j, l);
      KeyInjective(t', s.nextIno, p', i, j, MovedKey(From(s, d), To(s, e, m), k));
    }
  }

  // ── Recorded failures ────────────────────────────────────────────────────

  /** A recorded failure keeps failing the listing of its directory, so it should
      name a file.  A rename to a free name leaves one behind exactly when its
      source has one and no add of it is in flight. */
  lemma StaleFailureExactly(s: State, i: Ino, e: Ino, m: string, dbFails: bool)
    requires Good(s) && Reported(s) && IsMetaFile(s.inodes, i)
    requires InMetadata(Paths(s.inodes), e) && e in s.inodes && s.inodes[e].Directory?
    requires IsName(m) && EndsWith(m, TORRENT) && !HasChild(s.inodes, e, m)
    ensures var s' := RenameFileTo(s, i, e, m, dbFails).0;
            && Good(s')
            && (Reported(s') <==>
                  FileKey(s, i) !in s.errors || (s.hasDb && FileKey(s, i) in s.processing))
  {
    RenameFileGood(s, i, e, m, dbFails);
    FilePlaced(s, i, e, m);
    KeysAfterMoving(s.inodes, Placed(s, i, e, m), FileKey(s, i), Key(SourcePath(Paths(s.inodes), e), m), s.errors);
  }

  /** What makes a rename over another file give up. */
  ghost predicate OverwriteRefused(s: State, i: Ino, target: Ino, dbFails: bool)
    requires Good(s) && IsMetaFile(s.inodes, i) && IsMetaFile(s.inodes, target)
  {
    s.hasDb && (FileKey(s, i) in s.processing || FileKey(s, target) in s.processing || dbFails || FileKey(s, i) !in s.rows)
  }

  lemma StaleFailureOnOverwrite(s: State, i: Ino, target: Ino, dbFails: bool)
    requires Good(s) && Reported(s)
    requires IsMetaFile(s.inodes, i) && IsMetaFile(s.inodes, target) && i != target
    ensures var s' := OverwriteTo(s, i, target, dbFails).0;
            && Good(s')
            && (Reported(s') <==> FileKey(s, i) !in s.errors || OverwriteRefused(s, i, target, dbFails))
  {
    var k, l, t' := FileKey(s, i), FileKey(s, target), Replaced(s, i, target);
    OverwriteGood(s, i, target, dbFails);
    TargetReplaced(s, i, target);
    ReplacedNames(s, i, target);
    KeysAfterMoving(s.inodes, t', k, l, s.errors);
    KeysAfterMoving(s.inodes, t', k, l, s.errors - {l});
  }

  /** Nothing moves the recorded failures along with a directory, whatever the
      database answers. */
  lemma StaleFailureOnDirectory(s: State, d: Ino, e: Ino, m: string, dbFails: bool)
    requires MovesDirectory(s, d, e, m) && Reported(s)
    ensures var s' := RenameDirTo(s, d, e, m, dbFails).0;
            Good(s') && (Reported(s') <==> NoKeyUnder(s.errors, From(s, d)))
  {
    DirectoryMoved(s, d, e, m, dbFails);
    KeysAfterMove(s, d, e, m, s.errors);
  }
}
