/** The inode table of `metadata/` and what makes it a tree.

    The daemon stores only parent links, and resolves names and paths by
    scanning the table and by walking those links upwards.  The certificate that
    the links form a tree is a labelling of every linked inode with its path. */
module InodeTree {
  import opened Text

  type Ino = nat

  const ROOT: Ino := 1
  const METADATA: Ino := 2
  const DATA: Ino := 3
  const STATS: Ino := 4
  const FIRST_INO: Ino := 5
  const DATA_BASE: Ino := 1_000_000
  const STATS_OFFSET: Ino := 10_000_000
  const TORRENT: string := ".torrent"

  datatype Inode =
    | Directory(parent: Ino, name: string)
    | File(parent: Ino, name: string, data: string, unlinked: bool)
  {
    /** Reachable by name: every directory, and every file not unlinked. */
    predicate Linked() { Directory? || !unlinked }
  }

  type Table = map<Ino, Inode>
  type Labels = map<Ino, seq<string>>

  predicate IsDataNamespace(i: Ino) { i == DATA || i >= DATA_BASE }

  predicate IsStats(i: Ino) { i == STATS || STATS_OFFSET <= i < STATS_OFFSET + 10_000_000 }

  predicate IsMetaFile(t: Table, i: Ino) {
    i in t && i >= FIRST_INO && t[i].File? && !t[i].unlinked
  }

  // ── Labelling ────────────────────────────────────────────────────────────

  ghost predicate LabelOk(t: Table, p: Labels, i: Ino) {
    && i in t && i in p
    && var d := t[i].parent;
    && d in t && t[d].Directory? && d in p
    && p[i] == p[d] + [t[i].name]
    && (i >= FIRST_INO ==> |p[i]| >= 2 && p[i][0] == "metadata")
  }

  /** `p` gives every linked inode its path from the root; all but the four fixed
      inodes lie below `metadata/`. */
  ghost predicate Labelled(t: Table, p: Labels) {
    && (forall i :: i in p <==> i in t && t[i].Linked())
    && ROOT in p && p[ROOT] == []
    && (forall i {:trigger LabelOk(t, p, i)} :: i in p && i != ROOT ==> LabelOk(t, p, i))
  }

  lemma {:induction false} LabelUnique(t: Table, p: Labels, q: Labels, i: Ino)
    requires Labelled(t, p) && Labelled(t, q) && i in p
    ensures i in q && p[i] == q[i]
    decreases |p[i]|
  {
    if i != ROOT {
      assert LabelOk(t, p, i) && LabelOk(t, q, i);
      LabelUnique(t, p, q, t[i].parent);
    }
  }

  /** The parent links of linked inodes are acyclic and end at the root. */
  ghost predicate Acyclic(t: Table) { exists p :: Labelled(t, p) }

  ghost function Paths(t: Table): (p: Labels)
    requires Acyclic(t)
    ensures Labelled(t, p)
  {
    var p :| Labelled(t, p); p
  }

  lemma PathsAre(t: Table, p: Labels)
    requires Labelled(t, p)
    ensures Acyclic(t) && Paths(t) == p
  {
    var q := Paths(t);
    forall i | i in p ensures i in q && p[i] == q[i] { LabelUnique(t, p, q, i); }
    assert p.Keys == q.Keys;
  }

  // ── The tree invariant ───────────────────────────────────────────────────

  ghost predicate Skeleton(t: Table) {
    && ROOT in t && t[ROOT] == Directory(0, "")
    && METADATA in t && t[METADATA] == Directory(ROOT, "metadata")
    && DATA in t && t[DATA] == Directory(ROOT, "data")
    && STATS in t && t[STATS] == File(ROOT, ".stats", "", false)
  }

  /** An inode of ours has a number below the counter and a name the kernel can
      pass; a file is a `.torrent`; the parent, even of an unlinked file, is a
      directory or is gone for good. */
  ghost predicate NodeOk(t: Table, next: Ino, i: Ino) {
    && i in t && 0 < i < next
    && (i >= FIRST_INO ==>
          && IsName(t[i].name) && (t[i].File? ==> EndsWith(t[i].name, TORRENT))
          && var d := t[i].parent;
          && (d == METADATA || d >= FIRST_INO) && d < next
          && (d in t ==> t[d].Directory?))
  }

  ghost predicate Shape(t: Table, next: Ino) {
    && next >= FIRST_INO
    && forall i {:trigger NodeOk(t, next, i)} :: i in t ==> NodeOk(t, next, i)
  }

  lemma NextIsFresh(t: Table, next: Ino)
    requires Shape(t, next)
    ensures next !in t && 0 !in t
  {
    assert next in t ==> NodeOk(t, next, next);
    assert 0 in t ==> NodeOk(t, next, 0);
  }

  ghost predicate SameEntry(t: Table, i: Ino, j: Ino)
    requires i in t && j in t
  {
    t[i].parent == t[j].parent && t[i].name == t[j].name
  }

  /** No two linked inodes share a directory and a name. */
  ghost predicate Siblings(t: Table) {
    forall i, j {:trigger SameEntry(t, i, j)} ::
      i in t && j in t && t[i].Linked() && t[j].Linked() && SameEntry(t, i, j) ==> i == j
  }

  ghost predicate TreeWith(t: Table, next: Ino, p: Labels) {
    Skeleton(t) && Shape(t, next) && Siblings(t) && Labelled(t, p)
  }

  ghost predicate Tree(t: Table, next: Ino) {
    Acyclic(t) && TreeWith(t, next, Paths(t))
  }

  lemma TreeIs(t: Table, next: Ino, p: Labels)
    requires TreeWith(t, next, p)
    ensures Tree(t, next) && Paths(t) == p
  {
    PathsAre(t, p);
  }

  lemma SkeletonLabels(t: Table, next: Ino, p: Labels)
    requires TreeWith(t, next, p)
    ensures METADATA in p && p[METADATA] == ["metadata"]
    ensures DATA in p && p[DATA] == ["data"]
    ensures STATS in p && p[STATS] == [".stats"]
  {
    assert LabelOk(t, p, METADATA) && LabelOk(t, p, DATA) && LabelOk(t, p, STATS);
  }

  /** Components of the label of any linked inode are proper names. */
  lemma {:induction false} LabelNames(t: Table, next: Ino, p: Labels, i: Ino)
    requires TreeWith(t, next, p) && i in p
    ensures AllNames(p[i])
    decreases |p[i]|
  {
    if i != ROOT {
      assert LabelOk(t, p, i) && NodeOk(t, next, i);
      LabelNames(t, next, p, t[i].parent);
    }
  }

  /** Full paths are injective on linked inodes. */
  lemma {:induction false} PathInjective(t: Table, next: Ino, p: Labels, i: Ino, j: Ino)
    requires TreeWith(t, next, p) && i in p && j in p && p[i] == p[j]
    ensures i == j
    decreases |p[i]|
  {
    if i != ROOT { assert LabelOk(t, p, i); }
    if j != ROOT { assert LabelOk(t, p, j); }
    if i != ROOT && j != ROOT {
      var d, e := t[i].parent, t[j].parent;
      LastApart(p[d], t[i].name, p[e], t[j].name);
      PathInjective(t, next, p, d, e);
      assert SameEntry(t, i, j);
    }
  }

  /** The table of a fresh mount. */
  function StartTable(): Table {
    map[ROOT := Directory(0, ""), METADATA := Directory(ROOT, "metadata"),
        DATA := Directory(ROOT, "data"), STATS := File(ROOT, ".stats", "", false)]
  }

  lemma StartIsTree()
    ensures Tree(StartTable(), FIRST_INO)
  {
    var t := StartTable();
    var p: Labels := map[ROOT := [], METADATA := ["metadata"], DATA := ["data"], STATS := [".stats"]];
    assert LabelOk(t, p, METADATA) && LabelOk(t, p, DATA) && LabelOk(t, p, STATS);
    assert Labelled(t, p);
    assert "metadata" != "data" && "metadata" != ".stats" && "data" != ".stats" by {
      assert "metadata"[0] == 'm' && "data"[0] == 'd' && ".stats"[0] == '.';
    }
    TreeIs(t, FIRST_INO, p);
  }

  // ── Source paths and dedup keys ──────────────────────────────────────────

  datatype Key = Key(sourcePath: string, filename: string)

  /** Where a directory stands below `metadata/`, '/'-joined; "" for `metadata/` itself. */
  ghost function SourcePath(p: Labels, d: Ino): string
    requires d in p && p[d] != []
  {
    Join(p[d][1..])
  }

  ghost predicate InMetadata(p: Labels, d: Ino) {
    d in p && p[d] != [] && p[d][0] == "metadata"
  }

  lemma ParentInMetadata(t: Table, next: Ino, p: Labels, i: Ino)
    requires TreeWith(t, next, p) && i in p && i >= FIRST_INO
    ensures LabelOk(t, p, i) && InMetadata(p, t[i].parent)
    ensures t[i].parent >= FIRST_INO || t[i].parent == METADATA
  {
    assert LabelOk(t, p, i) && NodeOk(t, next, i);
    assert p[i][0] == p[t[i].parent][0];
  }

  /** The dedup key of a metadata file: `(source_path, filename)`. */
  ghost function KeyOf(t: Table, p: Labels, i: Ino): Key
    requires i in t && InMetadata(p, t[i].parent)
  {
    Key(SourcePath(p, t[i].parent), t[i].name)
  }

  ghost predicate HasKey(t: Table, p: Labels, i: Ino, k: Key) {
    IsMetaFile(t, i) && InMetadata(p, t[i].parent) && KeyOf(t, p, i) == k
  }

  /** Some linked metadata file has this key. */
  ghost predicate Named(t: Table, p: Labels, k: Key) { exists i :: HasKey(t, p, i, k) }

  /** A dedup key identifies at most one linked file. */
  lemma KeyInjective(t: Table, next: Ino, p: Labels, i: Ino, j: Ino, k: Key)
    requires TreeWith(t, next, p) && HasKey(t, p, i, k) && HasKey(t, p, j, k)
    ensures i == j
  {
    var d, e := t[i].parent, t[j].parent;
    ParentInMetadata(t, next, p, i);
    ParentInMetadata(t, next, p, j);
    LabelNames(t, next, p, d);
    LabelNames(t, next, p, e);
    JoinInjective(p[d][1..], p[e][1..]);
    assert p[d] == [p[d][0]] + p[d][1..] && p[e] == [p[e][0]] + p[e][1..];
    PathInjective(t, next, p, d, e);
    assert SameEntry(t, i, j);
  }

  /** So does a source path: it identifies at most one linked inode. */
  lemma {:induction false} SamePlace(t: Table, next: Ino, p: Labels, i: Ino, j: Ino)
    requires TreeWith(t, next, p) && InMetadata(p, i) && InMetadata(p, j)
    requires Join(p[i][1..]) == Join(p[j][1..])
    ensures i == j
  {
    LabelNames(t, next, p, i);
    LabelNames(t, next, p, j);
    JoinInjective(p[i][1..], p[j][1..]);
    assert p[i] == [p[i][0]] + p[i][1..] && p[j] == [p[j][0]] + p[j][1..];
    PathInjective(t, next, p, i, j);
  }

  // ── Child lookup ─────────────────────────────────────────────────────────

  ghost predicate IsChild(t: Table, parent: Ino, name: string, i: Ino) {
    i in t && t[i].Linked() && t[i].parent == parent && t[i].name == name
  }

  ghost predicate HasChild(t: Table, parent: Ino, name: string) {
    exists i :: IsChild(t, parent, name, i)
  }

  ghost function Child(t: Table, parent: Ino, name: string): (i: Ino)
    requires HasChild(t, parent, name)
    ensures IsChild(t, parent, name, i)
  {
    var i :| IsChild(t, parent, name, i); i
  }

  lemma ChildIs(t: Table, parent: Ino, name: string, i: Ino)
    requires Siblings(t) && IsChild(t, parent, name, i)
    ensures HasChild(t, parent, name) && Child(t, parent, name) == i
  {
    assert SameEntry(t, Child(t, parent, name), i);
  }

  ghost predicate HasChildren(t: Table, d: Ino) {
    exists i :: i in t && t[i].Linked() && t[i].parent == d
  }

  // ── Table updates that keep the tree ─────────────────────────────────────

  /** A new linked inode under a directory where its name is free. */
  lemma AddLeaf(t: Table, next: Ino, p: Labels, n: Inode)
    requires TreeWith(t, next, p)
    requires n.parent in t && t[n.parent].Directory? && InMetadata(p, n.parent)
    requires n.Linked() && IsName(n.name) && (n.File? ==> EndsWith(n.name, TORRENT))
    requires !HasChild(t, n.parent, n.name)
    ensures TreeWith(t[next := n], next + 1, p[next := p[n.parent] + [n.name]])
  {
    var t', p' := t[next := n], p[next := p[n.parent] + [n.name]];
    NextIsFresh(t, next);
    assert NodeOk(t, next, n.parent);
    forall i | i in p' && i != ROOT ensures LabelOk(t', p', i) {
      if i != next { assert LabelOk(t, p, i); }
    }
    SkeletonLabels(t, next, p);
    forall i | i in t' ensures NodeOk(t', next + 1, i) {
      if i != next { assert NodeOk(t, next, i); }
    }
    forall i, j | i in t' && j in t' && t'[i].Linked() && t'[j].Linked() && SameEntry(t', i, j) ensures i == j {
      if i == next && j != next {
        assert IsChild(t, n.parent, n.name, j);
      } else if j == next && i != next {
        assert IsChild(t, n.parent, n.name, i);
      } else if i != next {
        assert SameEntry(t, i, j);
      }
    }
  }

  /** Dropping a linked inode without linked children, either from the table or
      by marking it unlinked (`n` is then what stays behind). */
  lemma DropLeaf(t: Table, next: Ino, p: Labels, i: Ino, t': Table)
    requires TreeWith(t, next, p)
    requires i in p && i >= FIRST_INO && !HasChildren(t, i)
    requires t' == t - {i} || (t[i].File? && t' == t[i := t[i].(unlinked := true)])
    ensures TreeWith(t', next, p - {i})
  {
    var p' := p - {i};
    forall j | j in p' && j != ROOT ensures LabelOk(t', p', j) {
      assert LabelOk(t, p, j);
    }
    forall j | j in t' ensures NodeOk(t', next, j) { assert NodeOk(t, next, j); }
    forall j, k | j in t' && k in t' && t'[j].Linked() && t'[k].Linked() && SameEntry(t', j, k) ensures j == k {
      assert SameEntry(t, j, k);
    }
  }

  /** Changing the buffer of a file, or dropping a file already unlinked. */
  lemma SameLinks(t: Table, next: Ino, p: Labels, t': Table)
    requires TreeWith(t, next, p)
    requires forall i :: i in t' ==> i in t
    requires forall i :: i in t && t[i].Linked() ==> i in t'
    requires forall i :: i in t' ==>
      t'[i] == t[i] || (i >= FIRST_INO && t[i].File? && t'[i].File? && t'[i] == t[i].(data := t'[i].data))
    ensures TreeWith(t', next, p)
  {
    forall i | i in p && i != ROOT ensures LabelOk(t', p, i) {
      assert LabelOk(t, p, i);
    }
    forall i | i in t' ensures NodeOk(t', next, i) { assert NodeOk(t, next, i); }
    forall j, k | j in t' && k in t' && t'[j].Linked() && t'[k].Linked() && SameEntry(t', j, k) ensures j == k {
      assert SameEntry(t, j, k);
    }
  }

  /** Moving a linked file to a free name. */
  lemma MoveFile(t: Table, next: Ino, p: Labels, i: Ino, parent: Ino, name: string)
    requires TreeWith(t, next, p) && IsMetaFile(t, i)
    requires parent in t && t[parent].Directory? && InMetadata(p, parent)
    requires IsName(name) && EndsWith(name, TORRENT)
    requires !HasChild(t, parent, name)
    ensures TreeWith(t[i := t[i].(parent := parent, name := name)], next, p[i := p[parent] + [name]])
  {
    FileLabelMoves(t, p, i, parent, name);
    assert NodeOk(t, next, parent);
    SkeletonLabels(t, next, p);
    EntryMoves(t, next, i, t[i].(parent := parent, name := name));
  }

  lemma FileLabelMoves(t: Table, p: Labels, i: Ino, parent: Ino, name: string)
    requires Labelled(t, p) && IsMetaFile(t, i)
    requires parent in t && t[parent].Directory? && InMetadata(p, parent)
    ensures Labelled(t[i := t[i].(parent := parent, name := name)], p[i := p[parent] + [name]])
  {
    var t', p' := t[i := t[i].(parent := parent, name := name)], p[i := p[parent] + [name]];
    forall j | j in p' && j != ROOT ensures LabelOk(t', p', j) {
      if j != i { assert LabelOk(t, p, j); }
    }
  }

  /** The entry of an inode of ours replaced by one of a free name. */
  lemma EntryMoves(t: Table, next: Ino, i: Ino, n: Inode)
    requires Shape(t, next) && Siblings(t) && i in t && i >= FIRST_INO && n.Linked() && (n.Directory? <==> t[i].Directory?)
    requires IsName(n.name) && (n.File? ==> EndsWith(n.name, TORRENT))
    requires n.parent in t && t[n.parent].Directory? && (n.parent == METADATA || n.parent >= FIRST_INO) && n.parent < next
    requires !HasChild(t, n.parent, n.name)
    ensures Shape(t[i := n], next) && Siblings(t[i := n])
  {
    var t' := t[i := n];
    forall j | j in t' ensures NodeOk(t', next, j) {
      assert NodeOk(t, next, j) && NodeOk(t, next, i);
    }
    forall j, k | j in t' && k in t' && t'[j].Linked() && t'[k].Linked() && SameEntry(t', j, k) ensures j == k {
      if j != i && k != i {
        assert SameEntry(t, j, k);
      } else if j != k {
        assert IsChild(t, n.parent, n.name, if j == i then k else j);
      }
    }
  }

  /** Label of `i` after the directory labelled `from` became `to`. */
  ghost function Relabel(path: seq<string>, from: seq<string>, to: seq<string>): seq<string> {
    if from <= path then to + path[|from|..] else path
  }

  ghost function MovedLabels(p: Labels, d: Ino, to: seq<string>): Labels
    requires d in p
  {
    map i | i in p :: Relabel(p[i], p[d], to)
  }

  /** Moving a directory, with everything below it, to a free name that is not
      below the directory itself. */
  lemma MoveDirectory(t: Table, next: Ino, p: Labels, d: Ino, parent: Ino, name: string)
    requires TreeWith(t, next, p)
    requires d in t && t[d].Directory? && d >= FIRST_INO
    requires parent in t && t[parent].Directory? && InMetadata(p, parent)
    requires IsName(name) && !HasChild(t, parent, name)
    requires !(p[d] <= p[parent])
    ensures TreeWith(t[d := Directory(parent, name)], next, MovedLabels(p, d, p[parent] + [name]))
  {
    LabelsMoved(t, next, p, d, parent, name);
    assert NodeOk(t, next, parent);
    SkeletonLabels(t, next, p);
    EntryMoves(t, next, d, Directory(parent, name));
  }

  lemma LabelsMoved(t: Table, next: Ino, p: Labels, d: Ino, parent: Ino, name: string)
    requires TreeWith(t, next, p)
    requires d in t && t[d].Directory? && d >= FIRST_INO
    requires parent in t && t[parent].Directory? && InMetadata(p, parent)
    requires !(p[d] <= p[parent])
    ensures var t', p' := t[d := Directory(parent, name)], MovedLabels(p, d, p[parent] + [name]);
            Labelled(t', p')
  {
    var t', to := t[d := Directory(parent, name)], p[parent] + [name];
    var p' := MovedLabels(p, d, to);
    forall i | i in p' && i != ROOT ensures LabelOk(t', p', i) {
      assert LabelOk(t, p, i);
      if i != d {
        var e := t[i].parent;
        if p[d] <= p[i] {
          if p[i] == p[d] { PathInjective(t, next, p, i, d); }
          assert p[d] <= p[e];
          assert to + p[i][|p[d]|..] == (to + p[e][|p[d]|..]) + [t[i].name];
        } else {
          assert !(p[d] <= p[e]);
        }
      }
    }
    assert p'[ROOT] == [] by { assert LabelOk(t, p, d); }
  }
}
