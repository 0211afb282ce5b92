/** The inode manager: the table, its handles, and the walks over them. */
module InodeManagement {
  import opened Text
  import opened InodeTree
  import opened Protocol

  function Reversed(parts: seq<string>): (r: seq<string>) {
    if parts == [] then [] else [parts[|parts| - 1]] + Reversed(parts[..|parts| - 1])
  }

  /** `h` falls along every parent link inside the table. */
  ghost predicate Ranked(t: Table, h: map<Ino, nat>) {
    h.Keys == t.Keys && forall i :: i in t && i != ROOT && t[i].parent in t ==> h[t[i].parent] < h[i]
  }

  /** Every upward walk ends. */
  ghost predicate Climbable(t: Table) { exists h :: Ranked(t, h) }

  ghost function Left(t: Table, h: map<Ino, nat>, i: Ino): nat
    requires Ranked(t, h)
  {
    if i in t then h[i] + 1 else 0
  }

  ghost function RankOf(t: Table): (h: map<Ino, nat>)
    requires Climbable(t)
    ensures Ranked(t, h)
  {
    var h :| Ranked(t, h); h
  }

  /** The names met on the way up from any inode, linked or not, topmost first; the
      way ends at the root or where a parent is gone. */
  ghost function WayBy(t: Table, h: map<Ino, nat>, i: Ino): seq<string>
    requires Ranked(t, h)
    decreases Left(t, h, i)
  {
    if i == ROOT || i == 0 || i !in t then []
    else WayBy(t, h, t[i].parent) + if t[i].File? || t[i].name != "" then [t[i].name] else []
  }

  ghost function Way(t: Table, i: Ino): seq<string>
    requires Climbable(t)
  {
    WayBy(t, RankOf(t), i)
  }

  /** For a linked inode of a tree the way is its label. */
  lemma {:induction false} WayIsLabel(t: Table, next: Ino, h: map<Ino, nat>, i: Ino)
    requires Tree(t, next) && Ranked(t, h) && i in Paths(t)
    ensures WayBy(t, h, i) == Paths(t)[i]
    decreases Left(t, h, i)
  {
    if i != ROOT {
      NextIsFresh(t, next);
      LabelNames(t, next, Paths(t), i);
      assert LabelOk(t, Paths(t), i) && t[i].name == Paths(t)[i][|Paths(t)[i]| - 1];
      WayIsLabel(t, next, h, t[i].parent);
    }
  }

  /** An unlinked file answers to its old place while its directory is there, and to
      its bare name after. */
  lemma WayOfUnlinked(t: Table, next: Ino, i: Ino)
    requires Tree(t, next) && Climbable(t) && i in t && !t[i].Linked()
    ensures t[i].parent in t ==> t[i].parent in Paths(t) && Way(t, i) == Paths(t)[t[i].parent] + [t[i].name]
    ensures t[i].parent !in t ==> Way(t, i) == [t[i].name]
  {
    NextIsFresh(t, next);
    assert NodeOk(t, next, i);
    assert i != 0 && i != ROOT;
    if t[i].parent in t {
      WayIsLabel(t, next, RankOf(t), t[i].parent);
    } else {
      assert WayBy(t, RankOf(t), t[i].parent) == [] && [] + [t[i].name] == [t[i].name];
    }
  }

  /** The handles on an inode. */
  ghost function Handles(open: map<nat, Ino>, i: Ino): (hs: set<nat>)
    ensures hs != {} <==> IsOpen(open, i)
  {
    var hs := set fh | fh in open && open[fh] == i;
    assert forall fh :: fh in open && open[fh] == i <==> fh in hs;
    hs
  }

  lemma TreeClimbs(t: Table, next: Ino)
    requires Tree(t, next)
    ensures Climbable(t)
  {
    var p := Paths(t);
    var h := map i | i in t :: if i in p then |p[i]| else 1 + if t[i].parent in p then |p[t[i].parent]| else 0;
    forall i | i in t && i != ROOT && t[i].parent in t ensures h[t[i].parent] < h[i] {
      assert NodeOk(t, next, i);
      if i in p { assert LabelOk(t, p, i); }
    }
    assert Ranked(t, h);
  }

  function WithoutMetadata(full: string): string {
    if "metadata/" <= full then full[|"metadata/"|..] else full
  }

  class InodeManager {
    var inodes: Table
    var openFiles: map<nat, Ino>
    var nextIno: Ino
    var nextFh: nat

    constructor ()
      ensures inodes == StartTable()
      ensures openFiles == map[] && nextIno == FIRST_INO && nextFh == 1
    {
      inodes := StartTable();
      openFiles, nextIno, nextFh := map[], FIRST_INO, 1;
    }

    /** Walks the parent links up to the root. */
    method GetFullPath(ino: Ino) returns (path: string)
      requires Climbable(inodes)
      ensures path == Join(Way(inodes, ino))
    {
      ghost var h := RankOf(inodes);
      var parts: seq<string> := [];
      var current := ino;
      assert Way(inodes, ino) + [] == Way(inodes, ino);
      while current != ROOT && current != 0
        invariant Way(inodes, ino) == WayBy(inodes, h, current) + Reversed(parts)
        decreases Left(inodes, h, current)
      {
        if current !in inodes { break; }
        var data := inodes[current];
        if data.File? || data.name != "" {
          assert (parts + [data.name])[..|parts|] == parts;
          parts := parts + [data.name];
        }
        current := data.parent;
      }
      assert [] + Reversed(parts) == Reversed(parts);
      path := Join(Reversed(parts));
    }

    /** Whether the walk up from `ino` meets `metadata/`. */
    method IsMetadataChild(ino: Ino) returns (r: bool)
      requires Tree(inodes, nextIno)
      ensures r <==> MetadataChild(inodes, ino)
    {
      ghost var t, p := inodes, Paths(inodes);
      SkeletonLabels(t, nextIno, p);
      NextIsFresh(inodes, nextIno);
      TreeClimbs(inodes, nextIno);
      ghost var h :| Ranked(inodes, h);
      if ino == METADATA { return true; }
      var current := ino;
      while current != ROOT && current != 0
        invariant current == ROOT ==> !MetadataChild(t, ino)
        invariant current != ROOT ==> (MetadataChild(t, ino) <==> MetadataChild(t, current))
        decreases Left(inodes, h, current)
      {
        if current !in inodes { break; }
        HeadAbove(t, nextIno, p, current);
        match inodes[current]
        case Directory(parent, _) =>
          if parent == METADATA || current == METADATA { return true; }
          current := parent;
        case File(parent, _, _, _) =>
          current := parent;
      }
      return false;
    }

    /** Scans the table in no particular order. */
    method FindChildByName(parent: Ino, name: string) returns (r: Option<Ino>)
      requires Tree(inodes, nextIno)
      ensures r.Some? <==> HasChild(inodes, parent, name)
      ensures r.Some? ==> r.value == Child(inodes, parent, name)
    {
      var rest := inodes.Keys;
      while rest != {}
        invariant rest <= inodes.Keys
        invariant forall i :: i in inodes && i !in rest ==> !IsChild(inodes, parent, name, i)
        decreases |rest|
      {
        var ino :| ino in rest;
        rest := rest - {ino};
        match inodes[ino]
        case Directory(p, n) =>
          if p == parent && n == name {
            ChildIs(inodes, parent, name, ino);
            return Some(ino);
          }
        case File(p, n, _, unlinked) =>
          if p == parent && n == name && !unlinked {
            ChildIs(inodes, parent, name, ino);
            return Some(ino);
          }
      }
      return None;
    }

    /** The full path without the leading `metadata/`; any other path as it is. */
    method ExtractSourcePath(parent: Ino) returns (path: string)
      requires Tree(inodes, nextIno)
      ensures Climbable(inodes)
      ensures path == if parent == METADATA then "" else WithoutMetadata(Join(Way(inodes, parent)))
      ensures InMetadata(Paths(inodes), parent) ==> path == SourcePath(Paths(inodes), parent)
    {
      ghost var p := Paths(inodes);
      SkeletonLabels(inodes, nextIno, p);
      TreeClimbs(inodes, nextIno);
      if parent == METADATA { return ""; }
      NextIsFresh(inodes, nextIno);
      var full := GetFullPath(parent);
      if InMetadata(p, parent) {
        WayIsLabel(inodes, nextIno, RankOf(inodes), parent);
        MetadataPrefix(inodes, nextIno, p, parent);
      }
      if "metadata/" <= full { path := full[|"metadata/"|..]; } else { path := full; }
    }

    /** Scans the table for an inode with this full path, linked or not. */
    method FindInoByFullPath(target: string) returns (r: Option<Ino>)
      requires Climbable(inodes)
      ensures r.Some? ==> r.value in inodes && Join(Way(inodes, r.value)) == target
      ensures r.None? ==> forall i :: i in inodes ==> Join(Way(inodes, i)) != target
    {
      var rest := inodes.Keys;
      while rest != {}
        invariant rest <= inodes.Keys
        invariant forall i :: i in inodes && i !in rest ==> Join(Way(inodes, i)) != target
        decreases |rest|
      {
        var ino :| ino in rest;
        rest := rest - {ino};
        var path := GetFullPath(ino);
        if path == target { return Some(ino); }
      }
      return None;
    }

    /** Counts the handles on `ino`. */
    function OpenHandleCount(ino: Ino): (n: nat)
      reads this
      ensures n == |Handles(openFiles, ino)|
      ensures n > 0 <==> IsOpen(openFiles, ino)
    {
      var handles := set fh | fh in openFiles && openFiles[fh] == ino;
      assert handles == Handles(openFiles, ino);
      |handles|
    }

    predicate IsUnlinkedFile(ino: Ino)
      reads this
    {
      ino in inodes && inodes[ino].File? && inodes[ino].unlinked
    }

    /** Takes a file's name away; the answer says whether the inode went with it. */
    method UnlinkFile(ino: Ino) returns (destroyed: bool)
      requires ino in inodes && inodes[ino].File?
      modifies this`inodes
      ensures old(inodes[ino].unlinked) ==> inodes == old(inodes) && !destroyed
      ensures !old(inodes[ino].unlinked) ==>
                inodes == old(Retired(inodes, openFiles, ino)) && (destroyed <==> ino !in inodes)
    {
      if IsUnlinkedFile(ino) { return false; }
      if OpenHandleCount(ino) > 0 {
        inodes := inodes[ino := inodes[ino].(unlinked := true)];
        return false;
      }
      inodes := inodes - {ino};
      return true;
    }
  }

  /** Above `metadata/` there is only the root; below it the head of a label stays
      the same all the way up. */
  lemma HeadAbove(t: Table, next: Ino, p: Labels, i: Ino)
    requires TreeWith(t, next, p) && i in t && i != ROOT && Paths(t) == p && Acyclic(t)
    ensures t[i].parent == ROOT && i != METADATA ==> !MetadataChild(t, i)
    ensures t[i].parent == METADATA || i == METADATA ==> MetadataChild(t, i)
    ensures t[i].parent != ROOT ==> (MetadataChild(t, i) <==> MetadataChild(t, t[i].parent))
  {
    SkeletonLabels(t, next, p);
    if i in p {
      assert LabelOk(t, p, i);
      if t[i].parent == ROOT {
        assert p[i] == [t[i].name];
        if t[i].name == "metadata" { PathInjective(t, next, p, i, METADATA); }
      } else if p[t[i].parent] == [] {
        PathInjective(t, next, p, t[i].parent, ROOT);
      } else {
        assert p[i][0] == p[t[i].parent][0];
      }
    } else {
      assert NodeOk(t, next, i);
    }
  }

  lemma MetadataPrefix(t: Table, next: Ino, p: Labels, d: Ino)
    requires TreeWith(t, next, p) && InMetadata(p, d) && d != METADATA
    ensures Join(p[d]) == "metadata/" + SourcePath(p, d)
  {
    var rest := p[d][1..];
    assert p[d] == ["metadata"] + rest;
    if rest == [] {
      SkeletonLabels(t, next, p);
      PathInjective(t, next, p, d, METADATA);
    }
    JoinConcat(["metadata"], rest);
  }
}
