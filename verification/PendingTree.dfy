/** The `data/` tree of a torrent that is still being added: built from the
    torrent's own file list, by listing and by lookup. */
module PendingTree {
  import opened Text
  import opened TorrentFile

  datatype Kind = Directory | RegularFile(size: int)

  /** An entry, with the path its inode number is hashed from. */
  datatype Child = Child(name: string, kind: Kind, path: string)

  datatype DirEntry = DirEntry(child: Child, offset: nat)

  function Prefix(dirPath: string): string { if dirPath == "" then "" else dirPath + "/" }

  // ── Listing ──────────────────────────────────────────────────────────────

  /** The entries so far, the directories among them, and the next offset. */
  datatype Listing = Listing(entries: seq<DirEntry>, seen: set<string>, next: nat)

  function Push(l: Listing, c: Child): Listing {
    l.(entries := l.entries + [DirEntry(c, l.next)], next := l.next + 1)
  }

  function ListFile(l: Listing, f: PendingFile, dirPath: string): Listing {
    var prefix := Prefix(dirPath);
    if !(prefix <= f.path) then l
    else
      var remainder := f.path[|prefix|..];
      var slash := IndexOf(remainder, '/');
      if remainder == "" then l
      else if slash < |remainder| then
        var name := remainder[..slash];
        if name in l.seen then l
        else Push(l, Child(name, Directory, ChildPath(dirPath, name))).(seen := l.seen + {name})
      else Push(l, Child(remainder, RegularFile(AsI64(f.size)), f.path))
  }

  function ListFiles(files: seq<PendingFile>, dirPath: string): Listing {
    if files == [] then Listing([], {}, 3)
    else ListFile(ListFiles(files[..|files| - 1], dirPath), files[|files| - 1], dirPath)
  }

  /** Every entry stands for the path of its name in the directory. */
  lemma {:induction false} EntryPaths(files: seq<PendingFile>, dirPath: string)
    ensures forall i :: 0 <= i < |ListFiles(files, dirPath).entries| ==>
              var c := ListFiles(files, dirPath).entries[i].child; c.path == ChildPath(dirPath, c.name)
  {
    if files != [] {
      var f, prefix := files[|files| - 1], Prefix(dirPath);
      EntryPaths(files[..|files| - 1], dirPath);
      if prefix <= f.path { assert f.path == prefix + f.path[|prefix|..]; }
    }
  }

  method ReaddirPendingTorrent(files: seq<PendingFile>, dirPath: string) returns (entries: seq<DirEntry>)
    ensures entries == ListFiles(files, dirPath).entries
  {
    var prefix := Prefix(dirPath);
    entries := [];
    var seenDirs: set<string> := {};
    var offsetCounter := 3;
    for n := 0 to |files|
      invariant ListFiles(files[..n], dirPath) == Listing(entries, seenDirs, offsetCounter)
    {
      assert files[..n + 1][..n] == files[..n] && files[..n + 1][n] == files[n];
      var file := files[n];
      if !(prefix <= file.path) { continue; }
      var remainder := file.path[|prefix|..];
      if remainder == "" { continue; }
      var slash := IndexOf(remainder, '/');
      if slash < |remainder| {
        var dirName := remainder[..slash];
        if dirName !in seenDirs {
          seenDirs := seenDirs + {dirName};
          entries := entries + [DirEntry(Child(dirName, Directory, ChildPath(dirPath, dirName)), offsetCounter)];
          offsetCounter := offsetCounter + 1;
        }
      } else {
        entries := entries + [DirEntry(Child(remainder, RegularFile(AsI64(file.size)), file.path), offsetCounter)];
        offsetCounter := offsetCounter + 1;
      }
    }
    assert files[..|files|] == files;
  }

  // ── Lookup ───────────────────────────────────────────────────────────────

  predicate HasSubdir(files: seq<PendingFile>, subPrefix: string) {
    exists i :: 0 <= i < |files| && subPrefix <= files[i].path
  }

  /** First file with this path. */
  function FindFile(files: seq<PendingFile>, path: string): Option<PendingFile> {
    if files == [] then None
    else if files[0].path == path then Some(files[0])
    else FindFile(files[1..], path)
  }

  function Resolve(files: seq<PendingFile>, dirPath: string, name: string): Option<Child> {
    var prefix := Prefix(dirPath);
    if HasSubdir(files, prefix + name + "/") then Some(Child(name, Directory, ChildPath(dirPath, name)))
    else
      var f := FindFile(files, prefix + name);
      if f.None? then None else Some(Child(name, RegularFile(AsI64(f.value.size)), prefix + name))
  }

  // ── File lists that make a tree ──────────────────────────────────────────

  /** A file list by components: no path repeated, none a directory of another. */
  ghost predicate WellFormed(nodes: seq<SeedFile>) {
    && (forall i :: 0 <= i < |nodes| ==> nodes[i].components != [] && AllNames(nodes[i].components))
    && (forall i, j :: 0 <= i < |nodes| && 0 <= j < |nodes| && i != j ==> !(nodes[i].components <= nodes[j].components))
  }

  function PathsOf(nodes: seq<SeedFile>): (files: seq<PendingFile>)
    ensures |files| == |nodes|
    ensures forall i :: 0 <= i < |nodes| ==> files[i] == PendingFile(Join(nodes[i].components), nodes[i].size)
  {
    seq(|nodes|, i requires 0 <= i < |nodes| => PendingFile(Join(nodes[i].components), nodes[i].size))
  }

  /** The prefix test on strings is the proper-prefix test on components. */
  lemma {:induction false} PrefixIsBelow(d: seq<string>, p: seq<string>)
    requires AllNames(d) && AllNames(p) && p != []
    ensures Prefix(Join(d)) <= Join(p) <==> d < p
    ensures d < p ==> Join(p)[|Prefix(Join(d))|..] == Join(p[|d|..])
  {
    if d == [] {
      assert p[0..] == p;
    } else {
      JoinNonEmpty(d);
      BelowIsPrefix(d, p);
      if d < p {
        assert p == d + p[|d|..];
        JoinConcat(d, p[|d|..]);
      }
    }
  }

  lemma {:induction false} ChildIsAppend(d: seq<string>, name: string)
    requires AllNames(d)
    ensures ChildPath(Join(d), name) == Prefix(Join(d)) + name == Join(d + [name])
  {
    if d == [] {
      assert d + [name] == [name];
    } else {
      JoinNonEmpty(d);
      JoinAppend(d, name);
    }
  }

  /** What one file adds to the listing of a directory. */
  lemma {:induction false} ListNode(l: Listing, node: SeedFile, d: seq<string>)
    requires AllNames(d) && AllNames(node.components) && node.components != []
    ensures var p := node.components;
            ListFile(l, PendingFile(Join(p), node.size), Join(d)) ==
            if !(d < p) then l
            else if |p| == |d| + 1 then Push(l, Child(p[|d|], RegularFile(AsI64(node.size)), Join(p)))
            else if p[|d|] in l.seen then l
            else Push(l, Child(p[|d|], Directory, Join(d + [p[|d|]]))).(seen := l.seen + {p[|d|]})
  {
    var p := node.components;
    PrefixIsBelow(d, p);
    if d < p {
      var rest := p[|d|..];
      assert AllNames(rest) && rest[0] == p[|d|];
      HeadOfJoin(rest);
      JoinNonEmpty(rest);
      ChildIsAppend(d, p[|d|]);
      if |rest| == 1 { assert Join(rest) == p[|d|]; }
    }
  }

  // ── What a listing holds ─────────────────────────────────────────────────

  /** `c` stands in directory `d` on account of `node`. */
  ghost predicate StandsFor(c: Child, node: SeedFile, d: seq<string>) {
    var p := node.components;
    && d < p && c.name == p[|d|] && c.path == Join(d + [c.name])
    && c.kind == if |p| == |d| + 1 then RegularFile(AsI64(node.size)) else Directory
  }

  ghost predicate Justified(c: Child, nodes: seq<SeedFile>, d: seq<string>) {
    exists i :: 0 <= i < |nodes| && StandsFor(c, nodes[i], d)
  }

  ghost predicate InListing(entries: seq<DirEntry>, node: SeedFile, d: seq<string>) {
    exists k :: 0 <= k < |entries| && StandsFor(entries[k].child, node, d)
  }

  ghost predicate Offsets(l: Listing) {
    l.next == 3 + |l.entries| && forall k :: 0 <= k < |l.entries| ==> l.entries[k].offset == 3 + k
  }

  ghost predicate SeenAre(l: Listing) {
    forall n :: n in l.seen <==> exists k :: 0 <= k < |l.entries| && l.entries[k].child.kind.Directory? && l.entries[k].child.name == n
  }

  /** Each name once, each on account of a file, and every file accounted for. */
  ghost predicate Exact(entries: seq<DirEntry>, nodes: seq<SeedFile>, d: seq<string>) {
    && (forall j, k :: 0 <= j < k < |entries| ==> entries[j].child.name != entries[k].child.name)
    && (forall k {:trigger Justified(entries[k].child, nodes, d)} :: 0 <= k < |entries| ==> Justified(entries[k].child, nodes, d))
    && (forall i {:trigger InListing(entries, nodes[i], d)} ::
          0 <= i < |nodes| && d < nodes[i].components ==> InListing(entries, nodes[i], d))
  }

  /** Two files that put the same name into a directory both lie below it. */
  lemma {:induction false} SameName(nodes: seq<SeedFile>, i: nat, j: nat, d: seq<string>)
    requires WellFormed(nodes) && i < |nodes| && j < |nodes| && i != j
    requires d < nodes[i].components && d < nodes[j].components && nodes[i].components[|d|] == nodes[j].components[|d|]
    ensures |nodes[i].components| > |d| + 1 && |nodes[j].components| > |d| + 1
  {
  }

  lemma {:induction false} FrontIsWellFormed(nodes: seq<SeedFile>)
    requires WellFormed(nodes) && nodes != []
    ensures WellFormed(nodes[..|nodes| - 1])
  {
  }

  /** An entry for a name that no earlier file put there. */
  lemma {:induction false} PushIsExact(l: Listing, c: Child, nodes: seq<SeedFile>, d: seq<string>)
    requires nodes != [] && Exact(l.entries, nodes[..|nodes| - 1], d) && StandsFor(c, nodes[|nodes| - 1], d)
    requires forall k :: 0 <= k < |l.entries| ==> l.entries[k].child.name != c.name
    ensures Exact(Push(l, c).entries, nodes, d)
  {
    var entries, last := Push(l, c).entries, |nodes| - 1;
    forall k | 0 <= k < |entries| ensures Justified(entries[k].child, nodes, d) {
      if k == |l.entries| {
        assert StandsFor(entries[k].child, nodes[last], d);
      } else {
        assert Justified(l.entries[k].child, nodes[..last], d);
        var i :| 0 <= i < last && StandsFor(l.entries[k].child, nodes[..last][i], d);
        assert StandsFor(entries[k].child, nodes[i], d);
      }
    }
    forall i | 0 <= i < |nodes| && d < nodes[i].components ensures InListing(entries, nodes[i], d) {
      if i < last {
        assert nodes[..last][i] == nodes[i] && InListing(l.entries, nodes[..last][i], d);
        var k :| 0 <= k < |l.entries| && StandsFor(l.entries[k].child, nodes[i], d);
        assert StandsFor(entries[k].child, nodes[i], d);
      } else {
        assert StandsFor(entries[|l.entries|].child, nodes[i], d);
      }
    }
  }

  /** A file that adds no entry: it lies elsewhere or its directory is listed. */
  lemma {:induction false} SkipIsExact(entries: seq<DirEntry>, nodes: seq<SeedFile>, d: seq<string>)
    requires nodes != [] && Exact(entries, nodes[..|nodes| - 1], d)
    requires var node := nodes[|nodes| - 1]; d < node.components ==> InListing(entries, node, d)
    ensures Exact(entries, nodes, d)
  {
    var last := |nodes| - 1;
    forall k | 0 <= k < |entries| ensures Justified(entries[k].child, nodes, d) {
      assert Justified(entries[k].child, nodes[..last], d);
      var i :| 0 <= i < last && StandsFor(entries[k].child, nodes[..last][i], d);
      assert StandsFor(entries[k].child, nodes[i], d);
    }
    forall i | 0 <= i < |nodes| && d < nodes[i].components ensures InListing(entries, nodes[i], d) {
      if i < last { assert nodes[..last][i] == nodes[i] && InListing(entries, nodes[..last][i], d); }
    }
  }

  /** Names already listed, when the last file stands in the directory. */
  lemma {:induction false} NameIsNew(entries: seq<DirEntry>, nodes: seq<SeedFile>, d: seq<string>, k: nat)
    requires WellFormed(nodes) && nodes != [] && Exact(entries, nodes[..|nodes| - 1], d) && k < |entries|
    requires var p := nodes[|nodes| - 1].components; d < p && entries[k].child.name == p[|d|]
    ensures entries[k].child.kind.Directory? && |nodes[|nodes| - 1].components| > |d| + 1
  {
    var last := |nodes| - 1;
    assert Justified(entries[k].child, nodes[..last], d);
    var i :| 0 <= i < last && StandsFor(entries[k].child, nodes[..last][i], d);
    assert nodes[..last][i] == nodes[i];
    SameName(nodes, i, last, d);
  }

  lemma {:induction false} DirPushKeepsSeen(l: Listing, c: Child)
    requires SeenAre(l) && c.kind.Directory?
    ensures SeenAre(Push(l, c).(seen := l.seen + {c.name}))
  {
    var l' := Push(l, c).(seen := l.seen + {c.name});
    assert l'.entries[|l.entries|].child == c;
    forall n | n in l'.seen ensures exists k :: 0 <= k < |l'.entries| && l'.entries[k].child.kind.Directory? && l'.entries[k].child.name == n {
      if n in l.seen {
        var k :| 0 <= k < |l.entries| && l.entries[k].child.kind.Directory? && l.entries[k].child.name == n;
        assert l'.entries[k] == l.entries[k];
      }
    }
  }

  lemma {:induction false} FilePushKeepsSeen(l: Listing, c: Child)
    requires SeenAre(l) && c.kind.RegularFile?
    ensures SeenAre(Push(l, c))
  {
    var l' := Push(l, c);
    forall n | n in l'.seen ensures exists k :: 0 <= k < |l'.entries| && l'.entries[k].child.kind.Directory? && l'.entries[k].child.name == n {
      var k :| 0 <= k < |l.entries| && l.entries[k].child.kind.Directory? && l.entries[k].child.name == n;
      assert l'.entries[k] == l.entries[k];
    }
  }

  /** A listing is exact: the names are distinct, each is there on account of a
      file, and every file below the directory has its entry; offsets count up. */
  lemma {:induction false} ListingIsExact(nodes: seq<SeedFile>, d: seq<string>)
    requires WellFormed(nodes) && AllNames(d)
    ensures var l := ListFiles(PathsOf(nodes), Join(d)); Exact(l.entries, nodes, d) && Offsets(l) && SeenAre(l)
  {
    if nodes != [] {
      var last := |nodes| - 1;
      var node, files := nodes[last], PathsOf(nodes);
      var l := ListFiles(PathsOf(nodes[..last]), Join(d));
      assert files[..last] == PathsOf(nodes[..last]);
      FrontIsWellFormed(nodes);
      ListingIsExact(nodes[..last], d);
      ListNode(l, node, d);
      OneMore(l, nodes, d);
    }
  }

  lemma {:induction false} OneMore(l: Listing, nodes: seq<SeedFile>, d: seq<string>)
    requires WellFormed(nodes) && AllNames(d) && nodes != []
    requires Exact(l.entries, nodes[..|nodes| - 1], d) && Offsets(l) && SeenAre(l)
    ensures var node := nodes[|nodes| - 1];
            var l' := ListFile(l, PendingFile(Join(node.components), node.size), Join(d));
            Exact(l'.entries, nodes, d) && Offsets(l') && SeenAre(l')
  {
    var node := nodes[|nodes| - 1];
    var p := node.components;
    ListNode(l, node, d);
    if !(d < p) {
      SkipIsExact(l.entries, nodes, d);
    } else if |p| > |d| + 1 && p[|d|] in l.seen {
      SeenIsListed(l, nodes, d);
    } else if |p| == |d| + 1 {
      assert d + [p[|d|]] == p;
      NewName(l, Child(p[|d|], RegularFile(AsI64(node.size)), Join(p)), nodes, d);
    } else {
      NewName(l, Child(p[|d|], Directory, Join(d + [p[|d|]])), nodes, d);
    }
  }

  lemma {:induction false} SeenIsListed(l: Listing, nodes: seq<SeedFile>, d: seq<string>)
    requires nodes != [] && Exact(l.entries, nodes[..|nodes| - 1], d) && SeenAre(l)
    requires var p := nodes[|nodes| - 1].components; d < p && |p| > |d| + 1 && p[|d|] in l.seen
    ensures Exact(l.entries, nodes, d)
  {
    var node := nodes[|nodes| - 1];
    var k :| 0 <= k < |l.entries| && l.entries[k].child.kind.Directory? && l.entries[k].child.name == node.components[|d|];
    assert Justified(l.entries[k].child, nodes[..|nodes| - 1], d);
    assert StandsFor(l.entries[k].child, node, d);
    SkipIsExact(l.entries, nodes, d);
  }

  lemma {:induction false} NewName(l: Listing, c: Child, nodes: seq<SeedFile>, d: seq<string>)
    requires WellFormed(nodes) && nodes != [] && StandsFor(c, nodes[|nodes| - 1], d)
    requires Exact(l.entries, nodes[..|nodes| - 1], d) && Offsets(l) && SeenAre(l)
    requires c.kind.Directory? ==> c.name !in l.seen
    ensures Exact(Push(l, c).entries, nodes, d) && Offsets(Push(l, c))
    ensures SeenAre(if c.kind.Directory? then Push(l, c).(seen := l.seen + {c.name}) else Push(l, c))
  {
    forall k | 0 <= k < |l.entries| ensures l.entries[k].child.name != c.name {
      if l.entries[k].child.name == c.name { NameIsNew(l.entries, nodes, d, k); }
    }
    PushIsExact(l, c, nodes, d);
    if c.kind.Directory? { DirPushKeepsSeen(l, c); } else { FilePushKeepsSeen(l, c); }
  }

  // ── Lookup agrees ────────────────────────────────────────────────────────

  lemma {:induction false} FindFileIs(nodes: seq<SeedFile>, p: seq<string>)
    requires AllNames(p) && (forall i :: 0 <= i < |nodes| ==> AllNames(nodes[i].components))
    ensures var f := FindFile(PathsOf(nodes), Join(p));
            && (f.None? <==> forall i :: 0 <= i < |nodes| ==> nodes[i].components != p)
            && (f.Some? ==> exists i :: 0 <= i < |nodes| && nodes[i].components == p && f.value == PathsOf(nodes)[i])
  {
    if nodes != [] {
      var files, rest := PathsOf(nodes), PathsOf(nodes[1..]);
      assert files[1..] == rest;
      if files[0].path == Join(p) {
        JoinInjective(nodes[0].components, p);
      } else {
        FindFileIs(nodes[1..], p);
        if FindFile(rest, Join(p)).Some? {
          var i :| 0 <= i < |nodes[1..]| && nodes[1..][i].components == p && FindFile(rest, Join(p)).value == rest[i];
          assert nodes[i + 1].components == p && rest[i] == files[i + 1];
        } else {
          forall i | 0 <= i < |nodes| ensures nodes[i].components != p {
            if i > 0 { assert nodes[i] == nodes[1..][i - 1]; }
          }
        }
      }
    }
  }

  lemma {:induction false} SubdirIs(nodes: seq<SeedFile>, d: seq<string>, name: string)
    requires AllNames(d) && IsName(name)
    requires forall i :: 0 <= i < |nodes| ==> AllNames(nodes[i].components) && nodes[i].components != []
    ensures HasSubdir(PathsOf(nodes), Prefix(Join(d)) + name + "/") <==>
            exists i :: 0 <= i < |nodes| && d + [name] < nodes[i].components
  {
    ChildIsAppend(d, name);
    var files, child := PathsOf(nodes), d + [name];
    JoinNonEmpty(child);
    assert Prefix(Join(child)) == Prefix(Join(d)) + name + "/";
    forall i | 0 <= i < |nodes| ensures Prefix(Join(child)) <= files[i].path <==> child < nodes[i].components {
      PrefixIsBelow(child, nodes[i].components);
    }
  }

  ghost predicate Holds(entries: seq<DirEntry>, c: Child) {
    exists k :: 0 <= k < |entries| && entries[k].child == c
  }

  lemma {:induction false} HoldsTheJustified(entries: seq<DirEntry>, nodes: seq<SeedFile>, d: seq<string>, c: Child)
    requires Exact(entries, nodes, d)
    ensures Holds(entries, c) <==> Justified(c, nodes, d)
  {
    if k :| 0 <= k < |entries| && entries[k].child == c {
      assert Justified(entries[k].child, nodes, d);
    }
    if i :| 0 <= i < |nodes| && StandsFor(c, nodes[i], d) {
      assert InListing(entries, nodes[i], d);
      var k :| 0 <= k < |entries| && StandsFor(entries[k].child, nodes[i], d);
      assert entries[k].child == c;
    }
  }

  /** A name is listed in a directory exactly when lookup finds it there, and then
      with the same kind, size and inode path. */
  lemma {:induction false} ListingAgreesWithLookup(nodes: seq<SeedFile>, d: seq<string>, c: Child)
    requires WellFormed(nodes) && AllNames(d) && IsName(c.name)
    ensures Holds(ListFiles(PathsOf(nodes), Join(d)).entries, c) <==> Resolve(PathsOf(nodes), Join(d), c.name) == Some(c)
  {
    ListingIsExact(nodes, d);
    HoldsTheJustified(ListFiles(PathsOf(nodes), Join(d)).entries, nodes, d, c);
    if Resolve(PathsOf(nodes), Join(d), c.name) == Some(c) { ResolvedIsJustified(nodes, d, c); }
    if Justified(c, nodes, d) { JustifiedIsResolved(nodes, d, c); }
  }

  lemma {:induction false} ResolvedIsJustified(nodes: seq<SeedFile>, d: seq<string>, c: Child)
    requires WellFormed(nodes) && AllNames(d) && IsName(c.name)
    requires Resolve(PathsOf(nodes), Join(d), c.name) == Some(c)
    ensures Justified(c, nodes, d)
  {
    var child := d + [c.name];
    SubdirIs(nodes, d, c.name);
    FindFileIs(nodes, child);
    ChildIsAppend(d, c.name);
    if c.kind.Directory? {
      var i :| 0 <= i < |nodes| && child < nodes[i].components;
      assert StandsFor(c, nodes[i], d);
    } else {
      var i :| 0 <= i < |nodes| && nodes[i].components == child
               && FindFile(PathsOf(nodes), Join(child)).value == PathsOf(nodes)[i];
      assert StandsFor(c, nodes[i], d);
    }
  }

  lemma {:induction false} JustifiedIsResolved(nodes: seq<SeedFile>, d: seq<string>, c: Child)
    requires WellFormed(nodes) && AllNames(d) && IsName(c.name) && Justified(c, nodes, d)
    ensures Resolve(PathsOf(nodes), Join(d), c.name) == Some(c)
  {
    var i :| 0 <= i < |nodes| && StandsFor(c, nodes[i], d);
    if |nodes[i].components| == |d| + 1 { FileResolves(nodes, d, c, i); } else { DirectoryResolves(nodes, d, c, i); }
  }

  lemma {:induction false} DirectoryResolves(nodes: seq<SeedFile>, d: seq<string>, c: Child, i: nat)
    requires WellFormed(nodes) && AllNames(d) && IsName(c.name) && i < |nodes|
    requires StandsFor(c, nodes[i], d) && |nodes[i].components| > |d| + 1
    ensures Resolve(PathsOf(nodes), Join(d), c.name) == Some(c)
  {
    SubdirIs(nodes, d, c.name);
    ChildIsAppend(d, c.name);
    assert d + [c.name] < nodes[i].components;
  }

  lemma {:induction false} FileResolves(nodes: seq<SeedFile>, d: seq<string>, c: Child, i: nat)
    requires WellFormed(nodes) && AllNames(d) && IsName(c.name) && i < |nodes|
    requires StandsFor(c, nodes[i], d) && |nodes[i].components| == |d| + 1
    ensures Resolve(PathsOf(nodes), Join(d), c.name) == Some(c)
  {
    var files, child := PathsOf(nodes), d + [c.name];
    assert nodes[i].components == child;
    SubdirIs(nodes, d, c.name);
    assert !HasSubdir(files, Prefix(Join(d)) + c.name + "/");
    FindFileIs(nodes, child);
    ChildIsAppend(d, c.name);
    assert FindFile(files, Join(child)).Some?;
    var j :| 0 <= j < |nodes| && nodes[j].components == child && FindFile(files, Join(child)).value == files[j];
    assert nodes[i].components <= nodes[j].components;
    assert i == j;
  }

  // ── Walking the tree ─────────────────────────────────────────────────────

  function Height(nodes: seq<SeedFile>): (h: nat)
    ensures forall i :: 0 <= i < |nodes| ==> |nodes[i].components| <= h
  {
    if nodes == [] then 0
    else
      var n, h := |nodes[0].components|, Height(nodes[1..]);
      assert forall i :: 0 < i < |nodes| ==> nodes[i] == nodes[1..][i - 1];
      if n < h then h else n
  }

  ghost function LevelsLeft(nodes: seq<SeedFile>, d: seq<string>): nat {
    if |d| <= Height(nodes) then Height(nodes) - |d| else 0
  }

  ghost predicate AllJustified(entries: seq<DirEntry>, nodes: seq<SeedFile>, d: seq<string>) {
    forall k {:trigger Justified(entries[k].child, nodes, d)} :: 0 <= k < |entries| ==> Justified(entries[k].child, nodes, d)
  }

  lemma {:induction false} GoesDown(nodes: seq<SeedFile>, d: seq<string>, c: Child)
    requires WellFormed(nodes) && Justified(c, nodes, d)
    ensures IsName(c.name) && c.path == Join(d + [c.name])
    ensures c.kind.Directory? ==> LevelsLeft(nodes, d + [c.name]) < LevelsLeft(nodes, d)
  {
  }

  /** The paths of the files a recursive walk from directory `d` comes to: it
      lists, takes the files and descends into the directories. */
  ghost function Walk(nodes: seq<SeedFile>, d: seq<string>): seq<string>
    requires WellFormed(nodes) && AllNames(d)
    decreases LevelsLeft(nodes, d), 2, 0
  {
    ListingIsExact(nodes, d);
    WalkOver(nodes, d, ListFiles(PathsOf(nodes), Join(d)).entries)
  }

  ghost function WalkOver(nodes: seq<SeedFile>, d: seq<string>, entries: seq<DirEntry>): seq<string>
    requires WellFormed(nodes) && AllNames(d) && AllJustified(entries, nodes, d)
    decreases LevelsLeft(nodes, d), 1, |entries|
  {
    if entries == [] then []
    else
      assert Justified(entries[0].child, nodes, d);
      RestJustified(nodes, d, entries);
      WalkInto(nodes, d, entries[0].child) + WalkOver(nodes, d, entries[1..])
  }

  ghost function WalkInto(nodes: seq<SeedFile>, d: seq<string>, c: Child): seq<string>
    requires WellFormed(nodes) && AllNames(d) && Justified(c, nodes, d)
    decreases LevelsLeft(nodes, d), 0, 0
  {
    GoesDown(nodes, d, c);
    if c.kind.Directory? then Walk(nodes, d + [c.name]) else [c.path]
  }

  lemma {:induction false} RestJustified(nodes: seq<SeedFile>, d: seq<string>, entries: seq<DirEntry>)
    requires AllJustified(entries, nodes, d) && entries != []
    ensures AllJustified(entries[1..], nodes, d) && Justified(entries[0].child, nodes, d)
  {
    assert forall k :: 0 <= k < |entries[1..]| ==> entries[1..][k] == entries[k + 1];
  }

  /** The way from `d` to file `i` goes through `name`. */
  ghost predicate Through(nodes: seq<SeedFile>, d: seq<string>, i: int, name: string) {
    0 <= i < |nodes| && d < nodes[i].components && nodes[i].components[|d|] == name
  }

  /** A path no file below `d` has is not met. */
  lemma {:induction false} NotMet(nodes: seq<SeedFile>, d: seq<string>, x: string)
    requires WellFormed(nodes) && AllNames(d)
    requires forall i :: 0 <= i < |nodes| && d < nodes[i].components ==> Join(nodes[i].components) != x
    ensures x !in Walk(nodes, d)
    decreases LevelsLeft(nodes, d), 2, 0
  {
    ListingIsExact(nodes, d);
    NotMetOver(nodes, d, ListFiles(PathsOf(nodes), Join(d)).entries, x);
  }

  lemma {:induction false} NotMetOver(nodes: seq<SeedFile>, d: seq<string>, entries: seq<DirEntry>, x: string)
    requires WellFormed(nodes) && AllNames(d) && AllJustified(entries, nodes, d)
    requires forall i, k :: 0 <= k < |entries| && Through(nodes, d, i, entries[k].child.name) ==> Join(nodes[i].components) != x
    ensures x !in WalkOver(nodes, d, entries)
    decreases LevelsLeft(nodes, d), 1, |entries|
  {
    if entries != [] {
      RestJustified(nodes, d, entries);
      assert forall k :: 0 <= k < |entries[1..]| ==> entries[1..][k] == entries[k + 1];
      NotMetOver(nodes, d, entries[1..], x);
      NotMetInto(nodes, d, entries[0].child, x);
    }
  }

  lemma {:induction false} NotMetInto(nodes: seq<SeedFile>, d: seq<string>, c: Child, x: string)
    requires WellFormed(nodes) && AllNames(d) && Justified(c, nodes, d)
    requires forall i :: Through(nodes, d, i, c.name) ==> Join(nodes[i].components) != x
    ensures x !in WalkInto(nodes, d, c)
    decreases LevelsLeft(nodes, d), 0, 0
  {
    GoesDown(nodes, d, c);
    if c.kind.Directory? {
      forall j | 0 <= j < |nodes| && d + [c.name] < nodes[j].components ensures Join(nodes[j].components) != x {
        LeadsThrough(nodes, d, j, c.name);
      }
      NotMet(nodes, d + [c.name], x);
    } else {
      var i :| 0 <= i < |nodes| && StandsFor(c, nodes[i], d);
      assert nodes[i].components == d + [c.name] && Through(nodes, d, i, c.name);
    }
  }

  lemma {:induction false} LeadsThrough(nodes: seq<SeedFile>, d: seq<string>, j: nat, name: string)
    requires j < |nodes| && d + [name] < nodes[j].components
    ensures Through(nodes, d, j, name)
  {
    var p := nodes[j].components;
    assert d == p[..|d| + 1][..|d|] && p[|d|] == p[..|d| + 1][|d|];
  }

  /** A file below `d` is met exactly once. */
  lemma {:induction false} MetOnce(nodes: seq<SeedFile>, d: seq<string>, i: nat)
    requires WellFormed(nodes) && AllNames(d) && i < |nodes| && d < nodes[i].components
    ensures multiset(Walk(nodes, d))[Join(nodes[i].components)] == 1
    decreases LevelsLeft(nodes, d), 2, 0
  {
    ListingIsExact(nodes, d);
    var entries := ListFiles(PathsOf(nodes), Join(d)).entries;
    assert InListing(entries, nodes[i], d);
    var k :| 0 <= k < |entries| && StandsFor(entries[k].child, nodes[i], d);
    MetOnceOver(nodes, d, entries, i, k);
  }

  ghost predicate Distinct(entries: seq<DirEntry>) {
    forall j, k :: 0 <= j < k < |entries| ==> entries[j].child.name != entries[k].child.name
  }

  lemma {:induction false} MetOnceOver(nodes: seq<SeedFile>, d: seq<string>, entries: seq<DirEntry>, i: nat, k: nat)
    requires WellFormed(nodes) && AllNames(d) && AllJustified(entries, nodes, d) && Distinct(entries)
    requires i < |nodes| && k < |entries| && StandsFor(entries[k].child, nodes[i], d)
    ensures multiset(WalkOver(nodes, d, entries))[Join(nodes[i].components)] == 1
    decreases LevelsLeft(nodes, d), 1, |entries|
  {
    var c, x, rest := entries[0].child, Join(nodes[i].components), entries[1..];
    RestJustified(nodes, d, entries);
    assert forall j :: 0 <= j < |rest| ==> rest[j] == entries[j + 1];
    if k == 0 {
      OnlyHere(nodes, d, rest, i, c.name);
      MetOnceInto(nodes, d, c, i);
    } else {
      MetOnceOver(nodes, d, rest, i, k - 1);
      NotThisOne(nodes, d, c, i);
    }
    CountsAdd(WalkInto(nodes, d, c), WalkOver(nodes, d, rest), x);
  }

  lemma {:induction false} CountsAdd(a: seq<string>, b: seq<string>, x: string)
    ensures multiset(a + b)[x] == multiset(a)[x] + multiset(b)[x]
    ensures x !in a ==> multiset(a)[x] == 0
    ensures x !in b ==> multiset(b)[x] == 0
  {
  }

  lemma {:induction false} MetOnceInto(nodes: seq<SeedFile>, d: seq<string>, c: Child, i: nat)
    requires WellFormed(nodes) && AllNames(d) && Justified(c, nodes, d) && i < |nodes| && StandsFor(c, nodes[i], d)
    ensures multiset(WalkInto(nodes, d, c))[Join(nodes[i].components)] == 1
    decreases LevelsLeft(nodes, d), 0, 0
  {
    GoesDown(nodes, d, c);
    if c.kind.Directory? {
      assert d + [c.name] < nodes[i].components;
      MetOnce(nodes, d + [c.name], i);
    } else {
      assert nodes[i].components == d + [c.name];
    }
  }

  lemma {:induction false} OtherName(nodes: seq<SeedFile>, d: seq<string>, i: nat, j: int, name: string)
    requires WellFormed(nodes) && i < |nodes| && d < nodes[i].components && nodes[i].components[|d|] != name
    requires Through(nodes, d, j, name)
    ensures Join(nodes[j].components) != Join(nodes[i].components)
  {
    if Join(nodes[j].components) == Join(nodes[i].components) {
      JoinInjective(nodes[j].components, nodes[i].components);
    }
  }

  /** Entries with other names do not lead to the file. */
  lemma {:induction false} OnlyHere(nodes: seq<SeedFile>, d: seq<string>, rest: seq<DirEntry>, i: nat, name: string)
    requires WellFormed(nodes) && AllNames(d) && AllJustified(rest, nodes, d)
    requires i < |nodes| && d < nodes[i].components && nodes[i].components[|d|] == name
    requires forall k :: 0 <= k < |rest| ==> rest[k].child.name != name
    ensures Join(nodes[i].components) !in WalkOver(nodes, d, rest)
  {
    forall j, k | 0 <= k < |rest| && Through(nodes, d, j, rest[k].child.name)
      ensures Join(nodes[j].components) != Join(nodes[i].components)
    {
      OtherName(nodes, d, i, j, rest[k].child.name);
    }
    NotMetOver(nodes, d, rest, Join(nodes[i].components));
  }

  lemma {:induction false} NotThisOne(nodes: seq<SeedFile>, d: seq<string>, c: Child, i: nat)
    requires WellFormed(nodes) && AllNames(d) && Justified(c, nodes, d)
    requires i < |nodes| && d < nodes[i].components && nodes[i].components[|d|] != c.name
    ensures Join(nodes[i].components) !in WalkInto(nodes, d, c)
  {
    forall j | Through(nodes, d, j, c.name) ensures Join(nodes[j].components) != Join(nodes[i].components) {
      OtherName(nodes, d, i, j, c.name);
    }
    NotMetInto(nodes, d, c, Join(nodes[i].components));
  }

  /** The walk from the root ends, meets every file exactly once and nothing else. */
  lemma {:induction false} WalkMeetsEveryFileOnce(nodes: seq<SeedFile>, x: string)
    requires WellFormed(nodes)
    ensures multiset(Walk(nodes, []))[x] == if exists i :: 0 <= i < |nodes| && Join(nodes[i].components) == x then 1 else 0
  {
    if i :| 0 <= i < |nodes| && Join(nodes[i].components) == x {
      MetOnce(nodes, [], i);
    } else {
      NotMet(nodes, [], x);
    }
  }

  lemma {:induction false} OffsetsAlways(files: seq<PendingFile>, dirPath: string)
    ensures Offsets(ListFiles(files, dirPath))
  {
    if files != [] { OffsetsAlways(files[..|files| - 1], dirPath); }
  }

  // ── Exactly when names are unambiguous ───────────────────────────────────

  lemma {:induction false} EntriesStay(files: seq<PendingFile>, n: nat, dirPath: string)
    requires n <= |files|
    ensures ListFiles(files[..n], dirPath).entries <= ListFiles(files, dirPath).entries
  {
    if n == |files| {
      assert files[..n] == files;
    } else {
      var front := files[..|files| - 1];
      EntriesStay(front, n, dirPath);
      assert front[..n] == files[..n];
    }
  }

  ghost predicate Named(nodes: seq<SeedFile>) {
    forall i :: 0 <= i < |nodes| ==> nodes[i].components != [] && AllNames(nodes[i].components)
  }

  lemma {:induction false} SeenAlways(nodes: seq<SeedFile>, d: seq<string>)
    requires Named(nodes) && AllNames(d)
    ensures SeenAre(ListFiles(PathsOf(nodes), Join(d)))
  {
    if nodes != [] {
      var last := |nodes| - 1;
      var l, p := ListFiles(PathsOf(nodes[..last]), Join(d)), nodes[last].components;
      assert PathsOf(nodes)[..last] == PathsOf(nodes[..last]);
      SeenAlways(nodes[..last], d);
      ListNode(l, nodes[last], d);
      if d < p {
        if |p| == |d| + 1 {
          FilePushKeepsSeen(l, Child(p[|d|], RegularFile(AsI64(nodes[last].size)), Join(p)));
        } else if p[|d|] !in l.seen {
          DirPushKeepsSeen(l, Child(p[|d|], Directory, Join(d + [p[|d|]])));
        }
      }
    }
  }

  /** Where the entry of file `i` stands, in the listing of `d`. */
  lemma {:induction false} EntryOf(nodes: seq<SeedFile>, d: seq<string>, i: nat) returns (k: nat)
    requires Named(nodes) && AllNames(d) && i < |nodes| && d < nodes[i].components
    ensures var entries, p := ListFiles(PathsOf(nodes), Join(d)).entries, nodes[i].components;
            && k < |entries| && entries[k].child.name == p[|d|]
            && (entries[k].child.kind.RegularFile? <==> |p| == |d| + 1)
            && (|p| == |d| + 1 ==> k == |ListFiles(PathsOf(nodes)[..i], Join(d)).entries|)
  {
    var files, p := PathsOf(nodes), nodes[i].components;
    var l := ListFiles(files[..i], Join(d));
    assert files[..i + 1][..i] == files[..i] && files[..i] == PathsOf(nodes[..i]);
    ListNode(l, nodes[i], d);
    EntriesStay(files, i + 1, Join(d));
    SeenAlways(nodes[..i], d);
    if |p| > |d| + 1 && p[|d|] in l.seen {
      k :| 0 <= k < |l.entries| && l.entries[k].child.kind.Directory? && l.entries[k].child.name == p[|d|];
    } else {
      k := |l.entries|;
    }
  }

  /** Files of one directory take different places in its listing. */
  lemma {:induction false} PlacesDiffer(nodes: seq<SeedFile>, d: seq<string>, i: nat, j: nat)
    requires Named(nodes) && AllNames(d) && i < j < |nodes| && d < nodes[i].components && |nodes[i].components| == |d| + 1
    ensures |ListFiles(PathsOf(nodes)[..i], Join(d)).entries| < |ListFiles(PathsOf(nodes)[..j], Join(d)).entries|
  {
    var files := PathsOf(nodes);
    assert files[..j][..i + 1] == files[..i + 1] && files[..i + 1][..i] == files[..i];
    EntriesStay(files[..j], i + 1, Join(d));
    ListNode(ListFiles(files[..i], Join(d)), nodes[i], d);
  }

  /** Where one file's path repeats another's or leads through it, some directory
      lists a name twice. */
  lemma {:induction false} ClashShows(nodes: seq<SeedFile>, i: nat, j: nat)
    requires Named(nodes) && i < |nodes| && j < |nodes| && i != j && nodes[i].components <= nodes[j].components
    ensures var p := nodes[i].components; var d := p[..|p| - 1];
            AllNames(d) && !Distinct(ListFiles(PathsOf(nodes), Join(d)).entries)
  {
    var p := nodes[i].components;
    var d := p[..|p| - 1];
    var k := EntryOf(nodes, d, i);
    var m := EntryOf(nodes, d, j);
    if nodes[j].components == p {
      if i < j { PlacesDiffer(nodes, d, i, j); } else { PlacesDiffer(nodes, d, j, i); }
    }
    assert k != m;
  }

  /** Every directory lists each name once exactly when no path repeats another or
      leads through it. */
  lemma {:induction false} UnambiguousExactly(nodes: seq<SeedFile>)
    requires Named(nodes)
    ensures WellFormed(nodes) <==>
            forall d :: AllNames(d) ==> Distinct(ListFiles(PathsOf(nodes), Join(d)).entries)
  {
    if WellFormed(nodes) {
      forall d | AllNames(d) ensures Distinct(ListFiles(PathsOf(nodes), Join(d)).entries) {
        ListingIsExact(nodes, d);
      }
    } else {
      var i, j :| 0 <= i < |nodes| && 0 <= j < |nodes| && i != j && nodes[i].components <= nodes[j].components;
      ClashShows(nodes, i, j);
    }
  }
}
