/** How the database rewrites source paths when a directory is renamed.

    The statement selects rows with SQL `LIKE`, which ignores ASCII case, and cuts
    the old prefix off with `substr`, which counts UTF-8 characters while the
    offset it is given counts bytes.  The same statements move the rows that mirror
    the directories themselves. */
module DirectoryRows {
  import opened Text

  // ── What a rename means ──────────────────────────────────────────────────

  /** `p` after the directory `from` became `to`. */
  function Moved(from: string, to: string, p: string): string {
    if p == from then to
    else if Below(p, from) then to + p[|from|..]
    else p
  }

  /** On component lists, `Moved` replaces the prefix and nothing else. */
  lemma MovedJoin(a: seq<string>, b: seq<string>, c: seq<string>)
    requires a != [] && b != [] && AllNames(a) && AllNames(c)
    ensures Moved(Join(a), Join(b), Join(c)) == Join(if a <= c then b + c[|a|..] else c)
  {
    BelowIsPrefix(a, c);
    if a == c {
      assert b + c[|a|..] == b;
    } else if a < c {
      var rest := c[|a|..];
      assert c == a + rest;
      JoinConcat(a, rest);
      JoinConcat(b, rest);
      assert Join(c)[|Join(a)|..] == "/" + Join(rest);
    } else if Join(a) == Join(c) {
      JoinInjective(a, c);
    }
  }

  // ── What the statement does ──────────────────────────────────────────────

  function Lower(c: char): char {
    if 'A' <= c <= 'Z' then (c as int + 32) as char else c
  }

  /** `q LIKE prefix%`: ASCII letters match in either case. */
  predicate Like(prefix: string, q: string) {
    |prefix| <= |q| && forall i :: 0 <= i < |prefix| ==> Lower(q[i]) == Lower(prefix[i])
  }

  predicate SingleBytes(s: string) { forall i :: 0 <= i < |s| ==> !Continues(s[i]) }

  /** The start of the next UTF-8 character. */
  function SkipContinuation(s: string): (r: string)
    ensures |r| <= |s|
    ensures s != "" && Continues(s[0]) ==> |r| < |s|
    ensures s == "" || !Continues(s[0]) ==> r == s
  {
    if s != "" && Continues(s[0]) then SkipContinuation(s[1..]) else s
  }

  /** `substr(s, n + 1)`: everything after the first `n` characters. */
  function DropChars(s: string, n: nat): string
    decreases n
  {
    if n == 0 || s == "" then s else DropChars(SkipContinuation(s[1..]), n - 1)
  }

  /** The two UPDATE statements of the rename, one after the other. */
  function SqlMoved(from: string, to: string, p: string): string {
    var q := if p == from then to else p;
    if Like(from + "/", q) then to + "/" + DropChars(q, |from| + 1) else q
  }

  lemma {:induction false} DropSingleBytes(a: string, b: string)
    requires SingleBytes(a) && (b != "" ==> !Continues(b[0]))
    ensures DropChars(a + b, |a|) == b
  {
    if a != "" {
      assert (a + b)[1..] == a[1..] + b;
      DropSingleBytes(a[1..], b);
    } else {
      assert a + b == b;
    }
  }

  lemma {:induction false} DropIsShort(s: string, n: nat)
    ensures |DropChars(s, n)| <= if n <= |s| then |s| - n else 0
    decreases n
  {
    if n > 0 && s != "" {
      DropIsShort(SkipContinuation(s[1..]), n - 1);
    }
  }

  /** A continuation byte inside the first `n` bytes makes the cut too deep. */
  lemma {:induction false} DropTooMuch(s: string, n: nat, i: nat)
    requires 0 < i < n < |s| && Continues(s[i])
    ensures |DropChars(s, n)| < |s| - n
  {
    var rest := SkipContinuation(s[1..]);
    if Continues(s[1]) {
      DropIsShort(rest, n - 1);
    } else {
      DropTooMuch(s[1..], n - 1, i - 1);
    }
  }

  /** Whether the statement moves the row at `p` correctly. */
  predicate SqlExact(from: string, to: string, p: string) {
    if p == from then !Like(from + "/", to)
    else if Below(p, from) then SingleBytes(from)
    else !Like(from + "/", p)
  }

  lemma SqlMovedBelow(from: string, to: string, p: string)
    requires from != "" && !Continues(from[0]) && Below(p, from) && |p| > |from| + 1 && !Continues(p[|from| + 1])
    ensures SqlMoved(from, to, p) == Moved(from, to, p) <==> SqlExact(from, to, p)
  {
    var prefix, rest := from + "/", p[|from| + 1..];
    assert p == prefix + rest;
    assert Moved(from, to, p) == to + "/" + rest;
    if SingleBytes(from) {
      DropSingleBytes(prefix, rest);
    } else {
      var i :| 0 <= i < |from| && Continues(from[i]);
      DropTooMuch(p, |prefix|, i);
    }
  }

  /** For a free destination the statement does what a rename means exactly when
      no case variant is caught and the old path has only one-byte characters. */
  lemma SqlMovedExactly(from: string, to: string, p: string)
    requires from != "" && !Continues(from[0])
    requires p != to && !Below(p, to)
    requires Below(p, from) ==> |p| > |from| + 1 && !Continues(p[|from| + 1])
    ensures SqlMoved(from, to, p) == Moved(from, to, p) <==> SqlExact(from, to, p)
  {
    if p == from {
    } else if Below(p, from) {
      SqlMovedBelow(from, to, p);
    } else if Like(from + "/", p) {
      assert SqlMoved(from, to, p)[..|to| + 1] == to + "/";
    }
  }

  /** Renaming `abc` also drags along what lies below `ABC`. */
  lemma CaseVariantIsDragged()
    ensures SqlMoved("abc", "new", "ABC/s") == "new/s"
    ensures Moved("abc", "new", "ABC/s") == "ABC/s"
  {
    var q := "ABC/s";
    assert forall i :: 0 <= i < 4 ==> Lower(q[i]) == Lower("abc/"[i]);
    assert Like("abc" + "/", q);
    assert q == "ABC/" + "s";
    DropSingleBytes("ABC/", "s");
  }

  // ── The directory rows ───────────────────────────────────────────────────

  datatype Dir = Dir(parentId: Option<int>, name: string, path: string)

  type Rows = map<int, Dir>

  datatype DirTable = DirTable(rows: Rows, next: int)

  ghost predicate At(rows: Rows, id: int, path: string) { id in rows && rows[id].path == path }

  ghost predicate HasPath(rows: Rows, path: string) { exists id :: At(rows, id, path) }

  ghost function IdAt(rows: Rows, path: string): (id: int)
    requires HasPath(rows, path)
    ensures At(rows, id, path)
  {
    var id :| At(rows, id, path); id
  }

  /** Walks down a path and inserts the rows that are missing. */
  ghost function EnsureFrom(table: DirTable, current: string, parent: Option<int>, parts: seq<string>): DirTable
    decreases |parts|
  {
    if parts == [] then table
    else
      var path := ChildPath(current, parts[0]);
      if HasPath(table.rows, path) then EnsureFrom(table, path, Some(IdAt(table.rows, path)), parts[1..])
      else EnsureFrom(DirTable(table.rows[table.next := Dir(parent, parts[0], path)], table.next + 1), path, Some(table.next), parts[1..])
  }

  ghost function Ensured(table: DirTable, path: string): DirTable { EnsureFrom(table, "", None, Parts(path)) }

  function ChildRows(rows: Rows, ids: set<int>): set<int> {
    set id | id in rows && rows[id].parentId.Some? && rows[id].parentId.value in ids
  }

  /** A deleted row takes the rows below it along. */
  ghost function Cascade(rows: Rows, ids: set<int>, n: nat): set<int>
    decreases n
  {
    if n == 0 then ids else Cascade(rows, ids + ChildRows(rows, ids), n - 1)
  }

  ghost function Deleted(table: DirTable, path: string): DirTable {
    if !HasPath(table.rows, path) then table
    else table.(rows := table.rows - Cascade(table.rows, {IdAt(table.rows, path)}, |table.rows|))
  }

  ghost function IdOf(rows: Rows, path: Option<string>): Option<int> {
    if path.Some? && HasPath(rows, path.value) then Some(IdAt(rows, path.value)) else None
  }

  function MovedRow(r: Dir, from: string, parent: Option<int>, name: string, to: string): Dir {
    if r.path == from then Dir(parent, name, SqlMoved(from, to, from)) else r.(path := SqlMoved(from, to, r.path))
  }

  ghost function Renamed(table: DirTable, from: string, name: string, to: string): DirTable {
    table.(rows := map id | id in table.rows :: MovedRow(table.rows[id], from, IdOf(table.rows, ParentPath(to)), name, to))
  }

  /** `path` is unique. */
  ghost predicate OnePerPath(rows: Rows) {
    forall a, b :: a in rows && b in rows && rows[a].path == rows[b].path ==> a == b
  }

  /** Two rows would end at one path, which the table refuses. */
  predicate DirsCollide(rows: Rows, from: string, to: string) {
    exists a, b :: a in rows && b in rows && a != b && SqlMoved(from, to, rows[a].path) == SqlMoved(from, to, rows[b].path)
  }

  /** A row more with a path of its own. */
  lemma OneMorePath(rows: Rows, next: int, r: Dir)
    requires OnePerPath(rows) && !HasPath(rows, r.path) && next !in rows
    ensures OnePerPath(rows[next := r])
    ensures forall path :: HasPath(rows, path) || path == r.path ==> HasPath(rows[next := r], path)
  {
    var rows' := rows[next := r];
    assert forall a :: a in rows && rows[a].path == r.path ==> At(rows, a, r.path);
    assert At(rows', next, r.path);
    forall path | HasPath(rows, path) ensures HasPath(rows', path) { assert At(rows', IdAt(rows, path), path); }
  }
}
