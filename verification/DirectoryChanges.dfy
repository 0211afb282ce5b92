/** What inserting and deleting directory rows comes to, for any table: also one that
    is not in step with the directories. */
module DirectoryChanges {
  import opened Text
  import opened DirectoryRows
  import opened DirectoryTable

  ghost predicate Fine(table: DirTable) { OnePerPath(table.rows) && forall id :: id in table.rows ==> id < table.next }

  // ── Ensuring a path ──────────────────────────────────────────────────────

  /** The row of the first `n` names of `c`: it was missing, and its parent is the row
      of one name less. */
  ghost predicate NewRow(rows: Rows, rows': Rows, c: seq<string>, n: int, id: int) {
    && 1 <= n <= |c| && id in rows' && !HasPath(rows, Join(c[..n]))
    && rows'[id] == Dir(if n == 1 then None else IdOf(rows', Some(Join(c[..n - 1]))), c[n - 1], Join(c[..n]))
  }

  ghost predicate IsNewRow(rows: Rows, rows': Rows, c: seq<string>, id: int) { exists n :: NewRow(rows, rows', c, n, id) }

  ghost predicate Keeps(rows: Rows, rows': Rows) { forall id :: id in rows ==> id in rows' && rows'[id] == rows[id] }

  ghost predicate AllThere(rows: Rows, c: seq<string>, from: int) {
    forall n :: from < n <= |c| && 0 <= n ==> HasPath(rows, Join(c[..n]))
  }

  ghost predicate Extends(table: DirTable, table': DirTable, c: seq<string>, from: int) {
    && Fine(table') && Keeps(table.rows, table'.rows) && AllThere(table'.rows, c, from)
    && (forall id :: id in table'.rows && id !in table.rows ==> IsNewRow(table.rows, table'.rows, c, id))
  }

  lemma PathStays(rows: Rows, rows': Rows, path: string)
    requires Keeps(rows, rows') && OnePerPath(rows') && HasPath(rows, path)
    ensures HasPath(rows', path) && IdOf(rows', Some(path)) == IdOf(rows, Some(path))
  {
    assert At(rows', IdAt(rows, path), path);
  }

  /** One more row, then the rest of the way. */
  lemma ExtendsMore(table: DirTable, r: Dir, table': DirTable, c: seq<string>, n: int)
    requires Fine(table) && 1 <= n <= |c| && !HasPath(table.rows, r.path)
    requires r == Dir(if n == 1 then None else IdOf(table.rows, Some(Join(c[..n - 1]))), c[n - 1], Join(c[..n]))
    requires n > 1 ==> HasPath(table.rows, Join(c[..n - 1]))
    requires Extends(DirTable(table.rows[table.next := r], table.next + 1), table', c, n)
    ensures Extends(table, table', c, n - 1)
  {
    var rows, rows1, rows' := table.rows, table.rows[table.next := r], table'.rows;
    assert At(rows', table.next, r.path);
    assert Keeps(rows, rows');
    if n > 1 { PathStays(rows, rows', Join(c[..n - 1])); }
    assert NewRow(rows, rows', c, n, table.next);
    OneMorePath(rows, table.next, r);
    forall id | id in rows' && id !in rows ensures IsNewRow(rows, rows', c, id) {
      if id != table.next {
        var k :| NewRow(rows1, rows', c, k, id);
        assert NewRow(rows, rows', c, k, id);
      }
    }
  }

  lemma {:induction false} EnsureFromExactly(table: DirTable, done: seq<string>, todo: seq<string>)
    requires Fine(table) && AllNames(done + todo) && (done != [] ==> HasPath(table.rows, Join(done)))
    ensures Extends(table, EnsureFrom(table, Join(done), if done == [] then None else IdOf(table.rows, Some(Join(done))), todo),
                    done + todo, |done|)
    decreases |todo|
  {
    var c := done + todo;
    if todo != [] {
      var next, path := done + [todo[0]], ChildPath(Join(done), todo[0]);
      forall i | 0 <= i < |done| ensures IsName(done[i]) { assert c[i] == done[i]; }
      JoinChild(done, todo[0]);
      assert next + todo[1..] == c && c[..|next|] == next && c[..|done|] == done;
      if HasPath(table.rows, path) {
        EnsureFromExactly(table, next, todo[1..]);
        WidensBy(table, EnsureFrom(table, path, IdOf(table.rows, Some(path)), todo[1..]), c, |next|);
      } else {
        var r := Dir(if done == [] then None else IdOf(table.rows, Some(Join(done))), todo[0], path);
        var table1 := DirTable(table.rows[table.next := r], table.next + 1);
        OneMorePath(table.rows, table.next, r);
        assert At(table1.rows, table.next, path);
        EnsureFromExactly(table1, next, todo[1..]);
        ExtendsMore(table, r, EnsureFrom(table1, path, Some(table.next), todo[1..]), c, |next|);
      }
    }
  }

  lemma WidensBy(table: DirTable, table': DirTable, c: seq<string>, n: int)
    requires Extends(table, table', c, n) && 1 <= n <= |c| && HasPath(table.rows, Join(c[..n]))
    ensures Extends(table, table', c, n - 1)
  {
    PathStays(table.rows, table'.rows, Join(c[..n]));
  }

  /** Ensuring a path inserts a row for each directory on the way that has none, below
      the row of the one above it, and changes no row. */
  lemma EnsuredExactly(table: DirTable, c: seq<string>)
    requires Fine(table) && AllNames(c)
    ensures Extends(table, Ensured(table, Join(c)), c, 0)
  {
    PartsOfJoin(c);
    assert [] + c == c;
    EnsureFromExactly(table, [], c);
  }

  // ── Deleting a row ───────────────────────────────────────────────────────

  /** Going up `n` times from `id` ends at `root`. */
  ghost predicate Climbs(rows: Rows, id: int, root: int, n: nat)
    decreases n
  {
    if n == 0 then id == root
    else id in rows && rows[id].parentId.Some? && Climbs(rows, rows[id].parentId.value, root, n - 1)
  }

  /** At the root row or below it. */
  ghost predicate IsBelow(rows: Rows, id: int, root: int) { exists n: nat :: Climbs(rows, id, root, n) }

  lemma {:induction false} CascadeGrows(rows: Rows, ids: set<int>, n: nat)
    ensures ids <= Cascade(rows, ids, n)
    decreases n
  {
    if n > 0 { CascadeGrows(rows, ids + ChildRows(rows, ids), n - 1); }
  }

  lemma {:induction false} CascadeStays(rows: Rows, ids: set<int>, n: nat)
    requires ChildRows(rows, ids) <= ids
    ensures Cascade(rows, ids, n) == ids
    decreases n
  {
    assert ids + ChildRows(rows, ids) == ids;
    if n > 0 { CascadeStays(rows, ids, n - 1); }
  }

  /** Enough rounds close the set: no row is left below one that goes. */
  lemma {:induction false} CascadeCloses(rows: Rows, ids: set<int>, n: nat)
    requires ids <= rows.Keys && |rows.Keys - ids| <= n
    ensures ChildRows(rows, Cascade(rows, ids, n)) <= Cascade(rows, ids, n)
    decreases n
  {
    var more := ids + ChildRows(rows, ids);
    if x :| x in ChildRows(rows, ids) && x !in ids {
      assert x in rows.Keys - ids;
      assert rows.Keys - more <= (rows.Keys - ids) - {x};
      Fewer(rows.Keys - more, (rows.Keys - ids) - {x});
      CascadeCloses(rows, more, n - 1);
    } else {
      assert forall y :: y in ChildRows(rows, ids) ==> y in ids;
      CascadeStays(rows, ids, n);
    }
  }

  lemma {:induction false} Fewer(a: set<int>, b: set<int>)
    requires a <= b
    ensures |a| <= |b|
  {
    assert b == a + (b - a);
  }

  ghost predicate AllBelow(rows: Rows, ids: set<int>, root: int) { forall id :: id in ids ==> IsBelow(rows, id, root) }

  lemma {:induction false} CascadeIsBelow(rows: Rows, ids: set<int>, root: int, n: nat)
    requires AllBelow(rows, ids, root)
    ensures AllBelow(rows, Cascade(rows, ids, n), root)
    decreases n
  {
    if n > 0 {
      var more := ids + ChildRows(rows, ids);
      forall id | id in more ensures IsBelow(rows, id, root) {
        if id !in ids {
          var k: nat :| Climbs(rows, rows[id].parentId.value, root, k);
          assert Climbs(rows, id, root, k + 1);
        }
      }
      CascadeIsBelow(rows, more, root, n - 1);
    }
  }

  lemma {:induction false} BelowIsIn(rows: Rows, closed: set<int>, root: int, id: int, n: nat)
    requires ChildRows(rows, closed) <= closed && root in closed && Climbs(rows, id, root, n)
    ensures id in closed
    decreases n
  {
    if n > 0 { BelowIsIn(rows, closed, root, rows[id].parentId.value, n - 1); }
  }

  /** Deleting a path removes its row and exactly the rows below it. */
  lemma DeletedExactly(table: DirTable, path: string)
    requires Fine(table)
    ensures var table' := Deleted(table, path);
            && table'.next == table.next && Keeps(table'.rows, table.rows)
            && (forall id :: id in table.rows ==>
                  (id !in table'.rows <==> exists root :: At(table.rows, root, path) && IsBelow(table.rows, id, root)))
  {
    var rows := table.rows;
    if HasPath(rows, path) {
      var root := IdAt(rows, path);
      var gone := Cascade(rows, {root}, |rows|);
      assert Climbs(rows, root, root, 0);
      CascadeIsBelow(rows, {root}, root, |rows|);
      CascadeGrows(rows, {root}, |rows|);
      Fewer(rows.Keys - {root}, rows.Keys);
      assert |rows.Keys| == |rows|;
      CascadeCloses(rows, {root}, |rows|);
      forall id | id in rows ensures id in gone <==> exists r :: At(rows, r, path) && IsBelow(rows, id, r) {
        if r :| At(rows, r, path) && IsBelow(rows, id, r) {
          var n: nat :| Climbs(rows, id, r, n);
          BelowIsIn(rows, gone, root, id, n);
        }
      }
    }
  }
}
