/** The per-torrent read/write locks around piece files, as a transition system
    of readers, block writers and torrent removals. */
module PieceLock {
  import opened Text

  type Mutex = nat
  type ThreadId = nat

  /** A thread holds a pointer to a mutex between looking it up and locking it; a
      reader with an empty hash takes no lock. */
  datatype Thread =
    | Idle
    | ReadGot(hash: string, mutex: Mutex)
    | Reading(hash: string, held: Option<Mutex>)
    | WriteGot(hash: string, mutex: Mutex)
    | Writing(hash: string, mutex: Mutex)

  /** The lock map, the mutexes and who holds them. */
  datatype State = State(
    locks: map<string, Mutex>,
    next: Mutex,
    shared: map<Mutex, set<ThreadId>>,
    exclusive: map<Mutex, ThreadId>,
    threads: map<ThreadId, Thread>)

  datatype Event =
    | GetToRead(t: ThreadId, hash: string)
    | LockShared(t: ThreadId)
    | UnlockShared(t: ThreadId)
    | GetToWrite(t: ThreadId, hash: string)
    | LockExclusive(t: ThreadId)
    | UnlockExclusive(t: ThreadId)
    | RemoveTorrent(hash: string)

  function At(s: State, t: ThreadId): Thread { if t in s.threads then s.threads[t] else Idle }

  function Readers(s: State, m: Mutex): set<ThreadId> { if m in s.shared then s.shared[m] else {} }

  /** Looks the mutex of a hash up, creating it if need be. */
  function GetLock(s: State, hash: string): State {
    if hash in s.locks then s else s.(locks := s.locks[hash := s.next], next := s.next + 1)
  }

  /** What `unlock_shared` must be given: a mutex this thread holds. */
  ghost predicate ReleasesOwn(s: State, t: ThreadId) {
    At(s, t).Reading? && At(s, t).held.Some? ==>
      At(s, t).hash in s.locks && s.locks[At(s, t).hash] == At(s, t).held.value && t in Readers(s, At(s, t).held.value)
  }

  ghost predicate Enabled(s: State, e: Event) {
    match e
    case GetToRead(t, _) => At(s, t).Idle?
    case LockShared(t) => At(s, t).ReadGot? && At(s, t).mutex !in s.exclusive
    case UnlockShared(t) => At(s, t).Reading?
    case GetToWrite(t, _) => At(s, t).Idle?
    case LockExclusive(t) =>
      At(s, t).WriteGot? && At(s, t).mutex !in s.exclusive && Readers(s, At(s, t).mutex) == {}
    case UnlockExclusive(t) => At(s, t).Writing?
    case RemoveTorrent(_) => true
  }

  function Step(s: State, e: Event): State
    requires Enabled(s, e)
  {
    match e
    case GetToRead(t, hash) =>
      if hash == "" then s.(threads := s.threads[t := Reading("", None)])
      else var s' := GetLock(s, hash); s'.(threads := s'.threads[t := ReadGot(hash, s'.locks[hash])])
    case LockShared(t) =>
      var r := At(s, t);
      s.(shared := s.shared[r.mutex := Readers(s, r.mutex) + {t}], threads := s.threads[t := Reading(r.hash, Some(r.mutex))])
    case UnlockShared(t) =>
      var hash := At(s, t).hash;
      var s' := s.(threads := s.threads[t := Idle]);
      if hash == "" || hash !in s.locks then s'
      else s'.(shared := s.shared[s.locks[hash] := Readers(s, s.locks[hash]) - {t}])
    case GetToWrite(t, hash) =>
      var s' := GetLock(s, hash); s'.(threads := s'.threads[t := WriteGot(hash, s'.locks[hash])])
    case LockExclusive(t) =>
      var r := At(s, t); s.(exclusive := s.exclusive[r.mutex := t], threads := s.threads[t := Writing(r.hash, r.mutex)])
    case UnlockExclusive(t) => s.(exclusive := s.exclusive - {At(s, t).mutex}, threads := s.threads[t := Idle])
    case RemoveTorrent(_) => s
  }

  // ── What every step keeps ────────────────────────────────────────────────

  ghost predicate LocksAreOwn(locks: map<string, Mutex>, next: Mutex) {
    && (forall h :: h in locks ==> locks[h] < next)
    && (forall g, h :: g in locks && h in locks && locks[g] == locks[h] ==> g == h)
  }

  /** A thread's pointer is still the one the map gives for its hash. */
  ghost predicate PointsRight(locks: map<string, Mutex>, t: Thread) {
    match t
    case Idle => true
    case Reading(h, None) => h == ""
    case Reading(h, Some(m)) => h != "" && h in locks && locks[h] == m
    case ReadGot(h, m) => h != "" && h in locks && locks[h] == m
    case WriteGot(h, m) => h in locks && locks[h] == m
    case Writing(h, m) => h in locks && locks[h] == m
  }

  ghost predicate HoldsRead(s: State, t: ThreadId, m: Mutex) { At(s, t).Reading? && At(s, t).held == Some(m) }

  ghost predicate HoldsWrite(s: State, t: ThreadId, m: Mutex) { At(s, t).Writing? && At(s, t).mutex == m }

  ghost predicate Good(s: State) {
    && LocksAreOwn(s.locks, s.next)
    && (forall t :: PointsRight(s.locks, At(s, t)))
    && (forall t, m :: t in Readers(s, m) <==> HoldsRead(s, t, m))
    && (forall t, m :: m in s.exclusive && s.exclusive[m] == t <==> HoldsWrite(s, t, m))
    && (forall m :: m in s.exclusive ==> Readers(s, m) == {})
  }

  lemma {:induction false} GetKeeps(s: State, hash: string)
    requires Good(s)
    ensures Good(GetLock(s, hash)) && hash in GetLock(s, hash).locks
  {
    var s' := GetLock(s, hash);
    forall t ensures PointsRight(s'.locks, At(s', t)) { assert PointsRight(s.locks, At(s, t)); }
    forall t, m ensures t in Readers(s', m) <==> HoldsRead(s', t, m) { assert HoldsRead(s', t, m) <==> HoldsRead(s, t, m); }
    forall t, m ensures m in s'.exclusive && s'.exclusive[m] == t <==> HoldsWrite(s', t, m) {
      assert HoldsWrite(s', t, m) <==> HoldsWrite(s, t, m);
    }
  }

  /** A thread that neither took nor gave up a lock. */
  lemma {:induction false} MoveKeeps(s: State, t: ThreadId, to: Thread)
    requires Good(s) && PointsRight(s.locks, to)
    requires !At(s, t).Writing? && (At(s, t).Reading? ==> At(s, t).held.None?)
    requires !to.Writing? && (to.Reading? ==> to.held.None?)
    ensures Good(s.(threads := s.threads[t := to]))
  {
    var s' := s.(threads := s.threads[t := to]);
    forall u ensures PointsRight(s'.locks, At(s', u)) { assert PointsRight(s.locks, At(s, u)); }
    forall u, m ensures HoldsRead(s', u, m) <==> HoldsRead(s, u, m) {}
    forall u, m ensures HoldsWrite(s', u, m) <==> HoldsWrite(s, u, m) {}
  }

  lemma {:induction false} SharedKeeps(s: State, t: ThreadId)
    requires Good(s) && Enabled(s, LockShared(t))
    ensures Good(Step(s, LockShared(t)))
  {
    var s', got := Step(s, LockShared(t)), At(s, t).mutex;
    assert PointsRight(s.locks, At(s, t));
    forall u ensures PointsRight(s'.locks, At(s', u)) { assert PointsRight(s.locks, At(s, u)); }
    forall u, m ensures u in Readers(s', m) <==> HoldsRead(s', u, m) {
      assert u in Readers(s, m) <==> HoldsRead(s, u, m);
    }
    forall u, m ensures m in s'.exclusive && s'.exclusive[m] == u <==> HoldsWrite(s', u, m) {
      assert m in s.exclusive && s.exclusive[m] == u <==> HoldsWrite(s, u, m);
    }
  }

  lemma {:induction false} UnsharedKeeps(s: State, t: ThreadId)
    requires Good(s) && Enabled(s, UnlockShared(t))
    ensures ReleasesOwn(s, t) && Good(Step(s, UnlockShared(t)))
  {
    var s', was := Step(s, UnlockShared(t)), At(s, t);
    assert PointsRight(s.locks, was);
    if was.held.Some? { assert HoldsRead(s, t, was.held.value); }
    forall u ensures PointsRight(s'.locks, At(s', u)) { assert PointsRight(s.locks, At(s, u)); }
    forall u, m ensures u in Readers(s', m) <==> HoldsRead(s', u, m) {
      assert u in Readers(s, m) <==> HoldsRead(s, u, m);
    }
    forall u, m ensures m in s'.exclusive && s'.exclusive[m] == u <==> HoldsWrite(s', u, m) {
      assert m in s.exclusive && s.exclusive[m] == u <==> HoldsWrite(s, u, m);
    }
  }

  lemma {:induction false} WriterKeeps(s: State, e: Event)
    requires Good(s) && Enabled(s, e) && (e.LockExclusive? || e.UnlockExclusive?)
    ensures Good(Step(s, e))
  {
    var s', t := Step(s, e), e.t;
    assert PointsRight(s.locks, At(s, t));
    if e.UnlockExclusive? { assert HoldsWrite(s, t, At(s, t).mutex); }
    forall u ensures PointsRight(s'.locks, At(s', u)) { assert PointsRight(s.locks, At(s, u)); }
    forall u, m ensures u in Readers(s', m) <==> HoldsRead(s', u, m) {
      assert u in Readers(s, m) <==> HoldsRead(s, u, m);
    }
    forall u, m ensures m in s'.exclusive && s'.exclusive[m] == u <==> HoldsWrite(s', u, m) {
      assert m in s.exclusive && s.exclusive[m] == u <==> HoldsWrite(s, u, m);
    }
  }

  lemma {:induction false} StepKeeps(s: State, e: Event)
    requires Good(s) && Enabled(s, e)
    ensures Good(Step(s, e))
    ensures e.UnlockShared? ==> ReleasesOwn(s, e.t)
  {
    match e
    case GetToRead(t, hash) =>
      if hash == "" {
        MoveKeeps(s, t, Reading("", None));
      } else {
        GetKeeps(s, hash);
        MoveKeeps(GetLock(s, hash), t, ReadGot(hash, GetLock(s, hash).locks[hash]));
      }
    case GetToWrite(t, hash) =>
      GetKeeps(s, hash);
      MoveKeeps(GetLock(s, hash), t, WriteGot(hash, GetLock(s, hash).locks[hash]));
    case LockShared(t) => SharedKeeps(s, t);
    case UnlockShared(t) => UnsharedKeeps(s, t);
    case LockExclusive(t) => WriterKeeps(s, e);
    case UnlockExclusive(t) => WriterKeeps(s, e);
    case RemoveTorrent(_) =>
  }

  // ── Whole runs ───────────────────────────────────────────────────────────

  /** While a torrent's pieces are written nobody reads them under its hash, and
      nobody else writes them. */
  ghost predicate NoOverlap(s: State) {
    && (forall r, w :: At(s, r).Reading? && At(s, w).Writing? && At(s, r).hash == At(s, w).hash ==> At(s, r).hash == "")
    && (forall v, w :: At(s, v).Writing? && At(s, w).Writing? && At(s, v).hash == At(s, w).hash ==> v == w)
  }

  lemma {:induction false} GoodHasNoOverlap(s: State)
    requires Good(s)
    ensures NoOverlap(s)
  {
    forall r, w | At(s, r).Reading? && At(s, w).Writing? && At(s, r).hash == At(s, w).hash ensures At(s, r).hash == "" {
      assert PointsRight(s.locks, At(s, r)) && PointsRight(s.locks, At(s, w));
      assert HoldsWrite(s, w, At(s, w).mutex);
      assert At(s, r).held.Some? ==> HoldsRead(s, r, At(s, r).held.value);
    }
    forall v, w | At(s, v).Writing? && At(s, w).Writing? && At(s, v).hash == At(s, w).hash ensures v == w {
      assert PointsRight(s.locks, At(s, v)) && PointsRight(s.locks, At(s, w));
      assert HoldsWrite(s, v, At(s, v).mutex) && HoldsWrite(s, w, At(s, w).mutex);
    }
  }

  /** Every state of the run is free of overlaps, and every shared unlock releases
      the mutex its lock acquired. */
  ghost predicate Safe(s: State, events: seq<Event>)
    decreases |events|
  {
    && NoOverlap(s)
    && (events == [] || (Enabled(s, events[0]) ==>
          && (events[0].UnlockShared? ==> ReleasesOwn(s, events[0].t))
          && Safe(Step(s, events[0]), events[1..])))
  }

  lemma {:induction false} RunIsSafe(s: State, events: seq<Event>)
    requires Good(s)
    ensures Safe(s, events)
    decreases |events|
  {
    GoodHasNoOverlap(s);
    if events != [] && Enabled(s, events[0]) {
      StepKeeps(s, events[0]);
      RunIsSafe(Step(s, events[0]), events[1..]);
    }
  }

  /** In particular from the empty map, with every thread idle. */
  lemma {:induction false} PieceLocksAreSafe(events: seq<Event>)
    ensures Safe(State(map[], 0, map[], map[], map[]), events)
  {
    var s := State(map[], 0, map[], map[], map[]);
    assert forall t :: At(s, t) == Idle;
    RunIsSafe(s, events);
  }

  // ── Who may go on ────────────────────────────────────────────────────────

  ghost predicate Writes(s: State, u: ThreadId, hash: string) { At(s, u).Writing? && At(s, u).hash == hash }

  ghost predicate Reads(s: State, u: ThreadId, hash: string) {
    At(s, u).Reading? && At(s, u).held.Some? && At(s, u).hash == hash
  }

  /** Who holds the mutex of a hash is told by the hash. */
  lemma {:induction false} HoldersAre(s: State, hash: string)
    requires Good(s) && hash in s.locks
    ensures s.locks[hash] in s.exclusive <==> exists u :: Writes(s, u, hash)
    ensures Readers(s, s.locks[hash]) != {} <==> exists u :: Reads(s, u, hash)
  {
    var m := s.locks[hash];
    if m in s.exclusive {
      var u := s.exclusive[m];
      assert HoldsWrite(s, u, m) && PointsRight(s.locks, At(s, u));
      assert Writes(s, u, hash);
    }
    if u :| Writes(s, u, hash) { assert PointsRight(s.locks, At(s, u)) && HoldsWrite(s, u, At(s, u).mutex); }
    if Readers(s, m) != {} {
      var u :| u in Readers(s, m);
      assert HoldsRead(s, u, m) && PointsRight(s.locks, At(s, u));
      assert Reads(s, u, hash);
    }
    if u :| Reads(s, u, hash) { assert PointsRight(s.locks, At(s, u)) && HoldsRead(s, u, m); }
  }

  /** A reader gets in exactly when nobody writes its torrent, and readers share; a
      writer exactly when nobody reads or writes it. */
  lemma {:induction false} EntersExactly(s: State, t: ThreadId)
    requires Good(s)
    ensures At(s, t).ReadGot? ==> (Enabled(s, LockShared(t)) <==> !exists u :: Writes(s, u, At(s, t).hash))
    ensures At(s, t).WriteGot? ==>
              (Enabled(s, LockExclusive(t)) <==> !exists u :: Writes(s, u, At(s, t).hash) || Reads(s, u, At(s, t).hash))
  {
    assert PointsRight(s.locks, At(s, t));
    if At(s, t).ReadGot? || At(s, t).WriteGot? { HoldersAre(s, At(s, t).hash); }
  }

  /** So a thread that has to wait waits for one that can leave, and a thread that
      left holds nothing. */
  lemma {:induction false} NobodyIsStuck(s: State, t: ThreadId) returns (u: ThreadId, e: Event)
    requires Good(s) && !At(s, t).Idle?
    requires At(s, t).ReadGot? ==> !Enabled(s, LockShared(t))
    requires At(s, t).WriteGot? ==> !Enabled(s, LockExclusive(t))
    ensures e == UnlockShared(u) || e == UnlockExclusive(u)
    ensures Enabled(s, e) && At(Step(s, e), u).Idle?
    ensures (At(s, t).Reading? || At(s, t).Writing? ==> u == t) && At(s, u).hash == At(s, t).hash
  {
    EntersExactly(s, t);
    if At(s, t).Reading? || At(s, t).Writing? {
      u := t;
    } else {
      u :| Writes(s, u, At(s, t).hash) || (At(s, t).WriteGot? && Reads(s, u, At(s, t).hash));
    }
    e := if At(s, u).Reading? then UnlockShared(u) else UnlockExclusive(u);
  }

  ghost predicate Reaches(s: State, events: seq<Event>, s': State)
    decreases |events|
  {
    if events == [] then s' == s else Enabled(s, events[0]) && Reaches(Step(s, events[0]), events[1..], s')
  }

  /** The empty hash is the exception: a reader with it never waits for a writer,
      so that from the empty map both can be inside at once. */
  lemma {:induction false} EmptyHashIsNotGuarded() returns (events: seq<Event>, s: State)
    ensures Reaches(State(map[], 0, map[], map[], map[]), events, s)
    ensures At(s, 1).Writing? && At(s, 2).Reading? && At(s, 1).hash == At(s, 2).hash == ""
  {
    var s0 := State(map[], 0, map[], map[], map[]);
    var s1 := Step(s0, GetToWrite(1, ""));
    var s2 := Step(s1, LockExclusive(1));
    s := Step(s2, GetToRead(2, ""));
    events := [GetToWrite(1, ""), LockExclusive(1), GetToRead(2, "")];
    assert events[1..] == [LockExclusive(1), GetToRead(2, "")];
    assert events[1..][1..] == [GetToRead(2, "")] && [GetToRead(2, "")][1..] == [];
    assert Reaches(s2, [GetToRead(2, "")], s) && Reaches(s1, events[1..], s);
  }
}
