/** The cache of one `data/` listing, against database writers and adders that
    run beside the dispatcher. */
module ListingCache {
  import opened Text
  import opened InodeTree
  import opened Paging
  import opened Listings
  import PT = PendingTree
  import TF = TorrentFile
  import DirectoryRows

  /** What the two locks guard: the database with its change count, and the set
      of torrents being added. */
  datatype World = World(version: nat, db: Database, processing: set<Key>)

  datatype Cache = Cache(ino: Ino, version: nat, signature: nat, entries: seq<Entry>)

  /** The dispatcher is idle, or has found the cache not to match. */
  datatype Dispatcher = Idle | Missed(ino: Ino, offset: int)

  /** What the file lists of the torrents in flight are, where they can be read. */
  type Buffers = map<Key, seq<TF.PendingFile>>

  /** `built` remembers what the cached listing was made from. */
  datatype Built = Built(world: World, order: seq<Key>, record: Option<Record>, files: Option<seq<TF.PendingFile>>, answers: Answers)

  datatype System = System(
    world: World,
    records: map<Ino, Record>,
    buffers: Buffers,
    cache: Option<Cache>,
    dispatcher: Dispatcher,
    built: Built)

  datatype Event =
    /** A database write. */
    | Write(version: nat, db: Database)
    /** The in-flight set changes. */
    | InFlight(processing: set<Key>)
    /** The bytes of a torrent in flight change. */
    | Rewrite(key: Key, files: Option<seq<TF.PendingFile>>)
    /** A `data/` inode gets a record, or loses it. */
    | Remember(ino: Ino, record: Option<Record>)
    /** A directory rename: the records follow at once, then the database, which
        may fail and then leave its change count as it was. */
    | Move(from: string, to: string, version: nat, db: Database)
    /** `readdir` reads the current state and compares it with the cache. */
    | Check(ino: Ino, offset: int)
    /** `readdir` builds the listing under both locks. */
    | Build(order: seq<Key>, answers: Answers)

  function RecordOf(records: map<Ino, Record>, ino: Ino): Option<Record> {
    if ino in records then Some(records[ino]) else None
  }

  /** The file list behind a record of a torrent in flight. */
  function FilesOf(buffers: Buffers, record: Option<Record>): Option<seq<TF.PendingFile>> {
    if record.Some? && (record.value.TorrentRoot? || record.value.TorrentDir?) && record.value.key in buffers
    then Some(buffers[record.value.key]) else None
  }

  function MovedRecord(from: string, to: string, record: Record): Record {
    match record
    case SourcePathDir(path) => SourcePathDir(DirectoryRows.Moved(from, to, path))
    case TorrentRoot(id, key) => TorrentRoot(id, key.(sourcePath := DirectoryRows.Moved(from, to, key.sourcePath)))
    case _ => record
  }

  function MovedRecords(from: string, to: string, records: map<Ino, Record>): map<Ino, Record> {
    map ino | ino in records :: MovedRecord(from, to, records[ino])
  }

  /** An order in which the in-flight set may be gone through. */
  ghost predicate Enumerates(order: seq<Key>, keys: set<Key>) {
    && (forall k :: k in order <==> k in keys)
    && (forall i, j :: 0 <= i < j < |order| ==> order[i] != order[j])
  }

  predicate Hits(sig: set<Key> -> nat, cache: Option<Cache>, world: World, ino: Ino) {
    cache.Some? && cache.value.ino == ino && cache.value.version == world.version
    && cache.value.signature == sig(world.processing)
  }

  ghost predicate Enabled(s: System, e: Event) {
    match e
    case Write(version, _) => version > s.world.version
    case InFlight(_) => true
    case Rewrite(_, _) => true
    case Remember(ino, _) => ino != DATA
    case Move(_, _, version, db) => version > s.world.version || (version == s.world.version && db == s.world.db)
    case Check(_, _) => s.dispatcher.Idle?
    case Build(order, _) => s.dispatcher.Missed? && Enumerates(order, s.world.processing)
  }

  /** What `readdir` lists, if the directory is known and the queries it needs are
      answered. */
  function Listing(mk: InoMaker, world: World, order: seq<Key>, ino: Ino, record: Option<Record>,
                   files: Option<seq<TF.PendingFile>>, answers: Answers): Option<seq<Entry>> {
    if ino != DATA && (record.None? || record.value.TorrentFile?) then None
    else if !FromDatabase(ino, record) then Some(Numbered(PendingTorrentItems(mk, files, ino, record.value)))
    else if !Answered(answers, ino, record) then None
    else Some(Numbered(DataItems(mk, world.db, answers.parent, order, ino, record)))
  }

  function ListingNow(mk: InoMaker, s: System, order: seq<Key>, answers: Answers): Option<seq<Entry>>
    requires s.dispatcher.Missed?
  {
    var record := RecordOf(s.records, s.dispatcher.ino);
    Listing(mk, s.world, order, s.dispatcher.ino, record, FilesOf(s.buffers, record), answers)
  }

  function Step(mk: InoMaker, sig: set<Key> -> nat, s: System, e: Event): System {
    match e
    case Write(version, db) => s.(world := s.world.(version := version, db := db))
    case InFlight(processing) => s.(world := s.world.(processing := processing))
    case Rewrite(key, files) =>
      s.(buffers := if files.None? then s.buffers - {key} else s.buffers[key := files.value])
    case Remember(ino, record) =>
      s.(records := if record.None? then s.records - {ino} else s.records[ino := record.value])
    case Move(from, to, version, db) =>
      s.(records := MovedRecords(from, to, s.records), world := s.world.(version := version, db := db))
    case Check(ino, offset) =>
      if Hits(sig, s.cache, s.world, ino) then s else s.(dispatcher := Missed(ino, offset))
    case Build(order, answers) =>
      if s.dispatcher.Idle? then s
      else
        var ino, listing := s.dispatcher.ino, ListingNow(mk, s, order, answers);
        if listing.None? then s.(dispatcher := Idle)
        else
          var record := RecordOf(s.records, ino);
          s.(dispatcher := Idle, built := Built(s.world, order, record, FilesOf(s.buffers, record), answers),
             cache := Some(Cache(ino, s.world.version, sig(s.world.processing), listing.value)))
  }

  /** The page a step replies with, if it replies. */
  function Reply(mk: InoMaker, sig: set<Key> -> nat, s: System, e: Event): Option<seq<Entry>> {
    match e
    case Check(ino, offset) => if Hits(sig, s.cache, s.world, ino) then Some(Page(s.cache.value.entries, offset)) else None
    case Build(order, answers) =>
      if s.dispatcher.Idle? then None
      else
        var listing := ListingNow(mk, s, order, answers);
        if listing.None? then None else Some(Page(listing.value, s.dispatcher.offset))
    case _ => None
  }

  /** The directory a replying step is about, and where in it. */
  function Asked(s: System, e: Event): (Ino, int) {
    if e.Check? then (e.ino, e.offset) else if s.dispatcher.Missed? then (s.dispatcher.ino, s.dispatcher.offset) else (0, 0)
  }

  // ── What the cache stands for ────────────────────────────────────────────

  ghost predicate Injective(sig: set<Key> -> nat) {
    forall a, b :: sig(a) == sig(b) ==> a == b
  }

  /** The cached entries are the listing of the world they were built in, and a
      change count equal to the cached one means the same database. */
  ghost predicate CacheIsTrue(mk: InoMaker, sig: set<Key> -> nat, s: System) {
    s.cache.Some? ==>
      var c, b := s.cache.value, s.built;
      && Enumerates(b.order, b.world.processing)
      && c.version == b.world.version && c.signature == sig(b.world.processing)
      && Listing(mk, b.world, b.order, c.ino, b.record, b.files, b.answers) == Some(c.entries)
      && c.version <= s.world.version && (c.version == s.world.version ==> s.world.db == b.world.db)
  }

  /** A directory inside a torrent that passes for one at its top, because the
      query for its parent was not answered. */
  predicate Misplaced(db: Database, record: Option<Record>, answers: Answers) {
    record.Some? && record.value.TorrentDir? && record.value.torrentId != 0
    && !answers.parent && db.parent(record.value.dirId).Some?
  }

  /** A reply for the directory it was built for: on a hit, the record of the
      directory is the one it was listed by; and its place was known. */
  ghost predicate Sound(sig: set<Key> -> nat, s: System, e: Event) {
    match e
    case Check(ino, _) =>
      Hits(sig, s.cache, s.world, ino) && FromDatabase(ino, RecordOf(s.records, ino)) ==>
        RecordOf(s.records, ino) == s.built.record && !Misplaced(s.built.world.db, s.built.record, s.built.answers)
    case Build(_, answers) =>
      s.dispatcher.Missed? ==> !Misplaced(s.world.db, RecordOf(s.records, s.dispatcher.ino), answers)
    case _ => true
  }

  lemma {:induction false} StepKeeps(mk: InoMaker, sig: set<Key> -> nat, s: System, e: Event)
    requires CacheIsTrue(mk, sig, s) && Enabled(s, e)
    ensures CacheIsTrue(mk, sig, Step(mk, sig, s, e))
  {
  }

  /** A page of a listing of the directory as the world is now. */
  ghost predicate Fresh(mk: InoMaker, world: World, ino: Ino, record: Option<Record>, offset: int, page: seq<Entry>)
    requires FromDatabase(ino, record)
  {
    exists order :: Enumerates(order, world.processing) &&
      page == Page(Numbered(DataItems(mk, world.db, true, order, ino, record)), offset)
  }

  lemma {:induction false} PlacedRight(mk: InoMaker, db: Database, answers: Answers, order: seq<Key>, ino: Ino, record: Option<Record>)
    requires FromDatabase(ino, record) && (ino != DATA ==> !Misplaced(db, record, answers))
    ensures DataItems(mk, db, answers.parent, order, ino, record) == DataItems(mk, db, true, order, ino, record)
  {
  }

  /** Each reply about a database directory is a page of its listing at the
      instant the locks were held. */
  lemma {:induction false} ReplyIsFresh(mk: InoMaker, sig: set<Key> -> nat, s: System, e: Event)
    requires Injective(sig) && CacheIsTrue(mk, sig, s) && Enabled(s, e) && Sound(sig, s, e)
    requires Reply(mk, sig, s, e).Some? && FromDatabase(Asked(s, e).0, RecordOf(s.records, Asked(s, e).0))
    ensures var (ino, offset) := Asked(s, e);
            Fresh(mk, s.world, ino, RecordOf(s.records, ino), offset, Reply(mk, sig, s, e).value)
  {
    var ino := Asked(s, e).0;
    var record := RecordOf(s.records, ino);
    if e.Check? {
      assert s.built.world.processing == s.world.processing;
      assert Enumerates(s.built.order, s.world.processing);
      PlacedRight(mk, s.world.db, s.built.answers, s.built.order, ino, record);
    } else {
      assert Enumerates(e.order, s.world.processing);
      PlacedRight(mk, s.world.db, e.answers, e.order, ino, record);
    }
  }

  // ── Whole runs ───────────────────────────────────────────────────────────

  ghost predicate IsRun(mk: InoMaker, sig: set<Key> -> nat, s: System, events: seq<Event>)
    decreases |events|
  {
    events == [] || (Enabled(s, events[0]) && IsRun(mk, sig, Step(mk, sig, s, events[0]), events[1..]))
  }

  ghost function RunTo(mk: InoMaker, sig: set<Key> -> nat, s: System, events: seq<Event>): System
    decreases |events|
  {
    if events == [] then s else RunTo(mk, sig, Step(mk, sig, s, events[0]), events[1..])
  }

  ghost predicate AllSound(mk: InoMaker, sig: set<Key> -> nat, s: System, events: seq<Event>)
    decreases |events|
  {
    events == [] || (Sound(sig, s, events[0]) && AllSound(mk, sig, Step(mk, sig, s, events[0]), events[1..]))
  }

  ghost predicate AllFresh(mk: InoMaker, sig: set<Key> -> nat, s: System, events: seq<Event>)
    decreases |events|
  {
    || events == []
    || (&& var e := events[0];
        var (ino, offset) := Asked(s, e);
        && (Reply(mk, sig, s, e).Some? && FromDatabase(ino, RecordOf(s.records, ino)) ==>
              Fresh(mk, s.world, ino, RecordOf(s.records, ino), offset, Reply(mk, sig, s, e).value))
        && AllFresh(mk, sig, Step(mk, sig, s, e), events[1..]))
  }

  /** The cache is linearizable: in every interleaving of writers, adders, renames
      and `readdir` calls, every page served is a page of the listing at that
      instant, as long as hits are for the record the listing was built by. */
  lemma {:induction false} CacheIsLinearizable(mk: InoMaker, sig: set<Key> -> nat, s: System, events: seq<Event>)
    requires Injective(sig) && CacheIsTrue(mk, sig, s)
    requires IsRun(mk, sig, s, events) && AllSound(mk, sig, s, events)
    ensures AllFresh(mk, sig, s, events)
    decreases |events|
  {
    if events != [] {
      var e := events[0];
      var ino := Asked(s, e).0;
      StepKeeps(mk, sig, s, e);
      if Reply(mk, sig, s, e).Some? && FromDatabase(ino, RecordOf(s.records, ino)) { ReplyIsFresh(mk, sig, s, e); }
      CacheIsLinearizable(mk, sig, Step(mk, sig, s, e), events[1..]);
    }
  }

  // ── Which steps can make a hit unsound ───────────────────────────────────

  /** While the cached change count is the current one, the record of the cached
      directory is the one it was listed by, and its place was known. */
  ghost predicate Steady(s: System) {
    s.cache.Some? && s.cache.value.version == s.world.version ==>
      && RecordOf(s.records, s.cache.value.ino) == s.built.record
      && !Misplaced(s.built.world.db, s.built.record, s.built.answers)
  }

  /** Under the cached change count the record of the cached directory is replaced,
      or moved by a rename the database did not follow; or a directory is listed
      without an answer about its parent. */
  ghost predicate Disturbs(s: System, e: Event) {
    var cached := s.cache.Some? && s.cache.value.version == s.world.version;
    match e
    case Remember(ino, record) => cached && ino == s.cache.value.ino && record != RecordOf(s.records, ino)
    case Move(from, to, version, _) =>
      && cached && version == s.world.version
      && var ino := s.cache.value.ino; RecordOf(MovedRecords(from, to, s.records), ino) != RecordOf(s.records, ino)
    case Build(_, answers) =>
      s.dispatcher.Missed? && Misplaced(s.world.db, RecordOf(s.records, s.dispatcher.ino), answers)
    case _ => false
  }

  ghost predicate Undisturbed(mk: InoMaker, sig: set<Key> -> nat, s: System, events: seq<Event>)
    decreases |events|
  {
    events == [] || (!Disturbs(s, events[0]) && Undisturbed(mk, sig, Step(mk, sig, s, events[0]), events[1..]))
  }

  lemma {:induction false} StepIsSteady(mk: InoMaker, sig: set<Key> -> nat, s: System, e: Event)
    requires CacheIsTrue(mk, sig, s) && Steady(s) && Enabled(s, e) && !Disturbs(s, e)
    ensures Sound(sig, s, e) && Steady(Step(mk, sig, s, e))
  {
  }

  /** A write never makes a hit unsound, and neither does a rename the database
      follows: both raise the change count. */
  lemma {:induction false} UndisturbedIsFresh(mk: InoMaker, sig: set<Key> -> nat, s: System, events: seq<Event>)
    requires Injective(sig) && CacheIsTrue(mk, sig, s) && Steady(s)
    requires IsRun(mk, sig, s, events) && Undisturbed(mk, sig, s, events)
    ensures AllSound(mk, sig, s, events) && AllFresh(mk, sig, s, events)
    decreases |events|
  {
    if events != [] {
      StepKeeps(mk, sig, s, events[0]);
      StepIsSteady(mk, sig, s, events[0]);
      UndisturbedIsFresh(mk, sig, Step(mk, sig, s, events[0]), events[1..]);
    }
    CacheIsLinearizable(mk, sig, s, events);
  }

  // ── The dispatcher's side ────────────────────────────────────────────────

  method ReaddirData(mk: InoMaker, world: World, order: seq<Key>, ino: Ino, record: Option<Record>,
                     files: Option<seq<TF.PendingFile>>, answers: Answers)
    returns (r: Option<seq<Entry>>)
    ensures r == Listing(mk, world, order, ino, record, files, answers)
  {
    if ino == DATA { r := ReaddirSource(mk, world.db, answers, order, ino, ""); return; }
    if record.None? { return None; }
    match record.value
    case SourcePathDir(path) => r := ReaddirSource(mk, world.db, answers, order, ino, path);
    case TorrentRoot(id, key) =>
      if id != 0 {
        r := ReaddirTorrentRoot(mk, world.db, answers, ino, id, key.sourcePath);
      } else {
        var entries := ReaddirPending(mk, files, ino, record.value);
        r := Some(entries);
      }
    case TorrentDir(id, dirId, _, _) =>
      if id != 0 {
        r := ReaddirTorrentDir(mk, world.db, answers, ino, id, dirId);
      } else {
        var entries := ReaddirPending(mk, files, ino, record.value);
        r := Some(entries);
      }
    case TorrentFile => r := None;
  }

  class ReaddirCache {
    var cache: Option<Cache>

    constructor ()
      ensures cache == None
    {
      cache := None;
    }

    ghost predicate Valid()
      reads this
    {
      cache.Some? ==> Increasing(cache.value.entries)
    }

    /** `now` is the world when the state is compared, `later` the one in which
        the listing is built if the cache does not match. */
    method Readdir(mk: InoMaker, sig: set<Key> -> nat, ino: Ino, offset: int, record: Option<Record>,
                   files: Option<seq<TF.PendingFile>>, now: World, later: World, order: seq<Key>, answers: Answers)
      returns (r: Option<seq<Entry>>)
      requires Valid()
      modifies this
      ensures Valid()
      ensures Hits(sig, old(cache), now, ino) ==> cache == old(cache) && r == Some(Page(old(cache).value.entries, offset))
      ensures !Hits(sig, old(cache), now, ino) ==>
                var listing := Listing(mk, later, order, ino, record, files, answers);
                if listing.None? then r == None && cache == old(cache)
                else
                  && cache == Some(Cache(ino, later.version, sig(later.processing), listing.value))
                  && r == Some(Page(listing.value, offset))
    {
      if cache.Some? && cache.value.ino == ino && cache.value.version == now.version
         && cache.value.signature == sig(now.processing) {
        var page := PageAfterOffset(cache.value.entries, offset);
        return Some(page);
      }
      var listing := ReaddirData(mk, later, order, ino, record, files, answers);
      if listing.None? { return None; }
      var entries := listing.value;
      var page := PageAfterOffset(entries, offset);
      cache := Some(Cache(ino, later.version, sig(later.processing), entries));
      return Some(page);
    }
  }

  // ── A wrong way up ───────────────────────────────────────────────────────

  lemma {:induction false} PageFrom(items: seq<Item>, offset: int)
    ensures AfterOffset(Numbered(items), offset) ==
            Numbered(items)[if offset < 0 then 0 else if offset < |items| then offset else |items|..]
  {
    AfterIsSuffix(Numbered(items), offset, if offset < 0 then 0 else if offset < |items| then offset else |items|);
  }

  /** Two listings that differ in the number of `..` only: their pages agree from
      the second entry on, and before that exactly when the numbers do. */
  lemma {:induction false} WayUpShows(head: Item, up: Item, up': Item, rest: seq<Item>, offset: int)
    requires up.kind == up'.kind && up.name == up'.name
    ensures Page(Numbered([head, up] + rest), offset) == Page(Numbered([head, up'] + rest), offset)
            <==> offset >= 2 || up.ino == up'.ino
  {
    var a, b := [head, up] + rest, [head, up'] + rest;
    PageFrom(a, offset);
    PageFrom(b, offset);
    if offset >= 2 {
      var start := if offset < |a| then offset else |a|;
      assert Numbered(a)[start..] == Numbered(b)[start..];
    } else if up.ino != up'.ino {
      var start := if offset == 1 then 1 else 0;
      assert Page(Numbered(a), offset)[1 - start] == Numbered(a)[1];
      assert Page(Numbered(b), offset)[1 - start] == Numbered(b)[1];
      assert Numbered(a)[1].ino == up.ino && Numbered(b)[1].ino == up'.ino;
    } else {
      assert a == b;
    }
  }

  /** A cached torrent whose record was replaced under the cached change count is
      served as it is now exactly past the `..`, or when both source paths have
      the same parent. */
  lemma {:induction false} MovedTorrentExactly(mk: InoMaker, sig: set<Key> -> nat, s: System, ino: Ino, offset: int, id: nat, was: Key, now: Key)
    requires Injective(sig) && CacheIsTrue(mk, sig, s) && Hits(sig, s.cache, s.world, ino) && ino != DATA
    requires id != 0 && s.built.record == Some(TorrentRoot(id, was)) && RecordOf(s.records, ino) == Some(TorrentRoot(id, now))
    ensures Fresh(mk, s.world, ino, RecordOf(s.records, ino), offset, Reply(mk, sig, s, Check(ino, offset)).value)
            <==> offset >= 2 || SourceParent(mk, was.sourcePath) == SourceParent(mk, now.sourcePath)
  {
    var db := s.world.db;
    var up, up' := SourceParent(mk, was.sourcePath), SourceParent(mk, now.sourcePath);
    var rest := RowItems(mk.torrentDir, DirectoryKind, db.directories(id, None))
                + RowItems(mk.torrentFile, RegularKind, db.files(id, None)) + Stats(mk, ino);
    assert TorrentRootItems(mk, db, ino, id, was.sourcePath) == Dots(ino, up) + rest;
    assert TorrentRootItems(mk, db, ino, id, now.sourcePath) == Dots(ino, up') + rest;
    WayUpShows(Item(ino, DirectoryKind, "."), Item(up, DirectoryKind, ".."), Item(up', DirectoryKind, ".."), rest, offset);
    assert Enumerates(s.built.order, s.world.processing);
  }

  /** A directory inside a torrent, listed without an answer about its parent, is
      listed as it is exactly past the `..`, or when it is at the top. */
  lemma {:induction false} MisplacedExactly(mk: InoMaker, sig: set<Key> -> nat, s: System, order: seq<Key>, answers: Answers)
    requires s.dispatcher.Missed? && s.dispatcher.ino != DATA && Enabled(s, Build(order, answers))
    requires var record := RecordOf(s.records, s.dispatcher.ino);
             record.Some? && record.value.TorrentDir? && record.value.torrentId != 0
    requires answers.directories && answers.files && !answers.parent
    ensures var ino, record := s.dispatcher.ino, RecordOf(s.records, s.dispatcher.ino);
            var up := s.world.db.parent(record.value.dirId);
            Fresh(mk, s.world, ino, record, s.dispatcher.offset, Reply(mk, sig, s, Build(order, answers)).value)
            <==> s.dispatcher.offset >= 2 || up.None? || mk.torrentDir(up.value) == mk.torrentRoot(record.value.torrentId)
  {
    var db, ino, record := s.world.db, s.dispatcher.ino, RecordOf(s.records, s.dispatcher.ino).value;
    var id, dirId := record.torrentId, record.dirId;
    var up, root := db.parent(dirId), mk.torrentRoot(id);
    var there := if up.Some? then mk.torrentDir(up.value) else root;
    var rest := RowItems(mk.torrentDir, DirectoryKind, db.directories(id, Some(dirId)))
                + RowItems(mk.torrentFile, RegularKind, db.files(id, Some(dirId)));
    assert TorrentDirItems(mk, db, false, ino, id, dirId) == Dots(ino, root) + rest;
    assert TorrentDirItems(mk, db, true, ino, id, dirId) == Dots(ino, there) + rest;
    WayUpShows(Item(ino, DirectoryKind, "."), Item(root, DirectoryKind, ".."), Item(there, DirectoryKind, ".."), rest, s.dispatcher.offset);
    assert Enumerates(order, s.world.processing);
  }

  // ── Whole listings ───────────────────────────────────────────────────────

  lemma {:induction false} PageAt(items: seq<Item>, i: nat)
    ensures var page := Page(Numbered(items), i);
            if i < |items| then page != [] && page[0] == Numbered(items)[i] else page == []
  {
    PageFrom(items, i);
  }

  /** All pages of two listings agree exactly when the listings do. */
  lemma {:induction false} PagesTell(a: seq<Item>, b: seq<Item>)
    ensures (forall offset :: Page(Numbered(a), offset) == Page(Numbered(b), offset)) <==> a == b
  {
    if forall offset :: Page(Numbered(a), offset) == Page(Numbered(b), offset) {
      PageAt(a, |a|);
      PageAt(b, |a|);
      PageAt(a, |b|);
      PageAt(b, |b|);
      assert Page(Numbered(a), |a|) == Page(Numbered(b), |a|) && Page(Numbered(a), |b|) == Page(Numbered(b), |b|);
      forall i | 0 <= i < |a| ensures a[i] == b[i] {
        PageAt(a, i);
        PageAt(b, i);
        assert Page(Numbered(a), i) == Page(Numbered(b), i);
        assert Numbered(a)[i] == Numbered(b)[i];
      }
    }
  }

  // ── A source path under another ──────────────────────────────────────────

  /** Numbers tell source paths, torrents and adds in flight apart. */
  ghost predicate NumbersDiffer(mk: InoMaker) {
    && PathsDiffer(mk)
    && (forall id, p :: mk.torrentRoot(id) != mk.sourcePath(p))
    && (forall k, l :: mk.pendingRoot(k) == mk.pendingRoot(l) ==> k == l)
  }

  ghost predicate IsPending(mk: InoMaker, path: string, item: Item) {
    exists k: Key :: k.sourcePath == path && item == Item(mk.pendingRoot(k), DirectoryKind, k.filename)
  }

  lemma {:induction false} PendingItemsAre(mk: InoMaker, path: string, existing: seq<string>, order: seq<Key>)
    ensures var items := PendingItems(mk, path, existing, order); forall i :: 0 <= i < |items| ==> IsPending(mk, path, items[i])
    ensures PendingItems(mk, path, existing, order) == [] <==> forall k :: k in order && k.sourcePath == path ==> k.filename in existing
  {
    if order != [] {
      var k, rest := order[0], PendingItems(mk, path, existing, order[1..]);
      PendingItemsAre(mk, path, existing, order[1..]);
      assert forall l :: l in order <==> l == k || l in order[1..];
      if k.sourcePath == path && k.filename !in existing {
        var item := Item(mk.pendingRoot(k), DirectoryKind, k.filename);
        assert IsPending(mk, path, item);
        assert PendingItems(mk, path, existing, order) == [item] + rest;
        assert forall i :: 1 <= i < |[item] + rest| ==> ([item] + rest)[i] == rest[i - 1];
      } else {
        assert PendingItems(mk, path, existing, order) == rest;
      }
    }
  }

  ghost predicate AllDirectories(items: seq<Item>) { forall i :: 0 <= i < |items| ==> items[i].kind.DirectoryKind? }

  /** The one regular file of a listing parts it in one way. */
  lemma {:induction false} PartsOnce(x: seq<Item>, p: seq<Item>, y: seq<Item>, q: seq<Item>, stats: Item)
    requires AllDirectories(x) && AllDirectories(y) && AllDirectories(p) && AllDirectories(q) && stats.kind.RegularKind?
    requires x + [stats] + p == y + [stats] + q
    ensures x == y && p == q
  {
    var a, b := x + [stats] + p, y + [stats] + q;
    assert a[|x|] == stats && b[|y|] == stats;
    assert forall i :: 0 <= i < |a| && i != |x| ==> a[i].kind.DirectoryKind?;
    assert |x| == |y|;
    assert x == a[..|x|] && y == b[..|y|] && p == a[|x| + 1..] && q == b[|y| + 1..];
  }

  lemma {:induction false} ChildPathTells(p: string, q: string, name: string)
    requires ChildPath(p, name) == ChildPath(q, name)
    ensures p == q
  {
    if p != "" { assert ChildPath(p, name)[..|p|] == p; }
    if q != "" { assert ChildPath(q, name)[..|q|] == q; }
  }

  lemma {:induction false} FirstDiffers(mk: InoMaker, p: string, q: string, item: Item, b: seq<Item>, y: seq<Item>)
    requires NumbersDiffer(mk) && p != q && item.ino == mk.sourcePath(ChildPath(p, item.name))
    requires forall i :: 0 <= i < |b| ==> b[i].ino == mk.sourcePath(ChildPath(q, b[i].name))
    requires forall i :: 0 <= i < |y| ==> exists id :: y[i].ino == mk.torrentRoot(id)
    ensures b + y == [] || (b + y)[0] != item
  {
    if b != [] {
      assert (b + y)[0] == b[0];
      if b[0] == item { ChildPathTells(p, q, item.name); }
    } else if y != [] {
      assert (b + y)[0] == y[0];
    }
  }

  lemma {:induction false} NoSubdirectory(mk: InoMaker, p: string, q: string, subs: seq<string>, x: seq<Item>, subs': seq<string>, rows': seq<Row>)
    requires NumbersDiffer(mk) && p != q
    requires PrefixItems(mk, p, subs) + x == PrefixItems(mk, q, subs') + RowItems(mk.torrentRoot, DirectoryKind, rows')
    ensures subs == []
  {
    var a, b, y := PrefixItems(mk, p, subs), PrefixItems(mk, q, subs'), RowItems(mk.torrentRoot, DirectoryKind, rows');
    PrefixItemsAre(mk, p, subs);
    PrefixItemsAre(mk, q, subs');
    RowItemsAre(mk.torrentRoot, DirectoryKind, rows');
    assert a != [] ==> (a + x)[0] == a[0];
    if a != [] { FirstDiffers(mk, p, q, a[0], b, y); }
  }

  /** Torrents and subdirectories of two paths, listed alike. */
  lemma {:induction false} DirsTell(mk: InoMaker, p: string, q: string, subs: seq<string>, rows: seq<Row>, subs': seq<string>, rows': seq<Row>)
    requires NumbersDiffer(mk) && p != q
    requires PrefixItems(mk, p, subs) + RowItems(mk.torrentRoot, DirectoryKind, rows) ==
             PrefixItems(mk, q, subs') + RowItems(mk.torrentRoot, DirectoryKind, rows')
    ensures subs == [] && subs' == []
    ensures RowItems(mk.torrentRoot, DirectoryKind, rows) == RowItems(mk.torrentRoot, DirectoryKind, rows')
  {
    var x, y := RowItems(mk.torrentRoot, DirectoryKind, rows), RowItems(mk.torrentRoot, DirectoryKind, rows');
    NoSubdirectory(mk, p, q, subs, x, subs', rows');
    NoSubdirectory(mk, q, p, subs', y, subs, rows);
    assert [] + x == x && [] + y == y;
  }

  /** The parts of the listing of a source path, that of `data/` excepted. */
  lemma {:induction false} SourceParts(mk: InoMaker, db: Database, order: seq<Key>, ino: Ino, path: string)
    requires ino != DATA
    ensures var dirs := PrefixItems(mk, path, db.prefixes(path)) + RowItems(mk.torrentRoot, DirectoryKind, db.torrents(path));
            var pending := PendingItems(mk, path, Names(dirs), order);
            && SourceItems(mk, db, order, ino, path) == Dots(ino, SourceParent(mk, path)) + (dirs + [Stats(mk, ino)[0]] + pending)
            && AllDirectories(dirs) && AllDirectories(pending)
  {
    var dirs := PrefixItems(mk, path, db.prefixes(path)) + RowItems(mk.torrentRoot, DirectoryKind, db.torrents(path));
    PrefixItemsAre(mk, path, db.prefixes(path));
    RowItemsAre(mk.torrentRoot, DirectoryKind, db.torrents(path));
    PendingItemsAre(mk, path, Names(dirs), order);
  }

  /** No add in flight shows in the directory beside its rows. */
  ghost predicate NothingPending(mk: InoMaker, db: Database, processing: set<Key>, path: string) {
    forall k :: k in processing && k.sourcePath == path ==>
      k.filename in Names(PrefixItems(mk, path, db.prefixes(path)) + RowItems(mk.torrentRoot, DirectoryKind, db.torrents(path)))
  }

  /** Two source paths look the same from outside: the same parent and torrents, and
      in neither a subdirectory or an add in flight. */
  ghost predicate LookAlike(mk: InoMaker, world: World, p: string, q: string) {
    && SourceParent(mk, p) == SourceParent(mk, q)
    && RowItems(mk.torrentRoot, DirectoryKind, world.db.torrents(p)) == RowItems(mk.torrentRoot, DirectoryKind, world.db.torrents(q))
    && world.db.prefixes(p) == [] && world.db.prefixes(q) == []
    && NothingPending(mk, world.db, world.processing, p) && NothingPending(mk, world.db, world.processing, q)
  }

  lemma {:induction false} PendingDiffer(mk: InoMaker, p: string, q: string, item: Item)
    requires NumbersDiffer(mk) && p != q
    ensures !IsPending(mk, p, item) || !IsPending(mk, q, item)
  {
  }

  lemma {:induction false} SourceItemsTell(mk: InoMaker, world: World, order: seq<Key>, order': seq<Key>, ino: Ino, p: string, q: string)
    requires NumbersDiffer(mk) && ino != DATA && p != q
    requires Enumerates(order, world.processing) && Enumerates(order', world.processing)
    ensures SourceItems(mk, world.db, order, ino, p) == SourceItems(mk, world.db, order', ino, q) <==> LookAlike(mk, world, p, q)
  {
    var db := world.db;
    var dirs := PrefixItems(mk, p, db.prefixes(p)) + RowItems(mk.torrentRoot, DirectoryKind, db.torrents(p));
    var dirs' := PrefixItems(mk, q, db.prefixes(q)) + RowItems(mk.torrentRoot, DirectoryKind, db.torrents(q));
    var pending, pending' := PendingItems(mk, p, Names(dirs), order), PendingItems(mk, q, Names(dirs'), order');
    SourceParts(mk, db, order, ino, p);
    SourceParts(mk, db, order', ino, q);
    PendingItemsAre(mk, p, Names(dirs), order);
    PendingItemsAre(mk, q, Names(dirs'), order');
    var x, y := dirs + [Stats(mk, ino)[0]] + pending, dirs' + [Stats(mk, ino)[0]] + pending';
    var u, v := Dots(ino, SourceParent(mk, p)), Dots(ino, SourceParent(mk, q));
    if u + x == v + y {
      assert u == (u + x)[..2] && v == (v + y)[..2] && x == (u + x)[2..] && y == (v + y)[2..];
      assert u[1].ino == SourceParent(mk, p) && v[1].ino == SourceParent(mk, q);
      PartsOnce(dirs, pending, dirs', pending', Stats(mk, ino)[0]);
      DirsTell(mk, p, q, db.prefixes(p), db.torrents(p), db.prefixes(q), db.torrents(q));
      if pending != [] { PendingDiffer(mk, p, q, pending[0]); }
    }
  }

  /** Every page of the directory as it is now. */
  ghost predicate AllPagesFresh(mk: InoMaker, sig: set<Key> -> nat, s: System, ino: Ino, record: Option<Record>)
    requires FromDatabase(ino, record) && Hits(sig, s.cache, s.world, ino)
  {
    exists order :: Enumerates(order, s.world.processing) && ServesItems(mk, sig, s, ino, DataItems(mk, s.world.db, true, order, ino, record))
  }

  ghost predicate ServesItems(mk: InoMaker, sig: set<Key> -> nat, s: System, ino: Ino, items: seq<Item>)
    requires Hits(sig, s.cache, s.world, ino)
  {
    forall offset :: Reply(mk, sig, s, Check(ino, offset)).value == Page(Numbered(items), offset)
  }

  lemma {:induction false} ServesExactly(mk: InoMaker, sig: set<Key> -> nat, s: System, ino: Ino, cached: seq<Item>, items: seq<Item>)
    requires Hits(sig, s.cache, s.world, ino) && s.cache.value.entries == Numbered(cached)
    ensures ServesItems(mk, sig, s, ino, items) <==> cached == items
  {
    PagesTell(cached, items);
    assert forall offset :: Reply(mk, sig, s, Check(ino, offset)).value == Page(Numbered(cached), offset);
  }

  /** A cached source-path directory whose record was rewritten to another path under
      the cached change count is served as that path is now exactly when the two
      look alike. */
  lemma {:induction false} MovedDirectoryExactly(mk: InoMaker, sig: set<Key> -> nat, s: System, ino: Ino, was: string, now: string)
    requires Injective(sig) && NumbersDiffer(mk) && CacheIsTrue(mk, sig, s) && Hits(sig, s.cache, s.world, ino) && ino != DATA
    requires s.built.record == Some(SourcePathDir(was)) && RecordOf(s.records, ino) == Some(SourcePathDir(now)) && was != now
    ensures AllPagesFresh(mk, sig, s, ino, RecordOf(s.records, ino)) <==> LookAlike(mk, s.world, was, now)
  {
    var b, db := s.built, s.world.db;
    assert Enumerates(b.order, s.world.processing);
    var cached := SourceItems(mk, db, b.order, ino, was);
    forall order | Enumerates(order, s.world.processing)
      ensures ServesItems(mk, sig, s, ino, DataItems(mk, db, true, order, ino, RecordOf(s.records, ino))) <==> LookAlike(mk, s.world, was, now)
    {
      ServesExactly(mk, sig, s, ino, cached, SourceItems(mk, db, order, ino, now));
      SourceItemsTell(mk, s.world, b.order, order, ino, was, now);
    }
  }

  // ── Torrents still being added ───────────────────────────────────────────

  /** What a pending directory shows of a file list: names, and which of them are
      directories. */
  function View(files: Option<seq<TF.PendingFile>>, dirPath: string): (v: seq<(string, bool)>) {
    if files.None? then []
    else
      var entries := PT.ListFiles(files.value, dirPath).entries;
      seq(|entries|, i requires 0 <= i < |entries| => (entries[i].child.name, entries[i].child.kind.Directory?))
  }

  function ItemsOf(mk: InoMaker, key: Key, files: Option<seq<TF.PendingFile>>, dirPath: string): seq<Item> {
    if files.None? then [] else ChildItems(mk, key, PT.ListFiles(files.value, dirPath).entries)
  }

  lemma {:induction false} ViewTells(mk: InoMaker, key: Key, a: Option<seq<TF.PendingFile>>, b: Option<seq<TF.PendingFile>>, dirPath: string)
    ensures ItemsOf(mk, key, a, dirPath) == ItemsOf(mk, key, b, dirPath) <==> View(a, dirPath) == View(b, dirPath)
  {
    var x, y, v, w := ItemsOf(mk, key, a, dirPath), ItemsOf(mk, key, b, dirPath), View(a, dirPath), View(b, dirPath);
    if a.Some? { PT.EntryPaths(a.value, dirPath); }
    if b.Some? { PT.EntryPaths(b.value, dirPath); }
    assert |x| == |v| && |y| == |w|;
    if |x| == |y| {
      forall i | 0 <= i < |x| ensures x[i] == y[i] <==> v[i] == w[i] {
        var c := PT.ListFiles(a.value, dirPath).entries[i].child;
        var d := PT.ListFiles(b.value, dirPath).entries[i].child;
        assert x[i] == ChildItem(mk, key, c) && y[i] == ChildItem(mk, key, d);
      }
    }
  }

  /** The path inside its torrent that a pending record lists. */
  function DirPathOf(record: Record): string
    requires record.TorrentRoot? || record.TorrentDir?
  {
    if record.TorrentRoot? then "" else record.dirPath
  }

  /** The same names and kinds; and the root of a torrent shows its `.stats` only
      when its file list can be read. */
  predicate SameView(was: Option<seq<TF.PendingFile>>, now: Option<seq<TF.PendingFile>>, record: Record)
    requires record.TorrentRoot? || record.TorrentDir?
  {
    View(was, DirPathOf(record)) == View(now, DirPathOf(record)) && (record.TorrentRoot? ==> (was.None? <==> now.None?))
  }

  lemma {:induction false} PendingParts(mk: InoMaker, files: Option<seq<TF.PendingFile>>, ino: Ino, record: Record)
    requires record.TorrentRoot? || record.TorrentDir?
    ensures var items := PendingTorrentItems(mk, files, ino, record);
            && |items| >= 2 && items[..2] == PendingTorrentItems(mk, None, ino, record)
            && items[2..] == ItemsOf(mk, record.key, files, DirPathOf(record))
                             + if record.TorrentRoot? && files.Some? then Stats(mk, ino) else []
  {
  }

  lemma {:induction false} PendingItemsTell(mk: InoMaker, was: Option<seq<TF.PendingFile>>, now: Option<seq<TF.PendingFile>>, ino: Ino, record: Record)
    requires record.TorrentRoot? || record.TorrentDir?
    ensures PendingTorrentItems(mk, was, ino, record) == PendingTorrentItems(mk, now, ino, record) <==> SameView(was, now, record)
  {
    var a, b := PendingTorrentItems(mk, was, ino, record), PendingTorrentItems(mk, now, ino, record);
    var x, y := ItemsOf(mk, record.key, was, DirPathOf(record)), ItemsOf(mk, record.key, now, DirPathOf(record));
    var p := if record.TorrentRoot? && was.Some? then Stats(mk, ino) else [];
    var q := if record.TorrentRoot? && now.Some? then Stats(mk, ino) else [];
    PendingParts(mk, was, ino, record);
    PendingParts(mk, now, ino, record);
    ViewTells(mk, record.key, was, now, DirPathOf(record));
    assert a == a[..2] + a[2..] && b == b[..2] + b[2..];
    if a == b {
      assert x + p == y + q;
      if |p| == |q| { assert x == (x + p)[..|x|] && y == (y + q)[..|y|]; }
    }
  }

  /** The listing of a torrent still being added comes from its bytes, which the
      key of the cache does not cover: a hit serves the current pages exactly when
      the bytes still show the same names in that directory. */
  lemma {:induction false} PendingFreshExactly(mk: InoMaker, sig: set<Key> -> nat, s: System, ino: Ino, record: Record)
    requires CacheIsTrue(mk, sig, s) && Hits(sig, s.cache, s.world, ino)
    requires s.built.record == Some(record) && !FromDatabase(ino, Some(record)) && !record.TorrentFile?
    ensures var now := FilesOf(s.buffers, Some(record));
            (forall offset :: Reply(mk, sig, s, Check(ino, offset)).value == Page(Numbered(PendingTorrentItems(mk, now, ino, record)), offset))
            <==> SameView(s.built.files, now, record)
  {
    var was, now := s.built.files, FilesOf(s.buffers, Some(record));
    var a, b := PendingTorrentItems(mk, was, ino, record), PendingTorrentItems(mk, now, ino, record);
    PendingItemsTell(mk, was, now, ino, record);
    PagesTell(a, b);
    assert s.cache.value.entries == Numbered(a);
    assert forall offset :: Reply(mk, sig, s, Check(ino, offset)).value == Page(Numbered(a), offset);
  }

  // ── Runs that serve something old ────────────────────────────────────────

  const ALL: Answers := Answers(true, true, true, true, true)

  ghost function Trip(ino: Ino, record: Record, order: seq<Key>): seq<Event> {
    [Remember(ino, Some(record)), Check(ino, 0), Build(order, ALL)]
  }

  lemma {:induction false} OneStep(mk: InoMaker, sig: set<Key> -> nat, s: System, e: Event)
    requires Enabled(s, e)
    ensures IsRun(mk, sig, s, [e]) && RunTo(mk, sig, s, [e]) == Step(mk, sig, s, e)
  {
    assert [e][1..] == [];
  }

  /** A directory looked up and listed. */
  lemma {:induction false} Tripped(mk: InoMaker, sig: set<Key> -> nat, s: System, ino: Ino, record: Record, order: seq<Key>)
    requires s.cache.None? && s.dispatcher.Idle? && Enumerates(order, s.world.processing) && ino != DATA && !record.TorrentFile?
    ensures IsRun(mk, sig, s, Trip(ino, record, order))
    ensures var s' := RunTo(mk, sig, s, Trip(ino, record, order));
            && CacheIsTrue(mk, sig, s') && Hits(sig, s'.cache, s'.world, ino) && s'.dispatcher.Idle?
            && s'.world == s.world && s'.buffers == s.buffers && s'.records == s.records[ino := record]
            && s'.built == Built(s.world, order, Some(record), FilesOf(s.buffers, Some(record)), ALL)
  {
    var events := Trip(ino, record, order);
    var s1 := Step(mk, sig, s, events[0]);
    var s2 := Step(mk, sig, s1, events[1]);
    assert s2 == s1.(dispatcher := Missed(ino, 0));
    OneStep(mk, sig, s2, events[2]);
    assert events[1..] == [events[1], events[2]] && events[1..][1..] == [events[2]];
    assert RunTo(mk, sig, s1, events[1..]) == Step(mk, sig, s2, events[2]) && IsRun(mk, sig, s1, events[1..]);
  }

  lemma {:induction false} RunsOn(mk: InoMaker, sig: set<Key> -> nat, s: System, a: seq<Event>, b: seq<Event>)
    requires IsRun(mk, sig, s, a) && IsRun(mk, sig, RunTo(mk, sig, s, a), b)
    ensures IsRun(mk, sig, s, a + b) && RunTo(mk, sig, s, a + b) == RunTo(mk, sig, RunTo(mk, sig, s, a), b)
    decreases |a|
  {
    if a == [] {
      assert a + b == b;
    } else {
      RunsOn(mk, sig, Step(mk, sig, s, a[0]), a[1..], b);
      assert (a + b)[1..] == a[1..] + b;
    }
  }

  /** A torrent at `a/s` is listed, `a` is renamed to `b` and the database does not
      follow: the record moves, the change count does not, and the listing served
      next goes up to the old parent. */
  lemma {:induction false} MovedTorrentIsStale(mk: InoMaker, sig: set<Key> -> nat, s0: System, ino: Ino)
    returns (events: seq<Event>, s: System)
    requires Injective(sig) && mk.sourcePath("a") != mk.sourcePath("b") && ino != DATA
    requires s0.cache.None? && s0.dispatcher.Idle? && s0.world.processing == {}
    ensures IsRun(mk, sig, s0, events) && s == RunTo(mk, sig, s0, events) && Hits(sig, s.cache, s.world, ino)
    ensures FromDatabase(ino, RecordOf(s.records, ino))
    ensures !Fresh(mk, s.world, ino, RecordOf(s.records, ino), 0, Reply(mk, sig, s, Check(ino, 0)).value)
  {
    var was, now := Key("a/s", "x.torrent"), Key("b/s", "x.torrent");
    var trip, move := Trip(ino, TorrentRoot(1, was), []), Move("a", "b", s0.world.version, s0.world.db);
    Tripped(mk, sig, s0, ino, TorrentRoot(1, was), []);
    var s1 := RunTo(mk, sig, s0, trip);
    s := Step(mk, sig, s1, move);
    OneStep(mk, sig, s1, move);
    RunsOn(mk, sig, s0, trip, [move]);
    events := trip + [move];
    MovedUp();
    MovedTorrentExactly(mk, sig, s, ino, 0, 1, was, now);
  }

  /** A directory `a` with a subdirectory is listed, and renamed to `b` without the
      database following: the pages served next are not those of `b`. */
  lemma {:induction false} MovedDirectoryIsStale(mk: InoMaker, sig: set<Key> -> nat, s0: System, ino: Ino)
    returns (events: seq<Event>, s: System)
    requires Injective(sig) && NumbersDiffer(mk) && ino != DATA && s0.world.db.prefixes("a") != []
    requires s0.cache.None? && s0.dispatcher.Idle? && s0.world.processing == {}
    ensures IsRun(mk, sig, s0, events) && s == RunTo(mk, sig, s0, events) && Hits(sig, s.cache, s.world, ino)
    ensures RecordOf(s.records, ino) == Some(SourcePathDir("b"))
    ensures !AllPagesFresh(mk, sig, s, ino, RecordOf(s.records, ino))
  {
    var trip, move := Trip(ino, SourcePathDir("a"), []), Move("a", "b", s0.world.version, s0.world.db);
    Tripped(mk, sig, s0, ino, SourcePathDir("a"), []);
    var s1 := RunTo(mk, sig, s0, trip);
    s := Step(mk, sig, s1, move);
    OneStep(mk, sig, s1, move);
    RunsOn(mk, sig, s0, trip, [move]);
    events := trip + [move];
    assert DirectoryRows.Moved("a", "b", "a") == "b" && "a"[0] != "b"[0];
    MovedDirectoryExactly(mk, sig, s, ino, "a", "b");
  }

  lemma {:induction false} MovedUp()
    ensures DirectoryRows.Moved("a", "b", "a/s") == "b/s"
    ensures ParentPath("a/s") == Some("a") && ParentPath("b/s") == Some("b")
  {
    var p, q := "a/s", "b/s";
    assert "a" + "/" <= p && p[1..] == "/s" && "b" + "/s" == q;
    assert p[..2][1] == '/' && LastSlash(p[..2]) == Some(1) && p[..1] == "a";
    assert q[..2][1] == '/' && LastSlash(q[..2]) == Some(1) && q[..1] == "b";
  }

  /** A torrent in flight is listed, and its bytes are replaced before its row
      lands: the listing served next is of the old bytes. */
  lemma {:induction false} PendingIsStale(mk: InoMaker, sig: set<Key> -> nat, s0: System, ino: Ino, key: Key)
    returns (events: seq<Event>, s: System)
    requires s0.cache.None? && s0.dispatcher.Idle? && s0.world.processing == {key} && ino != DATA
    ensures IsRun(mk, sig, s0, events) && s == RunTo(mk, sig, s0, events) && Hits(sig, s.cache, s.world, ino)
    ensures RecordOf(s.records, ino) == Some(TorrentRoot(0, key))
    ensures exists offset :: Reply(mk, sig, s, Check(ino, offset)).value !=
                             Page(Numbered(PendingTorrentItems(mk, FilesOf(s.buffers, Some(TorrentRoot(0, key))), ino, TorrentRoot(0, key))), offset)
  {
    var record := TorrentRoot(0, key);
    var first, trip, second := Rewrite(key, Some([TF.PendingFile("x", 1)])), Trip(ino, record, [key]), Rewrite(key, Some([]));
    var s1 := Step(mk, sig, s0, first);
    OneStep(mk, sig, s0, first);
    assert Enumerates([key], s1.world.processing);
    Tripped(mk, sig, s1, ino, record, [key]);
    RunsOn(mk, sig, s0, [first], trip);
    var s2 := RunTo(mk, sig, s1, trip);
    s := Step(mk, sig, s2, second);
    OneStep(mk, sig, s2, second);
    RunsOn(mk, sig, s0, [first] + trip, [second]);
    events := [first] + trip + [second];
    OneFileShows();
    PendingFreshExactly(mk, sig, s, ino, record);
  }

  lemma {:induction false} OneFileShows()
    ensures View(Some([TF.PendingFile("x", 1)]), "") != View(Some([]), "")
  {
    var files := [TF.PendingFile("x", 1)];
    assert files[..0] == [] && "x"[0..] == "x" && "x"[1..] == "";
    assert IndexOf("x", '/') == 1;
  }
}
