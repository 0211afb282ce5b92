/** The bounded download worker pool, as a transition system: callers of `submit`
    and `shutdown` and the workers, in any interleaving. */
module WorkerPool {
  import opened Text

  /** A job, one per call of `submit` or `try_submit`. */
  type Job = nat

  datatype Worker = Waiting | Running(job: Job) | Exited

  /** A submitting call: past the stopping check, blocked in `send` with the
      sender's lock, or over. */
  datatype Call = Checked(blocking: bool) | Sending | Accepted | HandedBack

  /** A shutting-down call: flag set, sender dropped, waiting with or without the
      workers' handles, or over. */
  datatype Shutdown =
    | Stopping(bounded: bool)
    | Dropped(bounded: bool)
    | Joining(owns: bool, bounded: bool)
    | Returned(owns: bool, drained: bool)

  datatype Pool = Pool(
    depth: nat,
    workers: seq<Worker>,
    queue: seq<Job>,
    sender: bool,
    stopping: bool,
    blocked: Option<Job>,
    handles: bool,
    calls: map<Job, Call>,
    shutdowns: map<nat, Shutdown>,
    accepted: seq<Job>,
    dequeued: seq<Job>,
    done: seq<Job>)

  datatype Event =
    | Submit(job: Job, blocking: bool)
    | Lock(job: Job)
    | Unblock(job: Job)
    | Dequeue(worker: nat)
    | Finish(worker: nat)
    | Exit(worker: nat)
    | Stop(caller: nat, bounded: bool)
    | Drop(caller: nat)
    | Take(caller: nat)
    | Return(caller: nat)
    | GiveUp(caller: nat)

  predicate AllExited(workers: seq<Worker>) { forall w :: 0 <= w < |workers| ==> workers[w].Exited? }

  ghost predicate Enabled(s: Pool, e: Event) {
    match e
    case Submit(job, _) => job !in s.calls
    case Lock(job) => job in s.calls && s.calls[job].Checked? && s.blocked.None?
    case Unblock(job) => s.blocked == Some(job) && |s.queue| < s.depth
    case Dequeue(w) => w < |s.workers| && s.workers[w].Waiting? && s.queue != []
    case Finish(w) => w < |s.workers| && s.workers[w].Running?
    case Exit(w) => w < |s.workers| && s.workers[w].Waiting? && s.queue == [] && !s.sender
    case Stop(c, _) => c !in s.shutdowns
    case Drop(c) => c in s.shutdowns && s.shutdowns[c].Stopping? && s.blocked.None?
    case Take(c) => c in s.shutdowns && s.shutdowns[c].Dropped?
    case Return(c) =>
      c in s.shutdowns && s.shutdowns[c].Joining? && (s.shutdowns[c].owns ==> AllExited(s.workers))
    case GiveUp(c) => c in s.shutdowns && s.shutdowns[c].Joining? && s.shutdowns[c].owns && s.shutdowns[c].bounded
  }

  function Push(s: Pool, job: Job): Pool {
    s.(queue := s.queue + [job], accepted := s.accepted + [job], calls := s.calls[job := Accepted], blocked := None)
  }

  function Step(s: Pool, e: Event): Pool
    requires Enabled(s, e)
  {
    match e
    case Submit(job, blocking) => s.(calls := s.calls[job := if s.stopping then HandedBack else Checked(blocking)])
    case Lock(job) =>
      if !s.sender then s.(calls := s.calls[job := HandedBack])
      else if |s.queue| < s.depth then Push(s, job)
      else if s.calls[job].blocking then s.(calls := s.calls[job := Sending], blocked := Some(job))
      else s.(calls := s.calls[job := HandedBack])
    case Unblock(job) => Push(s, job)
    case Dequeue(w) =>
      s.(workers := s.workers[w := Running(s.queue[0])], queue := s.queue[1..], dequeued := s.dequeued + [s.queue[0]])
    case Finish(w) => s.(workers := s.workers[w := Waiting], done := s.done + [s.workers[w].job])
    case Exit(w) => s.(workers := s.workers[w := Exited])
    case Stop(c, bounded) => s.(stopping := true, shutdowns := s.shutdowns[c := Stopping(bounded)])
    case Drop(c) => s.(sender := false, shutdowns := s.shutdowns[c := Dropped(s.shutdowns[c].bounded)])
    case Take(c) => s.(handles := false, shutdowns := s.shutdowns[c := Joining(s.handles, s.shutdowns[c].bounded)])
    case Return(c) => s.(shutdowns := s.shutdowns[c := Returned(s.shutdowns[c].owns, true)])
    case GiveUp(c) => s.(shutdowns := s.shutdowns[c := Returned(true, AllExited(s.workers))])
  }

  ghost predicate Start(s: Pool) {
    && s.depth > 0 && s.workers != [] && (forall w :: 0 <= w < |s.workers| ==> s.workers[w].Waiting?)
    && s.queue == s.accepted == s.dequeued == s.done == []
    && s.sender && !s.stopping && s.blocked.None? && s.handles && s.calls == map[] && s.shutdowns == map[]
  }

  // ── What every step keeps ────────────────────────────────────────────────

  ghost predicate NoRepeat(jobs: seq<Job>) { forall i, j :: 0 <= i < j < |jobs| ==> jobs[i] != jobs[j] }

  /** First in, first out, and never more than the queue holds. */
  ghost predicate Fifo(s: Pool) { s.accepted == s.dequeued + s.queue && |s.queue| <= s.depth && s.depth > 0 }

  /** A call is accepted exactly when its job is. */
  ghost predicate CallsMatch(calls: map<Job, Call>, accepted: seq<Job>) {
    NoRepeat(accepted) && forall j :: j in accepted <==> j in calls && calls[j].Accepted?
  }

  ghost predicate RunsOn(workers: seq<Worker>, w: int, j: Job) { 0 <= w < |workers| && workers[w] == Running(j) }

  ghost predicate IsRunning(workers: seq<Worker>, j: Job) { exists w :: RunsOn(workers, w, j) }

  /** A dequeued job is done, or runs on exactly one worker, and never both. */
  ghost predicate EachOnce(workers: seq<Worker>, dequeued: seq<Job>, done: seq<Job>) {
    && NoRepeat(done)
    && (forall j :: j in dequeued <==> j in done || IsRunning(workers, j))
    && (forall j :: j in done ==> !IsRunning(workers, j))
    && (forall v, w, j :: RunsOn(workers, v, j) && RunsOn(workers, w, j) ==> v == w)
  }

  /** Workers leave only when the sender is gone and the queue is empty. */
  ghost predicate ExitsLate(s: Pool) {
    (exists w :: 0 <= w < |s.workers| && s.workers[w].Exited?) ==> !s.sender && s.queue == []
  }

  ghost predicate LockMatches(s: Pool) {
    && (!s.sender ==> s.stopping)
    && (s.blocked.Some? ==> s.sender && s.blocked.value in s.calls && s.calls[s.blocked.value].Sending?)
    && (forall j :: j in s.calls && s.calls[j].Sending? ==> s.blocked == Some(j))
  }

  /** One caller at most gets the handles, and answers truthfully. */
  ghost predicate ShutdownsMatch(s: Pool) {
    && (forall c :: c in s.shutdowns ==> s.stopping && (!s.shutdowns[c].Stopping? ==> !s.sender))
    && (!s.handles ==> !s.sender)
    && (s.handles ==> forall c :: c in s.shutdowns ==> s.shutdowns[c].Stopping? || s.shutdowns[c].Dropped?)
    && (forall c :: c in s.shutdowns && s.shutdowns[c].Returned? && s.shutdowns[c].owns && s.shutdowns[c].drained ==>
          AllExited(s.workers))
    && (forall c, d :: c in s.shutdowns && d in s.shutdowns && Owns(s.shutdowns[c]) && Owns(s.shutdowns[d]) ==> c == d)
  }

  ghost predicate Owns(c: Shutdown) { (c.Joining? || c.Returned?) && c.owns }

  ghost predicate Good(s: Pool) {
    && s.workers != []
    && Fifo(s) && CallsMatch(s.calls, s.accepted) && EachOnce(s.workers, s.dequeued, s.done)
    && ExitsLate(s) && LockMatches(s) && ShutdownsMatch(s)
  }

  lemma {:induction false} StartIsGood(s: Pool)
    requires Start(s)
    ensures Good(s)
  {
  }

  lemma {:induction false} PushKeeps(s: Pool, job: Job)
    requires Good(s) && s.sender && |s.queue| < s.depth
    requires job in s.calls && !s.calls[job].Accepted? && (s.blocked.None? || s.blocked == Some(job))
    ensures Good(Push(s, job))
  {
    var s' := Push(s, job);
    assert s'.accepted == s'.dequeued + s'.queue;
    assert job !in s.accepted;
    forall j ensures j in s'.accepted <==> j in s.accepted || j == job {}
  }

  lemma {:induction false} PartsDiffer(a: seq<Job>, b: seq<Job>)
    requires NoRepeat(a + b)
    ensures forall j :: j in a ==> j !in b
  {
    forall i, k | 0 <= i < |a| && 0 <= k < |b| ensures a[i] != b[k] {
      assert (a + b)[i] == a[i] && (a + b)[|a| + k] == b[k];
    }
  }

  /** The job at the head of the queue has not been taken before. */
  lemma {:induction false} NextJobIsNew(s: Pool)
    requires Good(s) && s.queue != []
    ensures s.queue[0] !in s.dequeued && s.queue[0] !in s.done && !IsRunning(s.workers, s.queue[0])
  {
    PartsDiffer(s.dequeued, s.queue);
  }

  lemma {:induction false} TakesJob(workers: seq<Worker>, dequeued: seq<Job>, done: seq<Job>, w: nat, job: Job)
    requires EachOnce(workers, dequeued, done) && w < |workers| && workers[w].Waiting?
    requires job !in dequeued
    ensures EachOnce(workers[w := Running(job)], dequeued + [job], done)
  {
    var workers' := workers[w := Running(job)];
    assert RunsOn(workers', w, job);
    forall v, j | j != job ensures RunsOn(workers', v, j) <==> RunsOn(workers, v, j) {}
    forall j | j != job ensures IsRunning(workers', j) <==> IsRunning(workers, j) {
      if v :| RunsOn(workers, v, j) { assert RunsOn(workers', v, j); }
      if v :| RunsOn(workers', v, j) { assert RunsOn(workers, v, j); }
    }
    forall v | RunsOn(workers', v, job) ensures v == w {
      if v != w { assert RunsOn(workers, v, job); assert IsRunning(workers, job); }
    }
  }

  lemma {:induction false} EndsJob(workers: seq<Worker>, dequeued: seq<Job>, done: seq<Job>, w: nat)
    requires EachOnce(workers, dequeued, done) && w < |workers| && workers[w].Running?
    ensures EachOnce(workers[w := Waiting], dequeued, done + [workers[w].job])
  {
    var workers', job, done' := workers[w := Waiting], workers[w].job, done + [workers[w].job];
    assert RunsOn(workers, w, job);
    assert IsRunning(workers, job) && job !in done;
    forall v, j ensures RunsOn(workers', v, j) <==> RunsOn(workers, v, j) && v != w {}
    forall j | j != job ensures IsRunning(workers', j) <==> IsRunning(workers, j) {
      if v :| RunsOn(workers, v, j) { assert RunsOn(workers', v, j); }
      if v :| RunsOn(workers', v, j) { assert RunsOn(workers, v, j); }
    }
    assert !IsRunning(workers', job);
    assert forall j :: j in done' <==> j in done || j == job;
  }

  lemma {:induction false} Leaves(workers: seq<Worker>, dequeued: seq<Job>, done: seq<Job>, w: nat)
    requires EachOnce(workers, dequeued, done) && w < |workers| && workers[w].Waiting?
    ensures EachOnce(workers[w := Exited], dequeued, done)
  {
    var workers' := workers[w := Exited];
    forall v, j ensures RunsOn(workers', v, j) <==> RunsOn(workers, v, j) {}
    forall j ensures IsRunning(workers', j) <==> IsRunning(workers, j) {
      if v :| RunsOn(workers, v, j) { assert RunsOn(workers', v, j); }
      if v :| RunsOn(workers', v, j) { assert RunsOn(workers, v, j); }
    }
  }

  lemma {:induction false} WorkerKeeps(s: Pool, e: Event)
    requires Good(s) && Enabled(s, e) && (e.Dequeue? || e.Finish? || e.Exit?)
    ensures Good(Step(s, e))
  {
    var s', w := Step(s, e), e.worker;
    if e.Dequeue? {
      NextJobIsNew(s);
      TakesJob(s.workers, s.dequeued, s.done, w, s.queue[0]);
      assert s.queue == [s.queue[0]] + s.queue[1..];
      assert s'.dequeued + s'.queue == s.accepted;
    } else if e.Finish? {
      EndsJob(s.workers, s.dequeued, s.done, w);
    } else {
      Leaves(s.workers, s.dequeued, s.done, w);
    }
    assert !s.workers[w].Exited? && !AllExited(s.workers);
    forall v | 0 <= v < |s'.workers| && s'.workers[v].Exited? ensures !s'.sender && s'.queue == [] {
      if v != w { assert s.workers[v].Exited?; }
    }
  }

  lemma {:induction false} CallKeeps(s: Pool, e: Event)
    requires Good(s) && Enabled(s, e) && (e.Submit? || e.Lock? || e.Unblock?)
    ensures Good(Step(s, e))
  {
    var job := e.job;
    if e.Unblock? || (e.Lock? && s.sender && |s.queue| < s.depth) {
      PushKeeps(s, job);
    } else {
      assert job !in s.accepted;
    }
  }

  lemma {:induction false} ShutdownKeeps(s: Pool, e: Event)
    requires Good(s) && Enabled(s, e) && (e.Stop? || e.Drop? || e.Take? || e.Return? || e.GiveUp?)
    ensures Good(Step(s, e))
  {
  }

  lemma {:induction false} StepKeeps(s: Pool, e: Event)
    requires Good(s) && Enabled(s, e)
    ensures Good(Step(s, e))
  {
    if e.Dequeue? || e.Finish? || e.Exit? {
      WorkerKeeps(s, e);
    } else if e.Submit? || e.Lock? || e.Unblock? {
      CallKeeps(s, e);
    } else {
      ShutdownKeeps(s, e);
    }
  }

  // ── Whole runs ───────────────────────────────────────────────────────────

  ghost predicate IsRun(s: Pool, events: seq<Event>)
    decreases |events|
  {
    events == [] || (Enabled(s, events[0]) && IsRun(Step(s, events[0]), events[1..]))
  }

  ghost function After(s: Pool, events: seq<Event>): Pool
    requires IsRun(s, events)
    decreases |events|
  {
    if events == [] then s else After(Step(s, events[0]), events[1..])
  }

  /** In every interleaving: jobs leave the queue in the order they were accepted,
      none twice; a dequeued job is done or running on one of the workers, whose
      number never changes; the queue stays within its depth. */
  lemma {:induction false} RunIsGood(s: Pool, events: seq<Event>)
    requires Good(s) && IsRun(s, events)
    ensures Good(After(s, events)) && |After(s, events).workers| == |s.workers| && After(s, events).depth == s.depth
    decreases |events|
  {
    if events != [] {
      StepKeeps(s, events[0]);
      RunIsGood(Step(s, events[0]), events[1..]);
    }
  }

  /** Where a submitted job is. */
  datatype Place = InCall | Back | Queued | OnWorker | Done

  ghost predicate IsAt(s: Pool, j: Job, p: Place) {
    match p
    case InCall => j in s.calls && (s.calls[j].Checked? || s.calls[j].Sending?)
    case Back => j in s.calls && s.calls[j].HandedBack?
    case Queued => j in s.queue
    case OnWorker => IsRunning(s.workers, j)
    case Done => j in s.done
  }

  /** Conservation: every submitted job is in exactly one place, and once done it
      was run once. */
  lemma {:induction false} EveryJobIsSomewhere(s: Pool, j: Job, p: Place, q: Place)
    requires Good(s) && j in s.calls
    ensures exists p :: IsAt(s, j, p)
    ensures IsAt(s, j, p) && IsAt(s, j, q) ==> p == q
  {
    assert j in s.accepted <==> j in s.dequeued || j in s.queue;
    PartsDiffer(s.dequeued, s.queue);
    if s.calls[j].Accepted? {
      if j in s.queue { assert IsAt(s, j, Queued); }
      else if j in s.done { assert IsAt(s, j, Done); }
      else { assert IsAt(s, j, OnWorker); }
    } else if s.calls[j].HandedBack? {
      assert IsAt(s, j, Back);
    } else {
      assert IsAt(s, j, InCall);
    }
  }

  /** Once the sender is dropped nothing more is accepted, whatever happens. */
  lemma {:induction false} NothingAcceptedLater(s: Pool, events: seq<Event>)
    requires Good(s) && !s.sender && IsRun(s, events)
    ensures After(s, events).accepted == s.accepted && !After(s, events).sender
    decreases |events|
  {
    if events != [] {
      StepKeeps(s, events[0]);
      NothingAcceptedLater(Step(s, events[0]), events[1..]);
    }
  }

  // ── What becomes of a submission ─────────────────────────────────────────

  predicate IsDecided(c: Call) { c.Accepted? || c.HandedBack? }

  lemma {:induction false} DecidedStays(s: Pool, events: seq<Event>, j: Job)
    requires Good(s) && IsRun(s, events) && j in s.calls && IsDecided(s.calls[j])
    ensures j in After(s, events).calls && After(s, events).calls[j] == s.calls[j]
    decreases |events|
  {
    if events != [] {
      StepKeeps(s, events[0]);
      DecidedStays(Step(s, events[0]), events[1..], j);
    }
  }

  /** The job is accepted, or its `submit` is blocked. */
  ghost predicate IsIn(s: Pool, j: Job) { j in s.calls && (s.calls[j].Accepted? || s.calls[j].Sending?) }

  lemma {:induction false} InStays(s: Pool, events: seq<Event>, j: Job)
    requires Good(s) && IsRun(s, events) && IsIn(s, j)
    ensures IsIn(After(s, events), j)
    decreases |events|
  {
    if events != [] {
      StepKeeps(s, events[0]);
      InStays(Step(s, events[0]), events[1..], j);
    }
  }

  /** A submission that gets the sender is decided there, for the rest of any run:
      `try_submit` is accepted exactly when the sender is still there and the queue
      has room, and else handed back; `submit` is handed back exactly when the sender
      is gone, and with room accepted at once. */
  lemma {:induction false} SubmissionIsDecided(s: Pool, j: Job, events: seq<Event>)
    requires Good(s) && Enabled(s, Lock(j)) && IsRun(Step(s, Lock(j)), events)
    ensures var calls, room := After(Step(s, Lock(j)), events).calls, |s.queue| < s.depth;
            && j in calls
            && (s.sender && room ==> calls[j].Accepted?)
            && (!s.sender || (!s.calls[j].blocking && !room) ==> calls[j].HandedBack?)
            && (s.sender && s.calls[j].blocking ==> calls[j].Accepted? || calls[j].Sending?)
  {
    var s1 := Step(s, Lock(j));
    StepKeeps(s, Lock(j));
    if IsDecided(s1.calls[j]) { DecidedStays(s1, events, j); } else { InStays(s1, events, j); }
  }

  ghost predicate NotRefused(s: Pool, j: Job) {
    j !in s.calls || s.calls[j] == Checked(true) || s.calls[j].Sending? || s.calls[j].Accepted?
  }

  predicate Blocks(events: seq<Event>, j: Job) {
    forall i :: 0 <= i < |events| && events[i].Submit? && events[i].job == j ==> events[i].blocking
  }

  /** Backpressure never refuses a `submit`: in every run that has not begun to shut
      down it is waiting or accepted. */
  lemma {:induction false} SubmitIsNotRefused(s: Pool, events: seq<Event>, j: Job)
    requires Good(s) && IsRun(s, events) && NotRefused(s, j) && Blocks(events, j) && !After(s, events).stopping
    ensures NotRefused(After(s, events), j) && !s.stopping
    decreases |events|
  {
    if events != [] {
      StepKeeps(s, events[0]);
      StoppingStays(Step(s, events[0]), events[1..]);
      assert Blocks(events[1..], j);
      assert events[0].Submit? && events[0].job == j ==> events[0].blocking;
      SubmitIsNotRefused(Step(s, events[0]), events[1..], j);
    }
  }

  lemma {:induction false} StoppingStays(s: Pool, events: seq<Event>)
    requires IsRun(s, events)
    ensures s.stopping ==> After(s, events).stopping
    decreases |events|
  {
    if events != [] { StoppingStays(Step(s, events[0]), events[1..]); }
  }

  /** When the shutdown that took the handles says the workers are gone, every
      accepted job is done, and none ran twice. */
  lemma {:induction false} ShutdownDrains(s: Pool, c: nat)
    requires Good(s) && c in s.shutdowns && s.shutdowns[c] == Returned(true, true)
    ensures s.queue == [] && NoRepeat(s.done) && forall j :: j in s.accepted <==> j in s.done
  {
    assert s.workers[0].Exited?;
    assert s.dequeued + [] == s.dequeued;
    forall j ensures !IsRunning(s.workers, j) {
      forall w ensures !RunsOn(s.workers, w, j) { assert 0 <= w < |s.workers| ==> s.workers[w].Exited?; }
    }
  }

  /** A shutdown answers once, whatever steps are taken, and truthfully: that the
      workers are gone exactly when they are, or when another call has the handles. */
  lemma {:induction false} ShutdownAnswers(s: Pool, e: Event, c: nat)
    requires Good(s) && Enabled(s, e) && c in s.shutdowns
    ensures c in Step(s, e).shutdowns
    ensures s.shutdowns[c].Returned? ==> Step(s, e).shutdowns[c] == s.shutdowns[c]
    ensures !s.shutdowns[c].Returned? && Step(s, e).shutdowns[c].Returned? ==>
              && s.shutdowns[c].Joining?
              && (Step(s, e).shutdowns[c].drained <==> !s.shutdowns[c].owns || AllExited(s.workers))
  {
  }

  // ── The drain ends ───────────────────────────────────────────────────────

  function Weight(w: Worker): nat { match w case Waiting => 1 case Running(_) => 2 case Exited => 0 }

  function Weights(workers: seq<Worker>): nat {
    if workers == [] then 0 else Weight(workers[0]) + Weights(workers[1..])
  }

  /** Steps the workers have left once the sender is gone. */
  function Remaining(s: Pool): nat { 2 * |s.queue| + Weights(s.workers) }

  lemma {:induction false} WeightsChange(workers: seq<Worker>, w: nat, x: Worker)
    requires w < |workers|
    ensures Weights(workers[w := x]) == Weights(workers) - Weight(workers[w]) + Weight(x)
  {
    if w == 0 {
      assert workers[0 := x][1..] == workers[1..];
    } else {
      WeightsChange(workers[1..], w - 1, x);
      assert workers[w := x][1..] == workers[1..][w - 1 := x];
    }
  }

  /** After the sender is dropped every worker step brings the end nearer and no
      other step moves it away. */
  lemma {:induction false} DrainDescends(s: Pool, e: Event)
    requires Good(s) && !s.sender && Enabled(s, e)
    ensures if IsWorkers(e) then Remaining(Step(s, e)) < Remaining(s) else Remaining(Step(s, e)) == Remaining(s)
  {
    if IsWorkers(e) { WeightsChange(s.workers, e.worker, Step(s, e).workers[e.worker]); }
  }

  predicate IsWorkers(e: Event) { e.Dequeue? || e.Finish? || e.Exit? }

  function WorkerSteps(events: seq<Event>): nat {
    if events == [] then 0 else (if IsWorkers(events[0]) then 1 else 0) + WorkerSteps(events[1..])
  }

  /** So a run holds at most that many worker steps, and when it has held them all
      the workers are gone. */
  lemma {:induction false} DrainIsBounded(s: Pool, events: seq<Event>)
    requires Good(s) && !s.sender && IsRun(s, events)
    ensures WorkerSteps(events) + Remaining(After(s, events)) <= Remaining(s)
    ensures WorkerSteps(events) == Remaining(s) ==> AllExited(After(s, events).workers)
    decreases |events|
  {
    if events == [] {
      WeightsLeft(s.workers);
    } else {
      var e := events[0];
      DrainDescends(s, e);
      StepKeeps(s, e);
      DrainIsBounded(Step(s, e), events[1..]);
      RunIsGood(s, events);
      WeightsLeft(After(s, events).workers);
    }
  }

  lemma {:induction false} WeightsLeft(workers: seq<Worker>)
    ensures Weights(workers) == 0 ==> AllExited(workers)
  {
    if workers != [] {
      WeightsLeft(workers[1..]);
      assert forall w :: 1 <= w < |workers| ==> workers[w] == workers[1..][w - 1];
    }
  }

  /** Until all workers are gone one of them can go on; and a blocked `submit`
      always finds a worker that can make room. */
  lemma {:induction false} NeverStuck(s: Pool)
    requires Good(s) && (s.blocked.Some? || (!s.sender && !AllExited(s.workers)))
    ensures (exists e: Event :: (e.Dequeue? || e.Finish? || e.Exit?) && Enabled(s, e)) || (s.blocked.Some? && Enabled(s, Unblock(s.blocked.value)))
  {
    var w := if s.sender then 0 else
      var v :| 0 <= v < |s.workers| && !s.workers[v].Exited?; v;
    assert !s.workers[w].Exited?;
    match s.workers[w]
    case Running(_) => assert Enabled(s, Finish(w));
    case Waiting =>
      if s.queue != [] { assert Enabled(s, Dequeue(w)); }
      else if s.sender { assert Enabled(s, Unblock(s.blocked.value)); }
      else { assert Enabled(s, Exit(w)); }
  }

  // ── Waiting for the sender ───────────────────────────────────────────────

  /** A `submit` is blocked with the sender's lock, and no worker is free to make
      room for it. */
  ghost predicate Clogged(s: Pool) {
    s.blocked.Some? && |s.queue| == s.depth && forall w :: 0 <= w < |s.workers| ==> s.workers[w].Running?
  }

  /** A submission past its check, blocking or not, and a shutdown past its flag,
      bounded or not, go on exactly when no `submit` is blocked. */
  lemma {:induction false} SenderIsNeeded(s: Pool)
    requires Good(s)
    ensures forall j :: j in s.calls && s.calls[j].Checked? ==> (Enabled(s, Lock(j)) <==> s.blocked.None?)
    ensures forall c :: c in s.shutdowns && s.shutdowns[c].Stopping? ==>
              (Enabled(s, Drop(c)) <==> s.blocked.None?) && !Enabled(s, GiveUp(c))
    ensures s.blocked.Some? ==> s.sender
  {
  }

  ghost predicate NoneFinishes(events: seq<Event>) { forall i :: 0 <= i < |events| ==> !events[i].Finish? }

  lemma {:induction false} StaysClogged(s: Pool, e: Event)
    requires Good(s) && Clogged(s) && Enabled(s, e) && !e.Finish?
    ensures Clogged(Step(s, e))
    ensures forall j :: j in s.calls && s.calls[j].Checked? ==> j in Step(s, e).calls && Step(s, e).calls[j] == s.calls[j]
    ensures forall c :: c in s.shutdowns && s.shutdowns[c].Stopping? ==> c in Step(s, e).shutdowns && Step(s, e).shutdowns[c] == s.shutdowns[c]
  {
    SenderIsNeeded(s);
  }

  /** A clogged pool keeps all of them waiting until a job finishes: `try_submit`
      does not return at once, and a deadline does not end a bounded shutdown. */
  lemma {:induction false} CloggedKeepsWaiting(s: Pool, events: seq<Event>)
    requires Good(s) && Clogged(s) && IsRun(s, events) && NoneFinishes(events)
    ensures var s' := After(s, events);
            && Clogged(s')
            && (forall j :: j in s.calls && s.calls[j].Checked? ==> j in s'.calls && s'.calls[j] == s.calls[j])
            && (forall c :: c in s.shutdowns && s.shutdowns[c].Stopping? ==> c in s'.shutdowns && s'.shutdowns[c] == s.shutdowns[c])
    decreases |events|
  {
    if events != [] {
      assert !events[0].Finish?;
      StaysClogged(s, events[0]);
      StepKeeps(s, events[0]);
      assert NoneFinishes(events[1..]);
      CloggedKeepsWaiting(Step(s, events[0]), events[1..]);
    }
  }

  /** A run that gets there, with a bounded shutdown among those that wait. */
  lemma {:induction false} BoundedShutdownWaits() returns (s: Pool, events: seq<Event>)
    ensures Start(s) && IsRun(s, events)
    ensures var s' := After(s, events); Clogged(s') && 1 in s'.shutdowns && s'.shutdowns[1] == Stopping(true)
  {
    s := Pool(1, [Waiting], [], true, false, None, true, map[], map[], [], [], []);
    var s1 := Step(s, Submit(7, true));
    var s2 := Step(s1, Lock(7));
    var s3 := Step(s2, Dequeue(0));
    var s4 := Step(s3, Submit(8, true));
    var s5 := Step(s4, Lock(8));
    var s6 := Step(s5, Submit(9, true));
    var s7 := Step(s6, Lock(9));
    events := [Stop(1, true)] + [];
    RunCons(s7, Stop(1, true), []);
    events := RunBack(s6, Lock(9), events);
    events := RunBack(s5, Submit(9, true), events);
    events := RunBack(s4, Lock(8), events);
    events := RunBack(s3, Submit(8, true), events);
    events := RunBack(s2, Dequeue(0), events);
    events := RunBack(s1, Lock(7), events);
    events := RunBack(s, Submit(7, true), events);
  }

  // ── A second shutdown ────────────────────────────────────────────────────

  lemma {:induction false} RunCons(s: Pool, e: Event, rest: seq<Event>)
    requires Enabled(s, e) && IsRun(Step(s, e), rest)
    ensures IsRun(s, [e] + rest) && After(s, [e] + rest) == After(Step(s, e), rest)
  {
    assert ([e] + rest)[1..] == rest;
  }

  lemma {:induction false} RunBack(s: Pool, e: Event, rest: seq<Event>) returns (events: seq<Event>)
    requires Enabled(s, e) && IsRun(Step(s, e), rest)
    ensures IsRun(s, events) && After(s, events) == After(Step(s, e), rest)
  {
    RunCons(s, e, rest);
    events := [e] + rest;
  }

  /** Once the handles are taken, any later shutdown runs through without waiting:
      queue, workers and jobs are as they were when it returns. */
  lemma {:induction false} LaterShutdownDoesNotWait(s: Pool, c: nat)
    requires Good(s) && !s.handles && c !in s.shutdowns
    ensures var events := [Stop(c, false)] + ([Drop(c)] + ([Take(c)] + ([Return(c)] + [])));
            && IsRun(s, events)
            && After(s, events) == s.(stopping := true, shutdowns := s.shutdowns[c := Returned(false, true)])
  {
    var s1 := Step(s, Stop(c, false));
    var s2 := Step(s1, Drop(c));
    var s3 := Step(s2, Take(c));
    RunCons(s3, Return(c), []);
    RunCons(s2, Take(c), [Return(c)] + []);
    RunCons(s1, Drop(c), [Take(c)] + ([Return(c)] + []));
    RunCons(s, Stop(c, false), [Drop(c)] + ([Take(c)] + ([Return(c)] + [])));
    assert s3.shutdowns[c := Returned(false, true)] == s.shutdowns[c := Returned(false, true)];
  }

  /** And that can be while a job still runs. */
  lemma {:induction false} HandlesTakenWhileRunning() returns (s: Pool, events: seq<Event>)
    ensures Start(s) && IsRun(s, events)
    ensures var s' := After(s, events); !s'.handles && s'.accepted == [7] && s'.done == []
  {
    s := Pool(1, [Waiting], [], true, false, None, true, map[], map[], [], [], []);
    var s1 := Step(s, Submit(7, true));
    var s2 := Step(s1, Lock(7));
    var s3 := Step(s2, Dequeue(0));
    var s4 := Step(s3, Stop(1, false));
    var s5 := Step(s4, Drop(1));
    events := [Take(1)] + [];
    RunCons(s5, Take(1), []);
    events := RunBack(s4, Drop(1), events);
    events := RunBack(s3, Stop(1, false), events);
    events := RunBack(s2, Dequeue(0), events);
    events := RunBack(s1, Lock(7), events);
    events := RunBack(s, Submit(7, true), events);
  }
}
