/**
  The queue as the program runs it: one object with the table and the directory, changed in place
  by `enqueue_job`, `send_raw` and `process_queue_tick`. Each method is tied to the steps of the
  transition system, so that its safety theorems hold of every sequence of calls.
 */
module QueueWorker {
  import opened Text
  import opened Backoff
  import opened Powers
  import opened OutboundQueue

  // ---------- reaching one world from another ----------

  ghost predicate Reaches(w: World, w': World) {
    exists run :: Possible(w, run) && After(w, run) == w'
  }

  lemma ReachesSelf(w: World)
    ensures Reaches(w, w)
  {
    assert Possible(w, []) && After(w, []) == w;
  }

  lemma ReachesNext(w: World, w': World, a: Action)
    requires Reaches(w, w') && Enabled(w', a)
    ensures Reaches(w, Next(w', a))
  {
    hide Enabled, Next;
    var run :| Possible(w, run) && After(w, run) == w';
    assert (run + [a])[..|run|] == run;
    assert Possible(w, run + [a]) && After(w, run + [a]) == Next(w', a);
  }

  lemma {:induction false} ReachesTransitive(u: World, w: World, run: seq<Action>)
    requires Reaches(u, w) && Possible(w, run)
    ensures Reaches(u, After(w, run))
    decreases |run|
  {
    hide Enabled, Next;
    if run == [] {
    } else {
      ReachesTransitive(u, w, run[..|run| - 1]);
      ReachesNext(u, After(w, run[..|run| - 1]), run[|run| - 1]);
    }
  }

  /** Whatever is reached from the empty queue has a safe log and an intact table. */
  lemma ReachedIsSafe(max: nat, w: World)
    requires max >= 1 && Reaches(Start(max), w)
    ensures SafeLog(w.log, max) && Inv(w)
  {
    hide After, Possible;
    var run :| Possible(Start(max), run) && After(Start(max), run) == w;
    QueueSafety(max, run);
    StartInv(max);
    RunKeepsInv(Start(max), run);
  }

  // ---------- one call on values ----------

  /** What the database, the disk, the remote server and the clock do for one job of a batch. */
  datatype Answer = Sent | Error(text: string)

  datatype JobFate = JobFate(lockOk: bool, readOk: bool, answer: Answer, deleteOk: bool, removeOk: bool,
                             settleOk: bool, now: nat)

  /** After a delivery that returned Ok: the row goes, then the file. */
  function SentSteps(w: World, deleteOk: bool, removeOk: bool): (w': World)
    requires w.worker.Calling?
    ensures w'.worker == Scanning(w.worker.rest)
  {
    var accepted := Next(w, DeliveryOk);
    var cleaning := Next(accepted, DeleteJob(deleteOk));
    Next(cleaning, RemoveFile(removeOk))
  }

  /** After a delivery that failed: a retry is scheduled or the job is failed for good. */
  function RefusedSteps(w: World, error: string, settleOk: bool, now: nat): (w': World)
    requires w.worker.Calling?
    ensures w'.worker == Scanning(w.worker.rest)
  {
    Next(Next(w, DeliveryErr(error)), Settle(settleOk, now))
  }

  function AttemptSteps(w: World, fate: JobFate): (w': World)
    requires w.worker.Loaded?
    ensures w'.worker == Scanning(w.worker.rest)
  {
    var called := Next(w, StartDelivery);
    match fate.answer
    case Sent => SentSteps(called, fate.deleteOk, fate.removeOk)
    case Error(text) => RefusedSteps(called, text, fate.settleOk, fate.now)
  }

  function LockedSteps(w: World, fate: JobFate): (w': World)
    requires w.worker.Locked?
    ensures w'.worker == Scanning(w.worker.rest)
  {
    var read := Next(w, ReadFile(fate.readOk));
    if read.worker.Missing? then Next(read, MarkMissing(fate.settleOk, fate.now)) else AttemptSteps(read, fate)
  }

  /** The steps taken for the first job of the batch. */
  function JobSteps(w: World, fate: JobFate): (w': World)
    requires w.worker.Scanning? && w.worker.rest != []
    ensures w'.worker == Scanning(w.worker.rest[1..])
  {
    var locked := Next(w, Lock(fate.lockOk));
    if fate.lockOk then LockedSteps(locked, fate) else locked
  }

  function ScanSteps(w: World, fates: nat -> JobFate, i: nat): (w': World)
    requires w.worker.Scanning?
    ensures w'.worker.Idle?
    decreases |w.worker.rest|
  {
    if w.worker.rest == [] then Next(w, EndScan)
    else ScanSteps(JobSteps(w, fates(i)), fates, i + 1)
  }

  /** A whole tick: fetch a batch, then job after job; a failed or empty fetch does nothing. */
  function TickSteps(w: World, fetched: Option<seq<Job>>, fates: nat -> JobFate, now: nat): (w': World)
    requires w.worker.Idle? && (fetched.Some? ==> Fetchable(w.table, fetched.value, now, BATCH))
    ensures w'.worker.Idle?
  {
    match fetched
    case None => w
    case Some(jobs) =>
      var w' := Next(w, Fetch(jobs, now));
      if jobs == [] then w' else ScanSteps(w', fates, 0)
  }

  datatype EnqueueFate = EnqueueFate(mkdirOk: bool, write: Option<string>, insertOk: bool, removeOk: bool, now: nat)

  /** `enqueue_job` with a fresh identifier: the file first, then the row, and the file away again if the row fails. */
  function EnqueueSteps(w: World, id: Id, msg: Msg, fate: EnqueueFate): (w': World)
    requires Unused(w, id)
    ensures w'.worker == w.worker
  {
    if !fate.mkdirOk then w
    else
      var written := Next(Next(w, Begin(id, msg)), WriteFile(id, fate.write));
      if fate.write.Some? then written
      else
        var inserted := Next(written, InsertJob(id, fate.insertOk, fate.now));
        if fate.insertOk then inserted else Next(inserted, RemoveOrphan(id, fate.removeOk))
  }

  /** `send_raw`: a direct delivery with the queue as fall-back for errors that are not permanent. */
  function SendSteps(w: World, id: Id, msg: Msg, answer: Answer, fate: EnqueueFate): (w': World)
    requires Unused(w, id)
    ensures w'.worker == w.worker
  {
    match answer
    case Sent => w
    case Error(text) => if IsPermanentDeliveryError(text) then w else EnqueueSteps(w, id, msg, fate)
  }

  // ---------- calls are runs ----------

  lemma SentIsRun(u: World, w: World, deleteOk: bool, removeOk: bool)
    requires Reaches(u, w) && w.worker.Calling?
    ensures Reaches(u, SentSteps(w, deleteOk, removeOk))
  {
    hide Reaches;
    ReachesNext(u, w, DeliveryOk);
    var accepted := Next(w, DeliveryOk);
    ReachesNext(u, accepted, DeleteJob(deleteOk));
    ReachesNext(u, Next(accepted, DeleteJob(deleteOk)), RemoveFile(removeOk));
  }

  lemma RefusedIsRun(u: World, w: World, error: string, settleOk: bool, now: nat)
    requires Reaches(u, w) && w.worker.Calling?
    ensures Reaches(u, RefusedSteps(w, error, settleOk, now))
  {
    hide Reaches, Verdict, UpdateJobStatus;
    ReachesNext(u, w, DeliveryErr(error));
    ReachesNext(u, Next(w, DeliveryErr(error)), Settle(settleOk, now));
  }

  lemma LockedIsRun(u: World, w: World, fate: JobFate)
    requires Reaches(u, w) && w.worker.Locked?
    ensures Reaches(u, LockedSteps(w, fate))
  {
    hide Reaches, SentSteps, RefusedSteps, UpdateJobStatus;
    ReachesNext(u, w, ReadFile(fate.readOk));
    var read := Next(w, ReadFile(fate.readOk));
    if read.worker.Missing? {
      ReachesNext(u, read, MarkMissing(fate.settleOk, fate.now));
    } else {
      ReachesNext(u, read, StartDelivery);
      var called := Next(read, StartDelivery);
      match fate.answer
      case Sent => SentIsRun(u, called, fate.deleteOk, fate.removeOk);
      case Error(text) => RefusedIsRun(u, called, text, fate.settleOk, fate.now);
    }
  }

  lemma JobIsRun(u: World, w: World, fate: JobFate)
    requires Reaches(u, w) && w.worker.Scanning? && w.worker.rest != []
    ensures Reaches(u, JobSteps(w, fate))
  {
    hide Reaches, UpdateJobStatus, LockedSteps;
    ReachesNext(u, w, Lock(fate.lockOk));
    if fate.lockOk {
      LockedIsRun(u, Next(w, Lock(true)), fate);
    }
  }

  lemma {:induction false} ScanIsRun(u: World, w: World, fates: nat -> JobFate, i: nat)
    requires Reaches(u, w) && w.worker.Scanning?
    ensures Reaches(u, ScanSteps(w, fates, i))
    decreases |w.worker.rest|
  {
    hide Reaches, JobSteps, Next;
    if w.worker.rest == [] {
      ReachesNext(u, w, EndScan);
    } else {
      JobIsRun(u, w, fates(i));
      ScanIsRun(u, JobSteps(w, fates(i)), fates, i + 1);
    }
  }

  /** A tick is a run of the transition system. */
  lemma TickIsRun(w: World, fetched: Option<seq<Job>>, fates: nat -> JobFate, now: nat)
    requires w.worker.Idle? && (fetched.Some? ==> Fetchable(w.table, fetched.value, now, BATCH))
    ensures Reaches(w, TickSteps(w, fetched, fates, now))
  {
    hide Reaches, ScanSteps, Fetchable;
    ReachesSelf(w);
    if fetched.Some? {
      ReachesNext(w, w, Fetch(fetched.value, now));
      if fetched.value != [] {
        ScanIsRun(w, Next(w, Fetch(fetched.value, now)), fates, 0);
      }
    }
  }

  /** Enqueueing is a run, and so is what it leaves when a step fails. */
  lemma EnqueueIsRun(w: World, id: Id, msg: Msg, fate: EnqueueFate)
    requires Unused(w, id)
    ensures Reaches(w, EnqueueSteps(w, id, msg, fate))
  {
    hide Reaches, MsgOf;
    ReachesSelf(w);
    if fate.mkdirOk {
      ReachesNext(w, w, Begin(id, msg));
      var begun := Next(w, Begin(id, msg));
      ReachesNext(w, begun, WriteFile(id, fate.write));
      var written := Next(begun, WriteFile(id, fate.write));
      if fate.write.None? {
        ReachesNext(w, written, InsertJob(id, fate.insertOk, fate.now));
        if !fate.insertOk {
          ReachesNext(w, Next(written, InsertJob(id, false, fate.now)), RemoveOrphan(id, fate.removeOk));
        }
      }
    }
  }

  // ---------- any calls in any order ----------

  datatype Call =
    | Tick(fetched: Option<seq<Job>>, fates: nat -> JobFate, now: nat)
    | Enqueue(id: Id, msg: Msg, fate: EnqueueFate)
    | Send(id: Id, msg: Msg, answer: Answer, fate: EnqueueFate)

  /** The database answers a tick's query as it must, and identifiers are fresh. */
  predicate Callable(w: World, c: Call) {
    match c
    case Tick(fetched, _, now) => fetched.Some? ==> Fetchable(w.table, fetched.value, now, BATCH)
    case Enqueue(id, _, _) => Unused(w, id)
    case Send(id, _, _, _) => Unused(w, id)
  }

  function CallSteps(w: World, c: Call): (w': World)
    requires w.worker.Idle? && Callable(w, c)
    ensures w'.worker.Idle?
  {
    match c
    case Tick(fetched, fates, now) => TickSteps(w, fetched, fates, now)
    case Enqueue(id, msg, fate) => EnqueueSteps(w, id, msg, fate)
    case Send(id, msg, answer, fate) => SendSteps(w, id, msg, answer, fate)
  }

  predicate AllCallable(start: World, calls: seq<Call>)
    requires start.worker.Idle?
    decreases |calls|, 0
  {
    |calls| == 0 ||
    (AllCallable(start, calls[..|calls| - 1])
     && Callable(AfterCalls(start, calls[..|calls| - 1]), calls[|calls| - 1]))
  }

  function AfterCalls(start: World, calls: seq<Call>): (w: World)
    requires start.worker.Idle? && AllCallable(start, calls)
    ensures w.worker.Idle?
    decreases |calls|, 1
  {
    if |calls| == 0 then start
    else CallSteps(AfterCalls(start, calls[..|calls| - 1]), calls[|calls| - 1])
  }

  lemma CallIsRun(u: World, w: World, c: Call)
    requires Reaches(u, w) && w.worker.Idle? && Callable(w, c)
    ensures Reaches(u, CallSteps(w, c))
  {
    hide Possible, After, TickSteps, EnqueueSteps, Fetchable, Unused, IsPermanentDeliveryError;
    match c {
      case Tick(fetched, fates, now) => TickIsRun(w, fetched, fates, now);
      case Enqueue(id, msg, fate) => EnqueueIsRun(w, id, msg, fate);
      case Send(id, msg, answer, fate) =>
        EnqueueIsRun(w, id, msg, fate);
        ReachesSelf(w);
    }
    var run :| Possible(w, run) && After(w, run) == CallSteps(w, c);
    ReachesTransitive(u, w, run);
  }

  lemma {:induction false} CallsAreRuns(start: World, calls: seq<Call>)
    requires start.worker.Idle? && AllCallable(start, calls)
    ensures Reaches(start, AfterCalls(start, calls))
    decreases |calls|
  {
    hide Reaches, CallSteps, Callable;
    if |calls| == 0 {
      ReachesSelf(start);
    } else {
      var front := calls[..|calls| - 1];
      CallsAreRuns(start, front);
      CallIsRun(start, AfterCalls(start, front), calls[|calls| - 1]);
    }
  }

  /** After any ticks, enqueueings and sends in any order, with any failures, the log is safe and the table intact. */
  lemma CallsAreSafe(max: nat, calls: seq<Call>)
    requires max >= 1 && AllCallable(Start(max), calls)
    ensures var w := AfterCalls(Start(max), calls); SafeLog(w.log, max) && Inv(w)
  {
    hide AllCallable, AfterCalls, Reaches, SafeLog, Inv;
    CallsAreRuns(Start(max), calls);
    ReachedIsSafe(max, AfterCalls(Start(max), calls));
  }

  /** Enqueueing succeeds with exactly one new row and file, or adds no row and touches no other file. */
  lemma EnqueueAllOrNothing(w: World, id: Id, msg: Msg, fate: EnqueueFate)
    requires Unused(w, id)
    ensures var w' := EnqueueSteps(w, id, msg, fate);
            var ok := fate.mkdirOk && fate.write.None? && fate.insertOk;
            && (ok ==>
                  && w'.table == w.table[id := Row(msg.from, msg.to, 0, w.maxAttempts, Pending, fate.now, None)]
                  && w'.files == w.files[id := msg.body] && w'.log == w.log + [Enqueued(id, msg, fate.now)])
            && (!ok ==> w'.table == w.table && w'.files - {id} == w.files && w'.log == w.log)
            && (!ok && fate.write.None? && fate.removeOk ==> id !in w'.files)
            && w'.worker == w.worker && w'.enqueuers == w.enqueuers
  {
    hide MsgOf;
    var w' := EnqueueSteps(w, id, msg, fate);
    assert w.files - {id} == w.files && w.enqueuers - {id} == w.enqueuers;
    if fate.mkdirOk && fate.write.None? && !fate.insertOk {
      assert w.files[id := msg.body] - {id} == w.files;
    }
    assert w'.enqueuers == w.enqueuers;
  }

  /** The effect of the steps after a delivery, in one piece. */
  lemma SentEffect(w: World, deleteOk: bool, removeOk: bool)
    requires w.worker.Calling?
    ensures SentSteps(w, deleteOk, removeOk) ==
            w.(log := w.log + [Delivered(w.worker.job.id)],
               table := if deleteOk then w.table - {w.worker.job.id} else w.table,
               files := if removeOk then w.files - {w.worker.job.id} else w.files,
               worker := Scanning(w.worker.rest))
  {
  }

  lemma RefusedEffect(w: World, error: string, settleOk: bool, now: nat)
    requires w.worker.Calling?
    ensures var job := w.worker.job;
            var (status, attempts, delay) := Verdict(job, error);
            RefusedSteps(w, error, settleOk, now) ==
            w.(table := if settleOk
                 then UpdateJobStatus(w.table, job.id, status, attempts, Some(error), now + delay) else w.table,
               log := if settleOk && status == Pending then w.log + [Scheduled(job.id, now, delay)] else w.log,
               worker := Scanning(w.worker.rest))
  {
    hide Verdict, UpdateJobStatus;
  }

  // ---------- what one job comes to ----------

  /** The batch's first job has its row and its file, and the lock and the read succeed. */
  predicate Attempted(w: World, fate: JobFate) {
    && w.worker.Scanning? && w.worker.rest != []
    && w.worker.rest[0].id in w.table && w.worker.rest[0].id in w.files
    && fate.lockOk && fate.readOk
  }

  /** What is left of the first job's row after its attempt. */
  function Settled(w: World, status: Status, nextRetry: nat, err: string): map<Id, Row>
    requires w.worker.Scanning? && w.worker.rest != [] && w.worker.rest[0].id in w.table
  {
    var job := w.worker.rest[0];
    var row := w.table[job.id];
    w.table[job.id := Row(row.from, row.to, job.row.attempts + 1, row.maxAttempts, status, nextRetry, Some(err))]
  }

  /** The first job's delivery has begun: the row is locked and the call is made with the file's bytes. */
  function Begun(w: World): World
    requires w.worker.Scanning? && w.worker.rest != []
    requires w.worker.rest[0].id in w.table && w.worker.rest[0].id in w.files
  {
    var job := w.worker.rest[0];
    var row := w.table[job.id];
    w.(table := w.table[job.id := Row(row.from, row.to, job.row.attempts, row.maxAttempts, Sending,
                                      job.row.nextRetry, job.row.lastError)],
       log := w.log + [Called(job.id, Msg(job.row.from, job.row.to, w.files[job.id]))],
       worker := Calling(job, w.worker.rest[1..]))
  }

  lemma AttemptBegins(w: World, fate: JobFate)
    requires Attempted(w, fate)
    ensures JobSteps(w, fate) ==
            match fate.answer
            case Sent => SentSteps(Begun(w), fate.deleteOk, fate.removeOk)
            case Error(text) => RefusedSteps(Begun(w), text, fate.settleOk, fate.now)
  {
    hide SentSteps, RefusedSteps;
    assert Next(Next(Next(w, Lock(true)), ReadFile(true)), StartDelivery) == Begun(w);
  }

  lemma UpdatedTwice(w: World, status: Status, attempts: nat, lastError: Option<string>, nextRetry: nat)
    requires w.worker.Scanning? && w.worker.rest != []
    requires w.worker.rest[0].id in w.table && w.worker.rest[0].id in w.files
    ensures var id := w.worker.rest[0].id;
            var row := w.table[id];
            UpdateJobStatus(Begun(w).table, id, status, attempts, lastError, nextRetry) ==
            w.table[id := Row(row.from, row.to, attempts, row.maxAttempts, status, nextRetry, lastError)]
  {
  }

  /** An accepted job: its row and its file are gone, and it was called with exactly its file's bytes. */
  lemma AcceptedIsRemoved(w: World, fate: JobFate)
    requires Attempted(w, fate) && fate.answer.Sent? && fate.deleteOk && fate.removeOk
    ensures var job := w.worker.rest[0];
            JobSteps(w, fate) ==
            w.(table := w.table - {job.id}, files := w.files - {job.id}, worker := Scanning(w.worker.rest[1..]),
               log := w.log + [Called(job.id, Msg(job.row.from, job.row.to, w.files[job.id]))] + [Delivered(job.id)])
  {
    hide JobSteps, SentSteps;
    AttemptBegins(w, fate);
    SentEffect(Begun(w), true, true);
    assert Begun(w).table - {w.worker.rest[0].id} == w.table - {w.worker.rest[0].id};
  }

  /** A soft refusal with attempts left: due again after the back-off from this moment on, nothing else changed. */
  lemma SoftRefusalReschedules(w: World, fate: JobFate)
    requires Attempted(w, fate) && fate.answer.Error? && fate.settleOk
    requires !IsPermanentDeliveryError(fate.answer.text)
    requires w.worker.rest[0].row.attempts + 1 < w.worker.rest[0].row.maxAttempts
    ensures var w' := JobSteps(w, fate);
            var attempts := w.worker.rest[0].row.attempts;
            && w'.table == Settled(w, Pending, fate.now + Min(10 * Pow2(attempts), 1440), fate.answer.text)
            && w'.files == w.files && w'.worker == Scanning(w.worker.rest[1..])
  {
    hide JobSteps, RefusedSteps, UpdateJobStatus, IsPermanentDeliveryError, Delay, Pow2;
    var job := w.worker.rest[0];
    AttemptBegins(w, fate);
    RefusedEffect(Begun(w), fate.answer.text, true, fate.now);
    DelayIsCappedExponential(job.row.attempts + 1);
    UpdatedTwice(w, Pending, job.row.attempts + 1, Some(fate.answer.text), fate.now + Delay(job.row.attempts + 1));
  }

  /** A permanent refusal, or one that uses up the attempts: failed for good, nothing else changed. */
  lemma LastRefusalFails(w: World, fate: JobFate)
    requires Attempted(w, fate) && fate.answer.Error? && fate.settleOk
    requires IsPermanentDeliveryError(fate.answer.text)
             || w.worker.rest[0].row.attempts + 1 >= w.worker.rest[0].row.maxAttempts
    ensures var w' := JobSteps(w, fate);
            && w'.table == Settled(w, Failed, fate.now + 365 * 1440, fate.answer.text)
            && w'.files == w.files && w'.worker == Scanning(w.worker.rest[1..])
  {
    hide JobSteps, RefusedSteps, UpdateJobStatus, IsPermanentDeliveryError, Delay;
    AttemptBegins(w, fate);
    RefusedEffect(Begun(w), fate.answer.text, true, fate.now);
    UpdatedTwice(w, Failed, w.worker.rest[0].row.attempts + 1, Some(fate.answer.text), fate.now + YEAR);
  }

  /** A job whose file cannot be read: failed without an attempt, nothing else changed. */
  lemma UnreadableFails(w: World, fate: JobFate)
    requires w.worker.Scanning? && w.worker.rest != [] && w.worker.rest[0].id in w.table
    requires fate.lockOk && fate.settleOk && (!fate.readOk || w.worker.rest[0].id !in w.files)
    ensures var w' := JobSteps(w, fate);
            && w'.table == Settled(w, Failed, fate.now + 1440, "EML file missing from disk storage")
            && w'.files == w.files && w'.log == w.log && w'.worker == Scanning(w.worker.rest[1..])
  {
  }

  /** A job that cannot be locked is left exactly as it was. */
  lemma UnlockedIsLeft(w: World, fate: JobFate)
    requires w.worker.Scanning? && w.worker.rest != [] && !fate.lockOk
    ensures JobSteps(w, fate) == w.(worker := Scanning(w.worker.rest[1..]))
  {
  }

  /** A refused job whose result cannot be recorded keeps its attempts, its due time and its lock. */
  lemma UnsettledStaysLocked(w: World, fate: JobFate)
    requires Attempted(w, fate) && fate.answer.Error? && !fate.settleOk
    ensures JobSteps(w, fate) == Begun(w).(worker := Scanning(w.worker.rest[1..]))
  {
    hide JobSteps, RefusedSteps, UpdateJobStatus, IsPermanentDeliveryError, Delay;
    AttemptBegins(w, fate);
    RefusedEffect(Begun(w), fate.answer.text, false, fate.now);
  }

  // ---------- what a whole tick comes to ----------

  /** Two worlds agree on one message's row and file. */
  predicate SameAt(u: World, w: World, id: Id) {
    && (id in u.table <==> id in w.table) && (id in u.table ==> u.table[id] == w.table[id])
    && (id in u.files <==> id in w.files) && (id in u.files ==> u.files[id] == w.files[id])
  }

  lemma SentIsLocal(u: World, w: World, deleteOk: bool, removeOk: bool, id: Id)
    requires u.worker.Calling? && u.worker == w.worker
    ensures id != w.worker.job.id ==> SameAt(SentSteps(w, deleteOk, removeOk), w, id)
    ensures SameAt(u, w, id) ==> SameAt(SentSteps(u, deleteOk, removeOk), SentSteps(w, deleteOk, removeOk), id)
  {
    hide SentSteps;
    SentEffect(u, deleteOk, removeOk);
    SentEffect(w, deleteOk, removeOk);
  }

  lemma RefusedIsLocal(u: World, w: World, error: string, settleOk: bool, now: nat, id: Id)
    requires u.worker.Calling? && u.worker == w.worker
    ensures id != w.worker.job.id ==> SameAt(RefusedSteps(w, error, settleOk, now), w, id)
    ensures SameAt(u, w, id) ==>
              SameAt(RefusedSteps(u, error, settleOk, now), RefusedSteps(w, error, settleOk, now), id)
  {
    hide RefusedSteps, Verdict;
    RefusedEffect(u, error, settleOk, now);
    RefusedEffect(w, error, settleOk, now);
  }

  lemma AttemptIsLocal(u: World, w: World, fate: JobFate, id: Id)
    requires u.worker.Loaded? && u.worker == w.worker
    ensures id != w.worker.job.id ==> SameAt(AttemptSteps(w, fate), w, id)
    ensures SameAt(u, w, id) ==> SameAt(AttemptSteps(u, fate), AttemptSteps(w, fate), id)
  {
    hide SentSteps, RefusedSteps;
    var calledU, calledW := Next(u, StartDelivery), Next(w, StartDelivery);
    match fate.answer
    case Sent => SentIsLocal(calledU, calledW, fate.deleteOk, fate.removeOk, id);
    case Error(text) => RefusedIsLocal(calledU, calledW, text, fate.settleOk, fate.now, id);
  }

  lemma LockedIsOwn(w: World, fate: JobFate, id: Id)
    requires w.worker.Locked? && id != w.worker.job.id
    ensures SameAt(LockedSteps(w, fate), w, id)
  {
    hide AttemptSteps;
    var read := Next(w, ReadFile(fate.readOk));
    if read.worker.Loaded? {
      AttemptIsLocal(read, read, fate, id);
    }
  }

  lemma LockedIsLocal(u: World, w: World, fate: JobFate, id: Id)
    requires u.worker.Locked? && u.worker == w.worker
    requires id == w.worker.job.id && SameAt(u, w, id)
    ensures SameAt(LockedSteps(u, fate), LockedSteps(w, fate), id)
  {
    hide AttemptSteps;
    var readU, readW := Next(u, ReadFile(fate.readOk)), Next(w, ReadFile(fate.readOk));
    if readW.worker.Loaded? {
      AttemptIsLocal(readU, readW, fate, id);
    }
  }

  /** A job leaves all other messages alone, and what it does to its own depends on nothing else. */
  lemma JobIsLocal(u: World, w: World, fate: JobFate, id: Id)
    requires u.worker.Scanning? && u.worker.rest != [] && u.worker == w.worker
    ensures id != w.worker.rest[0].id ==> SameAt(JobSteps(w, fate), w, id)
    ensures id == w.worker.rest[0].id && SameAt(u, w, id) ==> SameAt(JobSteps(u, fate), JobSteps(w, fate), id)
  {
    hide LockedSteps;
    if fate.lockOk {
      if id != w.worker.rest[0].id {
        LockedIsOwn(Next(w, Lock(true)), fate, id);
      } else if SameAt(u, w, id) {
        LockedIsLocal(Next(u, Lock(true)), Next(w, Lock(true)), fate, id);
      }
    }
  }

  /** The batch from position `k` on, as if the other jobs had not been there. */
  function Alone(w: World, jobs: seq<Job>, k: nat): World
    requires k <= |jobs|
  {
    w.(worker := Scanning(jobs[k..]))
  }

  lemma {:induction false} ScanSettlesEach(start: World, w: World, jobs: seq<Job>, fates: nat -> JobFate, i: nat,
                                           id: Id)
    requires i <= |jobs| && DistinctIds(jobs[i..]) && w.worker == Scanning(jobs[i..])
    requires SameAt(start, w, id)
    ensures RowIn(jobs[i..], id).None? ==> SameAt(ScanSteps(w, fates, i), start, id)
    ensures forall k :: i <= k < |jobs| && jobs[k].id == id ==>
              SameAt(ScanSteps(w, fates, i), JobSteps(Alone(start, jobs, k), fates(k)), id)
    decreases |jobs| - i
  {
    hide JobSteps;
    if i == |jobs| {
    } else {
      var one := JobSteps(w, fates(i));
      assert jobs[i..][1..] == jobs[i + 1..];
      JobIsLocal(Alone(start, jobs, i), w, fates(i), id);
      if jobs[i].id == id {
        ScanSettlesEach(one, one, jobs, fates, i + 1, id);
        forall k | i < k < |jobs|
          ensures jobs[k].id != id
        {
          IsAmong(jobs[i + 1..], k - i - 1);
        }
      } else {
        ScanSettlesEach(start, one, jobs, fates, i + 1, id);
      }
    }
  }

  /** What becomes of one message of a batch, by its own fortune. */
  predicate OutcomeOf(w: World, w': World, job: Job, fate: JobFate) {
    var id, row := job.id, job.row;
    var read := fate.lockOk && fate.readOk && id in w.files;
    && (!fate.lockOk ==> SameAt(w', w, id))
    && (fate.lockOk && fate.settleOk && !read ==>
          RowIs(w', id, row.(status := Failed, attempts := row.attempts + 1, nextRetry := fate.now + 1440,
                             lastError := Some("EML file missing from disk storage"))))
    && (read && fate.answer.Sent? && fate.deleteOk && fate.removeOk ==> id !in w'.table && id !in w'.files)
    && (read && fate.answer.Error? && fate.settleOk ==>
          && id in w'.files && w'.files[id] == w.files[id]
          && if IsPermanentDeliveryError(fate.answer.text) || row.attempts + 1 >= row.maxAttempts then
               RowIs(w', id, row.(status := Failed, attempts := row.attempts + 1, nextRetry := fate.now + 365 * 1440,
                                  lastError := Some(fate.answer.text)))
             else
               RowIs(w', id, row.(status := Pending, attempts := row.attempts + 1,
                                  nextRetry := fate.now + Min(10 * Pow2(row.attempts), 1440),
                                  lastError := Some(fate.answer.text))))
  }

  predicate RowIs(w: World, id: Id, row: Row) {
    id in w.table && w.table[id] == row
  }

  lemma JobOutcome(w: World, fate: JobFate)
    requires w.worker.Scanning? && w.worker.rest != []
    requires RowIs(w, w.worker.rest[0].id, w.worker.rest[0].row)
    ensures OutcomeOf(w, JobSteps(w, fate), w.worker.rest[0], fate)
  {
    hide JobSteps, IsPermanentDeliveryError, Pow2;
    var job := w.worker.rest[0];
    if !fate.lockOk {
      UnlockedIsLeft(w, fate);
    } else if !fate.readOk || job.id !in w.files {
      if fate.settleOk {
        UnreadableFails(w, fate);
      }
    } else if fate.answer.Sent? {
      if fate.deleteOk && fate.removeOk {
        AcceptedIsRemoved(w, fate);
      }
    } else if fate.settleOk {
      if IsPermanentDeliveryError(fate.answer.text) || job.row.attempts + 1 >= job.row.maxAttempts {
        LastRefusalFails(w, fate);
      } else {
        SoftRefusalReschedules(w, fate);
      }
    }
  }

  /** A tick deals with every job of its batch, each by its own fortune, and touches nothing else. */
  lemma TickSettlesEach(w: World, jobs: seq<Job>, fates: nat -> JobFate, now: nat)
    requires w.worker.Idle? && Fetchable(w.table, jobs, now, BATCH)
    ensures var w' := TickSteps(w, Some(jobs), fates, now);
            && (forall id :: (forall k :: 0 <= k < |jobs| ==> jobs[k].id != id) ==> SameAt(w', w, id))
            && (forall k :: 0 <= k < |jobs| ==> OutcomeOf(w, w', jobs[k], fates(k)))
  {
    hide ScanSteps, OutcomeOf, JobSteps;
    var w' := TickSteps(w, Some(jobs), fates, now);
    if jobs != [] {
      var fetched := Next(w, Fetch(jobs, now));
      assert jobs[0..] == jobs;
      forall id | forall k :: 0 <= k < |jobs| ==> jobs[k].id != id
        ensures SameAt(w', w, id)
      {
        ScanSettlesEach(fetched, fetched, jobs, fates, 0, id);
        NotAmong(jobs, id);
      }
      forall k | 0 <= k < |jobs|
        ensures OutcomeOf(w, w', jobs[k], fates(k))
      {
        ScanSettlesEach(fetched, fetched, jobs, fates, 0, jobs[k].id);
        var alone := Alone(fetched, jobs, k);
        JobOutcome(alone, fates(k));
        OutcomeCarries(w, alone, w', JobSteps(alone, fates(k)), jobs[k], fates(k));
      }
    }
  }

  lemma OutcomeCarries(u: World, w: World, u': World, w': World, job: Job, fate: JobFate)
    requires SameAt(u, w, job.id) && SameAt(u', w', job.id) && OutcomeOf(w, w', job, fate)
    ensures OutcomeOf(u, u', job, fate)
  {
    hide IsPermanentDeliveryError, Pow2;
  }

  lemma {:induction false} NotAmong(jobs: seq<Job>, id: Id)
    requires forall k :: 0 <= k < |jobs| ==> jobs[k].id != id
    ensures RowIn(jobs, id).None?
  {
    if jobs != [] {
      assert forall k :: 0 <= k < |jobs| - 1 ==> jobs[1..][k] == jobs[k + 1];
      NotAmong(jobs[1..], id);
    }
  }

  lemma {:induction false} IsAmong(jobs: seq<Job>, k: nat)
    requires k < |jobs|
    ensures RowIn(jobs, jobs[k].id).Some?
  {
    if k > 0 {
      IsAmong(jobs[1..], k - 1);
    }
  }

  // ---------- the program's object ----------

  class Queue {
    const maxAttempts: nat
    var table: map<Id, Row>
    var files: map<Id, string>
    ghost var log: seq<Event>

    constructor (maxAttempts: nat)
      ensures Abs(Idle) == Start(maxAttempts)
    {
      this.maxAttempts := maxAttempts;
      table, files, log := map[], map[], [];
    }

    ghost function Abs(worker: Worker): World
      reads this
    {
      World(maxAttempts, table, files, map[], worker, log)
    }

    method UpdateRow(id: Id, status: Status, attempts: nat, lastError: Option<string>, nextRetry: nat, dbOk: bool)
      modifies this`table
      ensures table ==
              if dbOk then UpdateJobStatus(old(table), id, status, attempts, lastError, nextRetry) else old(table)
    {
      if dbOk && id in table {
        var row := table[id];
        table := table[id := row.(status := status, attempts := attempts,
                                  lastError := lastError, nextRetry := nextRetry)];
      }
    }

    /** The back-off delay, in minutes. */
    method CalculateNextRetry(attempts: nat, now: nat) returns (at: nat)
      ensures at == now + Delay(attempts)
    {
      at := now + Delay(attempts);
    }

    /** One job: lock the row, read the file, deliver, and record the result; failures are logged and skipped. */
    method ProcessJob(job: Job, fate: JobFate, ghost rest: seq<Job>)
      modifies this
      ensures Abs(Scanning(rest)) == JobSteps(old(Abs(Scanning([job] + rest))), fate)
    {
      hide LockedSteps;
      assert ([job] + rest)[1..] == rest;
      if !fate.lockOk {
        return;
      }
      UpdateRow(job.id, Sending, job.row.attempts, job.row.lastError, job.row.nextRetry, true);
      AttemptLocked(job, fate, rest);
    }

    method AttemptLocked(job: Job, fate: JobFate, ghost rest: seq<Job>)
      modifies this
      ensures Abs(Scanning(rest)) == LockedSteps(old(Abs(Locked(job, rest))), fate)
    {
      hide SentSteps, RefusedSteps, IsPermanentDeliveryError, Delay, UpdateJobStatus;
      var id := job.id;
      if !fate.readOk || id !in files {
        var reason := Some("EML file missing from disk storage");
        UpdateRow(id, Failed, job.row.attempts + 1, reason, fate.now + DAY, fate.settleOk);
        return;
      }
      var bytes := files[id];
      log := log + [Called(id, Msg(job.row.from, job.row.to, bytes))];
      match fate.answer {
        case Sent => RecordSent(job, fate.deleteOk, fate.removeOk, rest);
        case Error(err) => RecordRefused(job, err, fate.settleOk, fate.now, rest);
      }
    }

    method RecordSent(job: Job, deleteOk: bool, removeOk: bool, ghost rest: seq<Job>)
      modifies this
      ensures Abs(Scanning(rest)) == SentSteps(old(Abs(Calling(job, rest))), deleteOk, removeOk)
    {
      SentEffect(Abs(Calling(job, rest)), deleteOk, removeOk);
      hide SentSteps;
      log := log + [Delivered(job.id)];
      if deleteOk {
        table := table - {job.id};
      }
      if removeOk {
        files := files - {job.id};
      }
    }

    method RecordRefused(job: Job, err: string, settleOk: bool, now: nat, ghost rest: seq<Job>)
      modifies this
      ensures Abs(Scanning(rest)) == RefusedSteps(old(Abs(Calling(job, rest))), err, settleOk, now)
    {
      RefusedEffect(Abs(Calling(job, rest)), err, settleOk, now);
      hide IsPermanentDeliveryError, Delay, RefusedSteps, UpdateJobStatus;
      var nextAttempt := job.row.attempts + 1;
      if IsPermanentDeliveryError(err) {
        UpdateRow(job.id, Failed, nextAttempt, Some(err), now + YEAR, settleOk);
      } else if nextAttempt >= job.row.maxAttempts {
        UpdateRow(job.id, Failed, nextAttempt, Some(err), now + YEAR, settleOk);
      } else {
        var nextRetry := CalculateNextRetry(nextAttempt, now);
        UpdateRow(job.id, Pending, nextAttempt, Some(err), nextRetry, settleOk);
        if settleOk {
          log := log + [Scheduled(job.id, now, Delay(nextAttempt))];
        }
      }
    }

    /** One tick of the daemon, on the batch the database returned. */
    method ProcessQueueTick(fetched: Option<seq<Job>>, fates: nat -> JobFate, now: nat)
      requires fetched.Some? ==> Fetchable(table, fetched.value, now, BATCH)
      modifies this
      ensures Abs(Idle) == TickSteps(old(Abs(Idle)), fetched, fates, now)
    {
      hide Fetchable, JobSteps;
      if fetched.None? {
        return;
      }
      var jobs := fetched.value;
      log := log + [Fetched(now)];
      if jobs == [] {
        return;
      }
      ghost var whole := ScanSteps(Abs(Scanning(jobs)), fates, 0);
      var i := 0;
      assert jobs[0..] == jobs;
      while i < |jobs|
        invariant 0 <= i <= |jobs|
        invariant ScanSteps(Abs(Scanning(jobs[i..])), fates, i) == whole
      {
        assert [jobs[i]] + jobs[i + 1..] == jobs[i..];
        ProcessJob(jobs[i], fates(i), jobs[i + 1..]);
        i := i + 1;
      }
    }

    /** Saves the body file, then registers the row; rolls the file back if the row is refused. */
    method EnqueueJob(id: Id, from: string, to: string, body: string, fate: EnqueueFate) returns (ok: bool)
      requires Unused(Abs(Idle), id)
      modifies this
      ensures Abs(Idle) == EnqueueSteps(old(Abs(Idle)), id, Msg(from, to, body), fate)
      ensures ok <==> fate.mkdirOk && fate.write.None? && fate.insertOk
    {
      ghost var before := Abs(Idle);
      EnqueueAllOrNothing(before, id, Msg(from, to, body), fate);
      if !fate.mkdirOk {
        return false;
      }
      match fate.write {
        case Some(partial) =>
          files := files[id := partial];
          return false;
        case None =>
          files := files[id := body];
      }
      if !fate.insertOk {
        if fate.removeOk {
          files := files - {id};
        }
        return false;
      }
      table := table[id := NewRow(Msg(from, to, body), maxAttempts, fate.now)];
      log := log + [Enqueued(id, Msg(from, to, body), fate.now)];
      return true;
    }

    /**
      Immediate delivery with the queue as fall-back. Success means delivered, with the queue
      untouched, or queued as exactly one row and file with the same envelope and bytes; failure
      means no row was added.
     */
    method SendRaw(id: Id, to: string, from: string, body: string, answer: Answer, fate: EnqueueFate) returns (ok: bool)
      requires Unused(Abs(Idle), id)
      modifies this
      ensures Abs(Idle) == SendSteps(old(Abs(Idle)), id, Msg(from, to, body), answer, fate)
      ensures answer.Sent? ==> ok && Abs(Idle) == old(Abs(Idle))
      ensures answer.Error? && IsPermanentDeliveryError(answer.text) ==> !ok && Abs(Idle) == old(Abs(Idle))
      ensures ok && answer.Error? ==>
                && table == old(table)[id := Row(from, to, 0, maxAttempts, Pending, fate.now, None)]
                && files == old(files)[id := body]
      ensures answer.Error? && !IsPermanentDeliveryError(answer.text) ==>
                (ok <==> fate.mkdirOk && fate.write.None? && fate.insertOk)
      ensures !ok ==> table == old(table) && files - {id} == old(files)
    {
      hide IsPermanentDeliveryError, EnqueueSteps;
      assert files - {id} == files;
      match answer {
        case Sent =>
          return true;
        case Error(err) =>
          if IsPermanentDeliveryError(err) {
            return false;
          }
          EnqueueAllOrNothing(Abs(Idle), id, Msg(from, to, body), fate);
          ok := EnqueueJob(id, from, to, body, fate);
      }
    }
  }
}
