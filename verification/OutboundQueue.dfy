/**
  The outbound retry queue as a transition system: a table of rows, a directory of body files, any
  number of callers inside `enqueue_job`, one worker inside `process_queue_tick`, and a log of what
  the outside world saw. Every database or file call may fail, and everything may crash between
  any two steps.
 */
module OutboundQueue {
  import opened Text
  import opened Backoff
  import opened Powers

  type Id = nat

  /** An envelope and a body. */
  datatype Msg = Msg(from: string, to: string, body: string)

  datatype Status = Pending | Sending | Failed

  datatype Row = Row(from: string, to: string, attempts: nat, maxAttempts: nat, status: Status,
                     nextRetry: nat, lastError: Option<string>)

  datatype Job = Job(id: Id, row: Row)

  /** The worker's place in its scan; each stage past `Scanning` holds the current job and the rest of the batch. */
  datatype Worker =
    | Idle
    | Scanning(rest: seq<Job>)
    | Locked(job: Job, rest: seq<Job>)
    | Missing(job: Job, rest: seq<Job>)
    | Loaded(job: Job, bytes: string, rest: seq<Job>)
    | Calling(job: Job, rest: seq<Job>)
    | Refused(job: Job, error: string, rest: seq<Job>)
    | Accepted(job: Job, rest: seq<Job>)
    | Cleaning(job: Job, rest: seq<Job>)

  /** A caller's place in `enqueue_job`, under the fresh identifier it drew. */
  datatype Enqueuer = Opening(msg: Msg) | Written(msg: Msg) | Rejected(msg: Msg)

  datatype Event =
    | Enqueued(id: Id, msg: Msg, now: nat)
    | Fetched(now: nat)                 // a batch of the jobs due at this time was fetched
    | Called(id: Id, msg: Msg)          // deliver_once starts with this envelope and body
    | Delivered(id: Id)                 // deliver_once returned Ok
    | Scheduled(id: Id, now: nat, minutes: nat)   // a retry was written to the table

  datatype World = World(
    maxAttempts: nat,
    table: map<Id, Row>,
    files: map<Id, string>,
    enqueuers: map<Id, Enqueuer>,
    worker: Worker,
    log: seq<Event>)

  function Start(maxAttempts: nat): World {
    World(maxAttempts, map[], map[], map[], Idle, [])
  }

  // ---------- errors ----------

  /** Permanent errors, by what their text contains. */
  predicate IsPermanentDeliveryError(err: string) {
    || Contains(err, "550")
    || Contains(err, "554")
    || Contains(err, "552")
    || Contains(err, "501")
    || Contains(err, "Invalid recipient")
    || Contains(err, "Command contains invalid characters")
  }

  // ---------- table operations ----------

  /** `INSERT`: a new row is pending, due now, with no attempts. */
  function NewRow(msg: Msg, maxAttempts: nat, now: nat): Row {
    Row(msg.from, msg.to, 0, maxAttempts, Pending, now, None)
  }

  /** `UPDATE … WHERE id`: no row, no effect. */
  function UpdateJobStatus(table: map<Id, Row>, id: Id, status: Status, attempts: nat,
                           lastError: Option<string>, nextRetry: nat): map<Id, Row> {
    if id in table
    then table[id := table[id].(status := status, attempts := attempts, lastError := lastError, nextRetry := nextRetry)]
    else table
  }

  predicate Due(row: Row, now: nat) {
    row.status == Pending && row.nextRetry <= now
  }

  /** The batch a job was fetched in. */
  function RowIn(jobs: seq<Job>, id: Id): Option<Row> {
    if jobs == [] then None
    else if jobs[0].id == id then Some(jobs[0].row)
    else RowIn(jobs[1..], id)
  }

  predicate DistinctIds(jobs: seq<Job>) {
    jobs == [] || (RowIn(jobs[1..], jobs[0].id).None? && DistinctIds(jobs[1..]))
  }

  /** `SELECT … WHERE pending AND due ORDER BY next_retry_at LIMIT`: any answer with these properties. */
  predicate Fetchable(table: map<Id, Row>, jobs: seq<Job>, now: nat, limit: nat) {
    && |jobs| <= limit
    && DistinctIds(jobs)
    && (forall i :: 0 <= i < |jobs| ==>
          jobs[i].id in table && table[jobs[i].id] == jobs[i].row && Due(jobs[i].row, now))
    && (forall i, j :: 0 <= i < j < |jobs| ==> jobs[i].row.nextRetry <= jobs[j].row.nextRetry)
    && (forall id :: id in table && Due(table[id], now) && RowIn(jobs, id).None? ==>
          |jobs| == limit && forall i :: 0 <= i < |jobs| ==> jobs[i].row.nextRetry <= table[id].nextRetry)
  }

  const BATCH: nat := 10

  // ---------- the query has an answer ----------

  lemma {:induction false} EarliestDue(table: map<Id, Row>, ids: set<Id>) returns (first: Id)
    requires ids != {} && ids <= table.Keys
    ensures first in ids && forall id :: id in ids ==> table[first].nextRetry <= table[id].nextRetry
    decreases ids
  {
    var some :| some in ids;
    if ids == {some} {
      first := some;
    } else {
      var other := EarliestDue(table, ids - {some});
      first := if table[some].nextRetry <= table[other].nextRetry then some else other;
      forall id | id in ids
        ensures table[first].nextRetry <= table[id].nextRetry
      {
        assert id == some || id in ids - {some};
      }
    }
  }

  /** Rows in the order they are due. */
  predicate Sorted(jobs: seq<Job>) {
    forall i, j :: 0 <= i < j < |jobs| ==> jobs[i].row.nextRetry <= jobs[j].row.nextRetry
  }

  lemma {:induction false} InDueOrder(table: map<Id, Row>, ids: set<Id>) returns (jobs: seq<Job>)
    requires ids <= table.Keys
    ensures |jobs| == |ids| && DistinctIds(jobs) && Sorted(jobs)
    ensures forall i :: 0 <= i < |jobs| ==> jobs[i].id in ids && jobs[i].row == table[jobs[i].id]
    ensures forall id :: RowIn(jobs, id).Some? <==> id in ids
    decreases ids
  {
    if ids == {} {
      jobs := [];
    } else {
      var first := EarliestDue(table, ids);
      var rest := InDueOrder(table, ids - {first});
      jobs := [Job(first, table[first])] + rest;
      assert jobs[1..] == rest;
    }
  }

  lemma {:induction false} PrefixDistinct(jobs: seq<Job>, n: nat)
    requires DistinctIds(jobs) && n <= |jobs|
    ensures DistinctIds(jobs[..n])
    ensures forall id :: RowIn(jobs[..n], id).Some? ==> RowIn(jobs, id).Some?
    ensures forall id :: RowIn(jobs[..n], id).None? && RowIn(jobs, id).Some? ==>
              exists i :: n <= i < |jobs| && jobs[i].id == id
  {
    if n == 0 {
      forall id | RowIn(jobs, id).Some?
        ensures exists i :: n <= i < |jobs| && jobs[i].id == id
      {
        RowInSpec(jobs, id);
      }
    } else {
      PrefixDistinct(jobs[1..], n - 1);
      assert jobs[..n][1..] == jobs[1..][..n - 1];
      forall id | RowIn(jobs[..n], id).None? && RowIn(jobs, id).Some?
        ensures exists i :: n <= i < |jobs| && jobs[i].id == id
      {
        assert RowIn(jobs[1..][..n - 1], id).None? && RowIn(jobs[1..], id).Some?;
        var i :| n - 1 <= i < |jobs[1..]| && jobs[1..][i].id == id;
        assert jobs[i + 1].id == id;
      }
    }
  }

  function DueIds(table: map<Id, Row>, now: nat): set<Id> {
    set id | id in table && table[id].status == Pending && table[id].nextRetry <= now
  }

  /** At any time and for any table there is a batch, of all due jobs or of the ten that are due first. */
  lemma FetchExists(table: map<Id, Row>, now: nat) returns (jobs: seq<Job>)
    ensures Fetchable(table, jobs, now, BATCH)
    ensures |jobs| == if |DueIds(table, now)| <= 10 then |DueIds(table, now)| else 10
  {
    hide DistinctIds, RowIn;
    var due := DueIds(table, now);
    var all := InDueOrder(table, due);
    var n := if |all| <= 10 then |all| else 10;
    jobs := all[..n];
    PrefixDistinct(all, n);
    forall id | id in table && Due(table[id], now) && RowIn(jobs, id).None?
      ensures |jobs| == 10 && forall i :: 0 <= i < |jobs| ==> jobs[i].row.nextRetry <= table[id].nextRetry
    {
      assert id in due;
      var k :| n <= k < |all| && all[k].id == id;
    }
  }

  lemma {:induction false} RowInAt(jobs: seq<Job>, i: nat)
    requires DistinctIds(jobs) && i < |jobs|
    ensures RowIn(jobs, jobs[i].id) == Some(jobs[i].row)
  {
    if i == 0 {
    } else {
      RowInAt(jobs[1..], i - 1);
      assert jobs[1..][i - 1] == jobs[i];
    }
  }

  function IdsOf(jobs: seq<Job>): set<Id> {
    set i | 0 <= i < |jobs| :: jobs[i].id
  }

  lemma {:induction false} IdsCount(jobs: seq<Job>)
    ensures |IdsOf(jobs)| <= |jobs|
    ensures DistinctIds(jobs) ==> |IdsOf(jobs)| == |jobs|
  {
    if jobs == [] {
      assert IdsOf(jobs) == {};
    } else {
      var rest := jobs[1..];
      IdsCount(rest);
      assert forall i :: 0 <= i < |rest| ==> rest[i] == jobs[i + 1];
      assert IdsOf(jobs) == {jobs[0].id} + IdsOf(rest);
      if DistinctIds(jobs) && jobs[0].id in IdsOf(rest) {
        var i :| 0 <= i < |rest| && rest[i].id == jobs[0].id;
        RowInAt(rest, i);
      }
    }
  }

  lemma Smaller(a: set<Id>, b: set<Id>)
    requires a <= b
    ensures |a| <= |b|
  {
    assert b == a + (b - a);
  }

  /** A job of one answer that is due before the end of another answer is in that one too, before its end. */
  lemma AlsoFetched(table: map<Id, Row>, a: seq<Job>, b: seq<Job>, now: nat, k: nat, i: nat)
    requires Fetchable(table, a, now, BATCH) && Fetchable(table, b, now, BATCH)
    requires k < |a| && i < |b| && a[k].row.nextRetry < b[i].row.nextRetry
    ensures a[k].id in IdsOf(b[..i])
  {
    assert RowIn(b, a[k].id).Some?;
    RowInSpec(b, a[k].id);
    var j :| 0 <= j < |b| && b[j] == Job(a[k].id, RowIn(b, a[k].id).value);
    assert j < i;
    assert b[..i][j] == b[j];
  }

  lemma NoEarlier(table: map<Id, Row>, a: seq<Job>, b: seq<Job>, now: nat, i: nat)
    requires Fetchable(table, a, now, BATCH) && Fetchable(table, b, now, BATCH) && i < |a| && i < |b|
    ensures b[i].row.nextRetry <= a[i].row.nextRetry
  {
    if a[i].row.nextRetry < b[i].row.nextRetry {
      var first := a[..i + 1];
      forall id | id in IdsOf(first)
        ensures id in IdsOf(b[..i])
      {
        var k :| 0 <= k < |first| && first[k].id == id;
        AlsoFetched(table, a, b, now, k, i);
      }
      PrefixDistinct(a, i + 1);
      IdsCount(first);
      IdsCount(b[..i]);
      Smaller(IdsOf(first), IdsOf(b[..i]));
    }
  }

  lemma NoLonger(table: map<Id, Row>, a: seq<Job>, b: seq<Job>, now: nat)
    requires Fetchable(table, a, now, BATCH) && Fetchable(table, b, now, BATCH)
    ensures |b| <= |a|
  {
    if |a| < |b| {
      forall id | id in IdsOf(b)
        ensures id in IdsOf(a)
      {
        var k :| 0 <= k < |b| && b[k].id == id;
        assert RowIn(a, id).Some?;
        RowInSpec(a, id);
      }
      IdsCount(a);
      IdsCount(b);
      Smaller(IdsOf(b), IdsOf(a));
    }
  }

  /**
    The batch is determined up to jobs due at the same moment: any two answers are equally long and
    agree on the due time at every position, earliest first, and hold nothing but pending due rows.
   */
  lemma FetchDetermined(table: map<Id, Row>, a: seq<Job>, b: seq<Job>, now: nat)
    requires Fetchable(table, a, now, BATCH) && Fetchable(table, b, now, BATCH)
    ensures |a| == |b| <= 10
    ensures forall i :: 0 <= i < |a| ==> a[i].row.nextRetry == b[i].row.nextRetry <= now
    ensures forall i :: 0 <= i < |a| ==> a[i].id in table && table[a[i].id] == a[i].row && a[i].row.status == Pending
    ensures forall i, j :: 0 <= i < j < |a| ==> a[i].row.nextRetry <= a[j].row.nextRetry && a[i].id != a[j].id
  {
    NoLonger(table, a, b, now);
    NoLonger(table, b, a, now);
    forall i | 0 <= i < |a|
      ensures a[i].row.nextRetry == b[i].row.nextRetry
    {
      NoEarlier(table, a, b, now, i);
      NoEarlier(table, b, a, now, i);
    }
    forall i, j | 0 <= i < j < |a|
      ensures a[i].id != a[j].id
    {
      IdsApart(a, i, j);
    }
  }

  lemma {:induction false} IdsApart(jobs: seq<Job>, i: nat, j: nat)
    requires DistinctIds(jobs) && i < j < |jobs|
    ensures jobs[i].id != jobs[j].id
  {
    if i == 0 {
      RowInAt(jobs[1..], j - 1);
      assert jobs[1..][j - 1] == jobs[j];
    } else {
      IdsApart(jobs[1..], i - 1, j - 1);
    }
  }

  // ---------- reading the log ----------

  function MsgOf(log: seq<Event>, id: Id): Option<Msg> {
    if log == [] then None
    else
      match log[|log| - 1]
      case Enqueued(i, msg, _) => if i == id then Some(msg) else MsgOf(log[..|log| - 1], id)
      case _ => MsgOf(log[..|log| - 1], id)
  }

  /** How often `deliver_once` was called for a job. */
  function Calls(log: seq<Event>, id: Id): nat {
    if log == [] then 0
    else
      match log[|log| - 1]
      case Called(i, _) => Calls(log[..|log| - 1], id) + (if i == id then 1 else 0)
      case _ => Calls(log[..|log| - 1], id)
  }

  predicate Done(log: seq<Event>, id: Id) {
    log != [] && (log[|log| - 1] == Delivered(id) || Done(log[..|log| - 1], id))
  }

  /** The total delay scheduled for a job. */
  function Delays(log: seq<Event>, id: Id): nat {
    if log == [] then 0
    else
      match log[|log| - 1]
      case Scheduled(i, _, minutes) => Delays(log[..|log| - 1], id) + (if i == id then minutes else 0)
      case _ => Delays(log[..|log| - 1], id)
  }

  /** An event that says when a job is due. */
  predicate Sets(e: Event, id: Id) {
    (e.Enqueued? || e.Scheduled?) && e.id == id
  }

  function DueTime(e: Event): nat
    requires e.Enqueued? || e.Scheduled?
  {
    if e.Enqueued? then e.now else e.now + e.minutes
  }

  /** When a job is due, by the last event that says so. */
  function DueAt(log: seq<Event>, id: Id): Option<nat> {
    if log == [] then None
    else if Sets(log[|log| - 1], id) then Some(DueTime(log[|log| - 1]))
    else DueAt(log[..|log| - 1], id)
  }

  /** A batch was fetched at or after the time a job was last said to be due. */
  predicate Ripe(log: seq<Event>, id: Id) {
    log != [] &&
    var e, front := log[|log| - 1], log[..|log| - 1];
    !Sets(e, id) && (Ripe(front, id) || (e.Fetched? && DueAt(front, id).Some? && DueAt(front, id).value <= e.now))
  }

  /** The last thing that happened to a job is a call. */
  predicate Attempting(log: seq<Event>, id: Id) {
    log != [] &&
    match log[|log| - 1]
    case Called(i, _) => i == id || Attempting(log[..|log| - 1], id)
    case Delivered(i) => i != id && Attempting(log[..|log| - 1], id)
    case Fetched(_) => Attempting(log[..|log| - 1], id)
    case _ => log[|log| - 1].id != id && Attempting(log[..|log| - 1], id)
  }

  /** Every call was for an undelivered job and carried exactly what was enqueued; nothing is delivered twice. */
  predicate Faithful(log: seq<Event>) {
    log == [] || (Faithful(log[..|log| - 1]) && MayFollow(log[..|log| - 1], log[|log| - 1]))
  }

  predicate MayFollow(log: seq<Event>, e: Event) {
    match e
    case Called(id, msg) => !Done(log, id) && MsgOf(log, id) == Some(msg) && Ripe(log, id)
    case Delivered(id) => !Done(log, id) && Calls(log, id) >= 1
    case Enqueued(id, _, _) => MsgOf(log, id).None? && DueAt(log, id).None?
    case Scheduled(id, _, minutes) => Attempting(log, id) && minutes == Delay(Calls(log, id))
    case Fetched(_) => true
  }

  // ---------- steps ----------

  datatype Action =
    | Begin(newId: Id, msg: Msg)
    | WriteFile(id: Id, partial: Option<string>)   // None: all bytes; Some: failed after these
    | InsertJob(id: Id, dbOk: bool, now: nat)
    | RemoveOrphan(id: Id, ioOk: bool)
    | Fetch(jobs: seq<Job>, now: nat)
    | Lock(dbOk: bool)
    | ReadFile(ioOk: bool)
    | MarkMissing(dbOk: bool, now: nat)
    | StartDelivery
    | DeliveryOk
    | DeliveryErr(error: string)
    | DeleteJob(dbOk: bool)
    | RemoveFile(ioOk: bool)
    | Settle(dbOk: bool, now: nat)
    | EndScan
    | Crash

  /** An identifier nobody has used. */
  predicate Unused(w: World, id: Id) {
    id !in w.table && id !in w.files && id !in w.enqueuers && MsgOf(w.log, id).None?
  }

  predicate Enabled(w: World, a: Action) {
    match a
    case Begin(id, _) => Unused(w, id)
    case WriteFile(id, _) => id in w.enqueuers && w.enqueuers[id].Opening?
    case InsertJob(id, _, _) => id in w.enqueuers && w.enqueuers[id].Written?
    case RemoveOrphan(id, _) => id in w.enqueuers && w.enqueuers[id].Rejected?
    case Fetch(jobs, now) => w.worker.Idle? && Fetchable(w.table, jobs, now, BATCH)
    case Lock(_) => w.worker.Scanning? && w.worker.rest != []
    case ReadFile(_) => w.worker.Locked?
    case MarkMissing(_, _) => w.worker.Missing?
    case StartDelivery => w.worker.Loaded?
    case DeliveryOk => w.worker.Calling?
    case DeliveryErr(_) => w.worker.Calling?
    case DeleteJob(_) => w.worker.Accepted?
    case RemoveFile(_) => w.worker.Cleaning?
    case Settle(_, _) => w.worker.Refused?
    case EndScan => w.worker == Scanning([])
    case Crash => true
  }

  const YEAR: nat := 365 * DAY

  /** The status, attempts and delay written after a refused delivery. */
  function Verdict(job: Job, error: string): (Status, nat, nat) {
    var next := job.row.attempts + 1;
    if IsPermanentDeliveryError(error) then (Failed, next, YEAR)
    else if next >= job.row.maxAttempts then (Failed, next, YEAR)
    else (Pending, next, Delay(next))
  }

  function EnqueueStep(w: World, a: Action): World
    requires Enabled(w, a) && (a.Begin? || a.WriteFile? || a.InsertJob? || a.RemoveOrphan?)
  {
    match a
    case Begin(id, msg) => w.(enqueuers := w.enqueuers[id := Opening(msg)])
    case WriteFile(id, partial) =>
      var msg := w.enqueuers[id].msg;
      (match partial
       case None => w.(files := w.files[id := msg.body], enqueuers := w.enqueuers[id := Written(msg)])
       case Some(bytes) => w.(files := w.files[id := bytes], enqueuers := w.enqueuers - {id}))
    case InsertJob(id, dbOk, now) =>
      var msg := w.enqueuers[id].msg;
      if dbOk then
        w.(table := w.table[id := NewRow(msg, w.maxAttempts, now)], enqueuers := w.enqueuers - {id},
           log := w.log + [Enqueued(id, msg, now)])
      else w.(enqueuers := w.enqueuers[id := Rejected(msg)])
    case RemoveOrphan(id, ioOk) =>
      w.(files := if ioOk then w.files - {id} else w.files, enqueuers := w.enqueuers - {id})
  }

  function WorkerStep(w: World, a: Action): World
    requires Enabled(w, a) && !(a.Begin? || a.WriteFile? || a.InsertJob? || a.RemoveOrphan? || a.Crash?)
  {
    match a
    case Fetch(jobs, now) =>
      w.(log := w.log + [Fetched(now)], worker := if jobs == [] then Idle else Scanning(jobs))
    case Lock(dbOk) =>
      var job, rest := w.worker.rest[0], w.worker.rest[1..];
      if !dbOk then w.(worker := Scanning(rest))
      else
        w.(table := UpdateJobStatus(w.table, job.id, Sending, job.row.attempts, job.row.lastError, job.row.nextRetry),
           worker := Locked(job, rest))
    case ReadFile(ioOk) =>
      var job := w.worker.job;
      if ioOk && job.id in w.files then w.(worker := Loaded(job, w.files[job.id], w.worker.rest))
      else w.(worker := Missing(job, w.worker.rest))
    case MarkMissing(dbOk, now) =>
      var job := w.worker.job;
      w.(table := if dbOk
           then UpdateJobStatus(w.table, job.id, Failed, job.row.attempts + 1,
                                Some("EML file missing from disk storage"), now + DAY)
           else w.table,
         worker := Scanning(w.worker.rest))
    case StartDelivery =>
      var job := w.worker.job;
      w.(log := w.log + [Called(job.id, Msg(job.row.from, job.row.to, w.worker.bytes))],
         worker := Calling(job, w.worker.rest))
    case DeliveryOk =>
      w.(log := w.log + [Delivered(w.worker.job.id)], worker := Accepted(w.worker.job, w.worker.rest))
    case DeliveryErr(error) => w.(worker := Refused(w.worker.job, error, w.worker.rest))
    case DeleteJob(dbOk) =>
      w.(table := if dbOk then w.table - {w.worker.job.id} else w.table,
         worker := Cleaning(w.worker.job, w.worker.rest))
    case RemoveFile(ioOk) =>
      w.(files := if ioOk then w.files - {w.worker.job.id} else w.files, worker := Scanning(w.worker.rest))
    case Settle(dbOk, now) =>
      var job := w.worker.job;
      var (status, attempts, delay) := Verdict(job, w.worker.error);
      if !dbOk then w.(worker := Scanning(w.worker.rest))
      else
        w.(table := UpdateJobStatus(w.table, job.id, status, attempts, Some(w.worker.error), now + delay),
           log := if status == Pending then w.log + [Scheduled(job.id, now, delay)] else w.log,
           worker := Scanning(w.worker.rest))
    case EndScan => w.(worker := Idle)
  }

  function Next(w: World, a: Action): World
    requires Enabled(w, a)
  {
    if a.Begin? || a.WriteFile? || a.InsertJob? || a.RemoveOrphan? then EnqueueStep(w, a)
    else if a.Crash? then w.(worker := Idle, enqueuers := map[])
    else WorkerStep(w, a)
  }

  // ---------- the invariant, one identifier at a time ----------

  /** What the worker is doing about an identifier. */
  datatype Claim =
    | Free
    | Listed(row: Row)
    | Held(row: Row)                   // locked, file not read, or found unreadable
    | Ready(row: Row, bytes: string)
    | InCall(row: Row)                 // call started, or refused and not yet settled
    | Over                             // delivered, row or file still to be removed

  function ClaimIn(rest: seq<Job>, id: Id): Claim {
    match RowIn(rest, id)
    case None => Free
    case Some(row) => Listed(row)
  }

  function ClaimOf(worker: Worker, id: Id): Claim {
    match worker
    case Idle => Free
    case Scanning(rest) => ClaimIn(rest, id)
    case Locked(job, rest) => if job.id == id then Held(job.row) else ClaimIn(rest, id)
    case Missing(job, rest) => if job.id == id then Held(job.row) else ClaimIn(rest, id)
    case Loaded(job, bytes, rest) => if job.id == id then Ready(job.row, bytes) else ClaimIn(rest, id)
    case Calling(job, rest) => if job.id == id then InCall(job.row) else ClaimIn(rest, id)
    case Refused(job, _, rest) => if job.id == id then InCall(job.row) else ClaimIn(rest, id)
    case Accepted(job, rest) => if job.id == id then Over else ClaimIn(rest, id)
    case Cleaning(job, rest) => if job.id == id then Over else ClaimIn(rest, id)
  }

  predicate DistinctWorker(worker: Worker) {
    match worker
    case Idle => true
    case Scanning(rest) => DistinctIds(rest)
    case _ => DistinctIds(worker.rest) && RowIn(worker.rest, worker.job.id).None?
  }

  /** A row whose message is not delivered, against the log and the worker's claim on it. */
  predicate RowOk(row: Row, calls: nat, delays: nat, claim: Claim, msg: Msg, max: nat, due: Option<nat>, ripe: bool,
                  attempting: bool)
  {
    && row.from == msg.from && row.to == msg.to && row.maxAttempts == max
    && (row.status != Failed ==> due == Some(row.nextRetry))
    && (claim.Listed? || claim.Held? || claim.Ready? ==> ripe)
    && (claim.InCall? ==> attempting)
    && match row.status
       case Pending =>
         calls == row.attempts < max && delays == SumDelays(row.attempts) && (claim == Free || claim == Listed(row))
       case Sending =>
         && row.attempts < max && row.attempts <= calls <= row.attempts + 1 && delays == SumDelays(row.attempts)
         && (match claim
             case Free => true
             case Listed(_) => false
             case Held(r) => r == row.(status := Pending) && calls == row.attempts
             case Ready(r, bytes) => r == row.(status := Pending) && calls == row.attempts && bytes == msg.body
             case InCall(r) => r == row.(status := Pending) && calls == row.attempts + 1
             case Over => false)
       case Failed =>
         1 <= row.attempts <= max && calls <= row.attempts && delays == SumDelays(row.attempts - 1) && claim == Free
  }

  /** Everything the invariant says about one identifier. */
  predicate IdOk(w: World, id: Id) {
    var claim := ClaimOf(w.worker, id);
    match MsgOf(w.log, id)
    case None =>
      && id !in w.table && Calls(w.log, id) == 0 && Delays(w.log, id) == 0 && !Done(w.log, id) && claim == Free
      && DueAt(w.log, id).None?
      && (id in w.enqueuers && w.enqueuers[id].Written? ==>
            id in w.files && w.files[id] == w.enqueuers[id].msg.body)
    case Some(msg) =>
      && id !in w.enqueuers
      && Calls(w.log, id) <= w.maxAttempts
      && if Done(w.log, id) then
           (claim == Free || claim == Over) && (id in w.table ==> w.table[id].status == Sending)
         else
           && id in w.table && id in w.files && w.files[id] == msg.body
           && RowOk(w.table[id], Calls(w.log, id), Delays(w.log, id), claim, msg, w.maxAttempts,
                    DueAt(w.log, id), Ripe(w.log, id), Attempting(w.log, id))
  }

  ghost predicate Inv(w: World) {
    w.maxAttempts >= 1 && DistinctWorker(w.worker) && Faithful(w.log) && forall id: Id :: IdOk(w, id)
  }

  // ---------- every step keeps the invariant ----------

  lemma LogSnoc(log: seq<Event>, e: Event, id: Id)
    ensures var l := log + [e];
            && MsgOf(l, id) == (if e.Enqueued? && e.id == id then Some(e.msg) else MsgOf(log, id))
            && Calls(l, id) == Calls(log, id) + (if e.Called? && e.id == id then 1 else 0)
            && (Done(l, id) <==> e == Delivered(id) || Done(log, id))
            && Delays(l, id) == Delays(log, id) + (if e.Scheduled? && e.id == id then e.minutes else 0)
            && DueAt(l, id) == (if Sets(e, id) then Some(DueTime(e)) else DueAt(log, id))
            && (Ripe(l, id) <==>
                  && !Sets(e, id)
                  && (Ripe(log, id) || (e.Fetched? && DueAt(log, id).Some? && DueAt(log, id).value <= e.now)))
            && (Attempting(l, id) <==>
                  if !e.Fetched? && e.id == id then e.Called? else Attempting(log, id))
            && (Faithful(l) <==> Faithful(log) && MayFollow(log, e))
  {
    assert (log + [e])[..|log|] == log;
  }

  lemma {:induction false} RowInSpec(jobs: seq<Job>, id: Id)
    ensures RowIn(jobs, id).Some? ==> exists i :: 0 <= i < |jobs| && jobs[i] == Job(id, RowIn(jobs, id).value)
  {
    if jobs == [] {
    } else {
      if jobs[0].id == id {
        assert jobs[0] == Job(id, RowIn(jobs, id).value);
      } else {
        RowInSpec(jobs[1..], id);
        if RowIn(jobs[1..], id).Some? {
          var i :| 0 <= i < |jobs[1..]| && jobs[1..][i] == Job(id, RowIn(jobs, id).value);
          assert jobs[i + 1] == Job(id, RowIn(jobs, id).value);
        }
      }
    }
  }

  /** Nothing about an identifier changed. */
  predicate Untouched(w: World, w': World, id: Id) {
    && w'.maxAttempts == w.maxAttempts
    && ClaimOf(w'.worker, id) == ClaimOf(w.worker, id)
    && (id in w'.table <==> id in w.table) && (id in w.table ==> w'.table[id] == w.table[id])
    && (id in w'.files <==> id in w.files) && (id in w.files ==> w'.files[id] == w.files[id])
    && (id in w'.enqueuers ==> id in w.enqueuers && w'.enqueuers[id] == w.enqueuers[id])
    && MsgOf(w'.log, id) == MsgOf(w.log, id) && Calls(w'.log, id) == Calls(w.log, id)
    && (Done(w'.log, id) <==> Done(w.log, id)) && Delays(w'.log, id) == Delays(w.log, id)
    && DueAt(w'.log, id) == DueAt(w.log, id) && (Ripe(w.log, id) ==> Ripe(w'.log, id))
    && (Attempting(w'.log, id) <==> Attempting(w.log, id))
  }

  lemma UntouchedOk(w: World, w': World, id: Id)
    requires IdOk(w, id) && Untouched(w, w', id)
    ensures IdOk(w', id)
  {
  }

  lemma EnqueueKeeps(w: World, a: Action, id: Id)
    requires IdOk(w, id) && Faithful(w.log)
    requires Enabled(w, a) && (a.Begin? || a.WriteFile? || a.InsertJob? || a.RemoveOrphan?)
    requires w.maxAttempts >= 1 && (a.InsertJob? ==> IdOk(w, a.id))
    ensures IdOk(EnqueueStep(w, a), id) && Faithful(EnqueueStep(w, a).log)
  {
    hide DueAt, Ripe, Attempting, MsgOf, Calls, Done, Delays, Faithful, ClaimOf, Delay;
    var w' := EnqueueStep(w, a);
    match a {
      case Begin(i, msg) =>
        if i != id { UntouchedOk(w, w', id); }
      case WriteFile(i, _) =>
        if i != id { UntouchedOk(w, w', id); }
      case RemoveOrphan(i, _) =>
        if i != id { UntouchedOk(w, w', id); }
      case InsertJob(i, dbOk, now) =>
        if dbOk { LogSnoc(w.log, Enqueued(i, w.enqueuers[i].msg, now), id); }
        if i != id {
          UntouchedOk(w, w', id);
        } else if dbOk {
          assert SumDelays(0) == 0;
        }
    }
  }

  lemma CrashKeeps(w: World, id: Id)
    requires IdOk(w, id)
    ensures IdOk(w.(worker := Idle, enqueuers := map[]), id)
  {
    hide DueAt, Ripe, Attempting, MsgOf, Calls, Done, Delays;
  }

  lemma FetchKeeps(w: World, jobs: seq<Job>, now: nat, id: Id)
    requires IdOk(w, id) && Enabled(w, Fetch(jobs, now)) && Faithful(w.log)
    ensures var w' := WorkerStep(w, Fetch(jobs, now));
            IdOk(w', id) && DistinctWorker(w'.worker) && Faithful(w'.log)
  {
    hide DueAt, Ripe, Attempting, MsgOf, Calls, Done, Delays, Faithful;
    LogSnoc(w.log, Fetched(now), id);
    RowInSpec(jobs, id);
  }

  lemma LockKeeps(w: World, dbOk: bool, id: Id)
    requires IdOk(w, id) && Enabled(w, Lock(dbOk)) && DistinctWorker(w.worker)
    ensures IdOk(WorkerStep(w, Lock(dbOk)), id) && DistinctWorker(WorkerStep(w, Lock(dbOk)).worker)
  {
    hide DueAt, Ripe, Attempting, MsgOf, Calls, Done, Delays;
    var w' := WorkerStep(w, Lock(dbOk));
    if w.worker.rest[0].id != id {
      UntouchedOk(w, w', id);
    }
  }

  lemma ReadKeeps(w: World, ioOk: bool, id: Id)
    requires IdOk(w, id) && Enabled(w, ReadFile(ioOk)) && DistinctWorker(w.worker)
    ensures IdOk(WorkerStep(w, ReadFile(ioOk)), id) && DistinctWorker(WorkerStep(w, ReadFile(ioOk)).worker)
  {
    hide DueAt, Ripe, Attempting, MsgOf, Calls, Done, Delays;
    if w.worker.job.id != id {
      UntouchedOk(w, WorkerStep(w, ReadFile(ioOk)), id);
    }
  }

  lemma MissingKeeps(w: World, a: Action, id: Id)
    requires a.MarkMissing? && IdOk(w, id) && Enabled(w, a) && DistinctWorker(w.worker)
    ensures IdOk(WorkerStep(w, a), id) && DistinctWorker(WorkerStep(w, a).worker)
  {
    hide DueAt, Ripe, Attempting, MsgOf, Calls, Done, Delays;
    if w.worker.job.id != id {
      UntouchedOk(w, WorkerStep(w, a), id);
    }
  }

  lemma StartKeeps(w: World, id: Id)
    requires Enabled(w, StartDelivery) && DistinctWorker(w.worker) && Faithful(w.log) && IdOk(w, id)
    requires IdOk(w, w.worker.job.id)
    ensures var w' := WorkerStep(w, StartDelivery); IdOk(w', id) && DistinctWorker(w'.worker) && Faithful(w'.log)
  {
    hide DueAt, Ripe, Attempting, MsgOf, Calls, Done, Delays, Faithful, SumDelays;
    var w' := WorkerStep(w, StartDelivery);
    LogSnoc(w.log, w'.log[|w.log|], id);
    if w.worker.job.id != id {
      UntouchedOk(w, w', id);
    }
  }

  lemma DeliveredKeeps(w: World, id: Id)
    requires Enabled(w, DeliveryOk) && DistinctWorker(w.worker) && Faithful(w.log) && IdOk(w, id)
    requires IdOk(w, w.worker.job.id)
    ensures var w' := WorkerStep(w, DeliveryOk); IdOk(w', id) && DistinctWorker(w'.worker) && Faithful(w'.log)
  {
    hide DueAt, Ripe, Attempting, MsgOf, Calls, Done, Delays, Faithful, SumDelays;
    var w' := WorkerStep(w, DeliveryOk);
    LogSnoc(w.log, Delivered(w.worker.job.id), id);
    if w.worker.job.id != id {
      UntouchedOk(w, w', id);
    }
  }

  lemma RefusedKeeps(w: World, error: string, id: Id)
    requires Enabled(w, DeliveryErr(error)) && DistinctWorker(w.worker) && IdOk(w, id)
    ensures var w' := WorkerStep(w, DeliveryErr(error)); IdOk(w', id) && DistinctWorker(w'.worker) && w'.log == w.log
  {
    hide DueAt, Ripe, Attempting, MsgOf, Calls, Done, Delays, SumDelays;
    if w.worker.job.id != id {
      UntouchedOk(w, WorkerStep(w, DeliveryErr(error)), id);
    }
  }

  lemma CleanupKeeps(w: World, a: Action, id: Id)
    requires (a.DeleteJob? || a.RemoveFile?) && IdOk(w, id) && Enabled(w, a) && DistinctWorker(w.worker)
    ensures IdOk(WorkerStep(w, a), id) && DistinctWorker(WorkerStep(w, a).worker)
  {
    hide DueAt, Ripe, Attempting, MsgOf, Calls, Done, Delays;
    if w.worker.job.id != id {
      UntouchedOk(w, WorkerStep(w, a), id);
    }
  }

  /** The job that is settled itself. */
  lemma SettledOk(w: World, dbOk: bool, now: nat)
    requires Enabled(w, Settle(dbOk, now)) && DistinctWorker(w.worker) && IdOk(w, w.worker.job.id)
    ensures IdOk(WorkerStep(w, Settle(dbOk, now)), w.worker.job.id)
  {
    hide DueAt, Ripe, Attempting, MsgOf, Calls, Done, Delays, Faithful, IsPermanentDeliveryError, Delay;
    var job := w.worker.job;
    var (status, attempts, delay) := Verdict(job, w.worker.error);
    LogSnoc(w.log, Scheduled(job.id, now, delay), job.id);
    assert SumDelays(attempts) == SumDelays(attempts - 1) + Delay(attempts);
  }

  /** A retry is written for a job that was just attempted, with the delay of that attempt. */
  lemma SettleFaithful(w: World, dbOk: bool, now: nat)
    requires Enabled(w, Settle(dbOk, now)) && IdOk(w, w.worker.job.id) && Faithful(w.log)
    ensures Faithful(WorkerStep(w, Settle(dbOk, now)).log)
  {
    hide DueAt, Ripe, Attempting, MsgOf, Calls, Done, Delays, Faithful, IsPermanentDeliveryError, Delay, SumDelays;
    var job := w.worker.job;
    LogSnoc(w.log, Scheduled(job.id, now, Verdict(job, w.worker.error).2), job.id);
  }

  lemma SettleKeeps(w: World, dbOk: bool, now: nat, id: Id)
    requires IdOk(w, id) && Enabled(w, Settle(dbOk, now)) && DistinctWorker(w.worker) && Faithful(w.log)
    requires IdOk(w, w.worker.job.id)
    ensures var w' := WorkerStep(w, Settle(dbOk, now));
            IdOk(w', id) && DistinctWorker(w'.worker) && Faithful(w'.log)
  {
    SettleFaithful(w, dbOk, now);
    if w.worker.job.id == id {
      SettledOk(w, dbOk, now);
    } else {
      SettleOther(w, dbOk, now, id);
    }
    hide IdOk, Faithful, Verdict, UpdateJobStatus;
  }

  /** Settling one job leaves the others alone. */
  lemma SettleOther(w: World, dbOk: bool, now: nat, id: Id)
    requires IdOk(w, id) && Enabled(w, Settle(dbOk, now)) && DistinctWorker(w.worker) && w.worker.job.id != id
    ensures IdOk(WorkerStep(w, Settle(dbOk, now)), id)
  {
    hide DueAt, Ripe, Attempting, MsgOf, Calls, Done, Delays, Faithful, Verdict, IdOk;
    LogSnoc(w.log, Scheduled(w.worker.job.id, now, Verdict(w.worker.job, w.worker.error).2), id);
    UntouchedOk(w, WorkerStep(w, Settle(dbOk, now)), id);
  }

  /** One step, whoever takes it and whatever fails. */
  lemma StepKeepsInv(w: World, a: Action)
    requires Inv(w) && Enabled(w, a)
    ensures Inv(Next(w, a))
  {
    hide IdOk, DueAt, Ripe, Attempting, MsgOf, Calls, Done, Delays, Faithful, EnqueueStep, WorkerStep, DistinctWorker;
    forall id: Id
      ensures IdOk(Next(w, a), id) && DistinctWorker(Next(w, a).worker) && Faithful(Next(w, a).log)
    {
      assert IdOk(w, id);
      match a {
        case Begin(_, _) => EnqueueKeeps(w, a, id); EnqueueKeepsWorker(w, a);
        case WriteFile(_, _) => EnqueueKeeps(w, a, id); EnqueueKeepsWorker(w, a);
        case InsertJob(i, _, _) => assert IdOk(w, i); EnqueueKeeps(w, a, id); EnqueueKeepsWorker(w, a);
        case RemoveOrphan(_, _) => EnqueueKeeps(w, a, id); EnqueueKeepsWorker(w, a);
        case Fetch(jobs, now) => FetchKeeps(w, jobs, now, id);
        case Lock(dbOk) => LockKeeps(w, dbOk, id); WorkerKeepsLog(w, a);
        case ReadFile(ioOk) => ReadKeeps(w, ioOk, id); WorkerKeepsLog(w, a);
        case MarkMissing(_, _) => MissingKeeps(w, a, id); WorkerKeepsLog(w, a);
        case StartDelivery => assert IdOk(w, w.worker.job.id); StartKeeps(w, id);
        case DeliveryOk => assert IdOk(w, w.worker.job.id); DeliveredKeeps(w, id);
        case DeliveryErr(error) => RefusedKeeps(w, error, id);
        case DeleteJob(_) => CleanupKeeps(w, a, id); WorkerKeepsLog(w, a);
        case RemoveFile(_) => CleanupKeeps(w, a, id); WorkerKeepsLog(w, a);
        case Settle(dbOk, now) => assert IdOk(w, w.worker.job.id); SettleKeeps(w, dbOk, now, id);
        case EndScan => EndKeeps(w, id); WorkerKeepsLog(w, a);
        case Crash => CrashKeeps(w, id); CrashedWorker();
      }
    }
    assert IdOk(Next(w, a), 0);
    assert Next(w, a).maxAttempts == w.maxAttempts by { MaxKept(w, a); }
  }

  lemma EnqueueKeepsWorker(w: World, a: Action)
    requires Enabled(w, a) && (a.Begin? || a.WriteFile? || a.InsertJob? || a.RemoveOrphan?)
    ensures EnqueueStep(w, a).worker == w.worker
  {
  }

  lemma WorkerKeepsLog(w: World, a: Action)
    requires Enabled(w, a)
    requires a.Lock? || a.ReadFile? || a.MarkMissing? || a.DeleteJob? || a.RemoveFile? || a.EndScan?
    ensures WorkerStep(w, a).log == w.log
  {
  }

  lemma EndKeeps(w: World, id: Id)
    requires IdOk(w, id) && Enabled(w, EndScan)
    ensures IdOk(WorkerStep(w, EndScan), id) && DistinctWorker(WorkerStep(w, EndScan).worker)
  {
    hide DueAt, Ripe, Attempting, MsgOf, Calls, Done, Delays;
  }

  lemma CrashedWorker()
    ensures DistinctWorker(Idle)
  {
  }

  lemma MaxKept(w: World, a: Action)
    requires Enabled(w, a)
    ensures Next(w, a).maxAttempts == w.maxAttempts
  {
  }

  // ---------- whole runs ----------

  /** A sequence of steps each of which is enabled when it is taken. */
  predicate Possible(start: World, run: seq<Action>)
    decreases |run|, 0
  {
    run == [] ||
    (Possible(start, run[..|run| - 1]) && Enabled(After(start, run[..|run| - 1]), run[|run| - 1]))
  }

  function After(start: World, run: seq<Action>): World
    requires Possible(start, run)
    decreases |run|, 1
  {
    if run == [] then start else Next(After(start, run[..|run| - 1]), run[|run| - 1])
  }

  lemma StartInv(max: nat)
    requires max >= 1
    ensures Inv(Start(max))
  {
  }

  lemma {:induction false} RunKeepsInv(start: World, run: seq<Action>)
    requires Inv(start) && Possible(start, run)
    ensures Inv(After(start, run)) && After(start, run).maxAttempts == start.maxAttempts
    decreases |run|
  {
    hide Inv, Enabled, Next;
    if run == [] {
    } else {
      var front := run[..|run| - 1];
      RunKeepsInv(start, front);
      StepKeepsInv(After(start, front), run[|run| - 1]);
      MaxKept(After(start, front), run[|run| - 1]);
    }
  }

  lemma {:induction false} FaithfulAt(log: seq<Event>, j: nat)
    requires Faithful(log) && j < |log|
    ensures MayFollow(log[..j], log[j])
    decreases |log|
  {
    if j >= |log| - 1 {
    } else {
      FaithfulAt(log[..|log| - 1], j);
      assert log[..|log| - 1][..j] == log[..j];
    }
  }

  lemma {:induction false} DoneFrom(log: seq<Event>, i: nat)
    requires i < |log| && log[i].Delivered?
    ensures Done(log, log[i].id)
    decreases |log|
  {
    if i >= |log| - 1 {
    } else {
      DoneFrom(log[..|log| - 1], i);
    }
  }

  lemma {:induction false} FaithfulPrefix(log: seq<Event>, j: nat)
    requires Faithful(log) && j <= |log|
    ensures Faithful(log[..j])
    decreases |log|
  {
    if j == |log| {
      assert log[..j] == log;
    } else {
      FaithfulPrefix(log[..|log| - 1], j);
      assert log[..|log| - 1][..j] == log[..j];
    }
  }

  lemma {:induction false} AttemptingCalled(log: seq<Event>, id: Id)
    requires Attempting(log, id)
    ensures Calls(log, id) >= 1
    decreases |log|
  {
    if log[|log| - 1].Called? && log[|log| - 1].id == id {
    } else {
      AttemptingCalled(log[..|log| - 1], id);
    }
  }

  /** A call for a job after position `i`. */
  predicate CalledAfter(log: seq<Event>, id: Id, i: int) {
    exists j :: i < j < |log| && 0 <= j && log[j].Called? && log[j].id == id
  }

  /** Without a call since, the job is due when position `i` said, and nothing is being attempted. */
  lemma {:induction false} DueUntilCalled(log: seq<Event>, id: Id, i: nat)
    requires Faithful(log) && i < |log| && Sets(log[i], id) && !CalledAfter(log, id, i)
    ensures DueAt(log, id) == Some(DueTime(log[i])) && !Attempting(log, id)
    decreases |log|
  {
    hide Delay, Calls, Ripe, Done;
    if i == |log| - 1 {
    } else {
      var front, e := log[..|log| - 1], log[|log| - 1];
      assert front[i] == log[i];
      assert !CalledAfter(front, id, i) by {
        assert forall j :: 0 <= j < |front| ==> front[j] == log[j];
      }
      DueUntilCalled(front, id, i);
    }
  }

  /** A job that is ripe, or was called after position `i`, has waited for the due time said there. */
  lemma {:induction false} WaitsForDueTime(log: seq<Event>, id: Id, i: nat)
    requires Faithful(log) && i < |log| && Sets(log[i], id)
    requires Ripe(log, id) || CalledAfter(log, id, i)
    ensures exists k :: i < k < |log| && log[k].Fetched? && DueTime(log[i]) <= log[k].now
    decreases |log|
  {
    hide Delay, Calls, Done, DueAt, MsgOf, Attempting;
    var front, e := log[..|log| - 1], log[|log| - 1];
    if i == |log| - 1 {
    } else {
      assert front[i] == log[i];
      if Ripe(front, id) || CalledAfter(front, id, i) {
        WaitsForDueTime(front, id, i);
        var k :| i < k < |front| && front[k].Fetched? && DueTime(log[i]) <= front[k].now;
        assert log[k] == front[k];
      } else {
        CallIsLast(log, id, i);
        DueUntilCalled(front, id, i);
        assert log[|log| - 1].Fetched?;
      }
    }
  }

  /** A call that is not in the front is the last event. */
  lemma CallIsLast(log: seq<Event>, id: Id, i: nat)
    requires i < |log| - 1
    ensures CalledAfter(log, id, i) ==>
              CalledAfter(log[..|log| - 1], id, i) || (log[|log| - 1].Called? && log[|log| - 1].id == id)
  {
    var front := log[..|log| - 1];
    assert forall j :: 0 <= j < |front| ==> front[j] == log[j];
    if CalledAfter(log, id, i) {
      var j :| i < j < |log| && 0 <= j && log[j].Called? && log[j].id == id;
      if j < |front| {
        assert front[j].Called?;
      }
    }
  }

  /** What the outside world can rely on, on every run with any failures and crashes. */
  ghost predicate SafeLog(log: seq<Event>, max: nat) {
    && (forall i, j :: 0 <= i < j < |log| && log[i].Delivered? && log[j].Called? ==> log[j].id != log[i].id)
    && (forall i, j :: 0 <= i < j < |log| && log[i].Delivered? && log[j].Delivered? ==> log[j].id != log[i].id)
    && (forall j :: 0 <= j < |log| && log[j].Called? ==> MsgOf(log[..j], log[j].id) == Some(log[j].msg))
    && (forall id :: Calls(log, id) <= max)
    && (forall j :: 0 <= j < |log| && log[j].Scheduled? ==>
          var calls := Calls(log[..j], log[j].id);
          calls >= 1 && log[j].minutes == Min(10 * Pow2(calls - 1), 1440))
    && (forall i, j :: 0 <= i < j < |log| && log[j].Called? && Sets(log[i], log[j].id) ==>
          Waited(log, i, j, DueTime(log[i])))
  }

  /** Between two events a batch was fetched at or after the given time. */
  ghost predicate Waited(log: seq<Event>, i: int, j: int, due: nat) {
    exists k :: i < k < j <= |log| && 0 <= k && log[k].Fetched? && due <= log[k].now
  }

  /**
    Queue safety: once a delivery returned Ok the job is never delivered again, every delivery
    carries exactly the enqueued envelope and body, and no job is attempted more than
    `maxAttempts` times.
   */
  lemma QueueSafety(max: nat, run: seq<Action>)
    requires max >= 1 && Possible(Start(max), run)
    ensures SafeLog(After(Start(max), run).log, max)
  {
    hide After, Possible, Calls, MsgOf, Done, DueAt, Ripe, Attempting;
    StartInv(max);
    RunKeepsInv(Start(max), run);
    var w := After(Start(max), run);
    var log := w.log;
    forall i, j | 0 <= i < j < |log| && log[i].Delivered?
      ensures log[j].Called? ==> log[j].id != log[i].id
      ensures log[j].Delivered? ==> log[j].id != log[i].id
    {
      FaithfulAt(log, j);
      assert log[..j][i] == log[i];
      DoneFrom(log[..j], i);
    }
    forall j | 0 <= j < |log| && log[j].Called?
      ensures MsgOf(log[..j], log[j].id) == Some(log[j].msg)
    {
      FaithfulAt(log, j);
    }
    forall j | 0 <= j < |log| && log[j].Scheduled?
      ensures var calls := Calls(log[..j], log[j].id);
              calls >= 1 && log[j].minutes == Min(10 * Pow2(calls - 1), 1440)
    {
      FaithfulAt(log, j);
      AttemptingCalled(log[..j], log[j].id);
      DelayIsCappedExponential(Calls(log[..j], log[j].id));
    }
    forall i, j | 0 <= i < j < |log| && log[j].Called? && Sets(log[i], log[j].id)
      ensures Waited(log, i, j, DueTime(log[i]))
    {
      FaithfulAt(log, j);
      FaithfulPrefix(log, j);
      assert log[..j][i] == log[i];
      WaitsForDueTime(log[..j], log[j].id, i);
      var k :| i < k < j && log[..j][k].Fetched? && DueTime(log[i]) <= log[..j][k].now;
      assert log[k] == log[..j][k];
    }
    forall id
      ensures Calls(log, id) <= max
    {
      assert IdOk(w, id);
    }
  }

  /** Where an accepted message is. */
  datatype Place = IsDelivered | IsPending | IsSending | IsFailed | IsLost

  function PlaceOf(w: World, id: Id): Place {
    if Done(w.log, id) then IsDelivered
    else if id !in w.table then IsLost
    else
      match w.table[id].status
      case Pending => IsPending
      case Sending => IsSending
      case Failed => IsFailed
  }

  /**
    Conservation: on every run an accepted message is never lost. Until it is delivered its row is
    in the table with its envelope and its file holds exactly its bytes; a delivered one is never
    pending or failed again. A failed job that used up its attempts was given exactly the back-off
    delays of attempts 1 to max - 1.
   */
  lemma Conservation(max: nat, run: seq<Action>, id: Id)
    requires max >= 1 && Possible(Start(max), run)
    requires MsgOf(After(Start(max), run).log, id).Some?
    ensures var w := After(Start(max), run);
            var msg := MsgOf(w.log, id).value;
            && PlaceOf(w, id) != IsLost
            && (PlaceOf(w, id) != IsDelivered ==>
                  && w.table[id].from == msg.from && w.table[id].to == msg.to
                  && id in w.files && w.files[id] == msg.body)
            && (PlaceOf(w, id) == IsDelivered && id in w.table ==> w.table[id].status == Sending)
            && (PlaceOf(w, id) == IsFailed && w.table[id].attempts == max ==> Delays(w.log, id) == SumDelays(max - 1))
  {
    hide After, Possible, Calls, MsgOf, Done, DueAt, Ripe, Attempting;
    StartInv(max);
    RunKeepsInv(Start(max), run);
    assert IdOk(After(Start(max), run), id);
  }

  /** Row and file: at any moment of any run, every pending row has its file with exactly the enqueued bytes. */
  lemma PendingHasFile(max: nat, run: seq<Action>, id: Id)
    requires max >= 1 && Possible(Start(max), run)
    requires var w := After(Start(max), run); id in w.table && w.table[id].status == Pending
    ensures var w := After(Start(max), run);
            && MsgOf(w.log, id).Some? && !Done(w.log, id) && Calls(w.log, id) == w.table[id].attempts < max
            && id in w.files && w.files[id] == MsgOf(w.log, id).value.body
  {
    hide After, Possible, Calls, MsgOf, Done, DueAt, Ripe, Attempting;
    StartInv(max);
    RunKeepsInv(Start(max), run);
    assert IdOk(After(Start(max), run), id);
  }

  /** The "body file missing" branch is taken only if reading an existing file fails. */
  lemma MissingOnlyByReadError(max: nat, run: seq<Action>, ioOk: bool)
    requires max >= 1 && Possible(Start(max), run) && Enabled(After(Start(max), run), ReadFile(ioOk))
    ensures var w := After(Start(max), run);
            Next(w, ReadFile(ioOk)).worker.Missing? <==> !ioOk
  {
    hide After, Possible, Calls, MsgOf, Done, DueAt, Ripe, Attempting;
    StartInv(max);
    RunKeepsInv(Start(max), run);
    var w := After(Start(max), run);
    assert IdOk(w, w.worker.job.id);
  }
}
