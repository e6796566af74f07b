/**
  What every column of the media job table (`lib/media_job_store.py`) holds: the value that the last event to
  write it wrote.  Each column is described by the events that write it, in terms of the arguments of the
  operations alone.
*/
module JobHistory {
  import opened JobStore
  import opened Options
  import Seqs

  /** A column: how it is read, what an event writes to the row `id`, and what a new row has. */
  datatype Column<!T> = Column(get: Job -> T, write: (Event, nat) -> Option<T>, init: (Request, int) -> T)

  /** Event `i` makes the row `id`: it enqueues a url that no row has. */
  ghost predicate Makes(ts: seq<Table>, es: seq<Event>, i: nat, id: nat)
    requires i < |es| && i < |ts|
  {
    && es[i].EnqueueEvent? && id == ts[i].nextId
    && forall k :: k in ts[i].rows ==> ts[i].rows[k].url != es[i].request.url
  }

  /** Event `i` writes `x` to the column of the row `id`. */
  ghost predicate Writes<T>(ts: seq<Table>, es: seq<Event>, i: nat, id: nat, c: Column<T>, x: T)
    requires i < |es| && i < |ts|
  {
    || (Makes(ts, es, i, id) && x == c.init(es[i].request, es[i].now))
    || (id in ts[i].rows && c.write(es[i], id) == Some(x))
  }

  /** One step of the table does to a column what the column says. */
  ghost predicate Follows<T>(c: Column<T>, t: Table, e: Event, u: Table, id: nat) {
    && (id in t.rows ==>
          && id in u.rows
          && c.get(u.rows[id]) == match c.write(e, id) case None => c.get(t.rows[id]) case Some(x) => x)
    && (id !in t.rows && id in u.rows ==>
          && e.EnqueueEvent? && id == t.nextId
          && (forall k :: k in t.rows ==> t.rows[k].url != e.request.url)
          && c.get(u.rows[id]) == c.init(e.request, e.now))
  }

  /** The events of a run do to a column what the column says. */
  ghost predicate Describes<T>(c: Column<T>, ts: seq<Table>, es: seq<Event>, id: nat)
    requires |ts| == |es| + 1
  {
    forall i :: 0 <= i < |es| ==> Follows(c, ts[i], es[i], ts[i + 1], id)
  }

  /** Event `i` is the last one before event `n` to write the column, and it wrote `x`. */
  ghost predicate LastWrote<T(!new)>(ts: seq<Table>, es: seq<Event>, n: nat, id: nat, c: Column<T>, i: nat, x: T)
    requires n <= |es| < |ts|
  {
    i < n && Writes(ts, es, i, id, c, x) && forall j, y :: i < j < n ==> !Writes(ts, es, j, id, c, y)
  }

  lemma {:induction false} LastWriter<T(!new)>(c: Column<T>, ts: seq<Table>, es: seq<Event>, n: nat, id: nat)
    returns (i: nat)
    requires Run(ts, es) && Describes(c, ts, es, id) && n <= |es| && id in ts[n].rows
    ensures LastWrote(ts, es, n, id, c, i, c.get(ts[n].rows[id]))
  {
    hide Step, Writes;
    var m := n - 1;
    NotAtFirst(ts, es, n, id);
    WriteStep(c, ts, es, m, id);
    var x := c.get(ts[n].rows[id]);
    if Writes(ts, es, m, id, c, x) {
      i := m;
    } else {
      i := LastWriter(c, ts, es, m, id);
    }
  }

  lemma NotAtFirst(ts: seq<Table>, es: seq<Event>, n: nat, id: nat)
    requires Run(ts, es) && n <= |es| && id in ts[n].rows
    ensures n > 0
  {
    hide Step;
  }

  lemma WriteStep<T(!new)>(c: Column<T>, ts: seq<Table>, es: seq<Event>, m: nat, id: nat)
    requires Run(ts, es) && Describes(c, ts, es, id) && m < |es| && id in ts[m + 1].rows
    ensures var x := c.get(ts[m + 1].rows[id]);
      || Writes(ts, es, m, id, c, x)
      || (id in ts[m].rows && x == c.get(ts[m].rows[id]) && forall y :: !Writes(ts, es, m, id, c, y))
  {
    hide Step;
    assert Follows(c, ts[m], es[m], ts[m + 1], id);
    ReachableWellFormed(ts, es, m);
    assert id in ts[m].rows ==> id != ts[m].nextId;
  }

  // ----- the columns

  const URL := Column((j: Job) => j.url, (e: Event, id: nat) => None, (r: Request, now: int) => r.url)

  const CREATED := Column((j: Job) => j.createdAt, (e: Event, id: nat) => None, (r: Request, now: int) => now)

  const SOURCE := Column((j: Job) => j.details.source, (e: Event, id: nat) => None, (r: Request, now: int) => r.source)

  const RETRIES_ALLOWED :=
    Column((j: Job) => j.details.maxRetries, (e: Event, id: nat) => None, (r: Request, now: int) => r.maxRetries)

  const STATUS := Column(
    (j: Job) => j.status,
    (e: Event, id: nat) =>
      if e.ClaimEvent? && id in e.taken then Some(Claimed)
      else if e.UpdateEvent? && e.id == id then e.changes.status
      else None,
    (r: Request, now: int) => Queued)

  const OWNER := Column(
    (j: Job) => j.claimedBy,
    (e: Event, id: nat) => if e.ClaimEvent? && id in e.taken then Some(Some(e.agent)) else None,
    (r: Request, now: int) => None)

  const COMPLETED := Column(
    (j: Job) => j.completedAt,
    (e: Event, id: nat) =>
      if e.UpdateEvent? && e.id == id && e.changes.status == Some(Completed) then Some(Some(e.now)) else None,
    (r: Request, now: int) => None)

  const TOUCHED := Column(
    (j: Job) => j.updatedAt,
    (e: Event, id: nat) =>
      if (e.ClaimEvent? && id in e.taken) || (e.UpdateEvent? && e.id == id) || (e.ExportEvent? && e.id == id)
      then Some(e.now) else None,
    (r: Request, now: int) => now)

  const EXPORT := Column(
    (j: Job) => (j.exported, j.archivePath, j.archivedAt),
    (e: Event, id: nat) => if e.ExportEvent? && e.id == id then Some((true, Some(e.path), Some(e.now))) else None,
    (r: Request, now: int) => (false, None, None))

  const SUBTITLE := Column(
    (j: Job) => j.details.subtitle,
    (e: Event, id: nat) => if e.UpdateEvent? && e.id == id then e.changes.subtitle else None,
    (r: Request, now: int) => Pending)

  const DOWNLOAD := Column(
    (j: Job) => j.details.download,
    (e: Event, id: nat) => if e.UpdateEvent? && e.id == id then e.changes.download else None,
    (r: Request, now: int) => DownloadPending)

  const REASON := Column(
    (j: Job) => j.details.errorReason,
    (e: Event, id: nat) =>
      if e.UpdateEvent? && e.id == id && e.changes.errorReason.Some? && e.changes.errorReason.value != ""
      then Some(e.changes.errorReason) else None,
    (r: Request, now: int) => None)

  const METADATA := Column(
    (j: Job) => j.details.metadata,
    (e: Event, id: nat) =>
      if e.UpdateEvent? && e.id == id && e.changes.metadata.Some? then Some(e.changes.metadata) else None,
    (r: Request, now: int) => r.metadata)

  /** Every column is described. */
  ghost predicate AllDescribed(ts: seq<Table>, es: seq<Event>, id: nat)
    requires |ts| == |es| + 1
  {
    && Describes(URL, ts, es, id) && Describes(CREATED, ts, es, id) && Describes(SOURCE, ts, es, id)
    && Describes(RETRIES_ALLOWED, ts, es, id) && Describes(STATUS, ts, es, id) && Describes(OWNER, ts, es, id)
    && Describes(COMPLETED, ts, es, id) && Describes(TOUCHED, ts, es, id) && Describes(EXPORT, ts, es, id)
    && Describes(SUBTITLE, ts, es, id) && Describes(DOWNLOAD, ts, es, id) && Describes(REASON, ts, es, id)
    && Describes(METADATA, ts, es, id)
  }

  ghost predicate AllFollow(t: Table, e: Event, u: Table, id: nat) {
    && Follows(URL, t, e, u, id) && Follows(CREATED, t, e, u, id) && Follows(SOURCE, t, e, u, id)
    && Follows(RETRIES_ALLOWED, t, e, u, id) && Follows(STATUS, t, e, u, id) && Follows(OWNER, t, e, u, id)
    && Follows(COMPLETED, t, e, u, id) && Follows(TOUCHED, t, e, u, id) && Follows(EXPORT, t, e, u, id)
    && Follows(SUBTITLE, t, e, u, id) && Follows(DOWNLOAD, t, e, u, id) && Follows(REASON, t, e, u, id)
    && Follows(METADATA, t, e, u, id)
  }

  lemma EnqueueFollows(t: Table, e: Event, u: Table, id: nat)
    requires WellFormed(t.rows, t.nextId) && Step(t, e, u) && e.EnqueueEvent?
    ensures AllFollow(t, e, u, id)
  {
    hide OldestOf, QueuedTimes, ClaimedRows, Updated, Exported;
  }

  lemma ClaimFollows(t: Table, e: Event, u: Table, id: nat)
    requires Step(t, e, u) && e.ClaimEvent?
    ensures AllFollow(t, e, u, id)
  {
    hide OldestOf, QueuedTimes, NewJob, Updated, Exported;
  }

  lemma UpdateFollows(t: Table, e: Event, u: Table, id: nat)
    requires Step(t, e, u) && e.UpdateEvent?
    ensures AllFollow(t, e, u, id)
  {
    hide OldestOf, QueuedTimes, ClaimedRows, NewJob, Exported;
  }

  lemma ExportFollows(t: Table, e: Event, u: Table, id: nat)
    requires Step(t, e, u) && e.ExportEvent?
    ensures AllFollow(t, e, u, id)
  {
    hide OldestOf, QueuedTimes, ClaimedRows, NewJob, Updated;
  }

  lemma ColumnsFollow(t: Table, e: Event, u: Table, id: nat)
    requires WellFormed(t.rows, t.nextId) && Step(t, e, u)
    ensures AllFollow(t, e, u, id)
  {
    hide Step, AllFollow;
    match e {
      case EnqueueEvent(_, _) => EnqueueFollows(t, e, u, id);
      case ClaimEvent(_, _, _, _) => ClaimFollows(t, e, u, id);
      case UpdateEvent(_, _, _) => UpdateFollows(t, e, u, id);
      case ExportEvent(_, _, _) => ExportFollows(t, e, u, id);
    }
  }

  /** Each column of the table is described. */
  lemma ColumnsDescribed(ts: seq<Table>, es: seq<Event>, id: nat)
    requires Run(ts, es)
    ensures AllDescribed(ts, es, id)
  {
    hide Step, Follows;
    forall i | 0 <= i < |es| ensures AllFollow(ts[i], es[i], ts[i + 1], id) {
      ReachableWellFormed(ts, es, i);
      ColumnsFollow(ts[i], es[i], ts[i + 1], id);
    }
  }

  // ----- jobs keep their place in the queue

  /** A job's creation time is the time of the event that enqueued it, whatever happened to it since. */
  lemma CreatedWhenEnqueued(ts: seq<Table>, es: seq<Event>, n: nat, id: nat) returns (i: nat)
    requires Run(ts, es) && n <= |es| && id in ts[n].rows
    ensures i < n && Makes(ts, es, i, id)
    ensures ts[n].rows[id].createdAt == es[i].now && ts[n].rows[id].url == es[i].request.url
  {
    hide Run, Makes;
    ColumnsDescribed(ts, es, id);
    i := LastWriter(CREATED, ts, es, n, id);
    var j := LastWriter(URL, ts, es, n, id);
    OnlyMadeOnce(ts, es, i, j, id);
  }

  lemma OnlyMadeOnce(ts: seq<Table>, es: seq<Event>, i: nat, j: nat, id: nat)
    requires Run(ts, es) && i < |es| && j < |es| && Makes(ts, es, i, id) && Makes(ts, es, j, id)
    ensures i == j
  {
    hide Step;
    NextIdGrows(ts, es, i, j, id);
    NextIdGrows(ts, es, j, i, id);
  }

  lemma {:induction false} NextIdGrows(ts: seq<Table>, es: seq<Event>, i: nat, j: nat, id: nat)
    requires Run(ts, es) && i < |es| && j <= |es| && Makes(ts, es, i, id)
    ensures i < j ==> ts[j].nextId > id
    decreases j
  {
    hide OldestOf, QueuedTimes, ClaimedRows, Updated, Exported, NewJob;
    if i < j {
      assert Step(ts[j - 1], es[j - 1], ts[j]);
      NextIdGrows(ts, es, i, j - 1, id);
    }
  }

  /**
    Claims follow the order of enqueueing: of two queued jobs of which a claim takes one, the one it takes
    was not enqueued later, even if it was claimed and put back in between.
  */
  lemma ClaimsFollowEnqueueOrder(ts: seq<Table>, es: seq<Event>, n: nat, a: nat, b: nat) returns (i: nat, j: nat)
    requires Run(ts, es) && n < |es| && es[n].ClaimEvent? && a in es[n].taken
    requires b in ts[n].rows && ts[n].rows[b].status == Queued && b !in es[n].taken
    ensures i < n && j < n && Makes(ts, es, i, a) && Makes(ts, es, j, b) && es[i].now <= es[j].now
  {
    hide Makes, OldestOf, QueuedTimes;
    assert Step(ts[n], es[n], ts[n + 1]);
    OldestQueued(ts[n].rows, es[n].limit, es[n].taken);
    i := CreatedWhenEnqueued(ts, es, n, a);
    j := CreatedWhenEnqueued(ts, es, n, b);
  }

  // ----- retries are counted

  /** How many events before event `n` counted a retry of the job. */
  ghost function Retries(es: seq<Event>, ts: seq<Table>, n: nat, id: nat): nat
    requires n <= |es| < |ts|
  {
    if n == 0 then 0
    else
      var e := es[n - 1];
      Retries(es, ts, n - 1, id)
      + if e.UpdateEvent? && e.id == id && e.changes.incrementRetry && id in ts[n - 1].rows then 1 else 0
  }

  lemma RetryStep(t: Table, e: Event, u: Table, id: nat)
    requires WellFormed(t.rows, t.nextId) && Step(t, e, u) && id in u.rows
    ensures var before := if id in t.rows then t.rows[id].retryCount else 0;
      var counted := id in t.rows && e.UpdateEvent? && e.id == id && e.changes.incrementRetry;
      u.rows[id].retryCount == before + if counted then 1 else 0
  {
    hide OldestOf, QueuedTimes, Revised;
  }

  lemma {:induction false} StaysInTable(ts: seq<Table>, es: seq<Event>, n: nat, id: nat)
    requires Run(ts, es) && n <= |es| && id !in ts[n].rows
    ensures Retries(es, ts, n, id) == 0
  {
    hide Step;
    if n > 0 {
      ColumnsDescribed(ts, es, id);
      assert Follows(URL, ts[n - 1], es[n - 1], ts[n], id);
      StaysInTable(ts, es, n - 1, id);
    }
  }

  /** The retry count is the number of updates that counted one. */
  lemma {:induction false} RetriesAreCounted(ts: seq<Table>, es: seq<Event>, n: nat, id: nat)
    requires Run(ts, es) && n <= |es| && id in ts[n].rows
    ensures ts[n].rows[id].retryCount == Retries(es, ts, n, id)
  {
    hide Step;
    NotAtFirst(ts, es, n, id);
    var m := n - 1;
    ReachableWellFormed(ts, es, m);
    RetryStep(ts[m], es[m], ts[n], id);
    if id in ts[m].rows {
      RetriesAreCounted(ts, es, m, id);
    } else {
      StaysInTable(ts, es, m, id);
    }
  }
}
