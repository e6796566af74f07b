/**
  The media job queue (`lib/media_job_store.py`): one database table shared by any number of
  agents, every operation one atomic statement.  Times are integers; `now` is the clock reading
  an operation takes.
*/
module JobStore {
  import opened Options
  import Seqs
  import StableSort

  datatype JobStatus = Queued | Claimed | Processing | Completed | Failed | Archived

  datatype SubtitleStatus = Pending | Downloaded | Missing | SubtitleFailed | Skipped | NotRequested
  datatype DownloadStatus = DownloadPending | DownloadDone | DownloadSkipped | DownloadFailed

  /** Columns that no query looks at. `metadata` is its JSON text, `None` for nothing or an empty dictionary. */
  datatype Details = Details(source: string, metadata: Option<string>, maxRetries: int,
                             subtitle: SubtitleStatus, download: DownloadStatus, errorReason: Option<string>)

  datatype Job = Job(url: string, details: Details, status: JobStatus, claimedBy: Option<string>, retryCount: nat,
                     createdAt: int, updatedAt: int, completedAt: Option<int>,
                     exported: bool, archivePath: Option<string>, archivedAt: Option<int>)

  type Rows = map<nat, Job>

  // ----- `ORDER BY time ASC LIMIT limit`

  /** How many rows a `LIMIT` lets through; a negative limit is no limit. */
  function Limited(limit: int, n: nat): nat {
    if limit < 0 || limit > n then n else limit
  }

  /** `taken` are the `limit` oldest of the ids in `times`; ties may go either way. */
  ghost predicate OldestOf(times: map<nat, int>, limit: int, taken: set<nat>) {
    && taken <= times.Keys
    && |taken| == Limited(limit, |times|)
    && forall a, b :: a in taken && b in times && b !in taken ==> times[a] <= times[b]
  }

  ghost predicate Distinct(s: seq<nat>) {
    forall i, j :: 0 <= i < j < |s| ==> s[i] != s[j]
  }

  ghost function Ids(s: seq<nat>): set<nat> {
    set x | x in s
  }

  function Time(times: map<nat, int>, id: nat): int {
    if id in times then times[id] else 0
  }

  /** In order of time. */
  ghost predicate InTimeOrder(times: map<nat, int>, s: seq<nat>) {
    forall i, j :: 0 <= i < j < |s| ==> Time(times, s[i]) <= Time(times, s[j])
  }

  /** The rows a query scans, in whatever order the database finds them. */
  method Scan(ids: set<nat>) returns (all: seq<nat>)
    ensures Distinct(all) && Ids(all) == ids
  {
    all := [];
    var rest := ids;
    while rest != {}
      invariant Distinct(all) && Ids(all) !! rest && Ids(all) + rest == ids
      decreases rest
    {
      var id :| id in rest;
      assert forall i :: 0 <= i < |all| ==> all[i] in Ids(all);
      all, rest := all + [id], rest - {id};
    }
  }

  /** A query's result: distinct ids in order of time, the `limit` oldest. */
  method SelectOldest(times: map<nat, int>, limit: int) returns (r: seq<nat>)
    ensures Distinct(r) && InTimeOrder(times, r) && OldestOf(times, limit, Ids(r))
  {
    var all := Scan(times.Keys);
    var sorted := StableSort.Sort((a: nat, b: nat) => Time(times, a) <= Time(times, b), all);
    SortedByTime(times, all);
    r := sorted[..Limited(limit, |sorted|)];
    FirstAreOldest(times, sorted, limit);
  }

  lemma SortedByTime(times: map<nat, int>, all: seq<nat>)
    requires Distinct(all)
    ensures var sorted := StableSort.Sort((a: nat, b: nat) => Time(times, a) <= Time(times, b), all);
      Distinct(sorted) && InTimeOrder(times, sorted) && Ids(sorted) == Ids(all)
  {
    hide Time, Ids, Distinct;
    var older := (a: nat, b: nat) => Time(times, a) <= Time(times, b);
    StableSort.SortSorts(older, all);
    SamePermutation(StableSort.Sort(older, all), all);
    var sorted := StableSort.Sort(older, all);
    forall i, j | 0 <= i < j < |sorted| ensures Time(times, sorted[i]) <= Time(times, sorted[j]) {
      assert older(sorted[i], sorted[j]);
    }
  }

  lemma InPrefix(s: seq<nat>, n: nat)
    requires n <= |s|
    ensures forall j :: 0 <= j < n ==> s[j] in Ids(s[..n])
  {
    forall j | 0 <= j < n ensures s[j] in s[..n] {
      assert s[..n][j] == s[j];
    }
  }

  lemma FirstAreOldest(times: map<nat, int>, sorted: seq<nat>, limit: int)
    requires Distinct(sorted) && InTimeOrder(times, sorted) && Ids(sorted) == times.Keys
    ensures var r := sorted[..Limited(limit, |sorted|)];
      Distinct(r) && InTimeOrder(times, r) && OldestOf(times, limit, Ids(r))
  {
    var n := Limited(limit, |sorted|);
    var r := sorted[..n];
    DistinctSize(sorted);
    DistinctSize(r);
    PrefixComesFirst(times, sorted, n);
  }

  lemma PrefixComesFirst(times: map<nat, int>, sorted: seq<nat>, n: nat)
    requires InTimeOrder(times, sorted) && Ids(sorted) == times.Keys && n <= |sorted|
    ensures Ids(sorted[..n]) <= times.Keys
    ensures forall a, b :: a in Ids(sorted[..n]) && b in times && b !in Ids(sorted[..n]) ==> times[a] <= times[b]
  {
    InPrefix(sorted, n);
    forall a | a in Ids(sorted[..n]) ensures a in Ids(sorted) {
    }
    forall a, b | a in Ids(sorted[..n]) && b in times && b !in Ids(sorted[..n]) ensures times[a] <= times[b] {
      assert b in Ids(sorted);
      var i :| 0 <= i < n && sorted[i] == a;
      var j :| 0 <= j < |sorted| && sorted[j] == b;
      assert Time(times, sorted[i]) <= Time(times, sorted[j]);
    }
  }

  lemma SamePermutation(s: seq<nat>, t: seq<nat>)
    requires multiset(s) == multiset(t) && Distinct(t)
    ensures Distinct(s) && Ids(s) == Ids(t)
  {
    forall x ensures x in s <==> x in t {
      assert x in s <==> x in multiset(s);
      assert x in t <==> x in multiset(t);
    }
    forall i, j | 0 <= i < j < |s| ensures s[i] != s[j] {
      if s[i] == s[j] {
        Twice(s, i, j);
        AtMostOnce(t, s[i]);
        assert false;
      }
    }
  }

  lemma Twice(s: seq<nat>, i: nat, j: nat)
    requires i < j < |s| && s[i] == s[j]
    ensures multiset(s)[s[i]] >= 2
  {
    assert s == s[..j] + [s[j]] + s[j + 1..];
    assert s[i] in s[..j];
    assert s[i] in multiset(s[..j]);
  }

  lemma {:induction false} AtMostOnce(s: seq<nat>, x: nat)
    requires Distinct(s)
    ensures multiset(s)[x] <= 1
  {
    if s != [] {
      var n := |s| - 1;
      AtMostOnce(s[..n], x);
      Seqs.SplitLast(s);
      forall i | 0 <= i < n ensures s[..n][i] != s[n] {
        assert s[..n][i] == s[i];
      }
      assert x in s[..n] <==> x in multiset(s[..n]);
    }
  }

  lemma {:induction false} DistinctSize(s: seq<nat>)
    requires Distinct(s)
    ensures |Ids(s)| == |s|
  {
    if s != [] {
      var n := |s| - 1;
      DistinctSize(s[..n]);
      assert Ids(s) == Ids(s[..n]) + {s[n]};
    }
  }

  // ----- the table

  function QueuedTimes(rows: Rows): map<nat, int> {
    map id | id in rows && rows[id].status == Queued :: rows[id].createdAt
  }

  /** Rows waiting for export: completed, with a completion time, and not yet exported. */
  function PendingTimes(rows: Rows): map<nat, int> {
    map id | id in rows && rows[id].status == Completed && rows[id].completedAt.Some? && !rows[id].exported
      :: rows[id].completedAt.value
  }

  /** The arguments of `enqueue`. */
  datatype Request = Request(url: string, source: string, metadata: Option<string>, maxRetries: int)

  /** The number of rows that a query with a limit returns out of `n`. */
  ghost predicate LimitedTo(taken: nat, limit: int, n: nat) {
    if limit < 0 then taken == n else taken <= n && taken <= limit && (taken == n || taken == limit)
  }

  /** A claim takes queued jobs, as many as the limit lets it, none of which was created after one it leaves queued. */
  ghost predicate TakesOldestQueued(rows: Rows, limit: int, taken: set<nat>) {
    var queued := set id | id in rows && rows[id].status == Queued;
    && taken <= queued && LimitedTo(|taken|, limit, |queued|)
    && forall a, b :: a in taken && b in queued - taken ==> rows[a].createdAt <= rows[b].createdAt
  }

  /** The row is completed, with a completion time, and was not exported. */
  predicate Exportable(job: Job) {
    job.status == Completed && job.completedAt.Some? && !job.exported
  }

  /** An export looks at such jobs, as many as the limit lets it, in the order of their completion, the oldest first. */
  ghost predicate TakesOldestDone(rows: Rows, limit: int, batch: seq<nat>) {
    var done := set id | id in rows && Exportable(rows[id]);
    && (forall k :: 0 <= k < |batch| ==> batch[k] in done)
    && LimitedTo(|batch|, limit, |done|)
    && (forall j, k :: 0 <= j < k < |batch| ==>
          batch[j] != batch[k] && rows[batch[j]].completedAt.value <= rows[batch[k]].completedAt.value)
    && forall k, b :: 0 <= k < |batch| && b in done && b !in batch ==>
         rows[batch[k]].completedAt.value <= rows[b].completedAt.value
  }

  lemma OldestQueued(rows: Rows, limit: int, taken: set<nat>)
    ensures OldestOf(QueuedTimes(rows), limit, taken) <==> TakesOldestQueued(rows, limit, taken)
  {
    var times := QueuedTimes(rows);
    assert times.Keys == set id | id in rows && rows[id].status == Queued;
    assert |times| == |times.Keys|;
  }

  lemma OldestDone(rows: Rows, limit: int, batch: seq<nat>)
    requires Distinct(batch) && InTimeOrder(PendingTimes(rows), batch)
    requires OldestOf(PendingTimes(rows), limit, Ids(batch))
    ensures TakesOldestDone(rows, limit, batch)
  {
    var times := PendingTimes(rows);
    assert times.Keys == set id | id in rows && Exportable(rows[id]);
    assert |times| == |times.Keys|;
    DistinctSize(batch);
    assert forall k :: 0 <= k < |batch| ==> batch[k] in Ids(batch);
    forall j, k | 0 <= j < k < |batch|
      ensures batch[j] != batch[k] && rows[batch[j]].completedAt.value <= rows[batch[k]].completedAt.value
    {
      assert Time(times, batch[j]) <= Time(times, batch[k]);
    }
  }

  function NewJob(r: Request, now: int): Job {
    var details := Details(r.source, r.metadata, r.maxRetries, Pending, DownloadPending, None);
    Job(r.url, details, Queued, None, 0, now, now, None, false, None, None)
  }

  /** The arguments of `update`; what is `None`, or an empty error reason, is left as it is. */
  datatype Changes = Changes(status: Option<JobStatus>, subtitle: Option<SubtitleStatus>,
                             download: Option<DownloadStatus>, errorReason: Option<string>,
                             metadata: Option<string>, incrementRetry: bool)

  function Revised(d: Details, c: Changes): Details {
    Details(d.source,
            if c.metadata.Some? then c.metadata else d.metadata,
            d.maxRetries,
            if c.subtitle.Some? then c.subtitle.value else d.subtitle,
            if c.download.Some? then c.download.value else d.download,
            if c.errorReason.Some? && c.errorReason.value != "" then c.errorReason else d.errorReason)
  }

  function ClaimedRows(rows: Rows, agent: string, now: int, taken: set<nat>): Rows {
    map id | id in rows ::
      if id in taken then rows[id].(status := Claimed, claimedBy := Some(agent), updatedAt := now) else rows[id]
  }

  function Updated(job: Job, c: Changes, now: int): Job {
    Job(job.url, Revised(job.details, c),
        if c.status.Some? then c.status.value else job.status,
        job.claimedBy,
        job.retryCount + (if c.incrementRetry then 1 else 0),
        job.createdAt, now,
        if c.status == Some(Completed) then Some(now) else job.completedAt,
        job.exported, job.archivePath, job.archivedAt)
  }

  function Exported(job: Job, path: string, now: int): Job {
    job.(exported := true, archivePath := Some(path), archivedAt := Some(now), updatedAt := now)
  }

  /** Ids are below the next one, urls are unique, and a completed job has a completion time. */
  ghost predicate WellFormed(rows: Rows, nextId: nat) {
    && (forall id :: id in rows ==> id < nextId)
    && (forall a, b :: a in rows && b in rows && rows[a].url == rows[b].url ==> a == b)
    && (forall id :: id in rows && rows[id].status == Completed ==> rows[id].completedAt.Some?)
  }

  lemma NewJobIsQueued(r: Request, now: int)
    ensures NewJob(r, now).url == r.url && NewJob(r, now).status == Queued
  {
  }

  lemma UpdateKeepsRows(rows: Rows, nextId: nat, id: nat, c: Changes, now: int)
    requires WellFormed(rows, nextId) && id in rows
    ensures WellFormed(rows[id := Updated(rows[id], c, now)], nextId)
  {
    hide Revised;
    var job := Updated(rows[id], c, now);
    assert job.url == rows[id].url && (job.status == Completed ==> job.completedAt.Some?);
  }

  lemma ClaimKeepsRows(rows: Rows, nextId: nat, agent: string, now: int, taken: set<nat>)
    requires WellFormed(rows, nextId)
    ensures WellFormed(ClaimedRows(rows, agent, now, taken), nextId)
  {
  }

  /** The assignments of `claim`, applied to the selected rows. */
  method ClaimRows(rows: Rows, agent: string, now: int, taken: seq<nat>) returns (r: Rows)
    ensures r == ClaimedRows(rows, agent, now, Ids(taken))
  {
    r := map id | id in rows ::
      if id in taken then rows[id].(status := Claimed, claimedBy := Some(agent), updatedAt := now) else rows[id];
  }

  /** The assignments that `update` puts together, applied to a row. */
  method UpdateRow(row: Job, c: Changes, now: int) returns (job: Job)
    ensures job == Updated(row, c, now)
  {
    hide Revised;
    job := row.(updatedAt := now);
    if c.status.Some? {
      job := job.(status := c.status.value);
      if c.status.value == Completed {
        job := job.(completedAt := Some(now));
      }
    }
    var details := UpdateDetails(row.details, c);
    job := job.(details := details);
    if c.incrementRetry {
      job := job.(retryCount := job.retryCount + 1);
    }
  }

  method UpdateDetails(d: Details, c: Changes) returns (details: Details)
    ensures details == Revised(d, c)
  {
    details := d;
    if c.subtitle.Some? {
      details := details.(subtitle := c.subtitle.value);
    }
    if c.download.Some? {
      details := details.(download := c.download.value);
    }
    if c.errorReason.Some? && c.errorReason.value != "" {
      details := details.(errorReason := c.errorReason);
    }
    if c.metadata.Some? {
      details := details.(metadata := c.metadata);
    }
  }

  class MediaJobStore {
    var rows: Rows
    var nextId: nat

    ghost predicate Valid()
      reads this
    {
      WellFormed(rows, nextId)
    }

    ghost function Model(): Table
      reads this
    {
      Table(rows, nextId)
    }

    constructor ()
      ensures Valid() && Model() == EMPTY
    {
      rows, nextId := map[], 1;
    }

    /** `enqueue`: a new queued row, or the id of the row that already has the url. */
    method Enqueue(r: Request, now: int) returns (id: nat)
      requires Valid()
      modifies this
      ensures Valid() && Step(old(Model()), EnqueueEvent(r, now), Model())
      ensures id in rows && rows[id].url == r.url
      ensures id !in old(rows) ==> id == old(nextId)
    {
      hide NewJob, OldestOf, QueuedTimes, ClaimedRows;
      if exists k :: k in rows && rows[k].url == r.url {
        id :| id in rows && rows[id].url == r.url;
      } else {
        id := nextId;
        NewJobIsQueued(r, now);
        rows := rows[id := NewJob(r, now)];
        nextId := nextId + 1;
      }
    }

    /** `claim`: the oldest queued jobs, as many as the limit and the queue allow, now belong to the agent. */
    method Claim(agent: string, limit: int, now: int) returns (taken: seq<nat>)
      requires Valid()
      modifies `rows
      ensures Valid() && Step(old(Model()), ClaimEvent(agent, limit, now, Ids(taken)), Model())
      ensures Distinct(taken) && OldestOf(QueuedTimes(old(rows)), limit, Ids(taken))
      ensures TakesOldestQueued(old(rows), limit, Ids(taken))
    {
      hide OldestOf, Distinct, QueuedTimes, WellFormed, ClaimedRows, TakesOldestQueued;
      taken := SelectOldest(QueuedTimes(rows), limit);
      OldestQueued(rows, limit, Ids(taken));
      ClaimKeepsRows(rows, nextId, agent, now, Ids(taken));
      rows := ClaimRows(rows, agent, now, taken);
    }

    /** `update` */
    method Update(id: nat, c: Changes, now: int) returns (found: bool)
      requires Valid()
      modifies `rows
      ensures Valid() && Step(old(Model()), UpdateEvent(id, c, now), Model())
      ensures found == (id in old(rows))
    {
      hide OldestOf, QueuedTimes, ClaimedRows, WellFormed, Updated;
      if id !in rows {
        return false;
      }
      UpdateKeepsRows(rows, nextId, id, c, now);
      var job := UpdateRow(rows[id], c, now);
      rows := rows[id := job];
      return true;
    }

    /** `get_completed_for_archive` */
    method GetCompletedForArchive(limit: int) returns (batch: seq<nat>)
      requires Valid()
      ensures Distinct(batch) && OldestOf(PendingTimes(rows), limit, Ids(batch))
      ensures InTimeOrder(PendingTimes(rows), batch)
      ensures TakesOldestDone(rows, limit, batch)
    {
      hide OldestOf, Distinct, PendingTimes, TakesOldestDone;
      batch := SelectOldest(PendingTimes(rows), limit);
      OldestDone(rows, limit, batch);
    }

    /** `mark_exported` */
    method MarkExported(id: nat, path: string, now: int) returns (found: bool)
      requires Valid()
      modifies `rows
      ensures Valid() && Step(old(Model()), ExportEvent(id, path, now), Model())
      ensures found == (id in old(rows))
      ensures rows == if found then old(rows)[id := Exported(old(rows)[id], path, now)] else old(rows)
    {
      hide OldestOf, QueuedTimes, ClaimedRows;
      if id !in rows {
        return false;
      }
      rows := rows[id := rows[id].(exported := true, archivePath := Some(path), archivedAt := Some(now),
                                   updatedAt := now)];
      return true;
    }
  }

  // ----- runs

  datatype Event =
    | EnqueueEvent(request: Request, now: int)
    | ClaimEvent(agent: string, limit: int, now: int, taken: set<nat>)
    | UpdateEvent(id: nat, changes: Changes, now: int)
    | ExportEvent(id: nat, path: string, now: int)

  datatype Table = Table(rows: Rows, nextId: nat)

  const EMPTY := Table(map[], 1)

  /** What one operation may do to the table. */
  ghost predicate Step(t: Table, e: Event, u: Table) {
    match e
    case EnqueueEvent(r, now) =>
      if exists k :: k in t.rows && t.rows[k].url == r.url then u == t
      else u == Table(t.rows[t.nextId := NewJob(r, now)], t.nextId + 1)
    case ClaimEvent(agent, limit, now, taken) =>
      OldestOf(QueuedTimes(t.rows), limit, taken) && u == t.(rows := ClaimedRows(t.rows, agent, now, taken))
    case UpdateEvent(id, changes, now) =>
      if id in t.rows then u == t.(rows := t.rows[id := Updated(t.rows[id], changes, now)]) else u == t
    case ExportEvent(id, path, now) =>
      if id in t.rows then u == t.(rows := t.rows[id := Exported(t.rows[id], path, now)]) else u == t
  }

  /** Any interleaving of any number of agents, from the empty table. */
  ghost predicate Run(ts: seq<Table>, es: seq<Event>) {
    && |ts| == |es| + 1
    && ts[0] == EMPTY
    && forall i :: 0 <= i < |es| ==> Step(ts[i], es[i], ts[i + 1])
  }

  lemma StepKeepsWellFormed(t: Table, e: Event, u: Table)
    requires WellFormed(t.rows, t.nextId) && Step(t, e, u)
    ensures WellFormed(u.rows, u.nextId)
  {
    hide OldestOf, QueuedTimes, NewJob, Updated;
    match e {
      case EnqueueEvent(r, now) => NewJobIsQueued(r, now);
      case ClaimEvent(_, _, _, _) =>
      case UpdateEvent(id, c, now) => if id in t.rows { UpdateKeepsRows(t.rows, t.nextId, id, c, now); }
      case ExportEvent(_, _, _) =>
    }
  }

  lemma {:induction false} ReachableWellFormed(ts: seq<Table>, es: seq<Event>, i: nat)
    requires Run(ts, es) && i < |ts|
    ensures WellFormed(ts[i].rows, ts[i].nextId)
  {
    hide WellFormed, Step;
    if i == 0 {
      EmptyWellFormed();
    } else {
      ReachableWellFormed(ts, es, i - 1);
      StepKeepsWellFormed(ts[i - 1], es[i - 1], ts[i]);
    }
  }

  lemma EmptyWellFormed()
    ensures WellFormed(map[], 1)
  {
  }

  /** The event puts the job back in the queue. */
  predicate Requeues(e: Event, id: nat) {
    e.UpdateEvent? && e.id == id && e.changes.status == Some(Queued)
  }

  /** The job exists and is not in the queue. */
  predicate Taken(t: Table, id: nat) {
    id in t.rows && t.rows[id].status != Queued
  }

  lemma StepKeepsTaken(t: Table, e: Event, u: Table, id: nat)
    requires WellFormed(t.rows, t.nextId) && Step(t, e, u) && Taken(t, id) && !Requeues(e, id)
    ensures Taken(u, id)
  {
  }

  lemma {:induction false} StaysTaken(ts: seq<Table>, es: seq<Event>, i: nat, j: nat, id: nat)
    requires Run(ts, es) && i <= j <= |es| && Taken(ts[i], id)
    requires forall m :: i <= m < j ==> !Requeues(es[m], id)
    ensures Taken(ts[j], id)
    decreases j
  {
    hide WellFormed, Step, Taken, Requeues;
    if i < j {
      StaysTaken(ts, es, i, j - 1, id);
      ReachableWellFormed(ts, es, j - 1);
      StepKeepsTaken(ts[j - 1], es[j - 1], ts[j], id);
    }
  }

  /** Two claims return the same job only if it was put back in the queue between them. */
  lemma NoDoubleClaim(ts: seq<Table>, es: seq<Event>, i: nat, j: nat, id: nat)
    requires Run(ts, es) && i < j < |es|
    requires es[i].ClaimEvent? && es[j].ClaimEvent? && id in es[i].taken && id in es[j].taken
    ensures exists m :: i < m < j && Requeues(es[m], id)
  {
    assert Step(ts[i], es[i], ts[i + 1]) && Step(ts[j], es[j], ts[j + 1]);
    assert id in QueuedTimes(ts[i].rows) && id in QueuedTimes(ts[j].rows);
    assert Taken(ts[i + 1], id) && !Taken(ts[j], id);
    if forall m :: i + 1 <= m < j ==> !Requeues(es[m], id) {
      StaysTaken(ts, es, i + 1, j, id);
    }
  }

  lemma StepKeepsExported(t: Table, e: Event, u: Table, id: nat)
    requires WellFormed(t.rows, t.nextId) && Step(t, e, u) && id in t.rows && t.rows[id].exported
    ensures id in u.rows && u.rows[id].exported
  {
  }

  /** Once exported, a job is never again among those an export can select, whatever happens to it. */
  lemma {:induction false} NeverSelectedAgain(ts: seq<Table>, es: seq<Event>, i: nat, j: nat, id: nat)
    requires Run(ts, es) && i <= j <= |es| && id in ts[i].rows && ts[i].rows[id].exported
    ensures id in ts[j].rows && ts[j].rows[id].exported && id !in PendingTimes(ts[j].rows)
    decreases j
  {
    hide WellFormed, Step;
    if i < j {
      NeverSelectedAgain(ts, es, i, j - 1, id);
      ReachableWellFormed(ts, es, j - 1);
      StepKeepsExported(ts[j - 1], es[j - 1], ts[j], id);
    }
  }

  /** Every completed job that was not exported can be selected: none is stuck without a completion time. */
  lemma CompletedArePending(ts: seq<Table>, es: seq<Event>, i: nat)
    requires Run(ts, es) && i < |ts|
    ensures PendingTimes(ts[i].rows).Keys ==
            set id | id in ts[i].rows && ts[i].rows[id].status == Completed && !ts[i].rows[id].exported
  {
    ReachableWellFormed(ts, es, i);
  }
}
