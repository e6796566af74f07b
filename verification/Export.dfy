/**
  The batch export of completed jobs (`scripts/repo_agent.py`), as a client of the job store,
  and what repeated exports achieve.
*/
module Export {
  import opened Options
  import opened JobStore
  import Seqs

  /** `export` looks at this many jobs at a time. */
  const BATCH := 50

  /** The members of `batch` whose export succeeds, in order. */
  function Succeeding(batch: seq<nat>, archive: nat -> Option<string>): seq<nat> {
    if batch == [] then []
    else Succeeding(batch[..|batch| - 1], archive)
         + if archive(batch[|batch| - 1]).Some? then [batch[|batch| - 1]] else []
  }

  ghost function MarkedRows(rows: Rows, done: set<nat>, archive: nat -> Option<string>, clock: nat -> int): Rows
    requires forall id :: id in done ==> archive(id).Some?
  {
    map id | id in rows :: if id in done then Exported(rows[id], archive(id).value, clock(id)) else rows[id]
  }

  /** The jobs that the archiver fails on. */
  ghost function Failing(ids: set<nat>, archive: nat -> Option<string>): set<nat> {
    set id | id in ids && archive(id).None?
  }

  lemma {:induction false} SucceedingMembers(batch: seq<nat>, archive: nat -> Option<string>)
    ensures Ids(Succeeding(batch, archive)) == Ids(batch) - Failing(Ids(batch), archive)
  {
    if batch != [] {
      var init, last := batch[..|batch| - 1], batch[|batch| - 1];
      SucceedingMembers(init, archive);
      Seqs.SplitLast(batch);
      IdsSnoc(init, last);
      IdsSnoc(Succeeding(init, archive), last);
      Seqs.EmptyUnit(Succeeding(init, archive));
    }
  }

  lemma IdsSnoc(s: seq<nat>, x: nat)
    ensures Ids(s + [x]) == Ids(s) + {x}
  {
  }

  lemma NothingMarked(rows: Rows, archive: nat -> Option<string>, clock: nat -> int)
    ensures Ids([]) == {} && MarkedRows(rows, {}, archive, clock) == rows
  {
  }

  /** Marking one more job. */
  lemma MarkOne(rows: Rows, done: set<nat>, id: nat, archive: nat -> Option<string>, clock: nat -> int)
    requires (forall d :: d in done ==> archive(d).Some?) && archive(id).Some?
    ensures var marked := MarkedRows(rows, done, archive, clock);
      MarkedRows(rows, done + {id}, archive, clock)
      == if id in marked then marked[id := Exported(marked[id], archive(id).value, clock(id))] else marked
  {
  }

  /**
    `export` without a job id.  `archive` is the archiver: the path it wrote to, or `None` for an
    exception; `clock` is the time at which each job is marked.
  */
  method ExportBatch(store: MediaJobStore, archive: nat -> Option<string>, clock: nat -> int)
    returns (exported: seq<nat>, ghost batch: seq<nat>)
    requires store.Valid()
    modifies store`rows
    ensures store.Valid()
    ensures Distinct(batch) && InTimeOrder(PendingTimes(old(store.rows)), batch)
    ensures OldestOf(PendingTimes(old(store.rows)), 50, Ids(batch))
    ensures exported == Succeeding(batch, archive)
    ensures forall id :: id in Ids(exported) ==> archive(id).Some?
    ensures store.rows == MarkedRows(old(store.rows), Ids(exported), archive, clock)
  {
    var jobs := store.GetCompletedForArchive(BATCH);
    batch := jobs;
    exported := [];
    ghost var rows := store.rows;
    hide OldestOf, InTimeOrder, Distinct, MarkedRows, Exported, WellFormed, PendingTimes, Ids, Step;
    NothingMarked(rows, archive, clock);
    for n := 0 to |jobs|
      invariant store.Valid()
      invariant exported == Succeeding(jobs[..n], archive)
      invariant forall id :: id in Ids(exported) ==> archive(id).Some?
      invariant store.rows == MarkedRows(rows, Ids(exported), archive, clock)
    {
      Seqs.TakeSucc(jobs, n);
      var id := jobs[n];
      var path := archive(id);
      if path.Some? {
        var found := store.MarkExported(id, path.value, clock(id));
        MarkOne(rows, Ids(exported), id, archive, clock);
        IdsSnoc(exported, id);
        exported := exported + [id];
      }
    }
    Seqs.TakeAll(jobs);
  }

  // ----- repeated exports

  /** One export as seen by the waiting jobs: the oldest are tried, those that do not fail leave. */
  ghost predicate Round(p: map<nat, int>, batch: set<nat>, fails: set<nat>, q: map<nat, int>) {
    OldestOf(p, BATCH, batch) && q == p - (batch - fails)
  }

  /** The store's export is such a round, with the archiver's failures. */
  lemma ExportIsRound(rows: Rows, batch: seq<nat>, archive: nat -> Option<string>, clock: nat -> int, fails: set<nat>)
    requires OldestOf(PendingTimes(rows), BATCH, Ids(batch))
    requires forall id :: id in PendingTimes(rows) ==> (id in fails <==> archive(id).None?)
    requires forall id :: id in Ids(Succeeding(batch, archive)) ==> archive(id).Some?
    ensures Round(PendingTimes(rows), Ids(batch), fails,
                  PendingTimes(MarkedRows(rows, Ids(Succeeding(batch, archive)), archive, clock)))
  {
    hide OldestOf, PendingTimes, MarkedRows, Succeeding;
    SucceedingMembers(batch, archive);
    var done := Ids(Succeeding(batch, archive));
    BatchIsPending(PendingTimes(rows), Ids(batch));
    assert done == Ids(batch) - fails;
    MarkedLeave(rows, done, archive, clock);
  }

  lemma BatchIsPending(p: map<nat, int>, batch: set<nat>)
    requires OldestOf(p, BATCH, batch)
    ensures forall id :: id in batch ==> id in p
  {
  }

  /** Marking jobs as exported takes exactly them out of the queue. */
  lemma MarkedLeave(rows: Rows, done: set<nat>, archive: nat -> Option<string>, clock: nat -> int)
    requires forall id :: id in done ==> archive(id).Some?
    ensures PendingTimes(MarkedRows(rows, done, archive, clock)) == PendingTimes(rows) - done
  {
    var p, q := PendingTimes(rows), PendingTimes(MarkedRows(rows, done, archive, clock));
    assert forall id :: id in q <==> id in p && id !in done;
    assert forall id :: id in q ==> q[id] == p[id];
  }

  /** Rounds without new completions, the same jobs failing every time. */
  ghost predicate Rounds(ps: seq<map<nat, int>>, batches: seq<set<nat>>, fails: set<nat>) {
    && |ps| == |batches| + 1
    && forall i :: 0 <= i < |batches| ==> Round(ps[i], batches[i], fails, ps[i + 1])
  }

  lemma RemovalSize(p: map<nat, int>, ids: set<nat>)
    requires ids <= p.Keys
    ensures |p - ids| == |p| - |ids|
  {
    assert (p - ids).Keys == p.Keys - ids;
    assert |p.Keys| == |p| && |(p - ids).Keys| == |p - ids|;
  }

  /** A round without failures drains a full batch, or all there is. */
  lemma RoundDrains(p: map<nat, int>, batch: set<nat>, q: map<nat, int>)
    requires Round(p, batch, {}, q)
    ensures |q| == if |p| > BATCH then |p| - BATCH else 0
  {
    assert batch - {} == batch;
    RemovalSize(p, batch);
  }

  lemma {:induction false} DrainsBy(ps: seq<map<nat, int>>, batches: seq<set<nat>>, r: nat)
    requires Rounds(ps, batches, {}) && r <= |batches|
    ensures |ps[r]| == if |ps[0]| > BATCH * r then |ps[0]| - BATCH * r else 0
  {
    hide Round;
    if r > 0 {
      DrainsBy(ps, batches, r - 1);
      assert Round(ps[r - 1], batches[r - 1], {}, ps[r]);
      RoundDrains(ps[r - 1], batches[r - 1], ps[r]);
    }
  }

  /** Without failures every round drains a full batch, so `n` jobs are gone after exactly ceil(n / 50) rounds. */
  lemma Drains(ps: seq<map<nat, int>>, batches: seq<set<nat>>, r: nat)
    requires Rounds(ps, batches, {}) && r <= |batches|
    ensures |ps[r]| == if |ps[0]| > 50 * r then |ps[0]| - 50 * r else 0
    ensures ps[r] == map[] <==> r >= (|ps[0]| + 49) / 50
  {
    DrainsBy(ps, batches, r);
    RoundsLength(ps, batches, {});
    hide Rounds, Round;
    assert ps[r] == map[] <==> |ps[r]| == 0;
  }

  /** No job is tried again after it was exported. */
  lemma {:induction false} LeavesForGood(ps: seq<map<nat, int>>, batches: seq<set<nat>>, fails: set<nat>,
                                           i: nat, j: nat, id: nat)
    requires Rounds(ps, batches, fails) && i < j < |batches|
    requires id in batches[i] && id !in fails
    ensures id !in ps[j] && id !in batches[j]
    decreases j
  {
    assert Round(ps[j - 1], batches[j - 1], fails, ps[j]) && Round(ps[j], batches[j], fails, ps[j + 1]);
    if i < j - 1 {
      LeavesForGood(ps, batches, fails, i, j - 1, id);
    }
  }

  /** Waiting jobs completed no later than `g`. */
  ghost function Ahead(p: map<nat, int>, g: nat): set<nat>
    requires g in p
  {
    set b | b in p && p[b] <= p[g]
  }

  /** Failing jobs completed no later than `g`. */
  ghost function Blockers(p: map<nat, int>, fails: set<nat>, g: nat): set<nat>
    requires g in p
  {
    set b | b in p && b in fails && p[b] <= p[g]
  }

  /** A round that leaves `g` waiting takes someone else from ahead of it. */
  lemma QueueAdvances(p: map<nat, int>, batch: set<nat>, fails: set<nat>, q: map<nat, int>, g: nat)
    requires Round(p, batch, fails, q) && g in q && g !in fails
    requires |Blockers(p, fails, g)| < BATCH
    ensures |Ahead(q, g)| < |Ahead(p, g)|
    ensures |Blockers(q, fails, g)| < BATCH
  {
    assert g !in batch && g in p && batch != p.Keys;
    assert batch <= Ahead(p, g);
    Smaller(batch, p.Keys);
    assert |batch| == BATCH;
    if batch <= fails {
      assert batch <= Blockers(p, fails, g);
      NotLarger(batch, Blockers(p, fails, g));
    }
    var b :| b in batch && b !in fails;
    assert Ahead(q, g) <= Ahead(p, g) - {b};
    NotLarger(Ahead(q, g), Ahead(p, g) - {b});
    NotLarger(Blockers(q, fails, g), Blockers(p, fails, g));
  }

  lemma NotLarger(a: set<nat>, b: set<nat>)
    requires a <= b
    ensures |a| <= |b|
  {
    assert b == a + (b - a);
  }

  lemma Smaller(a: set<nat>, b: set<nat>)
    requires a < b
    ensures |a| < |b|
  {
    assert b == a + (b - a);
    assert b - a != {};
  }

  /**
    A job with fewer than 50 failing jobs ahead of it is exported, at the latest in the round
    that its place in the queue gives.
  */
  lemma {:induction false} FewBlockersNoStarvation(ps: seq<map<nat, int>>, batches: seq<set<nat>>, fails: set<nat>,
                                                     g: nat, r: nat)
    requires Rounds(ps, batches, fails) && g in ps[0] && g !in fails && r <= |batches|
    requires |Blockers(ps[0], fails, g)| < BATCH
    ensures g in ps[r] ==> |Ahead(ps[r], g)| + r <= |Ahead(ps[0], g)| && |Blockers(ps[r], fails, g)| < BATCH
    ensures r >= |Ahead(ps[0], g)| ==> g !in ps[r]
  {
    hide Ahead, Blockers;
    if r > 0 {
      FewBlockersNoStarvation(ps, batches, fails, g, r - 1);
      assert Round(ps[r - 1], batches[r - 1], fails, ps[r]);
      if g in ps[r] {
        QueueAdvances(ps[r - 1], batches[r - 1], fails, ps[r], g);
      }
    }
    if g in ps[r] {
      SelfAhead(ps[r], g);
    }
  }

  lemma SelfAhead(p: map<nat, int>, g: nat)
    requires g in p
    ensures |Ahead(p, g)| >= 1
  {
    assert g in Ahead(p, g);
  }

  /** Failing jobs completed strictly before `g`. */
  ghost function StrictBlockers(p: map<nat, int>, fails: set<nat>, g: nat): set<nat>
    requires g in p
  {
    set b | b in p && b in fails && p[b] < p[g]
  }

  /** With 50 failing jobs strictly ahead of it a job is never even tried: the queue has a blocked head. */
  lemma {:induction false} ManyBlockersStarve(ps: seq<map<nat, int>>, batches: seq<set<nat>>, fails: set<nat>,
                                                g: nat, r: nat)
    requires Rounds(ps, batches, fails) && g in ps[0] && r <= |batches|
    requires |StrictBlockers(ps[0], fails, g)| >= BATCH
    ensures g in ps[r] && StrictBlockers(ps[r], fails, g) == StrictBlockers(ps[0], fails, g)
    ensures r < |batches| ==> g !in batches[r]
  {
    if r > 0 {
      ManyBlockersStarve(ps, batches, fails, g, r - 1);
      assert Round(ps[r - 1], batches[r - 1], fails, ps[r]);
      assert StrictBlockers(ps[r], fails, g) == StrictBlockers(ps[r - 1], fails, g);
    }
    if r < |batches| {
      assert Round(ps[r], batches[r], fails, ps[r + 1]);
      NotTried(ps[r], batches[r], fails, g);
    }
  }

  /** No two waiting jobs completed at the same time. */
  ghost predicate DistinctTimes(p: map<nat, int>) {
    forall a, b :: a in p && b in p && p[a] == p[b] ==> a == b
  }

  /**
    When completion times are distinct, a job that does not fail is exported, given as many rounds as its
    place in the queue, if and only if fewer than 50 failing jobs completed before it.
  */
  lemma StarvesExactly(ps: seq<map<nat, int>>, batches: seq<set<nat>>, fails: set<nat>, g: nat)
    requires Rounds(ps, batches, fails) && g in ps[0] && g !in fails
    requires DistinctTimes(ps[0]) && |batches| >= |Ahead(ps[0], g)|
    ensures g !in ps[|batches|] <==> |StrictBlockers(ps[0], fails, g)| < 50
  {
    hide Rounds, Ahead;
    RoundsLength(ps, batches, fails);
    SameBlockers(ps[0], fails, g);
    if |StrictBlockers(ps[0], fails, g)| < BATCH {
      FewBlockersNoStarvation(ps, batches, fails, g, |batches|);
    } else {
      ManyBlockersStarve(ps, batches, fails, g, |batches|);
    }
  }

  lemma RoundsLength(ps: seq<map<nat, int>>, batches: seq<set<nat>>, fails: set<nat>)
    requires Rounds(ps, batches, fails)
    ensures |ps| == |batches| + 1
  {
  }

  lemma SameBlockers(p: map<nat, int>, fails: set<nat>, g: nat)
    requires g in p && g !in fails && DistinctTimes(p)
    ensures Blockers(p, fails, g) == StrictBlockers(p, fails, g)
  {
  }

  // ----- starvation is reachable

  /** `n` different urls. */
  function Url(n: nat): string {
    seq(n, _ => 'u')
  }

  function Bare(n: nat): Request {
    Request(Url(n), "unknown", None, 3)
  }

  const COMPLETE := Changes(Some(Completed), None, None, None, None, false)

  function DoneJob(n: nat): Job {
    Updated(NewJob(Bare(n), n), COMPLETE, n)
  }

  /** The rows after `n` jobs were queued and completed one after the other, the `k`-th at time `k`. */
  function DoneRows(n: nat): (r: Rows)
    ensures forall id :: id in r <==> 1 <= id <= n
    ensures forall id :: id in r ==> r[id] == DoneJob(id)
  {
    if n == 0 then map[] else DoneRows(n - 1)[n := DoneJob(n)]
  }

  function DoneTable(n: nat): Table {
    Table(DoneRows(n), n + 1)
  }

  /** One more job is queued. */
  function QueuedTable(m: nat, n: nat): Table {
    Table(DoneRows(m)[n := NewJob(Bare(n), n)], n + 1)
  }

  lemma QueueOneMore(m: nat, n: nat)
    requires n == m + 1
    ensures Step(DoneTable(m), EnqueueEvent(Bare(n), n), QueuedTable(m, n))
  {
    hide DoneRows, Url, NewJob, OldestOf, QueuedTimes, ClaimedRows, Updated, Exported;
    var rows := DoneRows(m);
    forall k | k in rows ensures rows[k].url != Bare(n).url {
      DoneUrl(k);
      DifferentUrls(k, n);
    }
  }

  lemma DoneUrl(n: nat)
    ensures DoneJob(n).url == Url(n)
  {
    hide Revised;
  }

  lemma DifferentUrls(m: nat, n: nat)
    ensures Url(m) == Url(n) ==> m == n
  {
    assert |Url(m)| == m && |Url(n)| == n;
  }

  lemma CompleteIt(m: nat, n: nat)
    requires n == m + 1
    ensures Step(QueuedTable(m, n), UpdateEvent(n, COMPLETE, n), DoneTable(n))
  {
    hide NewJob, Updated, OldestOf, QueuedTimes, ClaimedRows, Exported;
    SetTwice(DoneRows(m), n, NewJob(Bare(n), n), DoneJob(n));
  }

  lemma SetTwice<V>(rows: map<nat, V>, k: nat, a: V, b: V)
    ensures rows[k := a][k := b] == rows[k := b]
  {
  }

  lemma {:induction false} DoneRun(n: nat) returns (ts: seq<Table>, es: seq<Event>)
    ensures Run(ts, es) && |ts| == |es| + 1 && ts[|es|] == DoneTable(n)
  {
    hide Step, DoneTable, QueuedTable, Run;
    if n == 0 {
      ts, es := [EMPTY], [];
      StartsEmpty();
    } else {
      ts, es := DoneRun(n - 1);
      QueueOneMore(n - 1, n);
      ts, es := RunSnoc(ts, es, EnqueueEvent(Bare(n), n), QueuedTable(n - 1, n));
      CompleteIt(n - 1, n);
      ts, es := RunSnoc(ts, es, UpdateEvent(n, COMPLETE, n), DoneTable(n));
    }
  }

  lemma StartsEmpty()
    ensures Run([EMPTY], []) && DoneTable(0) == EMPTY
  {
  }

  lemma RunSnoc(before: seq<Table>, events: seq<Event>, e: Event, t: Table) returns (ts: seq<Table>, es: seq<Event>)
    requires Run(before, events) && |before| > |events| && Step(before[|events|], e, t)
    ensures Run(ts, es) && |ts| == |es| + 1 && ts[|es|] == t
  {
    hide Step;
    ts, es := before + [t], events + [e];
  }

  lemma PendingDone(n: nat)
    ensures forall id :: id in PendingTimes(DoneRows(n)) <==> 1 <= id <= n
    ensures forall id :: id in PendingTimes(DoneRows(n)) ==> PendingTimes(DoneRows(n))[id] == id
  {
    hide Revised;
  }

  function UpTo(n: nat): (r: set<nat>)
    ensures |r| == n && forall id :: id in r <==> 1 <= id <= n
  {
    if n == 0 then {} else UpTo(n - 1) + {n}
  }

  /** A run after which `n` jobs, if they fail, stand before one more. */
  lemma BlockedRun(n: nat) returns (ts: seq<Table>, es: seq<Event>)
    ensures Run(ts, es) && |ts| == |es| + 1
    ensures var p := PendingTimes(ts[|es|].rows);
      DistinctTimes(p) && n + 1 in p && n + 1 !in UpTo(n) && |StrictBlockers(p, UpTo(n), n + 1)| == n
  {
    hide PendingTimes, DoneRows, Step, UpTo;
    ts, es := DoneRun(n + 1);
    PendingDone(n + 1);
    assert StrictBlockers(PendingTimes(ts[|es|].rows), UpTo(n), n + 1) == UpTo(n);
  }

  /** A run of the job store after which, if the first 50 jobs fail, the last one is never tried. */
  lemma StarvationIsReachable() returns (ts: seq<Table>, es: seq<Event>, fails: set<nat>, g: nat)
    ensures Run(ts, es) && |ts| == |es| + 1
    ensures var p := PendingTimes(ts[|es|].rows);
      DistinctTimes(p) && g in p && g !in fails && |StrictBlockers(p, fails, g)| >= BATCH
  {
    hide PendingTimes, UpTo, Run, StrictBlockers, DistinctTimes;
    g, fails := BATCH + 1, UpTo(BATCH);
    ts, es := BlockedRun(BATCH);
  }

  lemma NotTried(p: map<nat, int>, batch: set<nat>, fails: set<nat>, g: nat)
    requires OldestOf(p, BATCH, batch) && g in p
    requires |StrictBlockers(p, fails, g)| >= BATCH
    ensures g !in batch
  {
    var ahead := StrictBlockers(p, fails, g);
    if g in batch {
      assert ahead < batch;
      Smaller(ahead, batch);
    }
  }
}
