/**
  Approvals and the forced dry run (`src/foundation/approvals.py`).
  Times are integers (seconds); `now` is a reading of the clock.
*/
module Approvals {
  import opened Options
  import opened Text
  import Seqs

  datatype Decision = Pending | Approved | Rejected | Expired

  // ----- records

  type Metadata = map<string, string>

  /** The value of an approval record. */
  datatype Record = Record(status: Decision, requestedBy: Option<string>, decidedBy: Option<string>,
                           decisionReason: Option<string>, createdAt: int, expiresAt: Option<int>,
                           decidedAt: Option<int>, metadata: Metadata) {
    predicate IsExpired(now: int) {
      status == Pending && expiresAt.Some? && now > expiresAt.value
    }

    /** The status that `check_approval` reads. */
    function Read(now: int): Decision {
      if IsExpired(now) then Expired else status
    }

    /** The record after `decide` on a pending one. */
    function Decided(decision: Decision, who: string, reason: string, now: int, decidedNow: int): Record {
      if IsExpired(now) then this.(status := Expired)
      else this.(status := decision, decidedBy := Some(who), decisionReason := Some(reason),
                 decidedAt := Some(decidedNow))
    }
  }

  function NewRecord(requestedBy: Option<string>, createdAt: int, expiresAt: int, metadata: Metadata): Record {
    Record(Pending, requestedBy, None, None, createdAt, Some(expiresAt), None, metadata)
  }

  class ApprovalRecord {
    var status: Decision
    var requestedBy: Option<string>
    var decidedBy: Option<string>
    var decisionReason: Option<string>
    var createdAt: int
    var expiresAt: Option<int>
    var decidedAt: Option<int>
    var metadata: Metadata

    function Value(): Record
      reads this
    {
      Record(status, requestedBy, decidedBy, decisionReason, createdAt, expiresAt, decidedAt, metadata)
    }

    constructor (requestedBy: Option<string>, createdAt: int, expiresAt: int, metadata: Metadata)
      ensures Value() == NewRecord(requestedBy, createdAt, expiresAt, metadata)
    {
      this.status, this.requestedBy := Pending, requestedBy;
      this.createdAt, this.expiresAt, this.metadata := createdAt, Some(expiresAt), metadata;
      this.decidedBy, this.decisionReason, this.decidedAt := None, None, None;
    }

    /** `decide`; `raised` is the `ValueError` on a record that is not pending. */
    method Decide(decision: Decision, who: string, reason: string, now: int, decidedNow: int) returns (raised: bool)
      modifies this
      ensures raised == (old(status) != Pending)
      ensures Value() == if raised then old(Value()) else old(Value()).Decided(decision, who, reason, now, decidedNow)
    {
      if status != Pending {
        return true;
      }
      if expiresAt.Some? && now > expiresAt.value {
        status := Expired;
        return false;
      }
      status := decision;
      decidedBy := Some(who);
      decisionReason := Some(reason);
      decidedAt := Some(decidedNow);
      return false;
    }
  }

  // ----- the store

  type Records = map<string, Record>

  datatype DecideOutcome = NotFound | Raised | Done

  class ApprovalStore {
    var approvals: map<string, ApprovalRecord>

    /** Different ids have different records. */
    ghost predicate Valid()
      reads this
    {
      forall a, b :: a in approvals && b in approvals && a != b ==> approvals[a] != approvals[b]
    }

    ghost function Model(): Records
      reads this, approvals.Values
    {
      map id | id in approvals :: approvals[id].Value()
    }

    constructor ()
      ensures Valid() && approvals == map[] && Model() == map[]
    {
      approvals := map[];
    }

    /** `create` reads the clock twice; `raised` is the `ValueError` on an id that exists. */
    method Create(id: string, requestedBy: Option<string>, expiresIn: int, metadata: Metadata,
                  createdNow: int, now: int)
      returns (raised: bool)
      requires Valid()
      modifies this
      ensures Valid()
      ensures raised == (id in old(approvals))
      ensures Model() == Next(old(Model()), CreateEvent(id, requestedBy, expiresIn, metadata, createdNow, now))
    {
      if id in approvals {
        return true;
      }
      var record := new ApprovalRecord(requestedBy, createdNow, now + expiresIn, metadata);
      approvals := approvals[id := record];
      return false;
    }

    /** `decide` */
    method Decide(id: string, decision: Decision, who: string, reason: string, now: int, decidedNow: int)
      returns (r: DecideOutcome)
      requires Valid()
      modifies approvals.Values
      ensures Valid() && approvals == old(approvals)
      ensures r == if id !in approvals then NotFound else if old(approvals[id].status) != Pending then Raised else Done
      ensures Model() == Next(old(Model()), DecideEvent(id, decision, who, reason, now, decidedNow))
    {
      hide Record.Decided, Next;
      ghost var before := Model();
      DecideNext(before, id, decision, who, reason, now, decidedNow);
      if id !in approvals {
        return NotFound;
      }
      var raised := approvals[id].Decide(decision, who, reason, now, decidedNow);
      forall a | a in approvals ensures a != id ==> approvals[a].Value() == before[a] {
        assert a != id ==> approvals[a] != approvals[id];
      }
      assert Model() == before[id := approvals[id].Value()];
      return if raised then Raised else Done;
    }

    /** `check_approval` */
    method CheckApproval(id: string, now: int) returns (r: Decision)
      requires Valid()
      ensures r == Check(Model(), id, now)
    {
      if id !in approvals {
        return Rejected;
      }
      var record := approvals[id];
      if record.status == Pending && record.expiresAt.Some? && now > record.expiresAt.value {
        return Expired;
      }
      return record.status;
    }

    /** `request_approval`: `None` when no approval is required, else whether `create` raised. */
    method RequestApproval(job: JobSpec, manifest: Option<seq<string>>, expiresIn: int, createdNow: int, now: int)
      returns (raised: Option<bool>)
      requires Valid()
      modifies this
      ensures Valid()
      ensures raised.None? <==> !Needed(job, manifest)
      ensures raised.None? ==> Model() == old(Model())
      ensures raised.Some? ==>
        var requirement := Requirement(job, manifest).value;
        Model() == Next(old(Model()),
                        CreateEvent(ApprovalId(job), job.requestedBy, Min(expiresIn, requirement.expiresIn),
                                    RequestMetadata(job, requirement), createdNow, now))
      ensures raised.None? <==> !AsksForApproval(job, manifest)
      ensures raised.Some? ==>
        var id := "approval-" + job.runId;
        && id in Model() && (raised.value <==> id in old(Model()))
        && (id !in old(Model()) ==>
              exists q :: Requires(job, manifest, q) && IsRequest(Model()[id], job, q, expiresIn, createdNow, now))
    {
      hide AsksForApproval, Requires, IsRequest;
      NeededExactly(job, manifest);
      var requirement := Requirement(job, manifest);
      if requirement.None? || !requirement.value.required {
        return None;
      }
      RequirementExactly(job, manifest, requirement.value);
      RequestMade(Model(), job, requirement.value, expiresIn, createdNow, now);
      var r := Create(ApprovalId(job), job.requestedBy, Min(expiresIn, requirement.value.expiresIn),
                      RequestMetadata(job, requirement.value), createdNow, now);
      return Some(r);
    }
  }

  /** `check_approval`: an id nobody requested reads as rejected. */
  function Check(records: Records, id: string, now: int): Decision {
    if id in records then records[id].Read(now) else Rejected
  }

  // ----- runs

  datatype Event =
    | CreateEvent(id: string, requestedBy: Option<string>, expiresIn: int, metadata: Metadata,
                  createdNow: int, now: int)
    | DecideEvent(id: string, decision: Decision, who: string, reason: string, now: int, decidedNow: int)

  function Next(records: Records, e: Event): Records {
    match e
    case CreateEvent(id, requestedBy, expiresIn, metadata, createdNow, now) =>
      if id in records then records else records[id := NewRecord(requestedBy, createdNow, now + expiresIn, metadata)]
    case DecideEvent(id, decision, who, reason, now, decidedNow) =>
      if id !in records || records[id].status != Pending then records
      else records[id := records[id].Decided(decision, who, reason, now, decidedNow)]
  }

  function Run(records: Records, es: seq<Event>): Records {
    if es == [] then records else Next(Run(records, es[..|es| - 1]), es[|es| - 1])
  }

  lemma DecideNext(records: Records, id: string, decision: Decision, who: string, reason: string,
                   now: int, decidedNow: int)
    ensures Next(records, DecideEvent(id, decision, who, reason, now, decidedNow)) ==
      if id !in records then records
      else if records[id].status != Pending then records[id := records[id]]
      else records[id := records[id].Decided(decision, who, reason, now, decidedNow)]
  {
    hide Record.Decided;
  }

  /**
    What is settled at time `t`: the reading at any later time, through an event at any later time,
    is the same.
  */
  lemma SettledStaysSettled(records: Records, id: string, t: int, e: Event, u: int)
    requires id in records && records[id].Read(t) != Pending
    requires t <= e.now && t <= u
    ensures id in Next(records, e) && Next(records, e)[id].Read(u) == records[id].Read(t)
  {
  }

  /**
    With a clock that does not go back, the status of a created approval leaves "pending" at most
    once and is then fixed: every later reading, after any events, is the same.
  */
  lemma {:induction false} StatusIsFinal(records: Records, id: string, t: int, es: seq<Event>, u: int)
    requires id in records && records[id].Read(t) != Pending
    requires (forall i :: 0 <= i < |es| ==> t <= es[i].now) && t <= u
    ensures id in Run(records, es) && Check(Run(records, es), id, u) == Check(records, id, t)
  {
    if es != [] {
      var n := |es| - 1;
      StatusIsFinal(records, id, t, es[..n], t);
      SettledStaysSettled(Run(records, es[..n]), id, t, es[n], u);
    }
  }

  /** In particular an expired or rejected approval is never approved afterwards. */
  lemma NeverApprovedAfterAll(records: Records, id: string, t: int, es: seq<Event>, u: int)
    requires id in records && (Check(records, id, t) == Expired || Check(records, id, t) == Rejected)
    requires (forall i :: 0 <= i < |es| ==> t <= es[i].now) && t <= u
    ensures Check(Run(records, es), id, u) != Approved
  {
    StatusIsFinal(records, id, t, es, u);
  }

  /** The clock matters: if it goes back past the deadline, an approval that read "expired" can be approved. */
  lemma ClockMustNotGoBack(records: Records, id: string, t: int, back: int, who: string, reason: string)
    requires id in records && records[id].IsExpired(t) && back <= records[id].expiresAt.value
    ensures Check(records, id, t) == Expired
    ensures Check(Run(records, [DecideEvent(id, Approved, who, reason, back, back)]), id, t) == Approved
  {
    var e := DecideEvent(id, Approved, who, reason, back, back);
    assert Run(records, [e]) == Next(Run(records, []), e);
  }

  // ----- what an approval rests on

  predicate Creates(e: Event, id: string) {
    e.CreateEvent? && e.id == id
  }

  predicate Decides(e: Event, id: string) {
    e.DecideEvent? && e.id == id
  }

  /** The decision comes no later than the deadline that the request `c` set. */
  predicate InTime(c: Event, d: Event)
    requires c.CreateEvent? && d.DecideEvent?
  {
    d.now <= c.now + c.expiresIn
  }

  /** Event `i` is the request for `id`, and before event `n` nothing but "pending" was decided on it, in time. */
  ghost predicate PendingSince(es: seq<Event>, n: nat, id: string, i: int) {
    && 0 <= i < n <= |es| && Creates(es[i], id)
    && (forall k :: 0 <= k < i ==> !Creates(es[k], id))
    && forall m :: i < m < n && Decides(es[m], id) ==> es[m].decision == Pending && InTime(es[i], es[m])
  }

  /** Event `j` approves, before the deadline, what event `i` requested and nothing settled in between. */
  ghost predicate ApprovedBy(es: seq<Event>, n: nat, id: string, i: int, j: int) {
    && 0 <= j < n <= |es| && PendingSince(es, j, id, i)
    && Decides(es[j], id) && es[j].decision == Approved && InTime(es[i], es[j])
  }

  ghost predicate Requested(es: seq<Event>, n: nat, id: string)
    requires n <= |es|
  {
    exists k :: 0 <= k < n && Creates(es[k], id)
  }

  /** What the store holds for `id` after `n` events. */
  ghost predicate Accounts(records: Records, es: seq<Event>, n: nat, id: string)
    requires n <= |es|
  {
    && (id in records <==> Requested(es, n, id))
    && (forall i :: PendingSince(es, n, id, i) ==>
          id in records && records[id].status == Pending && records[id].expiresAt == Some(es[i].now + es[i].expiresIn))
    && (id in records && records[id].status == Pending ==> exists i :: PendingSince(es, n, id, i))
    && (id in records && records[id].status == Approved <==> exists i, j :: ApprovedBy(es, n, id, i, j))
  }

  lemma RequestedStep(es: seq<Event>, n: nat, m: nat, id: string)
    requires n < |es| && m == n + 1
    ensures Requested(es, m, id) <==> Requested(es, n, id) || Creates(es[n], id)
  {
  }

  lemma PendingStep(es: seq<Event>, n: nat, m: nat, id: string, i: int)
    requires n < |es| && m == n + 1
    ensures PendingSince(es, m, id, i) <==>
      || (PendingSince(es, n, id, i) && (Decides(es[n], id) ==> es[n].decision == Pending && InTime(es[i], es[n])))
      || (i == n && Creates(es[n], id) && !Requested(es, n, id))
  {
  }

  lemma ApprovedStep(es: seq<Event>, n: nat, m: nat, id: string, i: int, j: int)
    requires n < |es| && m == n + 1
    ensures ApprovedBy(es, m, id, i, j) <==>
      || ApprovedBy(es, n, id, i, j)
      || (j == n && PendingSince(es, n, id, i) && Decides(es[n], id)
          && es[n].decision == Approved && InTime(es[i], es[n]))
  {
    hide PendingSince;
  }

  lemma PendingIsCreated(es: seq<Event>, n: nat, id: string, i: int)
    requires PendingSince(es, n, id, i)
    ensures 0 <= i < n <= |es| && Creates(es[i], id) && Requested(es, n, id)
  {
  }

  lemma ApprovedIsRequested(es: seq<Event>, n: nat, id: string, i: int, j: int)
    requires ApprovedBy(es, n, id, i, j)
    ensures j < n <= |es| && Requested(es, n, id)
  {
  }

  lemma AccountsNothing(es: seq<Event>, id: string)
    ensures Accounts(map[], es, 0, id)
  {
  }

  /** The request itself. */
  lemma AccountsCreate(records: Records, es: seq<Event>, n: nat, m: nat, id: string)
    requires n < |es| && m == n + 1 && Accounts(records, es, n, id) && Creates(es[n], id)
    ensures Accounts(Next(records, es[n]), es, m, id)
  {
    hide PendingSince, ApprovedBy, Requested;
    AccountSteps(es, n, m, id);
  }

  /** A decision on it. */
  lemma AccountsDecide(records: Records, es: seq<Event>, n: nat, m: nat, id: string)
    requires n < |es| && m == n + 1 && Accounts(records, es, n, id) && Decides(es[n], id)
    ensures Accounts(Next(records, es[n]), es, m, id)
  {
    hide PendingSince, ApprovedBy, Requested;
    AccountSteps(es, n, m, id);
    if id in records && records[id].status == Pending {
      var i :| PendingSince(es, n, id, i);
      assert ApprovedBy(es, m, id, i, n) <==> es[n].decision == Approved && InTime(es[i], es[n]);
      assert PendingSince(es, m, id, i) <==> es[n].decision == Pending && InTime(es[i], es[n]);
    }
  }

  /** An event about another id. */
  lemma AccountsOther(records: Records, es: seq<Event>, n: nat, m: nat, id: string)
    requires n < |es| && m == n + 1 && Accounts(records, es, n, id) && es[n].id != id
    ensures Accounts(Next(records, es[n]), es, m, id)
  {
    hide PendingSince, ApprovedBy, Requested;
    AccountSteps(es, n, m, id);
  }

  lemma AccountSteps(es: seq<Event>, n: nat, m: nat, id: string)
    requires n < |es| && m == n + 1
    ensures Requested(es, m, id) <==> Requested(es, n, id) || Creates(es[n], id)
    ensures forall i :: PendingSince(es, n, id, i) ==> 0 <= i < n && Creates(es[i], id) && Requested(es, n, id)
    ensures forall i :: PendingSince(es, m, id, i) <==>
      || (PendingSince(es, n, id, i) && (Decides(es[n], id) ==> es[n].decision == Pending && InTime(es[i], es[n])))
      || (i == n && Creates(es[n], id) && !Requested(es, n, id))
    ensures forall i, j :: ApprovedBy(es, n, id, i, j) ==> j < n && Requested(es, n, id)
    ensures forall i, j :: ApprovedBy(es, m, id, i, j) <==>
      || ApprovedBy(es, n, id, i, j)
      || (j == n && PendingSince(es, n, id, i) && Decides(es[n], id)
          && es[n].decision == Approved && InTime(es[i], es[n]))
  {
    hide PendingSince, ApprovedBy, Requested, InTime, Creates, Decides;
    RequestedStep(es, n, m, id);
    forall i | PendingSince(es, n, id, i) ensures 0 <= i < n && Creates(es[i], id) && Requested(es, n, id) {
      PendingIsCreated(es, n, id, i);
    }
    CreatesAreCreates(es, id);
    forall i ensures PendingSince(es, m, id, i) <==>
      || (PendingSince(es, n, id, i) && (Decides(es[n], id) ==> es[n].decision == Pending && InTime(es[i], es[n])))
      || (i == n && Creates(es[n], id) && !Requested(es, n, id))
    {
      PendingStep(es, n, m, id, i);
    }
    forall i, j | ApprovedBy(es, n, id, i, j) ensures j < n && Requested(es, n, id) {
      ApprovedIsRequested(es, n, id, i, j);
    }
    forall i, j ensures ApprovedBy(es, m, id, i, j) <==>
      || ApprovedBy(es, n, id, i, j)
      || (j == n && PendingSince(es, n, id, i) && Decides(es[n], id)
          && es[n].decision == Approved && InTime(es[i], es[n]))
    {
      ApprovedStep(es, n, m, id, i, j);
    }
  }

  lemma CreatesAreCreates(es: seq<Event>, id: string)
    ensures forall e :: e in es && Creates(e, id) ==> e.CreateEvent?
    ensures forall e :: e in es && Decides(e, id) ==> e.DecideEvent?
  {
  }

  lemma {:induction false} StoreAccounts(es: seq<Event>, n: nat, id: string)
    requires n <= |es|
    ensures Accounts(Run(map[], es[..n]), es, n, id)
  {
    hide Accounts, Next;
    if n == 0 {
      AccountsNothing(es, id);
    } else {
      StoreAccounts(es, n - 1, id);
      Seqs.TakeSucc(es, n - 1);
      var records := Run(map[], es[..n - 1]);
      if es[n - 1].id != id {
        AccountsOther(records, es, n - 1, n, id);
      } else if es[n - 1].CreateEvent? {
        AccountsCreate(records, es, n - 1, n, id);
      } else {
        AccountsDecide(records, es, n - 1, n, id);
      }
    }
  }

  /**
    In every run from the empty store, an approval reads "approved" if and only if it was requested, then
    approved no later than the deadline of that request, and not settled before.
  */
  lemma ApprovedExactly(es: seq<Event>, id: string, now: int)
    ensures Check(Run(map[], es), id, now) == Approved <==> exists i, j :: ApprovedBy(es, |es|, id, i, j)
  {
    hide Run, ApprovedBy, PendingSince, Requested;
    StoreAccounts(es, |es|, id);
    Seqs.TakeAll(es);
  }

  // ----- what a record says

  /** The request that made the record. */
  ghost predicate MadeBy(r: Record, es: seq<Event>, id: string, i: int) {
    && 0 <= i < |es| && Creates(es[i], id) && (forall k :: 0 <= k < i ==> !Creates(es[k], id))
    && r.requestedBy == es[i].requestedBy && r.metadata == es[i].metadata
    && r.createdAt == es[i].createdNow && r.expiresAt == Some(es[i].now + es[i].expiresIn)
  }

  /** The decision that the record states, with its author, its reason and its time. */
  ghost predicate SettledBy(r: Record, es: seq<Event>, id: string, j: int) {
    && 0 <= j < |es| && Decides(es[j], id)
    && r.status == es[j].decision && r.decidedBy == Some(es[j].who) && r.decisionReason == Some(es[j].reason)
    && r.decidedAt == Some(es[j].decidedNow)
  }

  /** Nobody has decided on the record. */
  ghost predicate Undecided(r: Record) {
    r.decidedBy.None? && r.decisionReason.None? && r.decidedAt.None? && (r.status == Pending || r.status == Expired)
  }

  ghost predicate Documents(records: Records, es: seq<Event>, id: string) {
    && (id in records <==> exists k :: 0 <= k < |es| && Creates(es[k], id))
    && (id in records ==>
          && (exists i :: MadeBy(records[id], es, id, i))
          && (records[id].status != Expired ==>
                Undecided(records[id]) || exists j :: SettledBy(records[id], es, id, j)))
  }

  lemma DocumentsStep(records: Records, es: seq<Event>, e: Event, id: string)
    requires Documents(records, es, id)
    ensures Documents(Next(records, e), es + [e], id)
  {
    var all := es + [e];
    if id in records {
      var i :| MadeBy(records[id], es, id, i);
      assert Creates(all[i], id);
      assert MadeBy(Next(records, e)[id], all, id, i);
      if Decides(e, id) && records[id].status == Pending && !records[id].IsExpired(e.now) {
        assert SettledBy(Next(records, e)[id], all, id, |es|);
      }
      if j :| SettledBy(records[id], es, id, j) {
        assert SettledBy(records[id], all, id, j);
      }
    } else {
      forall k | 0 <= k < |es| ensures !Creates(all[k], id) {
      }
      if Creates(e, id) {
        assert Creates(all[|es|], id);
        assert MadeBy(Next(records, e)[id], all, id, |es|);
      }
    }
  }

  /**
    In every run from the empty store, a record exists if and only if it was requested, states what its first
    request stated, and unless it has expired states a decision on it with its author, or none.
  */
  lemma {:induction false} RecordsDocumentEvents(es: seq<Event>, id: string)
    ensures Documents(Run(map[], es), es, id)
  {
    hide Documents, Next;
    if es == [] {
      NothingDocumented(id);
    } else {
      var n := |es| - 1;
      RecordsDocumentEvents(es[..n], id);
      DocumentsStep(Run(map[], es[..n]), es[..n], es[n], id);
      Seqs.SplitLast(es);
    }
  }

  lemma NothingDocumented(id: string)
    ensures Documents(map[], [], id)
  {
  }

  // ----- jobs

  datatype ApprovalRequirement = ApprovalRequirement(required: bool, scope: string, riskLevel: string, expiresIn: int)

  datatype JobSpec = JobSpec(runId: string, agentId: string, taskType: string, task: string,
                             requestedBy: Option<string>, dryRun: bool,
                             requiresApproval: bool, requirement: Option<ApprovalRequirement>)

  /** `_scope_matches_job` */
  predicate ScopeMatches(scope: string, job: JobSpec) {
    var name, task := Lower(scope), Lower(job.task);
    if name == "writeback_to_source_excel" then Contains(task, "writeback") || Contains(task, "回写")
    else if name == "merge_to_main" then Contains(task, "merge") || Contains(task, "push")
    else if name == "execute_transfer" then Contains(task, "transfer") || Contains(task, "execute")
    else if name == "real_github_operation" then Contains(task, "github") && !job.dryRun
    else false
  }

  function FirstMatch(scopes: seq<string>, job: JobSpec): Option<string> {
    if scopes == [] then None
    else if ScopeMatches(scopes[0], job) then Some(scopes[0])
    else FirstMatch(scopes[1..], job)
  }

  /** `check_approval_required`; a manifest is the list of its approval scopes. */
  function Requirement(job: JobSpec, manifest: Option<seq<string>>): Option<ApprovalRequirement> {
    if job.requiresApproval then
      if job.requirement.Some? then job.requirement else Some(ApprovalRequirement(true, "job_context", "medium", 3600))
    else if manifest.Some? && FirstMatch(manifest.value, job).Some? then
      Some(ApprovalRequirement(true, FirstMatch(manifest.value, job).value, "medium", 3600))
    else None
  }

  /** The five cases of `_scope_matches_job`, by the words that stand in the scope and in the task. */
  ghost predicate Triggers(scope: string, job: JobSpec) {
    || (Is(scope, "writeback_to_source_excel") && (Mentions(job.task, "writeback") || Mentions(job.task, "回写")))
    || (Is(scope, "merge_to_main") && (Mentions(job.task, "merge") || Mentions(job.task, "push")))
    || (Is(scope, "execute_transfer") && (Mentions(job.task, "transfer") || Mentions(job.task, "execute")))
    || (Is(scope, "real_github_operation") && Mentions(job.task, "github") && !job.dryRun)
  }

  lemma ScopeMatchesExactly(scope: string, job: JobSpec)
    ensures ScopeMatches(scope, job) <==> Triggers(scope, job)
  {
    hide Lower, Contains, Is, Mentions;
    LowerIs(scope, "writeback_to_source_excel");
    LowerIs(scope, "merge_to_main");
    LowerIs(scope, "execute_transfer");
    LowerIs(scope, "real_github_operation");
    LowerMentions(job.task, "writeback");
    LowerMentions(job.task, "回写");
    LowerMentions(job.task, "merge");
    LowerMentions(job.task, "push");
    LowerMentions(job.task, "transfer");
    LowerMentions(job.task, "execute");
    LowerMentions(job.task, "github");
  }

  lemma {:induction false} FirstMatchMeaning(scopes: seq<string>, job: JobSpec)
    ensures match FirstMatch(scopes, job)
      case None => forall k :: 0 <= k < |scopes| ==> !Triggers(scopes[k], job)
      case Some(s) => exists k :: 0 <= k < |scopes| && scopes[k] == s && Triggers(s, job)
                                  && forall j :: 0 <= j < k ==> !Triggers(scopes[j], job)
  {
    hide ScopeMatches, Triggers;
    if scopes != [] {
      ScopeMatchesExactly(scopes[0], job);
      FirstMatchMeaning(scopes[1..], job);
      var r := FirstMatch(scopes, job);
      if Triggers(scopes[0], job) {
        assert scopes[0] == r.value;
      } else if r.Some? {
        var k :| 0 <= k < |scopes[1..]| && scopes[1..][k] == r.value
          && forall j :: 0 <= j < k ==> !Triggers(scopes[1..][j], job);
        assert scopes[k + 1] == r.value;
        assert forall j :: 0 < j < k + 1 ==> scopes[j] == scopes[1..][j - 1];
      } else {
        assert forall j :: 0 < j < |scopes| ==> scopes[j] == scopes[1..][j - 1];
      }
    }
  }

  /** The requirement that the job's context states, or else the first triggered scope of the manifest. */
  ghost predicate Requires(job: JobSpec, manifest: Option<seq<string>>, q: ApprovalRequirement) {
    if job.requiresApproval then
      if job.requirement.Some? then q == job.requirement.value
      else q.required && q.scope == "job_context" && q.riskLevel == "medium" && q.expiresIn == 3600
    else
      && q.required && q.riskLevel == "medium" && q.expiresIn == 3600
      && manifest.Some? && FirstTriggered(manifest.value, job, q.scope)
  }

  ghost predicate FirstTriggered(scopes: seq<string>, job: JobSpec, scope: string) {
    exists k :: 0 <= k < |scopes| && scopes[k] == scope && Triggers(scope, job)
                && forall j :: 0 <= j < k ==> !Triggers(scopes[j], job)
  }

  ghost predicate AsksForApproval(job: JobSpec, manifest: Option<seq<string>>) {
    if job.requiresApproval then job.requirement.None? || job.requirement.value.required
    else manifest.Some? && exists k :: 0 <= k < |manifest.value| && Triggers(manifest.value[k], job)
  }

  lemma RequirementExactly(job: JobSpec, manifest: Option<seq<string>>, q: ApprovalRequirement)
    ensures Requirement(job, manifest) == Some(q) <==> Requires(job, manifest, q)
  {
    hide FirstMatch, Triggers;
    if manifest.Some? {
      FirstMatchMeaning(manifest.value, job);
      FirstIsUnique(manifest.value, job);
    }
  }

  lemma FirstIsUnique(scopes: seq<string>, job: JobSpec)
    ensures forall a, b :: FirstTriggered(scopes, job, a) && FirstTriggered(scopes, job, b) ==> a == b
  {
    hide Triggers;
    forall a, b | FirstTriggered(scopes, job, a) && FirstTriggered(scopes, job, b) ensures a == b {
      var k :| 0 <= k < |scopes| && scopes[k] == a && Triggers(a, job)
        && forall j :: 0 <= j < k ==> !Triggers(scopes[j], job);
      var l :| 0 <= l < |scopes| && scopes[l] == b && Triggers(b, job)
        && forall j :: 0 <= j < l ==> !Triggers(scopes[j], job);
    }
  }

  /**
    A job needs an approval exactly when its context asks for one (and does not say that none is required),
    or its context does not ask and a scope of its manifest is triggered.
  */
  lemma NeededExactly(job: JobSpec, manifest: Option<seq<string>>)
    ensures Needed(job, manifest) <==> AsksForApproval(job, manifest)
  {
    hide FirstMatch, Triggers;
    if manifest.Some? {
      FirstMatchMeaning(manifest.value, job);
    }
  }

  /** The record of a request: pending, until the shorter of the two times, with notes about the job. */
  ghost predicate IsRequest(r: Record, job: JobSpec, q: ApprovalRequirement, expiresIn: int,
                            createdNow: int, now: int)
  {
    && r.status == Pending && r.requestedBy == job.requestedBy && r.createdAt == createdNow
    && r.decidedBy.None? && r.decisionReason.None? && r.decidedAt.None?
    && (r.expiresAt == Some(now + expiresIn) || r.expiresAt == Some(now + q.expiresIn))
    && r.expiresAt.value <= now + expiresIn && r.expiresAt.value <= now + q.expiresIn
    && r.metadata.Keys == {"run_id", "agent_id", "task_type", "scope", "risk_level"}
    && r.metadata["run_id"] == job.runId && r.metadata["agent_id"] == job.agentId
    && r.metadata["task_type"] == job.taskType
    && r.metadata["scope"] == q.scope && r.metadata["risk_level"] == q.riskLevel
  }

  lemma RequestMade(records: Records, job: JobSpec, q: ApprovalRequirement, expiresIn: int, createdNow: int, now: int)
    ensures var e := CreateEvent(ApprovalId(job), job.requestedBy, Min(expiresIn, q.expiresIn),
                                 RequestMetadata(job, q), createdNow, now);
      var id := "approval-" + job.runId;
      && id in Next(records, e)
      && (id !in records ==> IsRequest(Next(records, e)[id], job, q, expiresIn, createdNow, now))
  {
    var m := RequestMetadata(job, q);
    assert m.Keys == {"run_id", "agent_id", "task_type", "scope", "risk_level"};
  }

  predicate Needed(job: JobSpec, manifest: Option<seq<string>>) {
    Requirement(job, manifest).Some? && Requirement(job, manifest).value.required
  }

  /** What `request_approval` notes about the job. */
  function RequestMetadata(job: JobSpec, requirement: ApprovalRequirement): Metadata {
    map["run_id" := job.runId, "agent_id" := job.agentId, "task_type" := job.taskType,
        "scope" := requirement.scope, "risk_level" := requirement.riskLevel]
  }

  function Min(a: int, b: int): int {
    if b < a then b else a
  }

  function ApprovalId(job: JobSpec): string {
    "approval-" + job.runId
  }

  /** `ensure_dry_run_for_unapproved` */
  function EnsureDryRun(records: Records, now: int, job: JobSpec, manifest: Option<seq<string>>): JobSpec {
    var requirement := Requirement(job, manifest);
    if requirement.None? || !requirement.value.required then job
    else if Check(records, ApprovalId(job), now) == Approved then job
    else if !job.dryRun then job.(dryRun := true)
    else job
  }

  /**
    Which job leaves for real, in every run from the empty store: one that was not a dry run, and needed
    no approval or was approved on its request before the deadline. Nothing but the dry run changes.
  */
  lemma RealRunsAreApproved(es: seq<Event>, now: int, job: JobSpec, manifest: Option<seq<string>>)
    ensures var r := EnsureDryRun(Run(map[], es), now, job, manifest);
      && r == job.(dryRun := r.dryRun)
      && (!r.dryRun <==>
            !job.dryRun && (!AsksForApproval(job, manifest)
                            || exists i, j :: ApprovedBy(es, |es|, "approval-" + job.runId, i, j)))
  {
    hide Requirement, Check, Run, ApprovedBy, AsksForApproval;
    NeededExactly(job, manifest);
    ApprovedExactly(es, ApprovalId(job), now);
  }

  /**
    Enforcing twice is enforcing once, even when the second time is later and after any events:
    a forced dry run stays forced, and a job let through stays let through.
  */
  lemma EnforcingIsIdempotent(records: Records, t: int, es: seq<Event>, u: int,
                              job: JobSpec, manifest: Option<seq<string>>)
    requires (forall i :: 0 <= i < |es| ==> t <= es[i].now) && t <= u
    ensures var once := EnsureDryRun(records, t, job, manifest);
      EnsureDryRun(Run(records, es), u, once, manifest) == once
  {
    hide Requirement, Run;
    var once := EnsureDryRun(records, t, job, manifest);
    if Check(records, ApprovalId(job), t) == Approved {
      StatusIsFinal(records, ApprovalId(job), t, es, u);
    }
  }

  /** A granted request lets the job through: request, approve in time, enforce. */
  lemma ApprovalLetsThrough(records: Records, job: JobSpec, manifest: Option<seq<string>>, expiresIn: int,
                            metadata: Metadata, c: int, t: int, d: int, u: int, who: string)
    requires ApprovalId(job) !in records && t <= d <= t + expiresIn
    ensures var requested := Next(records, CreateEvent(ApprovalId(job), job.requestedBy, expiresIn, metadata, c, t));
      var decided := Next(requested, DecideEvent(ApprovalId(job), Approved, who, "", d, d));
      EnsureDryRun(decided, u, job, manifest) == job
  {
    hide Requirement;
  }
}
