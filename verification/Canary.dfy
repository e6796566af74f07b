/**
  The canary release manager (`src/bridge/canary_manager.py`).  Floats are reals: the index
  `int(0.95 * (n - 1))` is taken exactly, and rounding for display is left out.
*/
module Canary {
  import opened Options
  import Seqs
  import StableSort

  datatype Status = Active | RolledBack | Promoted
  datatype Reason = ErrorRate | P95Latency | Manual(text: string)

  datatype Metrics = Metrics(total: nat, samples: nat, failures: nat, latencies: seq<real>)

  datatype Release = Release(baseline: string, candidate: string, trafficRatio: real,
                             errorThreshold: real, latencyThreshold: real, minSamples: int,
                             status: Status, reason: Option<Reason>, metrics: Metrics)

  datatype Action = Hold | Rollback(why: Reason) | Promote

  function Max(a: real, b: real): real { if a < b then b else a }
  function Min(a: real, b: real): real { if b < a then b else a }

  predicate AtMost(a: real, b: real) {
    a <= b
  }

  /** The index of the p95 among `n` sorted samples. */
  function P95Index(n: nat): (k: nat)
    requires n > 0
    ensures k < n && 20 * k <= 19 * (n - 1) < 20 * (k + 1)
  {
    19 * (n - 1) / 20
  }

  function P95(latencies: seq<real>): real {
    var sorted := StableSort.Sort(AtMost, latencies);
    if sorted == [] then 0.0 else sorted[P95Index(|sorted|)]
  }

  function ErrorRateOf(m: Metrics): real {
    if m.samples == 0 then 0.0 else m.failures as real / m.samples as real
  }

  /** What `evaluate` decides. */
  function Judge(r: Release): Action {
    if r.metrics.samples < r.minSamples then Hold
    else if ErrorRateOf(r.metrics) > r.errorThreshold then Rollback(ErrorRate)
    else if P95(r.metrics.latencies) > r.latencyThreshold then Rollback(P95Latency)
    else Promote
  }

  function NewRelease(baseline: string, candidate: string, trafficRatio: real, errorThreshold: real,
                      latencyThreshold: real, minSamples: int): Release {
    Release(baseline, candidate, Max(0.01, Min(trafficRatio, 0.9)), Max(0.001, Min(errorThreshold, 0.5)),
            Max(100.0, latencyThreshold), if minSamples < 1 then 1 else minSamples,
            Active, None, Metrics(0, 0, 0, []))
  }

  function Recorded(m: Metrics, isCandidate: bool, success: bool, latency: real): Metrics {
    if isCandidate then
      Metrics(m.total + 1, m.samples + 1, m.failures + (if success then 0 else 1), m.latencies + [Max(0.0, latency)])
    else m.(total := m.total + 1)
  }

  function Evaluated(r: Release): Release {
    match Judge(r)
    case Hold => r
    case Rollback(why) => r.(status := RolledBack, reason := Some(why))
    case Promote => r.(status := Promoted)
  }

  /** `r` is the value from `low` to `high` that is nearest to `x`. */
  ghost predicate Clamped(x: real, low: real, high: real, r: real) {
    low <= r <= high && (r > x ==> r == low) && (r < x ==> r == high)
  }

  /** What `start_release` makes of its arguments. */
  ghost predicate IsNew(r: Release, baseline: string, candidate: string, trafficRatio: real, errorThreshold: real,
                        latencyThreshold: real, minSamples: int) {
    && r.baseline == baseline && r.candidate == candidate
    && Clamped(trafficRatio, 0.01, 0.9, r.trafficRatio) && Clamped(errorThreshold, 0.001, 0.5, r.errorThreshold)
    && r.latencyThreshold >= 100.0 && (r.latencyThreshold == 100.0 || r.latencyThreshold == latencyThreshold)
    && r.latencyThreshold >= latencyThreshold
    && r.minSamples >= 1 && (r.minSamples == 1 || r.minSamples == minSamples) && r.minSamples >= minSamples
    && r.status == Active && r.reason.None?
    && r.metrics.total == r.metrics.samples == r.metrics.failures == |r.metrics.latencies| == 0
  }

  class CanaryReleaseManager {
    var releases: map<string, Release>
    var active: Option<string>

    function Model(): State
      reads this
    {
      State(releases, active)
    }

    constructor ()
      ensures Model() == State(map[], None)
    {
      releases, active := map[], None;
    }

    /** `start_release`; `id` comes from the clock and may name a release of the same second. */
    method StartRelease(id: string, baseline: string, candidate: string, trafficRatio: real, errorThreshold: real,
                        latencyThreshold: real, minSamples: int) returns (r: Release)
      modifies this
      ensures r == NewRelease(baseline, candidate, trafficRatio, errorThreshold, latencyThreshold, minSamples)
      ensures IsNew(r, baseline, candidate, trafficRatio, errorThreshold, latencyThreshold, minSamples)
      ensures Model() == Next(old(Model()), Start(id, r))
    {
      r := NewRelease(baseline, candidate, trafficRatio, errorThreshold, latencyThreshold, minSamples);
      releases := releases[id := r];
      active := Some(id);
    }

    /** `record_result`; `None` is the `KeyError` of an unknown id. */
    method RecordResult(id: string, isCandidate: bool, success: bool, latency: real) returns (r: Option<Release>)
      modifies this
      ensures Model() == Next(old(Model()), Record(id, isCandidate, success, latency))
      ensures r == if id in old(releases) then Some(releases[id]) else None
    {
      if id !in releases {
        return None;
      }
      var m := releases[id].metrics;
      m := m.(total := m.total + 1);
      if isCandidate {
        m := m.(samples := m.samples + 1);
        if !success {
          m := m.(failures := m.failures + 1);
        }
        m := m.(latencies := m.latencies + [Max(0.0, latency)]);
      }
      releases := releases[id := releases[id].(metrics := m)];
      return Some(releases[id]);
    }

    /** `evaluate`: a decision clears the active id, whichever release was evaluated. */
    method Evaluate(id: string) returns (a: Option<Action>)
      modifies this
      ensures Model() == Next(old(Model()), EvaluateEvent(id))
      ensures a == if id in old(releases) then Some(Judge(old(releases)[id])) else None
    {
      if id !in releases {
        return None;
      }
      var r := releases[id];
      var m := r.metrics;
      var errorRate := if m.samples == 0 then 0.0 else m.failures as real / m.samples as real;
      var p95 := P95(m.latencies);
      var action := Hold;
      if m.samples >= r.minSamples {
        if errorRate > r.errorThreshold {
          r := r.(status := RolledBack, reason := Some(ErrorRate));
          action := Rollback(ErrorRate);
        } else if p95 > r.latencyThreshold {
          r := r.(status := RolledBack, reason := Some(P95Latency));
          action := Rollback(P95Latency);
        } else {
          r := r.(status := Promoted);
          action := Promote;
        }
        active := None;
      }
      releases := releases[id := r];
      return Some(action);
    }

    /** `rollback` */
    method RollbackRelease(id: string, text: string) returns (r: Option<Release>)
      modifies this
      ensures Model() == Next(old(Model()), RollbackEvent(id, text))
      ensures r == if id in old(releases) then Some(releases[id]) else None
    {
      if id !in releases {
        return None;
      }
      releases := releases[id := releases[id].(status := RolledBack, reason := Some(Manual(text)))];
      if active == Some(id) {
        active := None;
      }
      return Some(releases[id]);
    }
  }

  // ----- what the p95 says about the samples

  lemma AtMostIsOrder()
    ensures StableSort.TotalPreorder(AtMost)
  {
  }

  function Above(t: real): real -> bool {
    x => x > t
  }

  function Within(t: real): real -> bool {
    x => x <= t
  }

  lemma {:induction false} AboveOrWithin(t: real, s: seq<real>)
    ensures StableSort.Count(Above(t), s) + StableSort.Count(Within(t), s) == |s|
  {
    if s != [] {
      AboveOrWithin(t, s[1..]);
    }
  }

  /** In a sorted list, sample `k` decides how many are above a bound. */
  lemma SortedDecides(s: seq<real>, k: nat, t: real)
    requires StableSort.SortedBy(AtMost, s) && k < |s|
    ensures s[k] > t ==> StableSort.Count(Above(t), s) >= |s| - k
    ensures s[k] <= t ==> StableSort.Count(Within(t), s) >= k + 1
  {
    if s[k] > t {
      Seqs.SplitAt(s, k);
      StableSort.CountOfConcat(Above(t), s[..k], s[k..]);
      forall y | y in s[k..] ensures Above(t)(y) {
        var i :| k <= i < |s| && s[i] == y;
        assert i > k ==> AtMost(s[k], s[i]);
      }
      StableSort.CountAll(Above(t), s[k..]);
    } else {
      Seqs.SplitAt(s, k + 1);
      StableSort.CountOfConcat(Within(t), s[..k + 1], s[k + 1..]);
      forall y | y in s[..k + 1] ensures Within(t)(y) {
        var i :| 0 <= i <= k && s[i] == y;
        assert i < k ==> AtMost(s[i], s[k]);
      }
      StableSort.CountAll(Within(t), s[..k + 1]);
    }
  }

  lemma P95IsSample(latencies: seq<real>)
    requires latencies != []
    ensures var s, k := StableSort.Sort(AtMost, latencies), P95Index(|latencies|);
      |s| == |latencies| && k < |s| && P95(latencies) == s[k]
  {
    StableSort.SortPermutes(AtMost, latencies);
  }

  /**
    With `n` samples and `k = P95Index(n)`, the p95 exceeds a bound exactly when at least `n - k`
    samples do, and is within it exactly when at least `k + 1` samples are.
  */
  lemma P95Decides(latencies: seq<real>, t: real)
    requires latencies != []
    ensures var n, k := |latencies|, P95Index(|latencies|);
      && (P95(latencies) > t <==> StableSort.Count(Above(t), latencies) >= n - k)
      && (P95(latencies) <= t <==> StableSort.Count(Within(t), latencies) >= k + 1)
  {
    hide StableSort.Sort, StableSort.Count, P95, StableSort.SortedBy;
    var s := StableSort.Sort(AtMost, latencies);
    P95IsSample(latencies);
    AtMostIsOrder();
    StableSort.SortIsSorted(AtMost, latencies);
    SortedDecides(s, P95Index(|latencies|), t);
    StableSort.CountOfSort(AtMost, Above(t), latencies);
    StableSort.CountOfSort(AtMost, Within(t), latencies);
    AboveOrWithin(t, latencies);
  }

  /** The p95 is a quantile: at least `k + 1` samples are at or below it, at least `n - k` at or above it. */
  lemma P95IsQuantile(latencies: seq<real>)
    requires latencies != []
    ensures StableSort.Count(Within(P95(latencies)), latencies) >= P95Index(|latencies|) + 1
    ensures StableSort.Count(AtOrAbove(P95(latencies)), latencies) >= |latencies| - P95Index(|latencies|)
  {
    hide P95, StableSort.Sort, StableSort.Count, StableSort.SortedBy, StableSort.TotalPreorder;
    var p := P95(latencies);
    P95Decides(latencies, p);
    P95IsSample(latencies);
    AtMostIsOrder();
    StableSort.SortIsSorted(AtMost, latencies);
    SortedTail(StableSort.Sort(AtMost, latencies), P95Index(|latencies|));
    StableSort.CountOfSort(AtMost, AtOrAbove(p), latencies);
  }

  function AtOrAbove(t: real): real -> bool {
    x => x >= t
  }

  /** In a sorted list, what follows sample `k` is at or above it. */
  lemma SortedTail(s: seq<real>, k: nat)
    requires StableSort.SortedBy(AtMost, s) && k < |s|
    ensures StableSort.Count(AtOrAbove(s[k]), s) >= |s| - k
  {
    hide StableSort.Count;
    Seqs.SplitAt(s, k);
    StableSort.CountOfConcat(AtOrAbove(s[k]), s[..k], s[k..]);
    forall y | y in s[k..] ensures AtOrAbove(s[k])(y) {
      var i :| k <= i < |s| && s[i] == y;
      assert i > k ==> AtMost(s[k], s[i]);
    }
    StableSort.CountAll(AtOrAbove(s[k]), s[k..]);
  }

  // ----- runs

  datatype State = State(releases: map<string, Release>, active: Option<string>)

  datatype Event =
    | Start(id: string, release: Release)
    | Record(id: string, isCandidate: bool, success: bool, latency: real)
    | EvaluateEvent(id: string)
    | RollbackEvent(id: string, text: string)

  function Next(s: State, e: Event): State {
    match e
    case Start(id, r) => State(s.releases[id := r], Some(id))
    case Record(id, c, ok, latency) =>
      if id !in s.releases then s
      else
        var r := s.releases[id];
        s.(releases := s.releases[id := r.(metrics := Recorded(r.metrics, c, ok, latency))])
    case EvaluateEvent(id) =>
      if id !in s.releases then s
      else State(s.releases[id := Evaluated(s.releases[id])], if Judge(s.releases[id]).Hold? then s.active else None)
    case RollbackEvent(id, text) =>
      if id !in s.releases then s
      else State(s.releases[id := s.releases[id].(status := RolledBack, reason := Some(Manual(text)))],
                 if s.active == Some(id) then None else s.active)
  }

  /** Releases enter only through `start_release`. */
  ghost predicate Legal(e: Event) {
    e.Start? ==> exists b, c, ratio, errors, latency, n :: e.release == NewRelease(b, c, ratio, errors, latency, n)
  }

  const EMPTY := State(map[], None)

  function Run(s: State, es: seq<Event>): State {
    if es == [] then s else Next(Run(s, es[..|es| - 1]), es[|es| - 1])
  }

  ghost predicate AllLegal(es: seq<Event>) {
    forall i :: 0 <= i < |es| ==> Legal(es[i])
  }

  /** One latency, not negative, for each candidate sample; failures are samples, samples are requests. */
  ghost predicate Consistent(m: Metrics) {
    && m.failures <= m.samples <= m.total
    && |m.latencies| == m.samples
    && forall i :: 0 <= i < |m.latencies| ==> m.latencies[i] >= 0.0
  }

  ghost predicate ReleaseInv(r: Release) {
    && Consistent(r.metrics)
    && 0.01 <= r.trafficRatio <= 0.9 && 0.001 <= r.errorThreshold <= 0.5
    && r.latencyThreshold >= 100.0 && r.minSamples >= 1
    && (r.status == Promoted ==> r.metrics.samples >= r.minSamples)
  }

  ghost predicate Inv(s: State) {
    && (forall id :: id in s.releases ==> ReleaseInv(s.releases[id]))
    && (s.active.Some? ==> s.active.value in s.releases && s.releases[s.active.value].status == Active)
  }

  lemma RecordedStaysConsistent(m: Metrics, c: bool, ok: bool, latency: real)
    requires Consistent(m)
    ensures Consistent(Recorded(m, c, ok, latency)) && Recorded(m, c, ok, latency).samples >= m.samples
  {
  }

  lemma NewReleaseInv(b: string, c: string, ratio: real, errors: real, latency: real, n: int)
    ensures var r := NewRelease(b, c, ratio, errors, latency, n); ReleaseInv(r) && r.status == Active
  {
  }

  lemma StepKeepsInv(s: State, e: Event)
    requires Inv(s) && Legal(e)
    ensures Inv(Next(s, e))
  {
    hide P95, ErrorRateOf, NewRelease, Recorded, Consistent;
    match e {
      case Start(id, r) =>
        var b, c, ratio, errors, latency, n :| r == NewRelease(b, c, ratio, errors, latency, n);
        NewReleaseInv(b, c, ratio, errors, latency, n);
      case Record(id, c, ok, latency) =>
        if id in s.releases {
          RecordedStaysConsistent(s.releases[id].metrics, c, ok, latency);
        }
      case EvaluateEvent(_) =>
      case RollbackEvent(_, _) =>
    }
  }

  lemma {:induction false} RunKeepsInv(s: State, es: seq<Event>)
    requires Inv(s) && AllLegal(es)
    ensures Inv(Run(s, es))
  {
    hide Inv, Next, Legal;
    if es != [] {
      RunKeepsInv(s, es[..|es| - 1]);
      StepKeepsInv(Run(s, es[..|es| - 1]), es[|es| - 1]);
    }
  }

  /** Every reachable state is consistent, and its active release is an active one. */
  lemma Reachable(es: seq<Event>)
    requires AllLegal(es)
    ensures Inv(Run(EMPTY, es))
  {
    hide Run;
    RunKeepsInv(EMPTY, es);
  }

  lemma RateWithin(m: Metrics, t: real)
    requires m.samples > 0
    ensures ErrorRateOf(m) <= t <==> m.failures as real <= t * m.samples as real
  {
  }

  /**
    In a reachable state, `evaluate` promotes exactly when enough samples were taken, failures are
    within their share, and at least `k + 1` latencies are within the threshold; it rolls back for
    latency exactly when instead at least `n - k` recorded latencies exceed it.
  */
  lemma DecisionsAreAboutSamples(r: Release)
    requires ReleaseInv(r)
    ensures var m := r.metrics;
      var enough := m.samples >= r.minSamples;
      var reliable := m.failures as real <= r.errorThreshold * m.samples as real;
      && (Judge(r) == Hold <==> !enough)
      && (Judge(r) == Rollback(ErrorRate) <==> enough && !reliable)
      && (enough ==>
            var slow := StableSort.Count(Above(r.latencyThreshold), m.latencies);
            var fast := StableSort.Count(Within(r.latencyThreshold), m.latencies);
            && |m.latencies| == m.samples > 0
            && (Judge(r) == Rollback(P95Latency) <==> reliable && slow >= m.samples - P95Index(m.samples))
            && (Judge(r) == Promote <==> reliable && fast >= P95Index(m.samples) + 1))
  {
    hide P95, ErrorRateOf, StableSort.Count;
    if r.metrics.samples >= r.minSamples {
      RateWithin(r.metrics, r.errorThreshold);
      P95Decides(r.metrics.latencies, r.latencyThreshold);
    }
  }

  // ----- what the metrics count

  /** The results recorded for a release since it was last started, in order. */
  ghost function Results(es: seq<Event>, id: string): seq<Event> {
    if es == [] then []
    else
      var before, e := Results(es[..|es| - 1], id), es[|es| - 1];
      if e.Start? && e.id == id then []
      else if e.Record? && e.id == id then before + [e]
      else before
  }

  ghost function Candidates(results: seq<Event>): seq<Event> {
    if results == [] then []
    else
      var e := results[|results| - 1];
      Candidates(results[..|results| - 1]) + if e.Record? && e.isCandidate then [e] else []
  }

  ghost function Failed(results: seq<Event>): nat {
    if results == [] then 0
    else
      var e := results[|results| - 1];
      Failed(results[..|results| - 1]) + if e.Record? && !e.success then 1 else 0
  }

  /** One request for each result; a sample, with its latency or zero, for each of the candidate. */
  ghost predicate Counts(m: Metrics, results: seq<Event>) {
    var samples := Candidates(results);
    && m.total == |results| && m.samples == |samples| && m.failures == Failed(samples)
    && |m.latencies| == |samples|
    && forall k :: 0 <= k < |samples| ==>
         samples[k].Record? && NotNegative(samples[k].latency, m.latencies[k])
  }

  /** `r` is `x`, or zero instead of a negative number. */
  ghost predicate NotNegative(x: real, r: real) {
    r >= 0.0 && r >= x && (r == 0.0 || r == x)
  }

  lemma RecordCounts(m: Metrics, results: seq<Event>, e: Event)
    requires Counts(m, results) && e.Record?
    ensures Counts(Recorded(m, e.isCandidate, e.success, e.latency), results + [e])
  {
    Seqs.InitOfSnoc(results, e);
    Seqs.InitOfSnoc(Candidates(results), e);
    Seqs.EmptyUnit(Candidates(results));
  }

  lemma NewCounts(b: string, c: string, ratio: real, errors: real, latency: real, n: int)
    ensures Counts(NewRelease(b, c, ratio, errors, latency, n).metrics, [])
  {
  }

  /** The metrics of a release count the results recorded since it was last started, in every run. */
  lemma {:induction false} MetricsCountResults(es: seq<Event>, id: string)
    requires AllLegal(es) && id in Run(EMPTY, es).releases
    ensures Counts(Run(EMPTY, es).releases[id].metrics, Results(es, id))
  {
    hide Counts, NewRelease, Recorded, Judge;
    if es != [] {
      var n := |es| - 1;
      var s, e := Run(EMPTY, es[..n]), es[n];
      if e.Start? && e.id == id {
        var b, c, ratio, errors, latency, k :| e.release == NewRelease(b, c, ratio, errors, latency, k);
        NewCounts(b, c, ratio, errors, latency, k);
      } else {
        assert id in s.releases;
        MetricsCountResults(es[..n], id);
        if e.Record? && e.id == id {
          RecordCounts(s.releases[id].metrics, Results(es[..n], id), e);
        }
      }
    }
  }

  // ----- how long a rollback lasts

  ghost predicate RolledBackIn(s: State, id: string) {
    id in s.releases && s.releases[id].status == RolledBack
  }

  /** Enough samples, failures within their share, and at least `k + 1` latencies within the threshold. */
  ghost predicate Passes(r: Release) {
    var m := r.metrics;
    && m.samples >= r.minSamples && m.samples > 0
    && m.failures as real <= r.errorThreshold * m.samples as real
    && StableSort.Count(Within(r.latencyThreshold), m.latencies) >= P95Index(m.samples) + 1
  }

  /** The event ends a rollback: the id is started again, or the release is evaluated and passes. */
  ghost predicate Reopens(s: State, e: Event, id: string) {
    || (e.Start? && e.id == id)
    || (e == EvaluateEvent(id) && id in s.releases && Passes(s.releases[id]))
  }

  lemma PromotedExactly(r: Release)
    requires ReleaseInv(r)
    ensures Judge(r) == Promote <==> Passes(r)
  {
    hide Judge, StableSort.Count, P95Index, ErrorRateOf, P95;
    DecisionsAreAboutSamples(r);
  }

  lemma RollbackStep(s: State, e: Event, id: string)
    requires Inv(s) && Legal(e) && RolledBackIn(s, id)
    ensures RolledBackIn(Next(s, e), id) <==> !Reopens(s, e, id)
  {
    hide Judge, Passes, NewRelease, Recorded, Consistent;
    PromotedExactly(s.releases[id]);
    if e.Start? {
      var b, c, ratio, errors, latency, n :| e.release == NewRelease(b, c, ratio, errors, latency, n);
      NewReleaseInv(b, c, ratio, errors, latency, n);
    }
  }

  /**
    Over every list of events, a release that was rolled back stays rolled back if and only if it is
    neither started again under its id nor evaluated when its samples pass.
  */
  lemma {:induction false} RollbackLastsExactly(s: State, es: seq<Event>, id: string)
    requires Inv(s) && AllLegal(es) && RolledBackIn(s, id)
    ensures (forall n :: 0 <= n <= |es| ==> RolledBackIn(Run(s, es[..n]), id))
      <==> forall n :: 0 <= n < |es| ==> !Reopens(Run(s, es[..n]), es[n], id)
  {
    hide Inv, Legal, Next, RolledBackIn, Reopens;
    if forall n :: 0 <= n < |es| ==> !Reopens(Run(s, es[..n]), es[n], id) {
      forall n | 0 <= n <= |es| ensures RolledBackIn(Run(s, es[..n]), id) {
        RollbackLasts(s, es, id, n);
      }
    }
    if forall n :: 0 <= n <= |es| ==> RolledBackIn(Run(s, es[..n]), id) {
      forall n | 0 <= n < |es| ensures !Reopens(Run(s, es[..n]), es[n], id) {
        assert RolledBackIn(Run(s, es[..n + 1]), id);
        PrefixStep(s, es, n);
        RunKeepsInv(s, es[..n]);
        RollbackStep(Run(s, es[..n]), es[n], id);
      }
    }
  }

  lemma PrefixStep(s: State, es: seq<Event>, n: nat)
    requires n < |es|
    ensures Run(s, es[..n + 1]) == Next(Run(s, es[..n]), es[n])
    ensures AllLegal(es) ==> AllLegal(es[..n]) && Legal(es[n])
  {
    hide Next, Legal;
    Seqs.TakeSucc(es, n);
  }

  lemma {:induction false} RollbackLasts(s: State, es: seq<Event>, id: string, n: nat)
    requires Inv(s) && AllLegal(es) && RolledBackIn(s, id) && n <= |es|
    requires forall k :: 0 <= k < n ==> !Reopens(Run(s, es[..k]), es[k], id)
    ensures RolledBackIn(Run(s, es[..n]), id)
  {
    hide Inv, Legal, Next, RolledBackIn, Reopens, AllLegal;
    if n == 0 {
      assert es[..0] == [];
    } else {
      RollbackLasts(s, es, id, n - 1);
      PrefixStep(s, es, n - 1);
      RunKeepsInv(s, es[..n - 1]);
      RollbackStep(Run(s, es[..n - 1]), es[n - 1], id);
    }
  }

  /** The instance that shows a rollback by hand is not final: the next evaluation of good samples promotes. */
  lemma RollbackIsNotFinal(s: State, id: string, text: string)
    requires Inv(s) && id in s.releases && Passes(s.releases[id])
    ensures var t := Next(s, RollbackEvent(id, text));
      RolledBackIn(t, id) && Next(t, EvaluateEvent(id)).releases[id].status == Promoted
  {
    hide Judge, Passes;
    var t := Next(s, RollbackEvent(id, text));
    PassesByMetrics(s.releases[id], t.releases[id]);
    PromotedExactly(t.releases[id]);
  }

  lemma PassesByMetrics(a: Release, b: Release)
    requires b == a.(status := b.status, reason := b.reason)
    ensures Passes(a) <==> Passes(b)
  {
  }
}
