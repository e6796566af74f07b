/** The hill-climbing optimizer (`memory/autoresearch-implementation/autoresearch_optimizer.py`). */
module Optimizer {
  import opened Options
  import Seqs

  /** One iteration: the variant that was generated, and its score (`None`: the evaluator raised). */
  datatype Attempt<V> = Attempt(variant: V, score: Option<real>)

  datatype Entry = Entry(iteration: nat, score: real, improvement: real, kept: bool)

  datatype Scored<V> = Scored(variant: V, score: real)

  /** The optimizer's state, with the variants it kept. */
  datatype Climber<V> = Climber(best: real, bestVersion: V, current: V, kept: seq<Scored<V>>)

  predicate Keeps<V>(c: Climber<V>, t: real, a: Attempt<V>) {
    a.score.Some? && a.score.value - c.best > t
  }

  function Step<V>(c: Climber<V>, t: real, a: Attempt<V>): Climber<V> {
    if Keeps(c, t, a) then
      Climber(a.score.value, a.variant, a.variant, c.kept + [Scored(a.variant, a.score.value)])
    else c
  }

  function Climb<V>(c: Climber<V>, t: real, attempts: seq<Attempt<V>>): Climber<V> {
    if attempts == [] then c else Step(Climb(c, t, attempts[..|attempts| - 1]), t, attempts[|attempts| - 1])
  }

  /** The history entries of the attempts that were scored. */
  function Log<V>(c: Climber<V>, t: real, attempts: seq<Attempt<V>>): seq<Entry> {
    if attempts == [] then []
    else
      var before, a := attempts[..|attempts| - 1], attempts[|attempts| - 1];
      var now := Climb(c, t, before);
      Log(c, t, before)
      + if a.score.Some? then [Entry(|attempts|, a.score.value, a.score.value - now.best, Keeps(now, t, a))] else []
  }

  /** The attempts come from the generator, applied to the version current at the time, and the evaluator. */
  ghost predicate Generated<V>(c: Climber<V>, t: real, attempts: seq<Attempt<V>>,
                               generator: (V, nat) -> V, evaluator: (V, nat) -> Option<real>) {
    forall i :: 0 <= i < |attempts| ==>
      var variant := generator(Climb(c, t, attempts[..i]).current, i);
      attempts[i] == Attempt(variant, evaluator(variant, i))
  }

  class AutoresearchOptimizer<V> {
    const maxIterations: int
    const threshold: real
    var bestScore: real
    var bestVersion: V
    var currentVersion: V
    var history: seq<Entry>

    ghost function Model(): Climber<V>
      reads this
    {
      Climber(bestScore, bestVersion, currentVersion, [])
    }

    constructor (target: V, maxIterations: int, threshold: real)
      ensures Model() == Climber(0.0, target, target, []) && history == []
      ensures this.maxIterations == maxIterations && this.threshold == threshold
    {
      this.maxIterations, this.threshold := maxIterations, threshold;
      bestScore, bestVersion, currentVersion, history := 0.0, target, target, [];
    }

    /** `run`; the generator and evaluator may answer differently in every iteration. */
    method Run(generator: (V, nat) -> V, evaluator: (V, nat) -> Option<real>)
      returns (version: V, score: real, log: seq<Entry>, ghost attempts: seq<Attempt<V>>)
      modifies this
      ensures |attempts| == if maxIterations < 0 then 0 else maxIterations
      ensures Generated(old(Model()), threshold, attempts, generator, evaluator)
      ensures var end := Climb(old(Model()), threshold, attempts);
        bestScore == end.best && bestVersion == end.bestVersion && currentVersion == end.current
      ensures history == old(history) + Log(old(Model()), threshold, attempts)
      ensures version == bestVersion && score == bestScore && log == history
    {
      hide Generated;
      ghost var start := Model();
      NothingGenerated(start, threshold, generator, evaluator);
      attempts := [];
      var i := 0;
      Seqs.EmptyUnit(history);
      while i < maxIterations
        invariant 0 <= i && (i <= maxIterations || i == 0) && |attempts| == i
        invariant Generated(start, threshold, attempts, generator, evaluator)
        invariant var now := Climb(start, threshold, attempts);
          bestScore == now.best && bestVersion == now.bestVersion && currentVersion == now.current
        invariant history == old(history) + Log(start, threshold, attempts)
      {
        var variant := generator(currentVersion, i);
        var result := evaluator(variant, i);
        ghost var before := attempts;
        ghost var a := Attempt(variant, result);
        attempts := before + [a];
        Seqs.InitOfSnoc(before, a);
        GeneratedSnoc(start, threshold, before, a, generator, evaluator);
        i := i + 1;
        if result.None? {
          Seqs.EmptyUnit(Log(start, threshold, before));
          continue;
        }
        var improvement := result.value - bestScore;
        var kept := improvement > threshold;
        if kept {
          bestScore := result.value;
          bestVersion := variant;
          currentVersion := variant;
        }
        ghost var logged := Log(start, threshold, before);
        history := history + [Entry(i, result.value, improvement, kept)];
        Seqs.Assoc(old(history), logged, [Entry(i, result.value, improvement, kept)]);
      }
      return bestVersion, bestScore, history, attempts;
    }
  }

  lemma NothingGenerated<V>(c: Climber<V>, t: real, generator: (V, nat) -> V, evaluator: (V, nat) -> Option<real>)
    ensures Generated(c, t, [], generator, evaluator)
  {
  }

  lemma GeneratedSnoc<V>(c: Climber<V>, t: real, attempts: seq<Attempt<V>>, a: Attempt<V>,
                         generator: (V, nat) -> V, evaluator: (V, nat) -> Option<real>)
    requires Generated(c, t, attempts, generator, evaluator)
    requires var variant := generator(Climb(c, t, attempts).current, |attempts|);
      a == Attempt(variant, evaluator(variant, |attempts|))
    ensures Generated(c, t, attempts + [a], generator, evaluator)
  {
    var all := attempts + [a];
    forall i | 0 <= i < |all| ensures
      var variant := generator(Climb(c, t, all[..i]).current, i); all[i] == Attempt(variant, evaluator(variant, i))
    {
      if i < |attempts| {
        assert all[..i] == attempts[..i];
      } else {
        assert all[..i] == attempts;
      }
    }
  }

  // ----- what the history says

  /** The best score after some history entries: the last one kept. */
  ghost function BestOf(start: real, log: seq<Entry>): real {
    if log == [] then start
    else if log[|log| - 1].kept then log[|log| - 1].score
    else BestOf(start, log[..|log| - 1])
  }

  /** An entry compares its score with the best one before it, and is kept if it is better by more than `t`. */
  ghost predicate Compares(start: real, t: real, log: seq<Entry>, k: nat)
    requires k < |log|
  {
    && log[k].improvement == log[k].score - BestOf(start, log[..k])
    && (log[k].kept <==> log[k].score > BestOf(start, log[..k]) + t)
  }

  /** The entry is about a scored attempt: its number, counted from 1, and its score. */
  predicate IsAbout<V>(e: Entry, attempts: seq<Attempt<V>>) {
    0 < e.iteration <= |attempts| && attempts[e.iteration - 1].score == Some(e.score)
  }

  ghost predicate HasEntry(log: seq<Entry>, iteration: nat) {
    exists k :: 0 <= k < |log| && log[k].iteration == iteration
  }

  ghost predicate InOrder(log: seq<Entry>) {
    forall j, k :: 0 <= j < k < |log| ==> log[j].iteration < log[k].iteration
  }

  /** The entries are about scored attempts, in order, and every scored attempt has one. */
  ghost predicate Records<V>(log: seq<Entry>, attempts: seq<Attempt<V>>) {
    && InOrder(log) && (forall k :: 0 <= k < |log| ==> IsAbout(log[k], attempts))
    && forall i :: 0 <= i < |attempts| && attempts[i].score.Some? ==> HasEntry(log, i + 1)
  }

  ghost predicate AllCompare(start: real, t: real, log: seq<Entry>) {
    forall k :: 0 <= k < |log| ==> Compares(start, t, log, k)
  }

  /** What the history holds, and that its last kept entry has the best score. */
  lemma {:induction false} HistoryExactly<V>(c: Climber<V>, t: real, attempts: seq<Attempt<V>>)
    ensures var log := Log(c, t, attempts);
      Records(log, attempts) && AllCompare(c.best, t, log) && BestOf(c.best, log) == Climb(c, t, attempts).best
  {
    hide Records, AllCompare;
    if attempts == [] {
      NothingRecorded<V>(c.best, t);
    } else {
      var n := |attempts| - 1;
      var before, a := attempts[..n], attempts[n];
      HistoryExactly(c, t, before);
      var log, now := Log(c, t, before), Climb(c, t, before);
      Seqs.SplitLast(attempts);
      if a.score.Some? {
        var e := Entry(|attempts|, a.score.value, a.score.value - now.best, Keeps(now, t, a));
        RecordsEntry(log, before, a, e);
        ComparesMore(c.best, t, log, e);
        Seqs.InitOfSnoc(log, e);
      } else {
        RecordsNothing(log, before, a);
        Seqs.EmptyUnit(log);
      }
    }
  }

  lemma NothingRecorded<V>(start: real, t: real)
    ensures Records<V>([], []) && AllCompare(start, t, [])
  {
  }

  lemma ComparesMore(start: real, t: real, log: seq<Entry>, e: Entry)
    requires AllCompare(start, t, log)
    requires e.improvement == e.score - BestOf(start, log) && (e.kept <==> e.score > BestOf(start, log) + t)
    ensures AllCompare(start, t, log + [e])
  {
    hide BestOf;
    forall k | 0 <= k < |log + [e]| ensures Compares(start, t, log + [e], k) {
      if k < |log| {
        assert (log + [e])[..k] == log[..k];
        assert Compares(start, t, log, k);
      } else {
        assert (log + [e])[..k] == log;
      }
    }
  }

  lemma StillAbout<V>(e: Entry, attempts: seq<Attempt<V>>, a: Attempt<V>)
    requires IsAbout(e, attempts)
    ensures IsAbout(e, attempts + [a]) && e.iteration <= |attempts|
  {
  }

  lemma EntryStays(log: seq<Entry>, e: Entry, iteration: nat)
    requires HasEntry(log, iteration)
    ensures HasEntry(log + [e], iteration)
  {
    var k :| 0 <= k < |log| && log[k].iteration == iteration;
    assert (log + [e])[k].iteration == iteration;
  }

  lemma LastHasEntry(log: seq<Entry>, e: Entry)
    ensures HasEntry(log + [e], e.iteration)
  {
    assert (log + [e])[|log|] == e;
  }

  lemma RecordsNothing<V>(log: seq<Entry>, attempts: seq<Attempt<V>>, a: Attempt<V>)
    requires Records(log, attempts) && a.score.None?
    ensures Records(log, attempts + [a])
  {
    hide IsAbout, HasEntry;
    forall k | 0 <= k < |log| ensures IsAbout(log[k], attempts + [a]) {
      StillAbout(log[k], attempts, a);
    }
    forall i | 0 <= i < |attempts + [a]| && (attempts + [a])[i].score.Some? ensures HasEntry(log, i + 1) {
      assert i < |attempts|;
    }
  }

  lemma RecordsEntry<V>(log: seq<Entry>, attempts: seq<Attempt<V>>, a: Attempt<V>, e: Entry)
    requires Records(log, attempts) && e.iteration == |attempts| + 1 && a.score == Some(e.score)
    ensures Records(log + [e], attempts + [a])
  {
    hide HasEntry;
    var more, all := log + [e], attempts + [a];
    forall k | 0 <= k < |log| ensures IsAbout(log[k], all) && log[k].iteration < e.iteration {
      StillAbout(log[k], attempts, a);
    }
    assert IsAbout(e, all);
    LastHasEntry(log, e);
    hide IsAbout;
    forall i | 0 <= i < |all| && all[i].score.Some? ensures HasEntry(more, i + 1) {
      if i < |attempts| {
        assert attempts[i] == all[i];
        EntryStays(log, e, i + 1);
      }
    }
  }

  // ----- what a climb achieves

  /** Nothing was kept yet. */
  predicate Fresh<V>(c: Climber<V>) {
    c.kept == []
  }

  /** The best score just before the variant at index `k` was kept. */
  function Rival<V>(c: Climber<V>, kept: seq<Scored<V>>, k: nat): real
    requires k < |kept|
  {
    if k == 0 then c.best else kept[k - 1].score
  }

  /** Every kept score beats the one before it by more than the threshold. */
  ghost predicate Ascends<V>(c: Climber<V>, t: real, kept: seq<Scored<V>>) {
    forall k :: 0 <= k < |kept| ==> kept[k].score > Rival(c, kept, k) + t
  }

  ghost predicate AllTried<V>(kept: seq<Scored<V>>, attempts: seq<Attempt<V>>) {
    forall k :: 0 <= k < |kept| ==> Attempt(kept[k].variant, Some(kept[k].score)) in attempts
  }

  /** The best and the current version are the last one kept. */
  ghost predicate EndsAtLast<V>(c: Climber<V>, end: Climber<V>) {
    if end.kept == [] then end == c
    else
      var last := end.kept[|end.kept| - 1];
      end.best == last.score && end.bestVersion == end.current == last.variant
  }

  lemma AscendsSnoc<V>(c: Climber<V>, t: real, kept: seq<Scored<V>>, x: Scored<V>)
    requires Ascends(c, t, kept)
    requires x.score > (if kept == [] then c.best else kept[|kept| - 1].score) + t
    ensures Ascends(c, t, kept + [x])
  {
    var all := kept + [x];
    forall k | 0 <= k < |all| ensures all[k].score > Rival(c, all, k) + t {
      if k < |kept| {
        assert Rival(c, all, k) == Rival(c, kept, k);
        assert all[k] == kept[k];
      } else {
        assert all[k] == x;
        assert Rival(c, all, k) == if kept == [] then c.best else kept[|kept| - 1].score;
      }
    }
  }

  lemma AllTriedSnoc<V>(kept: seq<Scored<V>>, attempts: seq<Attempt<V>>, a: Attempt<V>)
    requires AllTried(kept, attempts)
    ensures AllTried(kept, attempts + [a])
    ensures a.score.Some? ==> AllTried(kept + [Scored(a.variant, a.score.value)], attempts + [a])
  {
    forall k | 0 <= k < |kept| ensures Attempt(kept[k].variant, Some(kept[k].score)) in attempts + [a] {
    }
  }

  /** Kept scores increase by more than the threshold each time, and the best version is the last one kept. */
  lemma {:induction false} KeptScoresIncrease<V>(c: Climber<V>, t: real, attempts: seq<Attempt<V>>)
    requires Fresh(c)
    ensures var end := Climb(c, t, attempts);
      Ascends(c, t, end.kept) && AllTried(end.kept, attempts) && EndsAtLast(c, end)
  {
    hide Ascends, AllTried;
    if attempts == [] {
      NothingKept(c, t);
    } else {
      var before, a := attempts[..|attempts| - 1], attempts[|attempts| - 1];
      KeptScoresIncrease(c, t, before);
      Seqs.SplitLast(attempts);
      var now := Climb(c, t, before);
      AllTriedSnoc(now.kept, before, a);
      if Keeps(now, t, a) {
        AscendsSnoc(c, t, now.kept, Scored(a.variant, a.score.value));
      }
    }
  }

  lemma NothingKept<V>(c: Climber<V>, t: real)
    ensures Ascends(c, t, []) && AllTried<V>([], [])
  {
  }

  lemma {:induction false} BestGrows<V>(c: Climber<V>, t: real, attempts: seq<Attempt<V>>)
    requires t >= 0.0
    ensures Climb(c, t, attempts).best >= c.best
    ensures forall a :: a in attempts && a.score.Some? ==> a.score.value <= Climb(c, t, attempts).best + t
  {
    if attempts != [] {
      BestGrows(c, t, attempts[..|attempts| - 1]);
    }
  }

  /** No evaluated score beats the final best by more than the threshold, exactly when the threshold is not negative. */
  lemma NothingBetterMissedExactly<V>(c: Climber<V>, t: real, v: V)
    ensures (forall attempts :: NothingMissed(c, t, attempts)) <==> t >= 0.0
  {
    if t >= 0.0 {
      forall attempts ensures NothingMissed(c, t, attempts) {
        BestGrows(c, t, attempts);
      }
    } else {
      var a := Attempt(v, Some(c.best + 1.0));
      assert Climb(c, t, [a]) == Step(Climb(c, t, []), t, a);
      assert a in [a];
      assert !NothingMissed(c, t, [a]);
    }
  }

  ghost predicate NothingMissed<V>(c: Climber<V>, t: real, attempts: seq<Attempt<V>>) {
    forall a :: a in attempts && a.score.Some? ==> a.score.value <= Climb(c, t, attempts).best + t
  }

  lemma {:induction false} BestPaysForKept<V>(c: Climber<V>, t: real, attempts: seq<Attempt<V>>)
    requires Fresh(c) && t > 0.0
    ensures var end := Climb(c, t, attempts);
      end.best >= c.best + |end.kept| as real * t && (end.kept != [] ==> end.best > c.best + |end.kept| as real * t)
  {
    if attempts != [] {
      var before := Climb(c, t, attempts[..|attempts| - 1]);
      BestPaysForKept(c, t, attempts[..|attempts| - 1]);
      assert (|before.kept| + 1) as real * t == |before.kept| as real * t + t;
    }
  }

  lemma BestIsKept<V>(c: Climber<V>, t: real, attempts: seq<Attempt<V>>)
    requires Fresh(c)
    ensures var end := Climb(c, t, attempts);
      if end.kept == [] then end == c else exists a :: a in attempts && a.score == Some(end.best)
  {
    hide Climb;
    KeptScoresIncrease(c, t, attempts);
    var end := Climb(c, t, attempts);
    if end.kept != [] {
      var last := end.kept[|end.kept| - 1];
      assert Attempt(last.variant, Some(last.score)) in attempts;
    }
  }

  /** With scores of at most 100 from a start of 0, fewer than 100 / t variants are ever kept. */
  lemma FewAreKept<V>(c: Climber<V>, t: real, attempts: seq<Attempt<V>>)
    requires Fresh(c) && c.best == 0.0 && t > 0.0
    requires forall a :: a in attempts && a.score.Some? ==> a.score.value <= 100.0
    ensures |Climb(c, t, attempts).kept| as real * t < 100.0
  {
    hide Climb;
    BestIsKept(c, t, attempts);
    BestPaysForKept(c, t, attempts);
  }
}
