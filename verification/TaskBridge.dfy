/**
  The multi-agent task bridge (`src/bridge/mas_factory_bridge.py`).

  `orchestrate` is split at its `await`: `Start` checks the dependencies and picks an agent,
  `Finish` stores the result.  Any number of calls may be in flight, in any interleaving.
*/
module TaskBridge {
  import opened Options
  import Seqs
  import StableSort

  datatype AgentSpec = AgentSpec(id: string, capabilities: seq<string>, priority: int)
  datatype TaskSpec = TaskSpec(id: string, capabilities: seq<string>, dependencies: seq<string>)
  datatype Status = Success | Failed | Timeout
  datatype Strategy = CapabilityMatch | RoundRobin | Priority | Other

  // ----- choosing an agent

  predicate CanDo(agent: AgentSpec, task: TaskSpec) {
    forall c :: c in task.capabilities ==> c in agent.capabilities
  }

  predicate HigherPriority(a: AgentSpec, b: AgentSpec) {
    b.priority <= a.priority
  }

  function FirstCapable(agents: seq<AgentSpec>, task: TaskSpec): Option<AgentSpec> {
    if agents == [] then None
    else if CanDo(agents[0], task) then Some(agents[0])
    else FirstCapable(agents[1..], task)
  }

  function Select(agents: seq<AgentSpec>, task: TaskSpec, strategy: Strategy): Option<AgentSpec> {
    match strategy
    case CapabilityMatch => FirstCapable(agents, task)
    case RoundRobin => if agents == [] then None else Some(agents[0])
    case Priority =>
      var sorted := StableSort.Sort(HigherPriority, agents);
      if sorted == [] then None else Some(sorted[0])
    case Other => None
  }

  lemma {:induction false} FirstCapableMeaning(agents: seq<AgentSpec>, task: TaskSpec)
    ensures match FirstCapable(agents, task)
      case None => forall i :: 0 <= i < |agents| ==> !CanDo(agents[i], task)
      case Some(a) => exists i :: 0 <= i < |agents| && agents[i] == a && CanDo(a, task)
                        && forall j :: 0 <= j < i ==> !CanDo(agents[j], task)
  {
    if agents != [] && !CanDo(agents[0], task) {
      FirstCapableMeaning(agents[1..], task);
      var r := FirstCapable(agents, task);
      if r.Some? {
        var i :| 0 <= i < |agents| - 1 && agents[1..][i] == r.value && CanDo(r.value, task)
          && forall j :: 0 <= j < i ==> !CanDo(agents[1..][j], task);
        assert agents[i + 1] == r.value;
        forall j | 0 <= j < i + 1 ensures !CanDo(agents[j], task) {
          assert j > 0 ==> agents[j] == agents[1..][j - 1];
        }
      } else {
        forall i | 0 <= i < |agents| ensures !CanDo(agents[i], task) {
          assert i > 0 ==> agents[i] == agents[1..][i - 1];
        }
      }
    }
  }

  /** The priority strategy takes the highest priority, and the earliest registered among equals. */
  lemma PriorityMeaning(agents: seq<AgentSpec>, task: TaskSpec, i: nat)
    requires i < |agents|
    requires forall j :: 0 <= j < |agents| ==> agents[j].priority <= agents[i].priority
    requires forall j :: 0 <= j < i ==> agents[j].priority < agents[i].priority
    ensures Select(agents, task, Priority) == Some(agents[i])
  {
    StableSort.SortedPosition(HigherPriority, agents, i);
    NothingBefore(agents, i, 0);
  }

  lemma {:induction false} NothingBefore(agents: seq<AgentSpec>, i: nat, from: nat)
    requires i < |agents| && from <= |agents|
    requires forall j :: 0 <= j < |agents| ==> agents[j].priority <= agents[i].priority
    requires forall j :: 0 <= j < i ==> agents[j].priority < agents[i].priority
    ensures StableSort.RankFrom(HigherPriority, agents, i, from) == 0
    decreases |agents| - from
  {
    if from < |agents| {
      NothingBefore(agents, i, from + 1);
    }
  }

  /** The agent has every capability the task requires. */
  predicate Suits(agent: AgentSpec, task: TaskSpec) {
    forall i :: 0 <= i < |task.capabilities| ==> task.capabilities[i] in agent.capabilities
  }

  /** Which agent a strategy chooses: the first that suits, the first, or the first of the highest priority. */
  ghost predicate Chosen(agents: seq<AgentSpec>, task: TaskSpec, strategy: Strategy, a: AgentSpec) {
    match strategy
    case CapabilityMatch =>
      exists i :: 0 <= i < |agents| && agents[i] == a && Suits(a, task)
        && forall j :: 0 <= j < i ==> !Suits(agents[j], task)
    case RoundRobin => |agents| > 0 && agents[0] == a
    case Priority =>
      exists i :: 0 <= i < |agents| && agents[i] == a
        && (forall j :: 0 <= j < |agents| ==> agents[j].priority <= a.priority)
        && forall j :: 0 <= j < i ==> agents[j].priority < a.priority
    case Other => false
  }

  lemma SuitsExactly(agent: AgentSpec, task: TaskSpec)
    ensures Suits(agent, task) <==> CanDo(agent, task)
  {
  }

  /** Some agent has the highest priority, and a first one has it. */
  lemma {:induction false} FirstHighest(agents: seq<AgentSpec>) returns (i: nat)
    requires agents != []
    ensures i < |agents|
    ensures forall j :: 0 <= j < |agents| ==> agents[j].priority <= agents[i].priority
    ensures forall j :: 0 <= j < i ==> agents[j].priority < agents[i].priority
  {
    var n := |agents| - 1;
    if n == 0 {
      i := 0;
    } else {
      i := FirstHighest(agents[..n]);
      assert forall j :: 0 <= j < n ==> agents[..n][j] == agents[j];
      if agents[n].priority > agents[i].priority {
        i := n;
      }
    }
  }

  /** What a strategy returns is the agent it should choose, and none only if there is none to choose. */
  lemma ChosenExactly(agents: seq<AgentSpec>, task: TaskSpec, strategy: Strategy)
    ensures forall a :: Select(agents, task, strategy) == Some(a) <==> Chosen(agents, task, strategy, a)
  {
    hide FirstCapable, StableSort.Sort, CanDo, Suits;
    match strategy {
      case CapabilityMatch =>
        FirstCapableMeaning(agents, task);
        forall j | 0 <= j < |agents| ensures Suits(agents[j], task) <==> CanDo(agents[j], task) {
          SuitsExactly(agents[j], task);
        }
      case RoundRobin =>
      case Priority =>
        if agents == [] {
          NothingToSort();
        } else {
          var i := FirstHighest(agents);
          PriorityMeaning(agents, task, i);
        }
      case Other =>
    }
  }

  lemma NothingToSort()
    ensures StableSort.Sort(HigherPriority, []) == []
  {
  }

  // ----- the bridge

  /** The dictionaries of the bridge; `agents` lists a dictionary's values in insertion order. */
  datatype Bridge = Bridge(agents: seq<AgentSpec>, executors: set<string>,
                           tasks: map<string, TaskSpec>, results: map<string, Status>)

  const EMPTY_BRIDGE := Bridge([], {}, map[], map[])

  function Register(agents: seq<AgentSpec>, a: AgentSpec): seq<AgentSpec> {
    if agents == [] then [a]
    else if agents[0].id == a.id then [a] + agents[1..]
    else [agents[0]] + Register(agents[1..], a)
  }

  /** Registering puts an agent in the place of the first one with its id, or at the end. */
  lemma {:induction false} RegisterExactly(agents: seq<AgentSpec>, a: AgentSpec, i: nat)
    requires i <= |agents| && (i < |agents| ==> agents[i].id == a.id)
    requires forall j :: 0 <= j < i ==> agents[j].id != a.id
    ensures Register(agents, a) == if i < |agents| then agents[i := a] else agents + [a]
  {
    if i > 0 {
      RegisterExactly(agents[1..], a, i - 1);
      Seqs.SplitFirst(agents);
    }
  }

  /** Why a call ends before its agent runs, or the agent that runs. */
  datatype Decision =
    | UnknownTask | Unmet(dependency: string) | NoAgent | NoExecutor(agent: AgentSpec) | Runs(agent: AgentSpec)

  predicate Succeeded(b: Bridge, id: string) {
    id in b.results && b.results[id] == Success
  }

  function FirstUnmet(b: Bridge, dependencies: seq<string>): Option<string> {
    if dependencies == [] then None
    else if !Succeeded(b, dependencies[0]) then Some(dependencies[0])
    else FirstUnmet(b, dependencies[1..])
  }

  function Decide(b: Bridge, id: string, strategy: Strategy): Decision {
    if id !in b.tasks then UnknownTask
    else
      var task := b.tasks[id];
      match FirstUnmet(b, task.dependencies)
      case Some(d) => Unmet(d)
      case None =>
        match Select(b.agents, task, strategy)
        case None => NoAgent
        case Some(a) => if a.id in b.executors then Runs(a) else NoExecutor(a)
  }

  lemma {:induction false} FirstUnmetMeaning(b: Bridge, dependencies: seq<string>)
    ensures FirstUnmet(b, dependencies) == None <==> forall d :: d in dependencies ==> Succeeded(b, d)
    ensures FirstUnmet(b, dependencies).Some? ==>
      FirstUnmet(b, dependencies).value in dependencies && !Succeeded(b, FirstUnmet(b, dependencies).value)
  {
    if dependencies != [] {
      FirstUnmetMeaning(b, dependencies[1..]);
      Seqs.SplitFirst(dependencies);
    }
  }

  class MASFactoryBridge {
    var agents: seq<AgentSpec>
    var executors: set<string>
    var tasks: map<string, TaskSpec>
    var results: map<string, Status>

    function Model(): Bridge
      reads this
    {
      Bridge(agents, executors, tasks, results)
    }

    constructor ()
      ensures Model() == EMPTY_BRIDGE
    {
      agents, executors, tasks, results := [], {}, map[], map[];
    }

    /** The bridge with the calls in flight and the successes so far. */
    ghost function InState(running: seq<string>, successes: seq<string>): State
      reads this
    {
      State(Model(), running, successes)
    }

    /** `register_agent` */
    method RegisterAgent(a: AgentSpec, hasExecutor: bool, ghost running: seq<string>, ghost successes: seq<string>)
      modifies this
      ensures InState(running, successes) == Next(old(InState(running, successes)), RegisterEvent(a, hasExecutor))
    {
      agents := Register(agents, a);
      if hasExecutor {
        executors := executors + {a.id};
      }
    }

    /** `submit_task` */
    method SubmitTask(t: TaskSpec, ghost running: seq<string>, ghost successes: seq<string>)
      modifies this
      ensures InState(running, successes) == Next(old(InState(running, successes)), SubmitEvent(t))
    {
      tasks := tasks[t.id := t];
    }

    /** `_select_agent` */
    method SelectAgent(task: TaskSpec, strategy: Strategy) returns (r: Option<AgentSpec>)
      ensures r == Select(agents, task, strategy)
    {
      match strategy {
        case CapabilityMatch =>
          for i := 0 to |agents|
            invariant FirstCapable(agents, task) == FirstCapable(agents[i..], task)
          {
            if CanDo(agents[i], task) {
              return Some(agents[i]);
            }
            assert agents[i..][1..] == agents[i + 1..];
          }
          return None;
        case RoundRobin =>
          return if agents == [] then None else Some(agents[0]);
        case Priority =>
          var sorted := StableSort.Sort(HigherPriority, agents);
          return if sorted == [] then None else Some(sorted[0]);
        case Other =>
          return None;
      }
    }

    /** `orchestrate` up to its `await`; without an executor the failure is stored at once. */
    method Start(id: string, strategy: Strategy, ghost running: seq<string>, ghost successes: seq<string>)
      returns (d: Decision)
      modifies this
      ensures d == Decide(old(Model()), id, strategy) && Explains(d, old(Model()), id, strategy)
      ensures InState(if d.Runs? then running + [id] else running, successes)
        == Next(old(InState(running, successes)), StartEvent(id, strategy))
    {
      hide Explains;
      DecisionExplained(Model(), id, strategy);
      if id !in tasks {
        return UnknownTask;
      }
      var task := tasks[id];
      for i := 0 to |task.dependencies|
        invariant FirstUnmet(Model(), task.dependencies) == FirstUnmet(Model(), task.dependencies[i..])
      {
        var dependency := task.dependencies[i];
        if dependency !in results || results[dependency] != Success {
          return Unmet(dependency);
        }
        assert task.dependencies[i..][1..] == task.dependencies[i + 1..];
      }
      var agent := SelectAgent(task, strategy);
      if agent.None? {
        return NoAgent;
      }
      if agent.value.id in executors {
        return Runs(agent.value);
      }
      results := results[id := Failed];
      return NoExecutor(agent.value);
    }

    /** `orchestrate` after its `await`: the executor returned, timed out or raised. */
    method Finish(id: string, outcome: Status, ghost running: seq<string>, ghost successes: seq<string>, ghost k: nat)
      requires k < |running| && running[k] == id
      modifies this
      ensures InState(running[..k] + running[k + 1..], successes + if outcome == Success then [id] else [])
        == Next(old(InState(running, successes)), FinishEvent(k, outcome))
    {
      results := results[id := outcome];
    }

    /** `get_status`: agents, tasks, results, pending, success, failed. */
    method GetStatus()
      returns (nAgents: nat, nTasks: nat, nResults: nat, pending: nat, success: nat, failed: nat)
      ensures nAgents == |agents| && nTasks == |tasks| && nResults == |results|
      ensures pending == |Pending(Model())|
      ensures success == |WithStatus(Model(), Success)| && failed == |WithStatus(Model(), Failed)|
    {
      return |agents|, |tasks|, |results|, |set t | t in tasks && t !in results|,
        |set t | t in results && results[t] == Success|, |set t | t in results && results[t] == Failed|;
    }
  }

  function Pending(b: Bridge): set<string> {
    set t | t in b.tasks && t !in b.results
  }

  function WithStatus(b: Bridge, s: Status): set<string> {
    set t | t in b.results && b.results[t] == s
  }

  // ----- runs

  /** The bridge, the calls in flight, and (a history) the successes so far, in order. */
  datatype State = State(bridge: Bridge, running: seq<string>, successes: seq<string>)

  datatype Event =
    | RegisterEvent(agent: AgentSpec, hasExecutor: bool)
    | SubmitEvent(task: TaskSpec)
    | StartEvent(id: string, strategy: Strategy)
    | FinishEvent(call: nat, outcome: Status)

  const INITIAL := State(EMPTY_BRIDGE, [], [])

  /** One event; finishing a call that is not in flight is no event at all. */
  function Next(s: State, e: Event): State {
    var b := s.bridge;
    match e
    case RegisterEvent(a, x) =>
      s.(bridge := b.(agents := Register(b.agents, a), executors := b.executors + if x then {a.id} else {}))
    case SubmitEvent(t) => s.(bridge := b.(tasks := b.tasks[t.id := t]))
    case StartEvent(id, strategy) =>
      var d := Decide(b, id, strategy);
      if d.Runs? then s.(running := s.running + [id])
      else if d.NoExecutor? then s.(bridge := b.(results := b.results[id := Failed]))
      else s
    case FinishEvent(k, outcome) =>
      if k >= |s.running| then s
      else State(b.(results := b.results[s.running[k] := outcome]),
                 s.running[..k] + s.running[k + 1..],
                 s.successes + if outcome == Success then [s.running[k]] else [])
  }

  function Run(s: State, es: seq<Event>): State {
    if es == [] then s else Next(Run(s, es[..|es| - 1]), es[|es| - 1])
  }

  /** The task succeeded, or a call for it is in flight. */
  predicate Started(s: State, id: string) {
    id in s.successes || id in s.running
  }

  /** The event does not change the dependencies of a task that was started. */
  predicate LeavesStarted(s: State, e: Event) {
    e.SubmitEvent? && Started(s, e.task.id) && e.task.id in s.bridge.tasks ==>
      s.bridge.tasks[e.task.id].dependencies == e.task.dependencies
  }

  ghost predicate NoLateReplacement(s: State, es: seq<Event>) {
    forall i :: 0 <= i < |es| ==> LeavesStarted(Run(s, es[..i]), es[i])
  }

  /** Every dependency of `id` is among `done`. */
  predicate DependenciesIn(tasks: map<string, TaskSpec>, id: string, done: seq<string>) {
    id in tasks && forall d :: d in tasks[id].dependencies ==> d in done
  }

  ghost predicate Inv(s: State) {
    && (forall k :: 0 <= k < |s.successes| ==> DependenciesIn(s.bridge.tasks, s.successes[k], s.successes[..k]))
    && (forall k :: 0 <= k < |s.running| ==> DependenciesIn(s.bridge.tasks, s.running[k], s.successes))
    && (forall id :: Succeeded(s.bridge, id) ==> id in s.successes)
    && s.bridge.results.Keys <= s.bridge.tasks.Keys
  }

  lemma StartKeepsInv(s: State, id: string, strategy: Strategy)
    requires Inv(s)
    ensures Inv(Next(s, StartEvent(id, strategy)))
  {
    hide Select;
    if id in s.bridge.tasks {
      FirstUnmetMeaning(s.bridge, s.bridge.tasks[id].dependencies);
    }
  }

  lemma FinishKeepsInv(s: State, k: nat, outcome: Status)
    requires Inv(s) && k < |s.running|
    ensures Inv(Next(s, FinishEvent(k, outcome)))
  {
    var t := Next(s, FinishEvent(k, outcome));
    var id, tasks := s.running[k], s.bridge.tasks;
    forall j | 0 <= j < |t.successes| ensures DependenciesIn(tasks, t.successes[j], t.successes[..j]) {
      if j < |s.successes| {
        assert t.successes[j] == s.successes[j] && t.successes[..j] == s.successes[..j];
      } else {
        assert t.successes[..j] == s.successes && t.successes[j] == id;
      }
    }
    forall j | 0 <= j < |t.running| ensures DependenciesIn(tasks, t.running[j], t.successes) {
      assert t.running[j] == s.running[if j < k then j else j + 1];
    }
    assert DependenciesIn(tasks, id, s.successes);
  }

  lemma SubmitKeepsInv(s: State, t: TaskSpec)
    requires Inv(s) && LeavesStarted(s, SubmitEvent(t))
    ensures Inv(Next(s, SubmitEvent(t)))
  {
    var tasks, tasks' := s.bridge.tasks, s.bridge.tasks[t.id := t];
    forall id, done | DependenciesIn(tasks, id, done) && Started(s, id) ensures DependenciesIn(tasks', id, done) {
    }
  }

  lemma {:induction false} InvHolds(s: State, es: seq<Event>)
    requires Inv(s) && NoLateReplacement(s, es)
    ensures Inv(Run(s, es))
  {
    hide Inv, Next, LeavesStarted;
    if es != [] {
      var n := |es| - 1;
      assert forall i :: 0 <= i < n ==> es[..n][..i] == es[..i];
      InvHolds(s, es[..n]);
      StepKeepsInv(Run(s, es[..n]), es[n]);
    }
  }

  lemma InitialInv()
    ensures Inv(INITIAL)
  {
  }

  lemma StepKeepsInv(s: State, e: Event)
    requires Inv(s) && LeavesStarted(s, e)
    ensures Inv(Next(s, e))
  {
    match e {
      case RegisterEvent(_, _) =>
      case SubmitEvent(t) => SubmitKeepsInv(s, t);
      case StartEvent(id, strategy) => StartKeepsInv(s, id, strategy);
      case FinishEvent(k, outcome) => if k < |s.running| { FinishKeepsInv(s, k, outcome); }
    }
  }

  // ----- dependency paths

  /** A chain of dependencies. */
  ghost predicate Path(tasks: map<string, TaskSpec>, p: seq<string>) {
    && p != []
    && forall i :: 0 <= i < |p| - 1 ==> p[i] in tasks && p[i + 1] in tasks[p[i]].dependencies
  }

  ghost predicate Repeats(p: seq<string>) {
    exists i, j :: 0 <= i < j < |p| && p[i] == p[j]
  }

  /** The chain runs into a cycle, or ends in a task that was never submitted. */
  ghost predicate DeadEnd(tasks: map<string, TaskSpec>, p: seq<string>) {
    Path(tasks, p) && (Repeats(p) || p[|p| - 1] !in tasks)
  }

  /** `id` depends, over any number of steps, on a dependency cycle or on a task that was never submitted. */
  ghost predicate Doomed(tasks: map<string, TaskSpec>, id: string) {
    exists p :: DeadEnd(tasks, p) && p[0] == id
  }

  /** The position of the first success of `id`. */
  ghost function FirstSuccess(successes: seq<string>, id: string): (k: nat)
    requires id in successes
    ensures k < |successes| && successes[k] == id && forall j :: 0 <= j < k ==> successes[j] != id
  {
    if successes[0] == id then 0 else 1 + FirstSuccess(successes[1..], id)
  }

  /** Along a chain from a task that succeeded, everything succeeded, each before the one that needs it. */
  lemma {:induction false} ChainSucceeded(s: State, p: seq<string>, i: nat)
    requires Inv(s) && Path(s.bridge.tasks, p) && p[0] in s.successes && i < |p|
    ensures forall k :: 0 <= k <= i ==> p[k] in s.successes && p[k] in s.bridge.tasks
    ensures forall j, k :: 0 <= j < k <= i ==> FirstSuccess(s.successes, p[k]) < FirstSuccess(s.successes, p[j])
  {
    if i > 0 {
      ChainSucceeded(s, p, i - 1);
      var k := FirstSuccess(s.successes, p[i - 1]);
      assert DependenciesIn(s.bridge.tasks, s.successes[k], s.successes[..k]);
      EarlierFirst(s.successes, p[i], k);
    }
    var m := FirstSuccess(s.successes, p[i]);
    assert DependenciesIn(s.bridge.tasks, s.successes[m], s.successes[..m]);
  }

  lemma EarlierFirst(successes: seq<string>, id: string, k: nat)
    requires k <= |successes| && id in successes[..k]
    ensures id in successes && FirstSuccess(successes, id) < k
  {
    var j :| 0 <= j < k && successes[..k][j] == id;
    assert successes[j] == id;
  }

  lemma ChainIsNotDead(s: State, p: seq<string>)
    requires Inv(s) && Path(s.bridge.tasks, p) && p[0] in s.successes
    ensures !DeadEnd(s.bridge.tasks, p)
  {
    ChainSucceeded(s, p, |p| - 1);
    forall i, j | 0 <= i < j < |p| ensures p[i] != p[j] {
      assert FirstSuccess(s.successes, p[j]) < FirstSuccess(s.successes, p[i]);
    }
  }

  /** No task that succeeded depends on a cycle or on a never-submitted task. */
  ghost predicate GateHolds(s: State) {
    forall id :: id in s.successes ==> !Doomed(s.bridge.tasks, id)
  }

  lemma InvGuardsTheGate(s: State)
    requires Inv(s)
    ensures GateHolds(s)
  {
    hide Inv;
    forall id | id in s.successes ensures !Doomed(s.bridge.tasks, id) {
      forall p | Path(s.bridge.tasks, p) && p[0] == id ensures !DeadEnd(s.bridge.tasks, p) {
        ChainIsNotDead(s, p);
      }
    }
  }

  /**
    Safety over every run: while no submission changes the dependencies of a task that succeeded or is
    in flight, no task that depends on a cycle or on a never-submitted task has ever succeeded.
  */
  lemma DoomedNeverSucceed(es: seq<Event>, id: string)
    requires NoLateReplacement(INITIAL, es)
    requires Doomed(Run(INITIAL, es).bridge.tasks, id)
    ensures id !in Run(INITIAL, es).successes
    ensures !Succeeded(Run(INITIAL, es).bridge, id)
  {
    hide Run, Doomed;
    InitialInv();
    InvHolds(INITIAL, es);
    InvGuardsTheGate(Run(INITIAL, es));
  }

  // ----- the condition is exact

  /** Whatever happens after submitting `t`, as long as later submissions leave started tasks alone, the gate holds. */
  ghost predicate SafeReplacement(s: State, t: TaskSpec) {
    forall es :: NoLateReplacement(Next(s, SubmitEvent(t)), es) ==> GateHolds(Run(Next(s, SubmitEvent(t)), es))
  }

  ghost predicate AllReplacementsSafe(s: State, id: string) {
    forall t: TaskSpec :: t.id == id ==> SafeReplacement(s, t)
  }

  lemma SelfDependenceIsDoomed(tasks: map<string, TaskSpec>, id: string)
    requires id in tasks && tasks[id].dependencies == [id]
    ensures Doomed(tasks, id)
  {
    var p := [id, id];
    assert p[0] == p[1];
    assert DeadEnd(tasks, p) && p[0] == id;
  }

  /** A started task that is made to depend on itself breaks the gate: at once, or when its call succeeds. */
  lemma LateReplacementBreaksTheGate(s: State, id: string) returns (t: TaskSpec, es: seq<Event>)
    requires Started(s, id)
    ensures t.id == id && |es| <= 1 && NoLateReplacement(Next(s, SubmitEvent(t)), es)
    ensures !GateHolds(Run(Next(s, SubmitEvent(t)), es))
  {
    hide Doomed;
    t := TaskSpec(id, [], [id]);
    var s' := Next(s, SubmitEvent(t));
    SelfDependenceIsDoomed(s'.bridge.tasks, id);
    if id in s.successes {
      es := [];
    } else {
      var k :| 0 <= k < |s.running| && s.running[k] == id;
      var finish := FinishEvent(k, Success);
      es := [finish];
      RunSnoc(s', [], finish);
      Seqs.EmptyUnit(es);
      assert id in Next(s', finish).successes;
    }
  }

  /**
    In every reachable state the gate survives all replacements of a task if and only if the task neither
    succeeded nor is in flight.
  */
  lemma ReplacementIsSafeExactly(s: State, id: string)
    requires Inv(s)
    ensures AllReplacementsSafe(s, id) <==> !Started(s, id)
  {
    hide Inv, GateHolds, Run, Next, NoLateReplacement;
    if Started(s, id) {
      var t, es := LateReplacementBreaksTheGate(s, id);
      assert !SafeReplacement(s, t);
    } else {
      forall t: TaskSpec | t.id == id ensures SafeReplacement(s, t) {
        EarlyReplacementIsSafe(s, t);
      }
    }
  }

  lemma EarlyReplacementIsSafe(s: State, t: TaskSpec)
    requires Inv(s) && !Started(s, t.id)
    ensures SafeReplacement(s, t)
  {
    hide Inv, GateHolds, Run, NoLateReplacement;
    var s' := Next(s, SubmitEvent(t));
    SubmitKeepsInv(s, t);
    forall es | NoLateReplacement(s', es) ensures GateHolds(Run(s', es)) {
      InvHolds(s', es);
      InvGuardsTheGate(Run(s', es));
    }
  }

  /** A run that shows it: replacing a task that succeeded makes it depend on itself. */
  lemma ReplacementBreaksTheGate() returns (es: seq<Event>)
    ensures !NoLateReplacement(INITIAL, es)
    ensures Doomed(Run(INITIAL, es).bridge.tasks, "a") && Succeeded(Run(INITIAL, es).bridge, "a")
  {
    hide Doomed;
    var agent, free, selfish := AgentSpec("x", [], 0), TaskSpec("a", [], []), TaskSpec("a", [], ["a"]);
    var success := SuccessOfFree(agent, free);
    es := success + [SubmitEvent(selfish)];
    RunSnoc(INITIAL, success, SubmitEvent(selfish));
    SelfDependenceIsDoomed(Run(INITIAL, es).bridge.tasks, "a");
    if NoLateReplacement(INITIAL, es) {
      DoomedNeverSucceed(es, "a");
    }
  }

  lemma SuccessOfFree(agent: AgentSpec, task: TaskSpec) returns (es: seq<Event>)
    requires task.dependencies == []
    ensures var b := Run(INITIAL, es).bridge;
      task.id in b.tasks && b.tasks[task.id] == task && Succeeded(b, task.id)
  {
    hide Select;
    var e1, e2 := RegisterEvent(agent, true), SubmitEvent(task);
    var s := Next(Next(INITIAL, e1), e2);
    var rest := SucceedReady(s, task.id);
    es := [e1, e2] + rest;
    RunSnoc(INITIAL, [], e1);
    RunSnoc(INITIAL, [e1], e2);
    assert [] + [e1] == [e1] && [e1] + [e2] == [e1, e2];
    RunConcat(INITIAL, [e1, e2], rest);
  }

  lemma RunSnoc(s: State, es: seq<Event>, e: Event)
    ensures Run(s, es + [e]) == Next(Run(s, es), e)
  {
    Seqs.InitOfSnoc(es, e);
  }

  // ----- every other task can still succeed

  /** The first registered agent has an executor, so `RoundRobin` always finds a runner. */
  predicate HasRunner(b: Bridge) {
    b.agents != [] && b.agents[0].id in b.executors
  }

  /** `t` comes after `s` with the same tasks and agents, nothing more in flight, and no success lost. */
  ghost predicate Progress(s: State, t: State) {
    && t.bridge.tasks == s.bridge.tasks && t.bridge.agents == s.bridge.agents
    && t.bridge.executors == s.bridge.executors && t.running == s.running
    && forall id :: Succeeded(s.bridge, id) ==> Succeeded(t.bridge, id)
  }

  lemma {:induction false} RunConcat(s: State, a: seq<Event>, b: seq<Event>)
    ensures Run(s, a + b) == Run(Run(s, a), b)
  {
    if b == [] {
      Seqs.EmptyUnit(a);
    } else {
      var n := |b| - 1;
      RunConcat(s, a, b[..n]);
      Seqs.SplitLast(b);
      Seqs.Assoc(a, b[..n], [b[n]]);
      RunSnoc(s, a + b[..n], b[n]);
    }
  }

  /** A ready task succeeds by starting it and letting its executor return. */
  lemma SucceedReady(s: State, id: string) returns (es: seq<Event>)
    requires HasRunner(s.bridge) && id in s.bridge.tasks
    requires forall d :: d in s.bridge.tasks[id].dependencies ==> Succeeded(s.bridge, d)
    ensures Progress(s, Run(s, es)) && Succeeded(Run(s, es).bridge, id)
  {
    var start, finish := StartEvent(id, RoundRobin), FinishEvent(|s.running|, Success);
    FirstUnmetMeaning(s.bridge, s.bridge.tasks[id].dependencies);
    var s1 := Next(s, start);
    assert s1 == s.(running := s.running + [id]);
    var s2 := Next(s1, finish);
    assert s2.running == s.running;
    es := [start, finish];
    RunSnoc(s, [], start);
    RunSnoc(s, [start], finish);
    assert [] + [start] == [start] && [start] + [finish] == es;
  }

  lemma DistinctWithin(p: seq<string>, ids: set<string>)
    requires forall i, j :: 0 <= i < j < |p| ==> p[i] != p[j]
    requires forall i :: 0 <= i < |p| ==> p[i] in ids
    ensures |p| <= |ids|
  {
    if p != [] {
      var n := |p| - 1;
      forall i | 0 <= i < n ensures p[..n][i] in ids - {p[n]} {
        assert p[i] != p[n];
      }
      DistinctWithin(p[..n], ids - {p[n]});
    }
  }

  /** The chain `p` ends in `id`; it cannot get longer than the number of tasks. */
  ghost predicate Reaches(tasks: map<string, TaskSpec>, p: seq<string>, id: string) {
    Path(tasks, p) && p[|p| - 1] == id && !Doomed(tasks, p[0])
  }

  lemma ReachesBound(tasks: map<string, TaskSpec>, p: seq<string>, id: string)
    requires Reaches(tasks, p, id)
    ensures id in tasks && |p| <= |tasks|
  {
    assert !DeadEnd(tasks, p);
    forall i, j | 0 <= i < j < |p| ensures p[i] != p[j] {
      assert p[i] == p[j] ==> Repeats(p);
    }
    DistinctWithin(p, tasks.Keys);
  }

  lemma ReachesStep(tasks: map<string, TaskSpec>, p: seq<string>, id: string, d: string)
    requires Reaches(tasks, p, id) && id in tasks && d in tasks[id].dependencies
    ensures Reaches(tasks, p + [d], d)
  {
  }

  lemma ProgressTransitive(s: State, t: State, u: State)
    requires Progress(s, t) && Progress(t, u)
    ensures Progress(s, u)
  {
  }

  /** Makes the dependencies of `id` from the `k`-th on succeed, then `id` itself. */
  lemma {:induction false} Complete(s: State, p: seq<string>, id: string, k: nat) returns (es: seq<Event>)
    requires HasRunner(s.bridge) && Reaches(s.bridge.tasks, p, id)
    requires id in s.bridge.tasks && k <= |s.bridge.tasks[id].dependencies|
    requires forall i :: 0 <= i < k ==> Succeeded(s.bridge, s.bridge.tasks[id].dependencies[i])
    ensures Progress(s, Run(s, es)) && Succeeded(Run(s, es).bridge, id)
    decreases |s.bridge.tasks| - |p|, |s.bridge.tasks[id].dependencies| - k
  {
    hide Run, Reaches, Succeeded;
    ReachesBound(s.bridge.tasks, p, id);
    var dependencies := s.bridge.tasks[id].dependencies;
    if k == |dependencies| {
      es := SucceedReady(s, id);
    } else {
      ReachesStep(s.bridge.tasks, p, id, dependencies[k]);
      ReachesBound(s.bridge.tasks, p + [dependencies[k]], dependencies[k]);
      var first := Complete(s, p + [dependencies[k]], dependencies[k], 0);
      var t := Run(s, first);
      var rest := Complete(t, p, id, k + 1);
      es := first + rest;
      RunConcat(s, first, rest);
      ProgressTransitive(s, t, Run(t, rest));
    }
  }

  /**
    The gate is exact: with a runner registered, a submitted task can still be brought to success
    from any state if and only if it is not doomed (the other half is `DoomedNeverSucceed`).
  */
  lemma NotDoomedCanSucceed(s: State, id: string) returns (es: seq<Event>)
    requires HasRunner(s.bridge) && !Doomed(s.bridge.tasks, id)
    ensures Progress(s, Run(s, es)) && Succeeded(Run(s, es).bridge, id)
  {
    var p := [id];
    assert Path(s.bridge.tasks, p);
    assert Reaches(s.bridge.tasks, p, id);
    ReachesBound(s.bridge.tasks, p, id);
    es := Complete(s, p, id, 0);
  }

  // ----- status counts

  /** Calls and results belong to submitted tasks. */
  ghost predicate OnlySubmitted(s: State) {
    && (forall k :: 0 <= k < |s.running| ==> s.running[k] in s.bridge.tasks)
    && s.bridge.results.Keys <= s.bridge.tasks.Keys
  }

  lemma {:induction false} OnlySubmittedHolds(es: seq<Event>)
    ensures OnlySubmitted(Run(INITIAL, es))
  {
    hide Select;
    if es != [] {
      OnlySubmittedHolds(es[..|es| - 1]);
    }
  }

  /**
    `get_status` adds up in every run: pending tasks and results make up the tasks, and only timeouts
    are in no other count.
  */
  lemma StatusAddsUp(es: seq<Event>)
    ensures var b := Run(INITIAL, es).bridge;
      && |Pending(b)| + |b.results| == |b.tasks|
      && |WithStatus(b, Success)| + |WithStatus(b, Failed)| + |WithStatus(b, Timeout)| == |b.results|
  {
    hide Run;
    OnlySubmittedHolds(es);
    CountsAddUp(Run(INITIAL, es).bridge);
  }

  lemma UnionSize<T>(a: set<T>, b: set<T>)
    requires a !! b
    ensures |a + b| == |a| + |b|
  {
  }

  lemma CountsAddUp(b: Bridge)
    requires b.results.Keys <= b.tasks.Keys
    ensures |Pending(b)| + |b.results| == |b.tasks|
    ensures |WithStatus(b, Success)| + |WithStatus(b, Failed)| + |WithStatus(b, Timeout)| == |b.results|
  {
    PendingOrResult(b);
    UnionSize(Pending(b), b.results.Keys);
    EveryStatus(b);
    UnionSize(WithStatus(b, Success), WithStatus(b, Failed));
    UnionSize(WithStatus(b, Success) + WithStatus(b, Failed), WithStatus(b, Timeout));
    hide Pending, WithStatus;
    assert |b.results| == |b.results.Keys| && |b.tasks| == |b.tasks.Keys|;
  }

  lemma PendingOrResult(b: Bridge)
    requires b.results.Keys <= b.tasks.Keys
    ensures Pending(b) !! b.results.Keys && Pending(b) + b.results.Keys == b.tasks.Keys
  {
  }

  lemma EveryStatus(b: Bridge)
    ensures WithStatus(b, Success) !! WithStatus(b, Failed)
    ensures (WithStatus(b, Success) + WithStatus(b, Failed)) !! WithStatus(b, Timeout)
    ensures WithStatus(b, Success) + WithStatus(b, Failed) + WithStatus(b, Timeout) == b.results.Keys
  {
  }

  // ----- why a call ends before its agent runs

  /** The reason for each decision, in the order of the checks: task, dependencies, agent, executor. */
  ghost predicate Explains(d: Decision, b: Bridge, id: string, strategy: Strategy) {
    var ready := id in b.tasks
      && forall x :: x in b.tasks[id].dependencies ==> x in b.results && b.results[x] == Success;
    match d
    case UnknownTask => id !in b.tasks
    case Unmet(x) =>
      && id in b.tasks && (x in b.results ==> b.results[x] != Success)
      && exists i :: 0 <= i < |b.tasks[id].dependencies| && b.tasks[id].dependencies[i] == x
           && forall y :: y in b.tasks[id].dependencies[..i] ==> y in b.results && b.results[y] == Success
    case NoAgent => ready && forall a :: !Chosen(b.agents, b.tasks[id], strategy, a)
    case NoExecutor(a) => ready && Chosen(b.agents, b.tasks[id], strategy, a) && a.id !in b.executors
    case Runs(a) => ready && Chosen(b.agents, b.tasks[id], strategy, a) && a.id in b.executors
  }

  lemma {:induction false} FirstUnmetIsFirst(b: Bridge, dependencies: seq<string>)
    requires FirstUnmet(b, dependencies).Some?
    ensures exists i ::
      0 <= i < |dependencies| && dependencies[i] == FirstUnmet(b, dependencies).value
      && forall y :: y in dependencies[..i] ==> Succeeded(b, y)
  {
    hide Succeeded;
    if Succeeded(b, dependencies[0]) {
      FirstUnmetIsFirst(b, dependencies[1..]);
      var x := FirstUnmet(b, dependencies);
      var i :| 0 <= i < |dependencies| - 1 && dependencies[1..][i] == x.value
        && forall y :: y in dependencies[1..][..i] ==> Succeeded(b, y);
      assert dependencies[..i + 1] == [dependencies[0]] + dependencies[1..][..i];
      assert dependencies[i + 1] == x.value;
    } else {
      assert dependencies[0] == FirstUnmet(b, dependencies).value && dependencies[..0] == [];
    }
  }

  lemma DecisionExplained(b: Bridge, id: string, strategy: Strategy)
    ensures Explains(Decide(b, id, strategy), b, id, strategy)
  {
    hide Select, Chosen;
    if id in b.tasks {
      var dependencies := b.tasks[id].dependencies;
      FirstUnmetMeaning(b, dependencies);
      if FirstUnmet(b, dependencies).Some? {
        FirstUnmetIsFirst(b, dependencies);
      }
      ChosenExactly(b.agents, b.tasks[id], strategy);
    }
  }

  // ----- results are the last outcomes

  /** The state just before event `i`. */
  function Before(es: seq<Event>, i: nat): State
    requires i <= |es|
  {
    Run(INITIAL, es[..i])
  }

  lemma BeforeStep(es: seq<Event>, i: nat)
    requires i < |es|
    ensures Before(es, i + 1) == Next(Before(es, i), es[i])
  {
    Seqs.TakeSucc(es, i);
  }

  /** The call for `id` is refused for want of an executor: it passes the gate and an agent is chosen. */
  ghost predicate LacksExecutor(b: Bridge, id: string, strategy: Strategy) {
    && id in b.tasks
    && (forall d :: d in b.tasks[id].dependencies ==> d in b.results && b.results[d] == Success)
    && exists a :: Chosen(b.agents, b.tasks[id], strategy, a) && a.id !in b.executors
  }

  /** Event `i` is the end of a call for `id` with this outcome, or a call that fails for want of an executor. */
  ghost predicate Ends(es: seq<Event>, i: nat, id: string, outcome: Status)
    requires i < |es|
  {
    match es[i]
    case FinishEvent(k, o) => k < |Before(es, i).running| && Before(es, i).running[k] == id && o == outcome
    case StartEvent(t, strategy) => t == id && LacksExecutor(Before(es, i).bridge, id, strategy) && outcome == Failed
    case _ => false
  }

  /** The last such event before event `n` is event `i`. */
  ghost predicate LastEnds(es: seq<Event>, n: nat, id: string, i: nat, outcome: Status)
    requires n <= |es|
  {
    && i < n && Ends(es, i, id, outcome)
    && forall j, o :: i < j < n ==> !Ends(es, j, id, o)
  }

  ghost predicate NeverEnded(es: seq<Event>, n: nat, id: string)
    requires n <= |es|
  {
    forall j, o :: 0 <= j < n ==> !Ends(es, j, id, o)
  }

  lemma LacksExecutorExactly(b: Bridge, id: string, strategy: Strategy)
    ensures Decide(b, id, strategy).NoExecutor? <==> LacksExecutor(b, id, strategy)
  {
    hide Select, Chosen;
    if id in b.tasks {
      FirstUnmetMeaning(b, b.tasks[id].dependencies);
      ChosenExactly(b.agents, b.tasks[id], strategy);
      assert forall d :: Succeeded(b, d) <==> d in b.results && b.results[d] == Success;
    }
  }

  /** What one event does to the result of `id`. */
  lemma ResultStep(es: seq<Event>, i: nat, id: string, outcome: Status)
    requires i < |es|
    ensures var before, after := Before(es, i).bridge.results, Before(es, i + 1).bridge.results;
      && (Ends(es, i, id, outcome) ==> id in after && after[id] == outcome)
      && ((forall o :: !Ends(es, i, id, o)) ==>
            (id in after <==> id in before) && (id in before ==> after[id] == before[id]))
  {
    hide Run, Decide, LacksExecutor;
    BeforeStep(es, i);
    if es[i].StartEvent? {
      LacksExecutorExactly(Before(es, i).bridge, es[i].id, es[i].strategy);
      assert LacksExecutor(Before(es, i).bridge, es[i].id, es[i].strategy) ==> Ends(es, i, es[i].id, Failed);
    }
    if es[i].FinishEvent? && es[i].call < |Before(es, i).running| {
      assert Ends(es, i, Before(es, i).running[es[i].call], es[i].outcome);
    }
  }

  /**
    In every run the result of a task is the outcome of the last call for it that ended, whatever that
    outcome is, and there is none exactly when no call for it ended.
  */
  lemma {:induction false} ResultIsLastOutcome(es: seq<Event>, n: nat, id: string)
    requires n <= |es|
    ensures var results := Before(es, n).bridge.results;
      && (id !in results <==> NeverEnded(es, n, id))
      && (forall i, outcome :: LastEnds(es, n, id, i, outcome) ==> id in results && results[id] == outcome)
      && (id in results ==> exists i :: LastEnds(es, n, id, i, results[id]))
  {
    hide Run, Ends;
    if n == 0 {
      NoResults(es, id);
    } else {
      var m := n - 1;
      ResultIsLastOutcome(es, m, id);
      if o :| Ends(es, m, id, o) {
        ResultStep(es, m, id, o);
        assert LastEnds(es, n, id, m, o);
        forall i, outcome | LastEnds(es, n, id, i, outcome) ensures outcome == o {
          ResultStep(es, m, id, outcome);
        }
      } else {
        ResultStep(es, m, id, Success);
        KeepsLast(es, m, n, id);
      }
    }
  }

  lemma NoResults(es: seq<Event>, id: string)
    ensures id !in Before(es, 0).bridge.results && NeverEnded(es, 0, id)
  {
  }

  lemma KeepsLast(es: seq<Event>, m: nat, n: nat, id: string)
    requires m < |es| && n == m + 1 && forall o :: !Ends(es, m, id, o)
    ensures NeverEnded(es, n, id) <==> NeverEnded(es, m, id)
    ensures forall i, outcome :: LastEnds(es, n, id, i, outcome) <==> LastEnds(es, m, id, i, outcome)
  {
    hide Ends;
  }

  /** A task reads as succeeded exactly when the last call for it that ended was a success. */
  lemma SucceededIsLastSuccess(es: seq<Event>, id: string)
    ensures Succeeded(Run(INITIAL, es).bridge, id) <==> exists i :: LastEnds(es, |es|, id, i, Success)
  {
    hide Run, Ends, LastEnds;
    Seqs.TakeAll(es);
    ResultIsLastOutcome(es, |es|, id);
  }
}
