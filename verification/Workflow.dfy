/** The workflow compiler (`src/bridge/workflow_store.py`): layout order is execution order. */
module Workflow {
  import opened Options
  import opened Text
  import Lexicographic
  import Numerals
  import Selections
  import Seqs
  import StableSort

  datatype Node = Node(id: string, kind: string, caption: Option<string>, x: real, y: real)
  datatype Edge = Edge(source: string, target: string, caption: Option<string>)
  datatype Definition = Definition(goal: string, nodes: seq<Node>, edges: seq<Edge>, maxSteps: int, maxConcurrency: int)

  datatype Compiled = Compiled(prompt: string, nodeSequence: seq<string>, retryEdges: seq<Edge>,
                               maxSteps: nat, maxConcurrency: nat)

  // ----- labels and order

  function Alias(text: string): string {
    if text == "plan" || text == "planning" then "planner"
    else if text == "generate" then "generator"
    else if text == "execution" then "executor"
    else if text == "evaluate" then "evaluator"
    else text
  }

  /** `_normalize_node_label`: the label, else the type, else the id, normalised. */
  function Label(n: Node): string {
    var text :=
      if n.caption.Some? && n.caption.value != "" then n.caption.value
      else if n.kind != "" then n.kind
      else n.id;
    Alias(Lower(Strip(text)))
  }

  /** The text a node is named by: its label, or without one its type, or without both its id. */
  ghost predicate NamedBy(n: Node, text: string) {
    if n.caption.Some? && |n.caption.value| > 0 then text == n.caption.value
    else if |n.kind| > 0 then text == n.kind
    else text == n.id
  }

  ghost predicate HasAlias(text: string) {
    Is(text, "plan") || Is(text, "planning") || Is(text, "generate") || Is(text, "execution") || Is(text, "evaluate")
  }

  /** The aliases, in small or capital letters and with blanks around them; all other names only lose these. */
  lemma LabelExactly(n: Node, text: string)
    requires NamedBy(n, text)
    ensures Is(Strip(text), "plan") || Is(Strip(text), "planning") ==> Label(n) == "planner"
    ensures Is(Strip(text), "generate") ==> Label(n) == "generator"
    ensures Is(Strip(text), "execution") ==> Label(n) == "executor"
    ensures Is(Strip(text), "evaluate") ==> Label(n) == "evaluator"
    ensures !HasAlias(Strip(text)) ==> Is(Strip(text), Label(n))
  {
    hide Strip, Is, Lower;
    var s := Strip(text);
    LowerIs(s, "plan");
    LowerIs(s, "planning");
    LowerIs(s, "generate");
    LowerIs(s, "execution");
    LowerIs(s, "evaluate");
    LowerIsSmall(s);
  }

  lemma LowerIsSmall(s: string)
    ensures Is(s, Lower(s))
  {
  }

  /** A label is in its final form: naming the node by it gives it again. */
  lemma LabelIsNormal(n: Node)
    requires Label(n) != ""
    ensures Label(n.(caption := Some(Label(n)))) == Label(n)
  {
    hide Strip, Stripped, Lower;
    var text :=
      if n.caption.Some? && n.caption.value != "" then n.caption.value
      else if n.kind != "" then n.kind
      else n.id;
    var _, _ := StripParts(text);
    LowerIsStripped(Strip(text));
    AliasesAreNormal(Lower(Strip(text)));
    LiteralsAreNormal();
  }

  lemma AliasesAreNormal(t: string)
    ensures Alias(Alias(t)) == Alias(t)
    ensures Alias(t) == t || Alias(t) in {"planner", "generator", "executor", "evaluator"}
  {
  }

  lemma LiteralsAreNormal()
    ensures forall t :: t in {"planner", "generator", "executor", "evaluator"} ==> Lower(Strip(t)) == t
  {
    hide Lower, Strip;
    SmallWord("planner");
    SmallWord("generator");
    SmallWord("executor");
    SmallWord("evaluator");
  }

  lemma SmallWord(t: string)
    requires SmallLetters(t)
    ensures Lower(Strip(t)) == t
  {
    assert !IsSpace(t[0]) && !IsSpace(t[|t| - 1]);
    StrippedIsFixed(t);
  }

  /** The key (x, y, id). */
  predicate KeyLe(a: Node, b: Node) {
    if a.x != b.x then a.x < b.x
    else if a.y != b.y then a.y < b.y
    else Lexicographic.Le(a.id, b.id)
  }

  predicate SameKey(a: Node, b: Node) {
    a.x == b.x && a.y == b.y && a.id == b.id
  }

  lemma KeyLeIsOrder()
    ensures StableSort.TotalPreorder(KeyLe)
  {
    hide Lexicographic.Le;
    forall a, b ensures KeyLe(a, b) || KeyLe(b, a) {
      Lexicographic.Total(a.id, b.id);
    }
    forall a, b, c | KeyLe(a, b) && KeyLe(b, c) ensures KeyLe(a, c) {
      if a.x == b.x == c.x && a.y == b.y == c.y {
        Lexicographic.Transitive(a.id, b.id, c.id);
      }
    }
  }

  lemma EquivalentKeys(a: Node, b: Node)
    ensures KeyLe(a, b) && KeyLe(b, a) <==> SameKey(a, b)
  {
    hide Lexicographic.Le;
    if KeyLe(a, b) && KeyLe(b, a) {
      Lexicographic.Antisymmetric(a.id, b.id);
    }
    Lexicographic.Total(a.id, a.id);
  }

  function Labels(nodes: seq<Node>): (r: seq<string>)
    ensures |r| == |nodes| && forall i :: 0 <= i < |r| ==> r[i] == Label(nodes[i])
  {
    if nodes == [] then [] else [Label(nodes[0])] + Labels(nodes[1..])
  }

  function NodeSequence(nodes: seq<Node>): seq<string> {
    Labels(StableSort.Sort(KeyLe, nodes))
  }

  // ----- the program

  predicate IsRetry(e: Edge) {
    var text := Lower(Strip(if e.caption.Some? then e.caption.value else ""));
    Contains(text, "retry") || text == "r"
  }

  function RetryEdges(edges: seq<Edge>): seq<Edge> {
    if edges == [] then []
    else RetryEdges(edges[..|edges| - 1]) + if IsRetry(edges[|edges| - 1]) then [edges[|edges| - 1]] else []
  }

  function Clamp(n: int, high: nat): (r: nat)
    requires high >= 1
    ensures Clamped(n, high, r)
  {
    if n < 1 then 1 else if n > high then high else n
  }

  /** The number from 1 to `high` that is nearest to `n`. */
  predicate Clamped(n: int, high: nat, r: nat) {
    1 <= r <= high && (r > n ==> r == 1) && (r < n ==> r == high)
  }

  /** The label asks for a retry: it has the word in it, or is an `r`. */
  lemma RetryExactly(e: Edge)
    ensures IsRetry(e) <==>
      e.caption.Some? && (Mentions(e.caption.value, "retry") || Is(Strip(e.caption.value), "r"))
  {
    hide Strip, Mentions, Is, Contains;
    var text := if e.caption.Some? then e.caption.value else "";
    MentionsStripped(text, "retry");
    LowerMentions(Strip(text), "retry");
    LowerIs(Strip(text), "r");
    NothingMentioned();
  }

  lemma NothingMentioned()
    ensures !Mentions("", "retry") && !Is(Strip(""), "r")
  {
  }

  function Same(e: Edge): Edge {
    e
  }

  /** The retry edges are those of the list, in its order. */
  lemma {:induction false} RetryEdgesExactly(edges: seq<Edge>)
    ensures Selections.Selection(edges, IsRetry, Same, RetryEdges(edges))
  {
    hide IsRetry, Selections.Selection;
    if edges == [] {
      Selections.SelectNothing(IsRetry, Same);
    } else {
      var n := |edges| - 1;
      RetryEdgesExactly(edges[..n]);
      Selections.SelectMore(edges[..n], IsRetry, Same, RetryEdges(edges[..n]), edges[n]);
      Seqs.SplitLast(edges);
      Seqs.EmptyUnit(RetryEdges(edges[..n]));
    }
  }

  function Prompt(w: Definition): string {
    var retries := RetryEdges(w.edges);
    Join("\n", [
      "goal: " + w.goal,
      "nodes: " + Join(" -> ", NodeSequence(w.nodes)),
      "max_steps: " + Numerals.Decimal(Clamp(w.maxSteps, 256)),
      "max_concurrency: " + Numerals.Decimal(Clamp(w.maxConcurrency, 32))
    ] + if retries == [] then []
        else ["retry: " + retries[0].source + " -> " + retries[0].target + " when decision == 'retry'"])
  }

  /** `compile`; `None` is the `ValueError` on a workflow without nodes. */
  method Compile(w: Definition) returns (r: Option<Compiled>)
    ensures r.None? <==> w.nodes == []
    ensures r.Some? ==> r.value == Compiled(Prompt(w), NodeSequence(w.nodes), RetryEdges(w.edges),
                                            Clamp(w.maxSteps, 256), Clamp(w.maxConcurrency, 32))
  {
    hide IsRetry, Join, Numerals.Decimal, StableSort.Sort, Labels;
    if w.nodes == [] {
      return None;
    }
    var nodeSequence := Labels(StableSort.Sort(KeyLe, w.nodes));
    var retryEdges: seq<Edge> := [];
    for n := 0 to |w.edges|
      invariant retryEdges == RetryEdges(w.edges[..n])
    {
      Seqs.TakeSucc(w.edges, n);
      Seqs.EmptyUnit(RetryEdges(w.edges[..n]));
      if IsRetry(w.edges[n]) {
        retryEdges := retryEdges + [w.edges[n]];
      }
    }
    Seqs.TakeAll(w.edges);
    var steps, concurrency := Clamp(w.maxSteps, 256), Clamp(w.maxConcurrency, 32);
    var lines := [
      "goal: " + w.goal,
      "nodes: " + Join(" -> ", nodeSequence),
      "max_steps: " + Numerals.Decimal(steps),
      "max_concurrency: " + Numerals.Decimal(concurrency)
    ];
    Seqs.EmptyUnit(lines);
    if retryEdges != [] {
      lines := lines + ["retry: " + retryEdges[0].source + " -> " + retryEdges[0].target + " when decision == 'retry'"];
    }
    return Some(Compiled(Join("\n", lines), nodeSequence, retryEdges, steps, concurrency));
  }

  /** A line of the program that gives a limit. */
  ghost predicate StatesLimit(line: string, name: string, n: int, high: nat) {
    exists r :: Clamped(n, high, r) && line == name + Numerals.Decimal(r)
  }

  ghost predicate AllOneLiners(w: Definition) {
    && OneLine(w.goal) && AllOneLine(NodeSequence(w.nodes))
    && forall e :: e in w.edges ==> OneLine(e.source) && OneLine(e.target)
  }

  /** The lines of the program, when nothing in it has line ends. */
  lemma PromptLines(w: Definition)
    requires AllOneLiners(w)
    ensures var lines := SplitLines(Prompt(w));
      && |lines| == (if exists e :: e in w.edges && IsRetry(e) then 5 else 4)
      && lines[0] == "goal: " + w.goal
      && lines[1] == "nodes: " + Join(" -> ", NodeSequence(w.nodes))
      && StatesLimit(lines[2], "max_steps: ", w.maxSteps, 256)
      && StatesLimit(lines[3], "max_concurrency: ", w.maxConcurrency, 32)
      && (|lines| == 5 ==>
            exists k :: 0 <= k < |w.edges| && FirstRetry(w.edges, k)
              && lines[4] == "retry: " + w.edges[k].source + " -> " + w.edges[k].target + " when decision == 'retry'")
  {
    hide IsRetry, Join, SplitLines, Numerals.Decimal, NodeSequence, Clamped, OneLine, FirstRetry;
    var retries := RetryEdges(w.edges);
    var head := [
      "goal: " + w.goal,
      "nodes: " + Join(" -> ", NodeSequence(w.nodes)),
      "max_steps: " + Numerals.Decimal(Clamp(w.maxSteps, 256)),
      "max_concurrency: " + Numerals.Decimal(Clamp(w.maxConcurrency, 32))
    ];
    LinesAreSingle(w.goal, NodeSequence(w.nodes), Clamp(w.maxSteps, 256), Clamp(w.maxConcurrency, 32));
    FirstRetries(w.edges);
    var all := if retries == [] then head
      else head + ["retry: " + retries[0].source + " -> " + retries[0].target + " when decision == 'retry'"];
    if retries != [] {
      var k :| 0 <= k < |w.edges| && FirstRetry(w.edges, k) && w.edges[k] == retries[0];
      InEdges(w.edges, k);
      RetryIsSingle(retries[0]);
    }
    SplitJoin(all);
    assert Prompt(w) == Join("\n", all) by {
      Seqs.EmptyUnit(head);
    }
  }

  lemma InEdges(edges: seq<Edge>, k: int)
    requires FirstRetry(edges, k)
    ensures 0 <= k < |edges| && edges[k] in edges
  {
  }

  lemma LinesAreSingle(goal: string, labels: seq<string>, steps: nat, concurrency: nat)
    requires OneLine(goal) && AllOneLine(labels)
    ensures OneLine("goal: " + goal) && OneLine("nodes: " + Join(" -> ", labels))
    ensures OneLine("max_steps: " + Numerals.Decimal(steps))
    ensures OneLine("max_concurrency: " + Numerals.Decimal(concurrency))
  {
    JoinIsOneLine(" -> ", labels);
    DecimalIsOneLine(steps);
    DecimalIsOneLine(concurrency);
  }

  lemma RetryIsSingle(e: Edge)
    requires OneLine(e.source) && OneLine(e.target)
    ensures OneLine("retry: " + e.source + " -> " + e.target + " when decision == 'retry'")
  {
  }

  ghost predicate FirstRetry(edges: seq<Edge>, k: int) {
    0 <= k < |edges| && IsRetry(edges[k]) && forall j :: 0 <= j < k ==> !IsRetry(edges[j])
  }

  lemma {:induction false} FirstRetries(edges: seq<Edge>)
    ensures RetryEdges(edges) != [] <==> exists e :: e in edges && IsRetry(e)
    ensures RetryEdges(edges) != [] ==>
      exists k :: 0 <= k < |edges| && FirstRetry(edges, k) && edges[k] == RetryEdges(edges)[0]
  {
    hide IsRetry;
    if edges != [] {
      var n := |edges| - 1;
      FirstRetries(edges[..n]);
      Seqs.SplitLast(edges);
      assert forall e :: e in edges <==> e in edges[..n] || e == edges[n];
      if RetryEdges(edges[..n]) != [] {
        var k :| 0 <= k < n && FirstRetry(edges[..n], k) && edges[..n][k] == RetryEdges(edges[..n])[0];
        assert FirstRetry(edges, k);
      } else if IsRetry(edges[n]) {
        assert FirstRetry(edges, n) by {
          forall j | 0 <= j < n ensures !IsRetry(edges[j]) {
            assert edges[..n][j] == edges[j];
          }
        }
      }
    }
  }

  lemma {:induction false} JoinIsOneLine(sep: string, parts: seq<string>)
    requires OneLine(sep) && AllOneLine(parts)
    ensures OneLine(Join(sep, parts))
  {
    if |parts| > 1 {
      JoinIsOneLine(sep, parts[1..]);
    }
  }

  lemma DecimalIsOneLine(n: nat)
    ensures OneLine(Numerals.Decimal(n))
  {
    Numerals.DecimalReads(n);
  }

  /** One label per node, in the order of x, then y, then id. */
  /** Further left; in one column higher up; at one place the smaller id. */
  ghost predicate Precedes(a: Node, b: Node) {
    && a.x <= b.x
    && (a.x == b.x ==> a.y <= b.y)
    && (a.x == b.x && a.y == b.y ==>
          a.id <= b.id || exists k :: Lexicographic.DiffersAt(a.id, b.id, k) && a.id[k] < b.id[k])
  }

  lemma KeyLePrecedes(a: Node, b: Node)
    ensures KeyLe(a, b) <==> Precedes(a, b)
  {
    hide Lexicographic.Le, Lexicographic.DiffersAt;
    Lexicographic.LeExactly(a.id, b.id);
  }

  lemma SequenceFollowsLayout(nodes: seq<Node>)
    ensures var sorted := StableSort.Sort(KeyLe, nodes);
      && multiset(sorted) == multiset(nodes) && |NodeSequence(nodes)| == |nodes|
      && (forall i, j :: 0 <= i < j < |sorted| ==> Precedes(sorted[i], sorted[j]))
      && (forall i :: 0 <= i < |sorted| ==> NodeSequence(nodes)[i] == Label(sorted[i]))
  {
    hide Label, KeyLe, Precedes;
    KeyLeIsOrder();
    StableSort.SortSorts(KeyLe, nodes);
    var sorted := StableSort.Sort(KeyLe, nodes);
    forall i, j | 0 <= i < j < |sorted| ensures Precedes(sorted[i], sorted[j]) {
      KeyLePrecedes(sorted[i], sorted[j]);
    }
  }

  // ----- when the order of the node list does not matter

  /** A node's key and label: all that the node sequence depends on. */
  datatype Keyed = Keyed(node: Node, caption: string)

  /** Forgets everything about a node but its key. */
  function Project(n: Node): Keyed {
    Keyed(Node(n.id, "", None, n.x, n.y), Label(n))
  }

  predicate KeyedLe(a: Keyed, b: Keyed) {
    KeyLe(a.node, b.node)
  }

  function ProjectAll(nodes: seq<Node>): (r: seq<Keyed>)
    ensures |r| == |nodes| && forall i :: 0 <= i < |r| ==> r[i] == Project(nodes[i])
  {
    if nodes == [] then [] else [Project(nodes[0])] + ProjectAll(nodes[1..])
  }

  lemma {:induction false} ProjectInsert(n: Node, s: seq<Node>)
    ensures ProjectAll(StableSort.Insert(KeyLe, n, s)) == StableSort.Insert(KeyedLe, Project(n), ProjectAll(s))
  {
    hide Label, Lexicographic.Le;
    if s != [] && !KeyLe(n, s[0]) {
      ProjectInsert(n, s[1..]);
      assert ProjectAll(s)[1..] == ProjectAll(s[1..]);
    }
  }

  lemma {:induction false} ProjectSort(s: seq<Node>)
    ensures ProjectAll(StableSort.Sort(KeyLe, s)) == StableSort.Sort(KeyedLe, ProjectAll(s))
  {
    hide Project, StableSort.Insert;
    if s != [] {
      ProjectSort(s[1..]);
      ProjectInsert(s[0], StableSort.Sort(KeyLe, s[1..]));
      assert ProjectAll(s)[1..] == ProjectAll(s[1..]);
    }
  }

  lemma ProjectRest(s: seq<Node>, i: nat)
    requires i < |s|
    ensures ProjectAll(s[..i] + s[i + 1..]) == ProjectAll(s)[..i] + ProjectAll(s)[i + 1..]
  {
    hide Project, ProjectAll;
    var rest, all := s[..i] + s[i + 1..], ProjectAll(s);
    forall k | 0 <= k < |rest| ensures ProjectAll(rest)[k] == (all[..i] + all[i + 1..])[k] {
      Seqs.WithoutAt(s, i, k);
      Seqs.WithoutAt(all, i, k);
    }
  }

  lemma ProjectWithoutIndex(s: seq<Node>, i: nat)
    requires i < |s|
    ensures multiset(ProjectAll(s)) == multiset{Project(s[i])} + multiset(ProjectAll(s[..i] + s[i + 1..]))
  {
    hide Project;
    Seqs.WithoutIndex(ProjectAll(s), i);
    ProjectRest(s, i);
  }

  lemma {:induction false} ProjectPermutation(s: seq<Node>, t: seq<Node>)
    requires multiset(s) == multiset(t)
    ensures multiset(ProjectAll(s)) == multiset(ProjectAll(t))
    decreases s, 1
  {
    Seqs.PermutationLength(s, t);
    if s != [] {
      ProjectPermutationStep(s, t);
    }
  }

  lemma {:induction false} ProjectPermutationStep(s: seq<Node>, t: seq<Node>)
    requires multiset(s) == multiset(t) && s != []
    ensures multiset(ProjectAll(s)) == multiset(ProjectAll(t))
    decreases s, 0
  {
    hide Project, ProjectAll;
    var i := Seqs.RestPermutes(s, t);
    ProjectWithoutIndex(s, 0);
    ProjectWithoutIndex(t, i);
    Seqs.EmptyUnit(s[1..]);
    assert s[..0] == [];
    ProjectPermutation(s[1..], t[..i] + t[i + 1..]);
  }

  /** No two elements are equivalent and different. */
  ghost predicate Antisymmetric(s: seq<Keyed>) {
    forall i, j :: 0 <= i < |s| && 0 <= j < |s| && KeyedLe(s[i], s[j]) && KeyedLe(s[j], s[i]) ==> s[i] == s[j]
  }

  /** Two sorted arrangements of the same elements are the same if equivalent elements are equal. */
  lemma {:induction false} SortedIsUnique(s: seq<Keyed>, t: seq<Keyed>)
    requires multiset(s) == multiset(t) && StableSort.SortedBy(KeyedLe, s) && StableSort.SortedBy(KeyedLe, t)
    requires Antisymmetric(s)
    ensures s == t
  {
    hide KeyedLe;
    Seqs.PermutationLength(s, t);
    if s != [] {
      SmallestAgree(s, t);
      Seqs.TailsPermute(s, t);
      SortedIsUnique(s[1..], t[1..]);
      Seqs.SplitFirst(s);
      Seqs.SplitFirst(t);
    }
  }

  lemma SmallestAgree(s: seq<Keyed>, t: seq<Keyed>)
    requires multiset(s) == multiset(t) && StableSort.SortedBy(KeyedLe, s) && StableSort.SortedBy(KeyedLe, t)
    requires Antisymmetric(s) && s != [] && t != []
    ensures s[0] == t[0]
  {
    hide KeyedLe;
    var i := Seqs.RestPermutes(s, t);
    var j := Seqs.RestPermutes(t, s);
    assert i > 0 ==> KeyedLe(t[0], t[i]);
    assert j > 0 ==> KeyedLe(s[0], s[j]);
  }

  /** Nodes that no key tells apart have the same label. */
  ghost predicate KeysDetermineLabels(nodes: seq<Node>) {
    forall i, j :: 0 <= i < |nodes| && 0 <= j < |nodes| && SameKey(nodes[i], nodes[j]) ==>
      Label(nodes[i]) == Label(nodes[j])
  }

  lemma ProjectedAntisymmetric(nodes: seq<Node>)
    requires KeysDetermineLabels(nodes)
    ensures Antisymmetric(ProjectAll(nodes))
  {
    hide Label, KeyLe;
    var s := ProjectAll(nodes);
    forall i, j | 0 <= i < |s| && 0 <= j < |s| && KeyedLe(s[i], s[j]) && KeyedLe(s[j], s[i]) ensures s[i] == s[j] {
      EquivalentKeys(s[i].node, s[j].node);
      assert SameKey(nodes[i], nodes[j]);
    }
  }

  lemma AntisymmetricPermutes(s: seq<Keyed>, t: seq<Keyed>)
    requires multiset(s) == multiset(t) && Antisymmetric(s)
    ensures Antisymmetric(t)
  {
    hide KeyedLe;
    forall i, j | 0 <= i < |t| && 0 <= j < |t| && KeyedLe(t[i], t[j]) && KeyedLe(t[j], t[i]) ensures t[i] == t[j] {
      assert t[i] in multiset(s) && t[j] in multiset(s);
      var k :| 0 <= k < |s| && s[k] == t[i];
      var l :| 0 <= l < |s| && s[l] == t[j];
    }
  }

  lemma KeyedLeIsOrder()
    ensures StableSort.TotalPreorder(KeyedLe)
  {
    hide KeyLe;
    KeyLeIsOrder();
  }

  lemma SequenceOfProjection(nodes: seq<Node>, i: nat)
    requires i < |nodes|
    ensures |NodeSequence(nodes)| == |StableSort.Sort(KeyedLe, ProjectAll(nodes))| == |nodes|
    ensures NodeSequence(nodes)[i] == StableSort.Sort(KeyedLe, ProjectAll(nodes))[i].caption
  {
    hide Label, StableSort.Sort;
    ProjectSort(nodes);
    StableSort.SortPermutes(KeyLe, nodes);
  }

  lemma SameSequence(nodes: seq<Node>, p: seq<Node>)
    requires KeysDetermineLabels(nodes) && multiset(p) == multiset(nodes)
    ensures NodeSequence(p) == NodeSequence(nodes)
  {
    hide KeyedLe, Project, StableSort.Sort, NodeSequence, Antisymmetric, KeysDetermineLabels;
    var s, t := ProjectAll(nodes), ProjectAll(p);
    KeyedLeIsOrder();
    ProjectPermutation(p, nodes);
    StableSort.SortSorts(KeyedLe, s);
    StableSort.SortSorts(KeyedLe, t);
    ProjectedAntisymmetric(nodes);
    AntisymmetricPermutes(s, StableSort.Sort(KeyedLe, s));
    SortedIsUnique(StableSort.Sort(KeyedLe, s), StableSort.Sort(KeyedLe, t));
    assert |p| == |multiset(p)| == |multiset(nodes)| == |nodes|;
    SequenceLength(p);
    SequenceLength(nodes);
    forall i | 0 <= i < |nodes| ensures NodeSequence(p)[i] == NodeSequence(nodes)[i] {
      SequenceOfProjection(p, i);
      SequenceOfProjection(nodes, i);
    }
  }

  lemma SequenceLength(nodes: seq<Node>)
    ensures |NodeSequence(nodes)| == |nodes|
  {
    hide StableSort.Sort;
    StableSort.SortPermutes(KeyLe, nodes);
  }

  /** Swapping two nodes that only their labels tell apart changes the sequence. */
  lemma SwapShows(nodes: seq<Node>, i: nat, j: nat) returns (p: seq<Node>)
    requires i < |nodes| && j < |nodes| && SameKey(nodes[i], nodes[j]) && Label(nodes[i]) != Label(nodes[j])
    ensures multiset(p) == multiset(nodes) && NodeSequence(p) != NodeSequence(nodes)
  {
    hide Label, KeyLe, StableSort.Sort;
    p := nodes[i := nodes[j]][j := nodes[i]];
    KeyLeIsOrder();
    forall k | 0 <= k < |nodes| ensures KeyLe(nodes[k], p[k]) && KeyLe(p[k], nodes[k]) {
      EquivalentKeys(nodes[k], p[k]);
    }
    StableSort.RankOfSameKeys(KeyLe, nodes, p, i, 0);
    StableSort.SortedPosition(KeyLe, nodes, i);
    StableSort.SortedPosition(KeyLe, p, i);
    var r := StableSort.RankFrom(KeyLe, nodes, i, 0);
    assert NodeSequence(nodes)[r] == Label(nodes[i]);
    assert NodeSequence(p)[r] == Label(nodes[j]);
  }

  /**
    The compiled sequence is the same for every reordering of the node list exactly when nodes with
    the same key have the same label.
  */
  lemma OrderIndependentExactly(nodes: seq<Node>)
    ensures (forall p :: multiset(p) == multiset(nodes) ==> NodeSequence(p) == NodeSequence(nodes))
      <==> KeysDetermineLabels(nodes)
  {
    hide NodeSequence, Label, SameKey;
    if KeysDetermineLabels(nodes) {
      forall p | multiset(p) == multiset(nodes) ensures NodeSequence(p) == NodeSequence(nodes) {
        SameSequence(nodes, p);
      }
    } else {
      var i, j :| 0 <= i < |nodes| && 0 <= j < |nodes| && SameKey(nodes[i], nodes[j])
        && Label(nodes[i]) != Label(nodes[j]);
      var p := SwapShows(nodes, i, j);
    }
  }

  /** In particular, distinct ids make the order of the list irrelevant. */
  lemma DistinctIdsSuffice(nodes: seq<Node>, p: seq<Node>)
    requires forall i, j :: 0 <= i < j < |nodes| ==> nodes[i].id != nodes[j].id
    requires multiset(p) == multiset(nodes)
    ensures NodeSequence(p) == NodeSequence(nodes)
  {
    hide NodeSequence, Label;
    OrderIndependentExactly(nodes);
  }
}
