/** Steps written as a flow, and read back. */
module FlowWriting {
  import opened Wrappers
  import opened FlowSteps
  import opened FlowTheorems

  datatype CheckStep = CheckStep(id: string, validate: bool, text: string)

  /** What a step extracts: a part of its response's body, as a variable of that name. */
  datatype Extract = Extract(name: string, keys: seq<Part>)

  /** A step: a request, what it extracts from its response, and the checks on it. */
  datatype Step = Step(
    id: string, kind: string, method_: string, address: string, name: string, vars: seq<(string, string)>,
    extract: seq<Extract>, checks: seq<CheckStep>)

  /** A step can be written as its kind of request, and its paths are keys and indexes. */
  predicate Writable(step: Step) {
    step.kind !in UNPLAIN && forall i | 0 <= i < |step.extract| :: Neither !in step.extract[i].keys
  }

  function Plain(id: string, kind: Kind, requestKind: string, name: string, vars: seq<(string, string)>, rules: nat)
      : Node {
    Node(id, kind, name, requestKind, None, None, None, None, 0, vars, rules)
  }

  function RequestNode(step: Step): (n: Node)
    ensures Writable(step) ==> Sound(n)
  {
    Plain(step.id, Request, step.kind, step.name, step.vars, 0)
  }

  function CheckNode(check: CheckStep): (n: Node)
    ensures Sound(n) && EXPECT <= n.name && n.name[|EXPECT|..] == check.text
  {
    if check.validate then Plain(check.id, Validate, "", EXPECT + check.text, [], 1)
    else Plain(check.id, Evaluate, "", EXPECT + check.text, [], 0)
  }

  function CheckNodes(checks: seq<CheckStep>): (r: seq<Node>) {
    seq(|checks|, i requires 0 <= i < |checks| => CheckNode(checks[i]))
  }

  /** The path of the steps: the start, and each request followed by its checks. */
  function Written(start: Node, steps: seq<Step>): (r: seq<Node>)
    ensures r != []
  {
    if steps == [] then [start]
    else
      var last := steps[|steps| - 1];
      Written(start, steps[..|steps| - 1]) + [RequestNode(last)] + CheckNodes(last.checks)
  }

  function Texts(checks: seq<CheckStep>): (r: seq<string>) {
    seq(|checks|, i requires 0 <= i < |checks| => checks[i].text)
  }

  function StepLine(step: Step): Line {
    Line(step.method_, step.address, step.name, step.vars, [], Texts(step.checks))
  }

  function StepLines(steps: seq<Step>): (r: seq<Line>) {
    seq(|steps|, i requires 0 <= i < |steps| => StepLine(steps[i]))
  }

  function StepIds(steps: seq<Step>): (r: seq<string>) {
    seq(|steps|, i requires 0 <= i < |steps| => steps[i].id)
  }

  /** Validation describes each request as its step does. */
  predicate Describes(described: map<string, Info>, step: Step) {
    step.id in described && described[step.id] == Info(step.name, step.method_, step.address)
  }

  lemma LinesOfLast(described: map<string, Info>, path: seq<Node>, n: Node)
    requires path != []
    ensures Lines(described, path + [n]) == Extended(described, Lines(described, path), n)
    ensures Requests(path + [n]) == Requests(path) + if n.kind.Request? then [n.id] else []
  {
    assert (path + [n])[..|path + [n]| - 1] == path;
  }

  lemma CheckExtends(described: map<string, Info>, lines: seq<Line>, step: Step, check: CheckStep)
    ensures Extended(described, lines + [StepLine(step)], CheckNode(check))
         == lines + [StepLine(step.(checks := step.checks + [check]))]
  {
    assert Texts(step.checks + [check]) == Texts(step.checks) + [check.text];
    assert (lines + [StepLine(step)])[..|lines|] == lines;
  }

  lemma RequestExtends(described: map<string, Info>, lines: seq<Line>, step: Step)
    requires Describes(described, step)
    ensures Extended(described, lines, RequestNode(step)) == lines + [StepLine(step.(checks := []))]
  {
    assert Texts([]) == [];
  }

  lemma RequestAdds(described: map<string, Info>, path: seq<Node>, step: Step)
    requires path != [] && Describes(described, step)
    ensures Lines(described, path + [RequestNode(step)]) == Lines(described, path) + [StepLine(step.(checks := []))]
    ensures Requests(path + [RequestNode(step)]) == Requests(path) + [step.id]
  {
    LinesOfLast(described, path, RequestNode(step));
    RequestExtends(described, Lines(described, path), step);
  }

  lemma CheckAdds(described: map<string, Info>, path: seq<Node>, lines: seq<Line>, step: Step, check: CheckStep)
    requires path != [] && Lines(described, path) == lines + [StepLine(step)]
    ensures Lines(described, path + [CheckNode(check)])
         == lines + [StepLine(step.(checks := step.checks + [check]))]
    ensures Requests(path + [CheckNode(check)]) == Requests(path)
  {
    LinesOfLast(described, path, CheckNode(check));
    CheckExtends(described, lines, step, check);
  }

  /** A step's nodes add its line. */
  lemma {:induction false} StepAdds(described: map<string, Info>, path: seq<Node>, step: Step)
    requires path != [] && Describes(described, step)
    ensures var longer := path + [RequestNode(step)] + CheckNodes(step.checks);
            && Lines(described, longer) == Lines(described, path) + [StepLine(step)]
            && Requests(longer) == Requests(path) + [step.id]
    decreases |step.checks|
  {
    var checks := step.checks;
    if checks == [] {
      RequestAdds(described, path, step);
      assert path + [RequestNode(step)] + CheckNodes([]) == path + [RequestNode(step)];
    } else {
      var front, last := step.(checks := checks[..|checks| - 1]), checks[|checks| - 1];
      StepAdds(described, path, front);
      CheckNodesMore(path + [RequestNode(step)], front.checks, last);
      assert checks == front.checks + [last];
      CheckAdds(described, path + [RequestNode(step)] + CheckNodes(front.checks), Lines(described, path), front, last);
    }
  }

  lemma CheckNodesMore(path: seq<Node>, checks: seq<CheckStep>, check: CheckStep)
    ensures path + CheckNodes(checks + [check]) == path + CheckNodes(checks) + [CheckNode(check)]
  {
    CheckNodesLast(checks, check);
  }

  lemma CheckNodesLast(checks: seq<CheckStep>, check: CheckStep)
    ensures CheckNodes(checks + [check]) == CheckNodes(checks) + [CheckNode(check)]
  {
  }

  lemma StepsLast(steps: seq<Step>, step: Step)
    ensures StepLines(steps + [step]) == StepLines(steps) + [StepLine(step)]
    ensures StepIds(steps + [step]) == StepIds(steps) + [step.id]
  {
  }

  lemma NoStepYet(described: map<string, Info>, start: Node)
    requires start.kind.Start?
    ensures Lines(described, [start]) == [] && Requests([start]) == []
    ensures StepLines([]) == [] && StepIds([]) == []
  {
    assert Requests([start][..0]) == [];
  }

  lemma {:induction false} LinesOfSteps(described: map<string, Info>, start: Node, steps: seq<Step>)
    requires start.kind.Start? && forall i | 0 <= i < |steps| :: Describes(described, steps[i])
    ensures Lines(described, Written(start, steps)) == StepLines(steps)
    ensures Requests(Written(start, steps)) == StepIds(steps)
  {
    if steps == [] {
      NoStepYet(described, start);
    } else {
      var front, last := steps[..|steps| - 1], steps[|steps| - 1];
      LinesOfSteps(described, start, front);
      LinesOfOneMore(described, start, front, last);
      assert steps == front + [last];
    }
  }

  lemma LinesOfOneMore(described: map<string, Info>, start: Node, steps: seq<Step>, last: Step)
    requires Describes(described, last)
    requires Lines(described, Written(start, steps)) == StepLines(steps)
    requires Requests(Written(start, steps)) == StepIds(steps)
    ensures Lines(described, Written(start, steps + [last])) == StepLines(steps + [last])
    ensures Requests(Written(start, steps + [last])) == StepIds(steps + [last])
  {
    StepAdds(described, Written(start, steps), last);
    StepsLast(steps, last);
    WrittenLast(start, steps, last);
  }

  lemma WrittenLast(start: Node, steps: seq<Step>, last: Step)
    ensures Written(start, steps + [last]) == Written(start, steps) + [RequestNode(last)] + CheckNodes(last.checks)
  {
    assert (steps + [last])[..|steps|] == steps;
  }

  /** What is written is a start, a request, and sound nodes. */
  lemma {:induction false} WrittenIsSound(start: Node, steps: seq<Step>)
    requires forall i | 0 <= i < |steps| :: Writable(steps[i])
    ensures var path := Written(start, steps);
            && |path| > 0 && path[0] == start && (forall i | 0 < i < |path| :: Sound(path[i]))
            && (steps != [] ==> |path| > 1 && path[1].kind.Request?)
  {
    if steps != [] {
      WrittenIsSound(start, steps[..|steps| - 1]);
      if |steps| == 1 {
        assert Written(start, []) == [start];
      }
    }
  }

  // ---- Edges of a flow, listed in any order ----

  /** The control edges, or the wires, as they are listed. */
  function Those(edges: seq<Edge>, control: bool): (r: seq<Edge>)
    ensures forall e | e in r :: e in edges && Control(e) == control
  {
    if edges == [] then []
    else
      var before, e := Those(edges[..|edges| - 1], control), edges[|edges| - 1];
      if Control(e) == control then before + [e] else before
  }

  lemma {:induction false} ThoseOfBoth(a: seq<Edge>, b: seq<Edge>, control: bool)
    ensures Those(a + b, control) == Those(a, control) + Those(b, control)
  {
    if b == [] {
      assert a + b == a;
    } else {
      assert (a + b)[..|a + b| - 1] == a + b[..|b| - 1];
      ThoseOfBoth(a, b[..|b| - 1], control);
    }
  }

  lemma {:induction false} ThoseAreAll(edges: seq<Edge>, control: bool)
    requires forall e | e in edges :: Control(e) == control
    ensures Those(edges, control) == edges && Those(edges, !control) == []
  {
    if edges != [] {
      ThoseAreAll(edges[..|edges| - 1], control);
      assert edges == edges[..|edges| - 1] + [edges[|edges| - 1]];
    }
  }

  lemma {:induction false} EveryEdgeIsOne(edges: seq<Edge>)
    ensures multiset(edges) == multiset(Those(edges, true)) + multiset(Those(edges, false))
  {
    if edges != [] {
      EveryEdgeIsOne(edges[..|edges| - 1]);
      assert edges == edges[..|edges| - 1] + [edges[|edges| - 1]];
    }
  }

  /** Only wires are extracted from. */
  lemma {:induction false} OnlyWiresCarry(edges: seq<Edge>, id: string)
    ensures Extracts(edges, id) == Extracts(Those(edges, false), id)
  {
    if edges != [] {
      var front, e := edges[..|edges| - 1], edges[|edges| - 1];
      OnlyWiresCarry(front, id);
      if !Control(e) {
        assert (Those(front, false) + [e])[..|Those(front, false)|] == Those(front, false);
      }
    }
  }

  // ---- What is written reads back ----

  /** `g` is the line drawn with these displays and wires; its control edges and its wires may be listed one among the
      other. */
  predicate DrawnAs(g: Flow, path: seq<Node>, displays: seq<Node>, shown: seq<Edge>, wires: seq<Edge>) {
    && g.nodes == path + displays
    && Those(g.edges, true) == Chain(path) + shown && Those(g.edges, false) == wires
  }

  lemma DrawnAsReads(g: Flow, described: map<string, Info>, path: seq<Node>, displays: seq<Node>, shown: seq<Edge>,
                     wires: seq<Edge>)
    requires CanBeDrawn(path, displays, shown, wires) && DrawnAs(g, path, displays, shown, wires)
    ensures |Lines(described, path)| == |Requests(path)|
    ensures Reading(g, described) == Some(WithExtracts(Lines(described, path), Requests(path), wires))
  {
    DrawnIsStraight(path, displays, shown, wires);
    EveryEdgeIsOne(g.edges);
    SameStraight(Drawn(path, displays, shown, wires), g, path);
    ReadingIs(g, described, path);
    OnlyExtracts(Lines(described, path), Requests(path), g.edges);
  }

  lemma OnlyExtracts(lines: seq<Line>, ids: seq<string>, edges: seq<Edge>)
    requires |lines| == |ids|
    ensures WithExtracts(lines, ids, edges) == WithExtracts(lines, ids, Those(edges, false))
  {
    forall id ensures Extracts(edges, id) == Extracts(Those(edges, false), id) {
      OnlyWiresCarry(edges, id);
    }
  }

  /** The line of each step, with what the wires from it carry. */
  function LinesWith(steps: seq<Step>, wires: seq<Edge>): (r: seq<Line>)
    ensures |r| == |steps|
  {
    seq(|steps|, k requires 0 <= k < |steps| => StepLine(steps[k]).(extract := Extracts(wires, steps[k].id)))
  }

  /** The steps can be drawn with these displays and wires. */
  ghost predicate StepsCanBeDrawn(
    start: Node, steps: seq<Step>, displays: seq<Node>, shown: seq<Edge>, wires: seq<Edge>)
  {
    && steps != [] && start.kind.Start? && (forall i | 0 <= i < |steps| :: Writable(steps[i]))
    && DistinctIds(Written(start, steps) + displays) && (forall n | n in displays :: n.kind.Display?)
    && (forall e | e in shown :: Control(e) && exists n :: n in displays && n.id == e.to)
    && (forall e | e in wires :: !Control(e) && Forward(StepIds(steps), e))
  }

  /** Any non-empty list of steps, drawn as a line with any display nodes and any forward wires, reads back as those
      steps, each with what the wires from it carry. */
  lemma DrawnStepsReadBack(g: Flow, described: map<string, Info>, start: Node, steps: seq<Step>, displays: seq<Node>,
                           shown: seq<Edge>, wires: seq<Edge>)
    requires StepsCanBeDrawn(start, steps, displays, shown, wires)
    requires forall i | 0 <= i < |steps| :: Describes(described, steps[i])
    requires DrawnAs(g, Written(start, steps), displays, shown, wires)
    ensures Reading(g, described) == Some(LinesWith(steps, wires))
  {
    var path := Written(start, steps);
    WrittenIsSound(start, steps);
    LinesOfSteps(described, start, steps);
    DrawnAsReads(g, described, path, displays, shown, wires);
    LinesAreWith(steps, wires);
  }

  lemma LinesAreWith(steps: seq<Step>, wires: seq<Edge>)
    ensures |StepLines(steps)| == |StepIds(steps)|
    ensures WithExtracts(StepLines(steps), StepIds(steps), wires) == LinesWith(steps, wires)
  {
  }
}
