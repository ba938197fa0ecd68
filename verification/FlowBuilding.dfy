/** The flow graph the engine draws for a list of steps, and that it reads back. */
module FlowBuilding {
  import opened Wrappers
  import opened FlowSteps
  import opened FlowTheorems
  import opened FlowWriting
  import opened FlowExtracts
  import TimeText

  // ---- Steps as they are read from a file ----

  datatype Sendable = Requests | GraphqlRequests | SoapRequests | GrpcRequests

  function KindText(kind: Sendable): (r: string)
    ensures r !in UNPLAIN
  {
    match kind
    case Requests => "requests"
    case GraphqlRequests => "graphqlRequests"
    case SoapRequests => "soapRequests"
    case GrpcRequests => "grpcRequests"
  }

  datatype PathKey = Field(name: string) | Item(index: nat)

  /** A check: its text, and whether a rule can say it. */
  datatype Expect = Expect(text: string, rule: bool)

  datatype Draft = Draft(
    name: string, kind: Sendable, method_: string, address: string, vars: seq<(string, string)>,
    extract: seq<(string, seq<PathKey>)>, expects: seq<Expect>)

  // ---- Ids ----

  datatype Tag = StartTag | DoneTag | RequestTag(n: nat) | CheckTag(n: nat, m: nat)

  function Id(tag: Tag): string {
    match tag
    case StartTag => "start"
    case DoneTag => "done"
    case RequestTag(n) => ['s'] + TimeText.Digits(n)
    case CheckTag(n, m) => ['s'] + TimeText.Digits(n) + ['_'] + (['x'] + TimeText.Digits(m))
  }

  lemma NumberIs(n: nat, m: nat)
    ensures TimeText.Digits(n) == TimeText.Digits(m) ==> n == m
    ensures '_' !in TimeText.Digits(n) && TimeText.Digits(n) != [] && TimeText.IsDigit(TimeText.Digits(n)[0])
  {
    assert TimeText.Value(TimeText.Digits(n)) == n && TimeText.Value(TimeText.Digits(m)) == m;
  }

  /** What is before the first mark, and what is after it. */
  lemma SplitMark(a: string, b: string, c: string, d: string)
    requires '_' !in a && '_' !in c && a + ['_'] + b == c + ['_'] + d
    ensures a == c && b == d
  {
    var s, t := a + ['_'] + b, c + ['_'] + d;
    assert s == t && s[|a|] == '_' && t[|c|] == '_';
    assert forall i | 0 <= i < |a| :: s[i] == a[i];
    assert forall i | 0 <= i < |c| :: t[i] == c[i];
    assert |a| == |c|;
    assert s[..|a|] == a && t[..|c|] == c && s[|a| + 1..] == b && t[|c| + 1..] == d;
  }

  /** What an id looks like: no number second, a number, or a number and a mark. */
  datatype Look = NoNumber(first: char) | Number | NumberAndMark

  function LookOf(id: string): Look {
    if |id| < 2 then NoNumber('?')
    else if !TimeText.IsDigit(id[1]) then NoNumber(id[0])
    else if '_' in id then NumberAndMark
    else Number
  }

  function Expected(tag: Tag): Look {
    match tag
    case StartTag => NoNumber('s')
    case DoneTag => NoNumber('d')
    case RequestTag(_) => Number
    case CheckTag(_, _) => NumberAndMark
  }

  lemma RequestLooks(n: nat)
    ensures LookOf(Id(RequestTag(n))) == Number
  {
    NumberIs(n, n);
    assert Id(RequestTag(n))[1] == TimeText.Digits(n)[0];
  }

  lemma CheckLooks(n: nat, m: nat)
    ensures LookOf(Id(CheckTag(n, m))) == NumberAndMark
  {
    NumberIs(n, m);
    var id := Id(CheckTag(n, m));
    assert id[1] == TimeText.Digits(n)[0];
    assert id[1 + |TimeText.Digits(n)|] == '_';
  }

  lemma Looks(tag: Tag)
    ensures LookOf(Id(tag)) == Expected(tag)
  {
    match tag
    case StartTag =>
    case DoneTag =>
    case RequestTag(n) => RequestLooks(n);
    case CheckTag(n, m) => CheckLooks(n, m);
  }

  lemma SameRequest(n: nat, m: nat)
    requires Id(RequestTag(n)) == Id(RequestTag(m))
    ensures n == m
  {
    NumberIs(n, m);
    assert Id(RequestTag(n))[1..] == TimeText.Digits(n) && Id(RequestTag(m))[1..] == TimeText.Digits(m);
  }

  lemma SameCheck(n: nat, m: nat, k: nat, l: nat)
    requires Id(CheckTag(n, m)) == Id(CheckTag(k, l))
    ensures n == k && m == l
  {
    NumberIs(n, k);
    NumberIs(k, n);
    NumberIs(m, l);
    var a, c := ['s'] + TimeText.Digits(n), ['s'] + TimeText.Digits(k);
    var b, d := ['x'] + TimeText.Digits(m), ['x'] + TimeText.Digits(l);
    SplitMark(a, b, c, d);
    assert a[1..] == TimeText.Digits(n) && c[1..] == TimeText.Digits(k);
    assert b[1..] == TimeText.Digits(m) && d[1..] == TimeText.Digits(l);
  }

  /** No two things have one id. */
  lemma IdsDiffer(a: Tag, b: Tag)
    ensures Id(a) == Id(b) <==> a == b
  {
    Looks(a);
    Looks(b);
    if Id(a) == Id(b) && a.RequestTag? {
      SameRequest(a.n, b.n);
    } else if Id(a) == Id(b) && a.CheckTag? {
      SameCheck(a.n, a.m, b.n, b.m);
    }
  }

  // ---- Steps with the ids they are drawn with ----

  function KeyPart(key: PathKey): (r: Part)
    ensures !r.Neither?
  {
    match key
    case Field(name) => Key(name)
    case Item(index) => Index(TimeText.Digits(index))
  }

  function Keys(keys: seq<PathKey>): (r: seq<Part>)
    ensures Neither !in r
  {
    if keys == [] then []
    else
      Keys(keys[..|keys| - 1]) + [KeyPart(keys[|keys| - 1])]
  }

  function Extracted(extract: seq<(string, seq<PathKey>)>): (r: seq<Extract>)
    ensures |r| == |extract| && forall i | 0 <= i < |r| :: r[i] == Extract(extract[i].0, Keys(extract[i].1))
  {
    if extract == [] then []
    else
      var last := extract[|extract| - 1];
      Extracted(extract[..|extract| - 1]) + [Extract(last.0, Keys(last.1))]
  }

  function NumberedChecks(n: nat, expects: seq<Expect>): (r: seq<CheckStep>)
    ensures |r| == |expects|
  {
    if expects == [] then []
    else
      var last := expects[|expects| - 1];
      NumberedChecks(n, expects[..|expects| - 1]) + [CheckStep(Id(CheckTag(n, |expects|)), last.rule, last.text)]
  }

  function NumberedStep(n: nat, d: Draft): (r: Step)
    ensures Writable(r)
  {
    Step(Id(RequestTag(n)), KindText(d.kind), d.method_, d.address, d.name, d.vars, Extracted(d.extract),
         NumberedChecks(n, d.expects))
  }

  /** The steps, numbered from 1. */
  function Numbered(drafts: seq<Draft>): (r: seq<Step>)
    ensures |r| == |drafts| && forall i | 0 <= i < |r| :: r[i] == NumberedStep(i + 1, drafts[i])
  {
    if drafts == [] then []
    else Numbered(drafts[..|drafts| - 1]) + [NumberedStep(|drafts|, drafts[|drafts| - 1])]
  }

  const START: Node := Plain(Id(StartTag), Start, "", "", [], 0)

  function Path(drafts: seq<Draft>): (r: seq<Node>)
    ensures r != []
  {
    Written(START, Numbered(drafts))
  }

  // ---- The ids are distinct ----

  function CheckTags(n: nat, count: nat): (r: seq<Tag>)
    ensures |r| == count && forall i | 0 <= i < count :: r[i] == CheckTag(n, i + 1)
  {
    if count == 0 then [] else CheckTags(n, count - 1) + [CheckTag(n, count)]
  }

  /** What each node of the path is, in order. */
  function Tags(drafts: seq<Draft>): (r: seq<Tag>) {
    if drafts == [] then [StartTag]
    else
      var n := |drafts|;
      Tags(drafts[..n - 1]) + [RequestTag(n)] + CheckTags(n, |drafts[n - 1].expects|)
  }

  function NumberOf(tag: Tag): nat {
    match tag
    case StartTag => 0
    case DoneTag => 0
    case RequestTag(n) => n
    case CheckTag(n, _) => n
  }

  ghost predicate DistinctTags(tags: seq<Tag>) {
    forall i, j | 0 <= i < j < |tags| :: tags[i] != tags[j]
  }

  lemma {:induction false} TagsAreDistinct(drafts: seq<Draft>)
    ensures DistinctTags(Tags(drafts))
    ensures forall i | 0 <= i < |Tags(drafts)| :: NumberOf(Tags(drafts)[i]) <= |drafts| && !Tags(drafts)[i].DoneTag?
  {
    if drafts != [] {
      TagsAreDistinct(drafts[..|drafts| - 1]);
    }
  }

  ghost predicate Tagged(nodes: seq<Node>, tags: seq<Tag>) {
    |nodes| == |tags| && forall i | 0 <= i < |nodes| :: nodes[i].id == Id(tags[i])
  }

  lemma {:induction false} ChecksAreTagged(n: nat, expects: seq<Expect>)
    ensures Tagged(CheckNodes(NumberedChecks(n, expects)), CheckTags(n, |expects|))
  {
    if expects != [] {
      var front, last := expects[..|expects| - 1], expects[|expects| - 1];
      ChecksAreTagged(n, front);
      CheckNodesLast(NumberedChecks(n, front), CheckStep(Id(CheckTag(n, |expects|)), last.rule, last.text));
    }
  }

  lemma {:induction false} PathIsTagged(drafts: seq<Draft>)
    ensures Tagged(Path(drafts), Tags(drafts))
  {
    if drafts != [] {
      var n := |drafts|;
      var front, last := drafts[..n - 1], drafts[n - 1];
      var step := NumberedStep(n, last);
      PathIsTagged(front);
      ChecksAreTagged(n, last.expects);
      WrittenLast(START, Numbered(front), step);
      TaggedBoth(Path(front), Tags(front), [RequestNode(step)], [RequestTag(n)]);
      TaggedBoth(Path(front) + [RequestNode(step)], Tags(front) + [RequestTag(n)],
                 CheckNodes(step.checks), CheckTags(n, |last.expects|));
    }
  }

  lemma TaggedBoth(a: seq<Node>, tagsA: seq<Tag>, b: seq<Node>, tagsB: seq<Tag>)
    requires Tagged(a, tagsA) && Tagged(b, tagsB)
    ensures Tagged(a + b, tagsA + tagsB)
  {
    forall i | 0 <= i < |a + b| ensures (a + b)[i].id == Id((tagsA + tagsB)[i]) {
      if i < |a| {
        assert (a + b)[i] == a[i] && (tagsA + tagsB)[i] == tagsA[i];
      } else {
        assert (a + b)[i] == b[i - |a|] && (tagsA + tagsB)[i] == tagsB[i - |a|];
      }
    }
  }

  lemma TaggedIsDistinct(nodes: seq<Node>, tags: seq<Tag>)
    requires Tagged(nodes, tags) && DistinctTags(tags)
    ensures DistinctIds(nodes)
  {
    forall i, j | 0 <= i < j < |nodes| ensures nodes[i].id != nodes[j].id {
      IdsDiffer(tags[i], tags[j]);
    }
  }

  // ---- The flow ----

  const DONE: Node := Plain(Id(DoneTag), Display, "", "Done", [], 0)

  /** A rule needs a node after it, whatever it passes to. */
  function Displays(path: seq<Node>): (r: seq<Node>)
    requires path != []
  {
    if path[|path| - 1].kind.Validate? then [DONE] else []
  }

  function ShownAtEnd(path: seq<Node>): (r: seq<Edge>)
    requires path != []
  {
    if path[|path| - 1].kind.Validate? then [Arrow(path[|path| - 1], DONE)] else []
  }

  /** The flow drawn for the steps. */
  ghost predicate IsBuilt(flow: Flow, drafts: seq<Draft>) {
    var path := Path(drafts);
    DrawnAs(flow, path, Displays(path), ShownAtEnd(path), Wires(Numbered(drafts)))
  }

  lemma PathWithDoneIsDistinct(drafts: seq<Draft>)
    ensures DistinctIds(Path(drafts) + Displays(Path(drafts)))
  {
    TagsAreDistinct(drafts);
    PathIsTagged(drafts);
    var path, tags := Path(drafts), Tags(drafts);
    if Displays(path) == [] {
      assert path + [] == path;
      TaggedIsDistinct(path, tags);
    } else {
      TaggedIsDistinct(path + [DONE], tags + [DoneTag]);
    }
  }

  /** Validation describes each request as its step does. */
  predicate DescribesAll(described: map<string, Info>, steps: seq<Step>) {
    forall i | 0 <= i < |steps| :: Describes(described, steps[i])
  }

  /** The last step, which has no request after it, extracts nothing, and no other extracts a name twice. */
  predicate NothingIsLost(drafts: seq<Draft>)
    requires drafts != []
  {
    && drafts[|drafts| - 1].extract == []
    && forall k | 0 <= k < |drafts| - 1 :: DistinctNames(Extracted(drafts[k].extract))
  }

  /** The flow drawn for any non-empty list of steps reads back as those steps: whole, extracts included, exactly when
      the last one extracts nothing and no other extracts a name twice. */
  lemma BuiltReadsBack(flow: Flow, drafts: seq<Draft>, described: map<string, Info>)
    requires drafts != [] && IsBuilt(flow, drafts) && DescribesAll(described, Numbered(drafts))
    ensures Reading(flow, described) == Some(BackLines(Numbered(drafts)))
    ensures Reading(flow, described) == Some(WholeLines(Numbered(drafts))) <==> NothingIsLost(drafts)
  {
    BuiltReads(flow, drafts, described);
    BuiltWhole(drafts);
  }

  lemma BuiltReads(flow: Flow, drafts: seq<Draft>, described: map<string, Info>)
    requires drafts != [] && IsBuilt(flow, drafts) && DescribesAll(described, Numbered(drafts))
    ensures Reading(flow, described) == Some(BackLines(Numbered(drafts)))
  {
    BuiltCanBeDrawn(drafts);
    StepsReadBack(flow, described, START, Numbered(drafts), Displays(Path(drafts)), ShownAtEnd(Path(drafts)));
  }

  lemma BuiltWhole(drafts: seq<Draft>)
    requires drafts != []
    ensures BackLines(Numbered(drafts)) == WholeLines(Numbered(drafts)) <==> NothingIsLost(drafts)
  {
    BackWhole(Numbered(drafts));
    SameExtracted(drafts);
  }

  lemma BuiltCanBeDrawn(drafts: seq<Draft>)
    requires drafts != []
    ensures StepsCanBeDrawn(START, Numbered(drafts), Displays(Path(drafts)), ShownAtEnd(Path(drafts)), [])
  {
    PathWithDoneIsDistinct(drafts);
    forall e | e in ShownAtEnd(Path(drafts))
      ensures Control(e) && exists n :: n in Displays(Path(drafts)) && n.id == e.to
    {
      assert DONE in Displays(Path(drafts));
    }
  }

  lemma SameExtracted(drafts: seq<Draft>)
    requires drafts != []
    ensures NothingLost(Numbered(drafts)) <==> NothingIsLost(drafts)
  {
    var steps := Numbered(drafts);
    assert forall k | 0 <= k < |steps| :: steps[k].extract == Extracted(drafts[k].extract);
  }

  /** As with one step that extracts something: it comes back, and what it extracts does not. */
  lemma {:induction false} OneStepLosesItsExtracts(flow: Flow, drafts: seq<Draft>, described: map<string, Info>)
    requires |drafts| == 1 && drafts[0].extract != []
    requires IsBuilt(flow, drafts) && DescribesAll(described, Numbered(drafts))
    ensures Reading(flow, described).Some? && |Reading(flow, described).value| == 1
    ensures Reading(flow, described).value[0].extract == []
    ensures Reading(flow, described) != Some(WholeLines(Numbered(drafts)))
  {
    BuiltReadsBack(flow, drafts, described);
    BackOfOne(drafts);
  }

  lemma {:induction false} BackOfOne(drafts: seq<Draft>)
    requires |drafts| == 1
    ensures |BackLines(Numbered(drafts))| == 1 && BackLines(Numbered(drafts))[0].extract == []
  {
  }

  // ---- Drawing it ----

  lemma ChainMore(path: seq<Node>, n: Node)
    requires path != []
    ensures Chain(path + [n]) == Chain(path) + [Arrow(path[|path| - 1], n)]
  {
  }

  /** The node the next one is drawn after, and the port it goes on by. */
  ghost predicate IsTail(path: seq<Node>, tail: string, port: string) {
    path != [] && path[|path| - 1].id == tail && PortOf(path[|path| - 1].kind) == Some(port)
  }

  method WireAll(edges0: seq<Edge>, known: seq<Known>, to: string) returns (edges: seq<Edge>)
    ensures edges == edges0 + WiresTo(known, to)
  {
    edges := edges0;
    for i := 0 to |known|
      invariant edges == edges0 + WiresTo(known[..i], to)
    {
      assert known[..i + 1][..i] == known[..i];
      edges := edges + [WireTo(known[i], to)];
    }
    assert known[..|known|] == known;
  }

  method Learn(known0: seq<Known>, id: string, extract: seq<Extract>) returns (known: seq<Known>)
    ensures known == Learnt(known0, id, extract)
  {
    known := known0;
    for i := 0 to |extract|
      invariant known == Learnt(known0, id, extract[..i])
    {
      assert extract[..i + 1][..i] == extract[..i];
      known := Without(known, extract[i].name) + [Known(extract[i].name, id, extract[i].keys)];
    }
    assert extract[..|extract|] == extract;
  }

  /** Another edge, after the ones there are. */
  lemma OneMore(edges: seq<Edge>, e: Edge)
    ensures Those(edges + [e], Control(e)) == Those(edges, Control(e)) + [e]
    ensures Those(edges + [e], !Control(e)) == Those(edges, !Control(e))
  {
    assert (edges + [e])[..|edges|] == edges;
  }

  lemma Linked(path: seq<Node>, edges: seq<Edge>, tail: string, port: string, n: Node)
    requires IsTail(path, tail, port) && Those(edges, true) == Chain(path)
    ensures var e := Edge(tail, port, n.id, Absent, []);
            && Those(edges + [e], true) == Chain(path + [n]) && Those(edges + [e], false) == Those(edges, false)
  {
    var e := Edge(tail, port, n.id, Absent, []);
    ChainMore(path, n);
    OneMore(edges, e);
  }

  function PortAfter(check: CheckStep): (port: string)
    ensures PortOf(CheckNode(check).kind) == Some(port)
  {
    if check.validate then "pass" else "out"
  }

  lemma TailAfter(path: seq<Node>, check: CheckStep)
    ensures IsTail(path + [CheckNode(check)], CheckNode(check).id, PortAfter(check))
  {
  }

  lemma CheckNodesTo(path: seq<Node>, checks: seq<CheckStep>, i: nat)
    requires i < |checks|
    ensures path + CheckNodes(checks[..i + 1]) == path + CheckNodes(checks[..i]) + [CheckNode(checks[i])]
  {
    CheckNodesMore(path, checks[..i], checks[i]);
    assert checks[..i + 1] == checks[..i] + [checks[i]];
  }

  method AddChecks(nodes0: seq<Node>, edges0: seq<Edge>, tail0: string, port0: string, checks: seq<CheckStep>)
      returns (nodes: seq<Node>, edges: seq<Edge>, tail: string, port: string)
    requires IsTail(nodes0, tail0, port0) && Those(edges0, true) == Chain(nodes0)
    ensures nodes == nodes0 + CheckNodes(checks) && IsTail(nodes, tail, port)
    ensures Those(edges, true) == Chain(nodes) && Those(edges, false) == Those(edges0, false)
  {
    nodes, edges, tail, port := nodes0, edges0, tail0, port0;
    for i := 0 to |checks|
      invariant nodes == nodes0 + CheckNodes(checks[..i]) && IsTail(nodes, tail, port)
      invariant Those(edges, true) == Chain(nodes) && Those(edges, false) == Those(edges0, false)
    {
      var node := CheckNode(checks[i]);
      CheckNodesTo(nodes0, checks, i);
      Linked(nodes, edges, tail, port, node);
      TailAfter(nodes, checks[i]);
      nodes, edges := nodes + [node], edges + [Edge(tail, port, node.id, Absent, [])];
      tail, port := node.id, PortAfter(checks[i]);
    }
    assert checks[..|checks|] == checks;
  }

  lemma RequestTail(path: seq<Node>, step: Step)
    ensures IsTail(path + [RequestNode(step)], step.id, "success")
  {
  }

  lemma StepsTo(drafts: seq<Draft>, i: nat)
    requires i < |drafts|
    ensures var front, step := Numbered(drafts[..i]), NumberedStep(i + 1, drafts[i]);
            && Numbered(drafts[..i + 1]) == front + [step]
            && Path(drafts[..i + 1]) == Path(drafts[..i]) + [RequestNode(step)] + CheckNodes(step.checks)
            && KnownAfter(front + [step]) == Learnt(KnownAfter(front), step.id, step.extract)
            && Wires(front + [step]) == Wires(front) + WiresTo(KnownAfter(front), step.id)
  {
    var front, step := Numbered(drafts[..i]), NumberedStep(i + 1, drafts[i]);
    assert drafts[..i + 1][..i] == drafts[..i];
    WrittenLast(START, front, step);
    assert (front + [step])[..i] == front;
  }

  lemma WiresAreNoControl(edges: seq<Edge>, known: seq<Known>, to: string)
    requires AllReadable(known)
    ensures Those(edges + WiresTo(known, to), true) == Those(edges, true)
    ensures Those(edges + WiresTo(known, to), false) == Those(edges, false) + WiresTo(known, to)
  {
    WiresAreWires(known, to);
    ThoseOfBoth(edges, WiresTo(known, to), true);
    ThoseOfBoth(edges, WiresTo(known, to), false);
    ThoseAreAll(WiresTo(known, to), false);
  }

  lemma {:induction false} WiresAreWires(known: seq<Known>, to: string)
    requires AllReadable(known)
    ensures forall e | e in WiresTo(known, to) :: !Control(e)
  {
    if known != [] {
      assert known[|known| - 1] in known;
      WireCarries(known[|known| - 1], to);
      WiresAreWires(known[..|known| - 1], to);
    }
  }

  /** What is drawn so far, for the steps so far. */
  ghost predicate Drawing(drafts: seq<Draft>, nodes: seq<Node>, edges: seq<Edge>, tail: string, port: string,
                          known: seq<Known>) {
    && nodes == Path(drafts) && IsTail(nodes, tail, port) && known == KnownAfter(Numbered(drafts))
    && Those(edges, true) == Chain(nodes) && Those(edges, false) == Wires(Numbered(drafts))
  }

  /** The graph for the steps, left to right. */
  method Build(drafts: seq<Draft>) returns (flow: Flow)
    ensures IsBuilt(flow, drafts)
  {
    var nodes, edges: seq<Edge>, tail, port, known: seq<Known> := [START], [], Id(StartTag), "out", [];
    for at := 0 to |drafts|
      invariant Drawing(drafts[..at], nodes, edges, tail, port, known)
    {
      nodes, edges, tail, port, known := AddStep(drafts, at, nodes, edges, tail, port, known);
    }
    assert drafts[..|drafts|] == drafts;
    flow := Finish(drafts, nodes, edges, tail, port);
  }

  /** One step: its request, the wires to it, and its checks. */
  method AddStep(drafts: seq<Draft>, at: nat, nodes0: seq<Node>, edges0: seq<Edge>, tail0: string, port0: string,
                 known0: seq<Known>)
      returns (nodes: seq<Node>, edges: seq<Edge>, tail: string, port: string, known: seq<Known>)
    requires at < |drafts| && Drawing(drafts[..at], nodes0, edges0, tail0, port0, known0)
    ensures Drawing(drafts[..at + 1], nodes, edges, tail, port, known)
  {
    var step := NumberedStep(at + 1, drafts[at]);
    KnownComeFrom(Numbered(drafts[..at]));
    nodes, edges := AddRequest(nodes0, edges0, tail0, port0, known0, step);
    known := Learn(known0, step.id, step.extract);
    RequestTail(nodes0, step);
    nodes, edges, tail, port := AddChecks(nodes, edges, step.id, "success", step.checks);
    StepDrawn(drafts, at, nodes, edges, tail, port, known);
  }

  lemma StepDrawn(drafts: seq<Draft>, at: nat, nodes: seq<Node>, edges: seq<Edge>, tail: string, port: string,
                  known: seq<Known>)
    requires at < |drafts| && IsTail(nodes, tail, port) && Those(edges, true) == Chain(nodes)
    requires var front, step := Numbered(drafts[..at]), NumberedStep(at + 1, drafts[at]);
             && nodes == Path(drafts[..at]) + [RequestNode(step)] + CheckNodes(step.checks)
             && Those(edges, false) == Wires(front) + WiresTo(KnownAfter(front), step.id)
             && known == Learnt(KnownAfter(front), step.id, step.extract)
    ensures Drawing(drafts[..at + 1], nodes, edges, tail, port, known)
  {
    StepsTo(drafts, at);
  }

  method AddRequest(nodes0: seq<Node>, edges0: seq<Edge>, tail: string, port: string, known: seq<Known>, step: Step)
      returns (nodes: seq<Node>, edges: seq<Edge>)
    requires IsTail(nodes0, tail, port) && Those(edges0, true) == Chain(nodes0) && AllReadable(known)
    ensures nodes == nodes0 + [RequestNode(step)] && Those(edges, true) == Chain(nodes)
    ensures Those(edges, false) == Those(edges0, false) + WiresTo(known, step.id)
  {
    var node := RequestNode(step);
    Linked(nodes0, edges0, tail, port, node);
    nodes, edges := nodes0 + [node], edges0 + [Edge(tail, port, node.id, Absent, [])];
    WiresAreNoControl(edges, known, step.id);
    edges := WireAll(edges, known, step.id);
  }

  /** The display a rule at the end needs. */
  method Finish(drafts: seq<Draft>, nodes: seq<Node>, edges: seq<Edge>, tail: string, port: string)
      returns (flow: Flow)
    requires nodes == Path(drafts) && IsTail(nodes, tail, port)
    requires Those(edges, true) == Chain(nodes) && Those(edges, false) == Wires(Numbered(drafts))
    ensures IsBuilt(flow, drafts)
  {
    PassIsValidate(nodes, tail, port);
    if port == "pass" {
      var last := Edge(tail, port, DONE.id, Absent, []);
      OneMore(edges, last);
      return Flow(nodes + [DONE], edges + [last]);
    }
    assert nodes + [] == nodes && Chain(nodes) + [] == Chain(nodes);
    return Flow(nodes, edges);
  }

  lemma PassIsValidate(path: seq<Node>, tail: string, port: string)
    requires IsTail(path, tail, port)
    ensures port == "pass" <==> path[|path| - 1].kind.Validate?
    ensures port == "pass" ==> Arrow(path[|path| - 1], DONE) == Edge(tail, port, DONE.id, Absent, [])
  {
    assert "pass" != "out" && "pass" != "success" by { assert "pass"[0] != "out"[0] && "pass"[0] != "success"[0]; }
  }
}
