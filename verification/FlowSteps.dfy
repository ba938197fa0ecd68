/** A flow that is a straight line, read back as the steps it was written from. */
module FlowSteps {
  import opened Wrappers

  datatype Kind = Start | Request | Validate | Evaluate | Display | OtherKind(name: string)

  /** A node, with the fields the reading looks at; `retries` is 0 when it is absent. */
  datatype Node = Node(
    id: string, kind: Kind, name: string, requestKind: string,
    failOnStatus: Option<bool>, executeScripts: Option<bool>, executeTests: Option<bool>,
    ignoreTestErrors: Option<bool>, retries: nat, variables: seq<(string, string)>, rules: nat)

  datatype Input = Absent | Text(text: string) | Other(text: string)

  datatype Part = Key(text: string) | Index(text: string) | Neither

  datatype Edge = Edge(from: string, port: string, to: string, input: Input, path: seq<Part>)

  datatype Flow = Flow(nodes: seq<Node>, edges: seq<Edge>)

  /** What validation says a request node sends. */
  datatype Info = Info(name: string, method_: string, address: string)

  datatype Line = Line(
    method_: string, address: string, name: string, vars: seq<(string, string)>,
    extract: seq<(string, string)>, expects: seq<string>)

  // ---- Nodes and edges ----

  const EXPECT: string := "expect "

  const UNPLAIN: seq<string> := ["sseRequests", "wsConnections", "socketioRequests"]

  /** The first node with the id. */
  function Lookup(nodes: seq<Node>, id: string): (r: Option<Node>)
    ensures r.Some? ==> r.value in nodes && r.value.id == id
    ensures r.None? ==> forall n | n in nodes :: n.id != id
  {
    if nodes == [] then None else if nodes[0].id == id then Some(nodes[0]) else Lookup(nodes[1..], id)
  }

  function Starts(nodes: seq<Node>): (r: seq<Node>)
    ensures forall n | n in r :: n in nodes && n.kind.Start?
  {
    if nodes == [] then [] else (if nodes[0].kind.Start? then [nodes[0]] else []) + Starts(nodes[1..])
  }

  predicate Control(e: Edge) {
    e.input == Absent || e.input == Text("")
  }

  /** The port a node goes on by. */
  function PortOf(kind: Kind): Option<string> {
    match kind
    case Start => Some("out")
    case Evaluate => Some("out")
    case Request => Some("success")
    case Validate => Some("pass")
    case _ => None
  }

  predicate SoundRequest(n: Node) {
    && n.requestKind !in UNPLAIN
    && n.failOnStatus != Some(false) && n.executeScripts != Some(false) && n.executeTests != Some(false)
    && n.ignoreTestErrors != Some(true) && n.retries == 0
  }

  predicate SoundCheck(n: Node) {
    EXPECT <= n.name && (n.kind.Validate? ==> n.rules == 1)
  }

  /** A node that can stand after the start. */
  predicate Sound(n: Node) {
    match n.kind
    case Request => SoundRequest(n)
    case Validate => SoundCheck(n)
    case Evaluate => SoundCheck(n)
    case _ => false
  }

  predicate IsOnward(nodes: seq<Node>, e: Edge, id: string) {
    Control(e) && e.from == id && Lookup(nodes, e.to).Some? && !Lookup(nodes, e.to).value.kind.Display?
  }

  /** The control edges from a node to one that is not a display. */
  function Onward(nodes: seq<Node>, edges: seq<Edge>, id: string): (r: seq<Edge>)
    ensures forall e | e in r :: e in edges && IsOnward(nodes, e, id)
  {
    if edges == [] then []
    else
      var before := Onward(nodes, edges[..|edges| - 1], id);
      if IsOnward(nodes, edges[|edges| - 1], id) then before + [edges[|edges| - 1]] else before
  }

  /** A control edge from `n` leads to a node, and by the success port unless that is a display. */
  predicate Leaves(nodes: seq<Node>, n: Node, e: Edge) {
    Control(e) && e.from == n.id ==>
      && Lookup(nodes, e.to).Some?
      && (Lookup(nodes, e.to).value.kind.Display? || Some(e.port) == PortOf(n.kind))
  }

  ghost predicate AllLeave(nodes: seq<Node>, edges: seq<Edge>, n: Node) {
    forall e | e in edges :: Leaves(nodes, n, e)
  }

  ghost predicate LeavesWell(g: Flow, n: Node) {
    PortOf(n.kind).Some? && AllLeave(g.nodes, g.edges, n)
  }

  ghost predicate LeadsTo(g: Flow, n: Node, m: Node) {
    var onward := Onward(g.nodes, g.edges, n.id);
    |onward| == 1 && Lookup(g.nodes, onward[0].to) == Some(m)
  }

  // ---- Lines ----

  function LineOf(described: map<string, Info>, n: Node): Line {
    var info := if n.id in described then described[n.id] else Info("", "", "");
    Line(info.method_, info.address, if info.name != "" then info.name else n.name, n.variables, [], [])
  }

  /** `lines` after the next node of the path. */
  function Extended(described: map<string, Info>, lines: seq<Line>, n: Node): (r: seq<Line>) {
    if n.kind.Request? then lines + [LineOf(described, n)]
    else if lines != [] && EXPECT <= n.name then
      var last := lines[|lines| - 1];
      lines[..|lines| - 1] + [last.(expects := last.expects + [n.name[|EXPECT|..]])]
    else lines
  }

  /** The lines of a path, without what they extract. */
  function Lines(described: map<string, Info>, path: seq<Node>): seq<Line> {
    if |path| <= 1 then []
    else Extended(described, Lines(described, path[..|path| - 1]), path[|path| - 1])
  }

  function Requests(path: seq<Node>): seq<string> {
    if path == [] then []
    else
      var before := Requests(path[..|path| - 1]);
      if path[|path| - 1].kind.Request? then before + [path[|path| - 1].id] else before
  }

  // ---- Wires ----

  const VAR: string := "var:"

  function VarName(e: Edge): Option<string> {
    if !e.input.Absent? && VAR <= e.input.text then Some(e.input.text[|VAR|..]) else None
  }

  function PathText(parts: seq<Part>): Option<string> {
    if parts == [] then Some("")
    else
      var rest := PathText(parts[1..]);
      if rest.None? then None
      else
        match parts[0]
        case Key(text) => Some("." + text + rest.value)
        case Index(text) => Some("[" + text + "]" + rest.value)
        case Neither => None
  }

  /** `body`, `items`, 0 as `.items[0]`. */
  function ExtractPath(path: seq<Part>): Option<string> {
    if path == [] || path[0] != Key("body") then None
    else
      var text := PathText(path[1..]);
      if text == Some("") then Some(".") else text
  }

  /** The name and the path a wire carries. */
  function Pair(e: Edge): Option<(string, string)> {
    if VarName(e).Some? && ExtractPath(e.path).Some? then Some((VarName(e).value, ExtractPath(e.path).value)) else None
  }

  /** A wire from a request to a strictly later one, that carries part of its body to a variable. */
  ghost predicate Forward(ids: seq<string>, e: Edge) {
    Pair(e).Some? && exists i, j :: 0 <= i < j < |ids| && ids[i] == e.from && ids[j] == e.to
  }

  ghost predicate AllForward(ids: seq<string>, edges: seq<Edge>) {
    forall e | e in edges && !Control(e) :: Forward(ids, e)
  }

  /** What the wires from `id` carry, in order, each once. */
  function Extracts(edges: seq<Edge>, id: string): seq<(string, string)> {
    if edges == [] then []
    else
      var before, e := Extracts(edges[..|edges| - 1], id), edges[|edges| - 1];
      if !Control(e) && e.from == id && Pair(e).Some? && Pair(e).value !in before then before + [Pair(e).value]
      else before
  }

  function WithExtracts(lines: seq<Line>, ids: seq<string>, edges: seq<Edge>): (r: seq<Line>)
    requires |lines| == |ids|
  {
    seq(|lines|, k requires 0 <= k < |lines| => lines[k].(extract := Extracts(edges, ids[k])))
  }

  // ---- The straight line ----

  ghost predicate DistinctIds(nodes: seq<Node>) {
    forall i, j | 0 <= i < j < |nodes| :: nodes[i].id != nodes[j].id
  }

  ghost predicate Goes(g: Flow, n: Node, m: Node) {
    LeavesWell(g, n) && LeadsTo(g, n, m)
  }

  /** The first nodes of a line: from the only start, each going on to the next and to nothing else. */
  ghost predicate Walk(g: Flow, path: seq<Node>) {
    && |path| > 0 && Starts(g.nodes) == [path[0]]
    && DistinctIds(path)
    && (forall i, j | 0 <= i && j == i + 1 < |path| :: Goes(g, path[i], path[j]))
    && (forall i | 0 < i < |path| :: Sound(path[i]))
    && (|path| > 1 ==> path[1].kind.Request?)
  }

  /** The last node goes on to nothing. */
  ghost predicate Ends(g: Flow, n: Node) {
    LeavesWell(g, n) && Onward(g.nodes, g.edges, n.id) == []
  }

  /** Every node is on the path or a display. */
  ghost predicate Covers(path: seq<Node>, nodes: seq<Node>) {
    forall n | n in nodes && !n.kind.Display? :: exists i :: 0 <= i < |path| && path[i].id == n.id
  }

  /** The flow is this line. */
  ghost predicate Straight(g: Flow, path: seq<Node>) {
    && Walk(g, path) && |path| > 1
    && Ends(g, path[|path| - 1])
    && Covers(path, g.nodes)
    && AllForward(Requests(path), g.edges)
  }

  function ReadBack(g: Flow, described: map<string, Info>, path: seq<Node>): (r: seq<Line>)
    requires |Lines(described, path)| == |Requests(path)|
  {
    WithExtracts(Lines(described, path), Requests(path), g.edges)
  }

  /** A line of a path for each of its requests. */
  lemma {:induction false} LinesFit(g: Flow, described: map<string, Info>, path: seq<Node>)
    requires Walk(g, path)
    ensures |Lines(described, path)| == |Requests(path)|
    ensures |path| > 1 ==> |Requests(path)| > 0
  {
    if |path| > 1 {
      Shorter(g, path);
      LinesFit(g, described, path[..|path| - 1]);
    } else {
      assert path[0] in Starts(g.nodes);
      assert Requests(path[..0]) == [];
    }
  }

  lemma Shorter(g: Flow, path: seq<Node>)
    requires Walk(g, path) && |path| > 1
    ensures Walk(g, path[..|path| - 1])
  {
    var p := path[..|path| - 1];
    forall i, j | 0 <= i && j == i + 1 < |p| ensures Goes(g, p[i], p[j]) {
      assert Goes(g, path[i], path[j]);
    }
  }

  /** The steps of a flow, when some path makes it a line. */
  ghost function Reading(g: Flow, described: map<string, Info>): (r: Option<seq<Line>>)
  {
    if exists path :: Straight(g, path) then
      var path :| Straight(g, path);
      LinesFit(g, described, path);
      Some(ReadBack(g, described, path))
    else None
  }

  // ---- There is one line at most ----

  /** A line that starts with a path does what the path does next. */
  lemma Follows(g: Flow, path: seq<Node>, line: seq<Node>)
    requires Walk(g, path) && Straight(g, line) && path <= line
    ensures var n := path[|path| - 1];
            && LeavesWell(g, n)
            && (Onward(g.nodes, g.edges, n.id) == [] ==> line == path)
            && (Onward(g.nodes, g.edges, n.id) != [] ==>
                  && |line| > |path| && LeadsTo(g, n, line[|path|]) && Sound(line[|path|])
                  && (|path| == 1 ==> line[|path|].kind.Request?)
                  && (forall i | 0 <= i < |path| :: path[i].id != line[|path|].id))
  {
    var k := |path|;
    assert path[k - 1] == line[k - 1];
    if |line| > k {
      assert Goes(g, line[k - 1], line[k]);
    }
  }

  lemma Longer(g: Flow, path: seq<Node>, m: Node)
    requires Walk(g, path) && Goes(g, path[|path| - 1], m) && Sound(m)
    requires forall i | 0 <= i < |path| :: path[i].id != m.id
    requires |path| == 1 ==> m.kind.Request?
    ensures Walk(g, path + [m])
  {
    var p := path + [m];
    forall i, j | 0 <= i && j == i + 1 < |p| ensures Goes(g, p[i], p[j]) {
      if j < |path| {
        assert Goes(g, path[i], path[j]);
      }
    }
  }

  lemma {:induction false} OneLine(g: Flow, path: seq<Node>, line: seq<Node>)
    requires Straight(g, path) && Straight(g, line)
    ensures path == line
  {
    SamePrefix(g, path, line, |path|);
    SamePrefix(g, line, path, |line|);
  }

  lemma {:induction false} SamePrefix(g: Flow, path: seq<Node>, line: seq<Node>, k: nat)
    requires Straight(g, path) && Straight(g, line) && 0 < k <= |path|
    ensures path[..k] <= line
  {
    if k > 1 {
      SamePrefix(g, path, line, k - 1);
      LongerPrefix(g, path, line, k);
    }
  }

  lemma LongerPrefix(g: Flow, path: seq<Node>, line: seq<Node>, k: nat)
    requires Walk(g, path) && Straight(g, line) && 1 < k <= |path| && path[..k - 1] <= line
    ensures path[..k] <= line
  {
    PrefixWalks(g, path, k - 1);
    assert Goes(g, path[k - 2], path[k - 1]);
    Follows(g, path[..k - 1], line);
    assert path[..k] == path[..k - 1] + [path[k - 1]];
  }

  lemma {:induction false} PrefixWalks(g: Flow, path: seq<Node>, k: nat)
    requires Walk(g, path) && 0 < k <= |path|
    ensures Walk(g, path[..k])
    decreases |path|
  {
    if k == |path| {
      assert path[..k] == path;
    } else {
      Shorter(g, path);
      PrefixWalks(g, path[..|path| - 1], k);
      assert path[..|path| - 1][..k] == path[..k];
    }
  }

  lemma ReadingIs(g: Flow, described: map<string, Info>, path: seq<Node>)
    requires Straight(g, path)
    ensures |Lines(described, path)| == |Requests(path)|
    ensures Reading(g, described) == Some(ReadBack(g, described, path))
  {
    LinesFit(g, described, path);
    var chosen :| Straight(g, chosen)
               && (LinesFit(g, described, chosen); Reading(g, described) == Some(ReadBack(g, described, chosen)));
    OneLine(g, path, chosen);
  }
}
