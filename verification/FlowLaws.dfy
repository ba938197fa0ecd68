/** What a flow that reads back as steps is made of, said of its nodes and edges themselves. */
module FlowLaws {
  import opened Wrappers
  import opened FlowSteps
  import opened FlowTheorems
  import FlowReading

  lemma {:induction false} LookupIsFirst(nodes: seq<Node>, i: nat)
    requires i < |nodes| && forall j | 0 <= j < i :: nodes[j].id != nodes[i].id
    ensures Lookup(nodes, nodes[i].id) == Some(nodes[i])
  {
    if i > 0 {
      LookupIsFirst(nodes[1..], i - 1);
    }
  }

  // ---- The nodes ----

  lemma PathIsOfNodes(g: Flow, path: seq<Node>)
    requires Walk(g, path)
    ensures forall n | n in path :: n in g.nodes
  {
    forall i | 0 <= i < |path| ensures path[i] in g.nodes {
      if i == 0 {
        assert path[0] in Starts(g.nodes);
      } else {
        assert Goes(g, path[i - 1], path[i]);
      }
    }
  }

  /** With distinct ids, every node that is no display is on the path. */
  lemma OnThePath(g: Flow, path: seq<Node>, n: Node) returns (i: nat)
    requires DistinctIds(g.nodes) && Straight(g, path) && n in g.nodes && !n.kind.Display?
    ensures i < |path| && path[i] == n
  {
    i :| i < |path| && path[i].id == n.id;
    PathIsOfNodes(g, path);
    LookupIs(g.nodes, n);
    LookupIs(g.nodes, path[i]);
  }

  /** A request that can be a step: its outcome counts as it is, at once, and it is no stream. */
  predicate IsPlainRequest(n: Node) {
    && n.retries == 0
    && (n.failOnStatus.Some? ==> n.failOnStatus.value)
    && (n.executeScripts.Some? ==> n.executeScripts.value)
    && (n.executeTests.Some? ==> n.executeTests.value)
    && (n.ignoreTestErrors.Some? ==> !n.ignoreTestErrors.value)
    && n.requestKind != "sseRequests" && n.requestKind != "wsConnections" && n.requestKind != "socketioRequests"
  }

  /** A check that is written by a step. */
  predicate IsWrittenCheck(n: Node) {
    (n.kind.Evaluate? || (n.kind.Validate? && n.rules == 1)) && "expect " <= n.name
  }

  lemma SoundIs(n: Node)
    ensures Sound(n) <==> if n.kind.Request? then IsPlainRequest(n) else IsWrittenCheck(n)
  {
    assert UNPLAIN[0] == "sseRequests" && UNPLAIN[1] == "wsConnections" && UNPLAIN[2] == "socketioRequests";
    assert n.requestKind in UNPLAIN <==>
           n.requestKind == UNPLAIN[0] || n.requestKind == UNPLAIN[1] || n.requestKind == UNPLAIN[2];
  }

  /** A flow reads back only if it has one start, and every node besides it and the displays is a plain request or a
      check that a step has written. */
  lemma NodesOfALine(g: Flow, described: map<string, Info>)
    requires DistinctIds(g.nodes) && Reading(g, described).Some?
    ensures exists start :: start in g.nodes && start.kind.Start?
    ensures forall n, m | n in g.nodes && m in g.nodes && n.kind.Start? && m.kind.Start? :: n == m
    ensures forall n | n in g.nodes && !n.kind.Start? && !n.kind.Display? ::
      if n.kind.Request? then IsPlainRequest(n) else IsWrittenCheck(n)
  {
    var path :| Straight(g, path);
    PathIsOfNodes(g, path);
    assert path[0] in Starts(g.nodes);
    forall n | n in g.nodes && n.kind.Start? ensures n == path[0] {
      var i := OnThePath(g, path, n);
      assert i > 0 ==> Sound(path[i]);
    }
    forall n | n in g.nodes && !n.kind.Start? && !n.kind.Display?
      ensures if n.kind.Request? then IsPlainRequest(n) else IsWrittenCheck(n)
    {
      var i := OnThePath(g, path, n);
      SoundIs(path[i]);
    }
  }

  // ---- The edges ----

  /** The port by which a node of a line goes on. */
  function GoesOnBy(n: Node): string {
    if n.kind.Request? then "success" else if n.kind.Validate? then "pass" else "out"
  }

  predicate IsWire(e: Edge) {
    e.input.Other? || (e.input.Text? && e.input.text != "")
  }

  lemma {:induction false} TwoOnward(nodes: seq<Node>, edges: seq<Edge>, id: string, i: nat, j: nat)
    requires i < j < |edges| && IsOnward(nodes, edges[i], id) && IsOnward(nodes, edges[j], id)
    ensures |Onward(nodes, edges, id)| >= 2
  {
    var front := edges[..|edges| - 1];
    if j < |front| {
      TwoOnward(nodes, front, id, i, j);
    } else {
      OneOnward(nodes, front, id, i);
    }
  }

  lemma {:induction false} OneOnward(nodes: seq<Node>, edges: seq<Edge>, id: string, i: nat)
    requires i < |edges| && IsOnward(nodes, edges[i], id)
    ensures |Onward(nodes, edges, id)| >= 1
  {
    var front := edges[..|edges| - 1];
    if i < |front| {
      OneOnward(nodes, front, id, i);
    }
  }

  lemma PathLeavesWell(g: Flow, path: seq<Node>, i: nat)
    requires Straight(g, path) && i < |path|
    ensures LeavesWell(g, path[i]) && |Onward(g.nodes, g.edges, path[i].id)| <= 1
    ensures path[i].kind.Start? || path[i].kind.Request? || path[i].kind.Validate? || path[i].kind.Evaluate?
  {
    if i + 1 < |path| {
      assert Goes(g, path[i], path[i + 1]);
    }
    assert path[0] in Starts(g.nodes);
  }

  lemma {:induction false} RequestIs(path: seq<Node>, id: string)
    requires id in Requests(path)
    ensures exists n :: n in path && n.id == id && n.kind.Request?
  {
    var front, last := path[..|path| - 1], path[|path| - 1];
    if id in Requests(front) {
      RequestIs(front, id);
      var n :| n in front && n.id == id && n.kind.Request?;
      assert n in path;
    } else {
      assert last in path;
    }
  }

  lemma PairIs(e: Edge)
    requires Pair(e).Some?
    ensures !e.input.Absent? && "var:" <= e.input.text
    ensures e.path != [] && e.path[0] == Key("body") && Neither !in e.path
  {
    NoNeither(e.path[1..]);
    assert e.path == [e.path[0]] + e.path[1..];
  }

  lemma {:induction false} NoNeither(parts: seq<Part>)
    requires PathText(parts).Some?
    ensures Neither !in parts
  {
    if parts != [] {
      NoNeither(parts[1..]);
      assert parts == [parts[0]] + parts[1..];
    }
  }

  // ---- The lines ----

  /** The line of a request: what is sent as validation describes it, its name when that has one. */
  predicate IsLineOf(line: Line, n: Node, described: map<string, Info>) {
    && line.vars == n.variables
    && (if n.id in described then
          && line.method_ == described[n.id].method_ && line.address == described[n.id].address
          && line.name == if described[n.id].name == "" then n.name else described[n.id].name
        else line.method_ == "" && line.address == "" && line.name == n.name)
  }

  lemma {:induction false} RequestHasLine(described: map<string, Info>, path: seq<Node>, i: nat)
    requires 0 < i < |path| && path[i].kind.Request?
    ensures exists line :: line in Lines(described, path) && IsLineOf(line, path[i], described)
  {
    var front, last := path[..|path| - 1], path[|path| - 1];
    var lines := Lines(described, front);
    if i < |front| {
      RequestHasLine(described, front, i);
      var line :| line in lines && IsLineOf(line, path[i], described);
      StillThere(described, lines, last, line, path[i]);
    } else {
      assert LineOf(described, last) in Extended(described, lines, last);
      assert IsLineOf(LineOf(described, last), last, described);
    }
  }

  lemma StillThere(described: map<string, Info>, lines: seq<Line>, last: Node, line: Line, n: Node)
    requires line in lines && IsLineOf(line, n, described)
    ensures exists l :: l in Extended(described, lines, last) && IsLineOf(l, n, described)
  {
    var after := Extended(described, lines, last);
    var k :| 0 <= k < |lines| && lines[k] == line;
    assert k < |after| && IsLineOf(after[k], n, described);
    assert after[k] in after;
  }

  /** Every request of the flow is a line of the reading. */
  lemma EveryRequestIsALine(g: Flow, described: map<string, Info>, n: Node)
    requires DistinctIds(g.nodes) && Reading(g, described).Some? && n in g.nodes && n.kind.Request?
    ensures exists line :: line in Reading(g, described).value && IsLineOf(line, n, described)
  {
    var path :| Straight(g, path);
    ReadingIs(g, described, path);
    var i := OnThePath(g, path, n);
    assert path[0] in Starts(g.nodes);
    RequestHasLine(described, path, i);
    var line :| line in Lines(described, path) && IsLineOf(line, n, described);
    var k :| 0 <= k < |Lines(described, path)| && Lines(described, path)[k] == line;
    var read := ReadBack(g, described, path);
    assert IsLineOf(read[k], n, described) && read[k] in read;
  }

  // ---- An empty input is none ----

  function Bare(e: Edge): Edge {
    if e.input == Text("") then e.(input := Absent) else e
  }

  function BareAll(edges: seq<Edge>): (r: seq<Edge>)
    ensures |r| == |edges| && forall i | 0 <= i < |edges| :: r[i] == Bare(edges[i])
  {
    if edges == [] then [] else BareAll(edges[..|edges| - 1]) + [Bare(edges[|edges| - 1])]
  }

  lemma BareIsSame(nodes: seq<Node>, e: Edge, n: Node, id: string)
    ensures IsOnward(nodes, Bare(e), id) <==> IsOnward(nodes, e, id)
    ensures Leaves(nodes, n, Bare(e)) <==> Leaves(nodes, n, e)
    ensures Control(Bare(e)) <==> Control(e)
    ensures !Control(e) ==> Bare(e) == e
    ensures Bare(e).to == e.to
  {
  }

  lemma {:induction false} OnwardOfBare(nodes: seq<Node>, edges: seq<Edge>, n: Node)
    ensures Onward(nodes, BareAll(edges), n.id) == BareAll(Onward(nodes, edges, n.id))
  {
    if edges != [] {
      var front, e := edges[..|edges| - 1], edges[|edges| - 1];
      OnwardOfBare(nodes, front, n);
      BareIsSame(nodes, e, n, n.id);
      assert BareAll(edges)[..|edges| - 1] == BareAll(front);
      var before := Onward(nodes, front, n.id);
      assert (before + [e])[..|before|] == before;
    }
  }

  lemma {:induction false} ExtractsOfBare(edges: seq<Edge>, id: string)
    ensures Extracts(BareAll(edges), id) == Extracts(edges, id)
  {
    if edges != [] {
      ExtractsOfBare(edges[..|edges| - 1], id);
      assert BareAll(edges)[..|edges| - 1] == BareAll(edges[..|edges| - 1]);
    }
  }

  lemma MembersOfBare(edges: seq<Edge>)
    ensures forall e | e in edges :: Bare(e) in BareAll(edges)
    ensures forall b | b in BareAll(edges) :: exists e :: e in edges && b == Bare(e)
  {
    forall e | e in edges ensures Bare(e) in BareAll(edges) {
      var i :| 0 <= i < |edges| && edges[i] == e;
      assert BareAll(edges)[i] == Bare(e);
    }
    forall b | b in BareAll(edges) ensures exists e :: e in edges && b == Bare(e) {
      var i :| 0 <= i < |edges| && BareAll(edges)[i] == b;
      assert edges[i] in edges && b == Bare(edges[i]);
    }
  }

  lemma LeavingOfBare(nodes: seq<Node>, edges: seq<Edge>, n: Node)
    ensures AllLeave(nodes, BareAll(edges), n) <==> AllLeave(nodes, edges, n)
  {
    MembersOfBare(edges);
    forall e ensures Leaves(nodes, n, Bare(e)) <==> Leaves(nodes, n, e) {
      BareIsSame(nodes, e, n, n.id);
    }
  }

  lemma WiresOfBare(ids: seq<string>, edges: seq<Edge>)
    ensures AllForward(ids, BareAll(edges)) <==> AllForward(ids, edges)
  {
    MembersOfBare(edges);
  }

  lemma StepOfBare(g: Flow, n: Node, m: Node)
    ensures var h := Flow(g.nodes, BareAll(g.edges));
            && (LeavesWell(h, n) <==> LeavesWell(g, n)) && (Goes(h, n, m) <==> Goes(g, n, m))
            && (Ends(h, n) <==> Ends(g, n))
  {
    LeavingOfBare(g.nodes, g.edges, n);
    OnwardOfBare(g.nodes, g.edges, n);
  }

  lemma Transfers(g: Flow, h: Flow, path: seq<Node>)
    requires g.nodes == h.nodes && Straight(g, path)
    requires forall n, m :: Goes(g, n, m) ==> Goes(h, n, m)
    requires forall n :: Ends(g, n) ==> Ends(h, n)
    requires AllForward(Requests(path), g.edges) ==> AllForward(Requests(path), h.edges)
    ensures Straight(h, path)
  {
  }

  lemma StraightOfBare(g: Flow, path: seq<Node>)
    ensures Straight(Flow(g.nodes, BareAll(g.edges)), path) <==> Straight(g, path)
  {
    var h := Flow(g.nodes, BareAll(g.edges));
    forall n, m ensures Goes(h, n, m) <==> Goes(g, n, m) {
      StepOfBare(g, n, m);
    }
    forall n ensures Ends(h, n) <==> Ends(g, n) {
      StepOfBare(g, n, n);
    }
    WiresOfBare(Requests(path), g.edges);
    if Straight(g, path) {
      Transfers(g, h, path);
    }
    if Straight(h, path) {
      Transfers(h, g, path);
    }
  }

  /** An edge whose input is the empty text is read as one that has none. */
  lemma EmptyInputIsNone(g: Flow, described: map<string, Info>)
    ensures Reading(Flow(g.nodes, BareAll(g.edges)), described) == Reading(g, described)
  {
    var h := Flow(g.nodes, BareAll(g.edges));
    if exists path :: Straight(g, path) {
      var path :| Straight(g, path);
      StraightOfBare(g, path);
      ReadingIs(g, described, path);
      ReadingIs(h, described, path);
      SameExtractsOfBare(Lines(described, path), Requests(path), g.edges);
    } else {
      forall path ensures !Straight(h, path) {
        StraightOfBare(g, path);
      }
    }
  }

  lemma SameExtractsOfBare(lines: seq<Line>, ids: seq<string>, edges: seq<Edge>)
    requires |lines| == |ids|
    ensures WithExtracts(lines, ids, BareAll(edges)) == WithExtracts(lines, ids, edges)
  {
    forall id ensures Extracts(BareAll(edges), id) == Extracts(edges, id) {
      ExtractsOfBare(edges, id);
    }
  }
}
