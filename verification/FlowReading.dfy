/** The loops that read a flow back. */
module FlowReading {
  import opened Wrappers
  import opened FlowSteps

  /** Where a node goes on to: nowhere, to one node, or not as a line does. */
  datatype Next = Stop | On(target: Node) | Astray

  lemma {:induction false} OnwardGrows(nodes: seq<Node>, edges: seq<Edge>, id: string, i: nat)
    requires i <= |edges|
    ensures Onward(nodes, edges[..i], id) <= Onward(nodes, edges, id)
    decreases |edges|
  {
    if i == |edges| {
      assert edges[..i] == edges;
    } else {
      OnwardGrows(nodes, edges[..|edges| - 1], id, i);
      assert edges[..|edges| - 1][..i] == edges[..i];
    }
  }

  lemma OnwardStep(nodes: seq<Node>, edges: seq<Edge>, id: string, i: nat)
    requires i < |edges|
    ensures Onward(nodes, edges[..i + 1], id)
         == Onward(nodes, edges[..i], id) + (if IsOnward(nodes, edges[i], id) then [edges[i]] else [])
  {
    assert edges[..i + 1][..i] == edges[..i];
  }

  method NextOf(g: Flow, at: Node) returns (next: Next)
    ensures next.Stop? <==> Ends(g, at)
    ensures next.On? <==> LeavesWell(g, at) && |Onward(g.nodes, g.edges, at.id)| == 1
    ensures next.On? ==> Goes(g, at, next.target)
  {
    if PortOf(at.kind).None? {
      return Astray;
    }
    var success := PortOf(at.kind).value;
    next := Stop;
    for i := 0 to |g.edges|
      invariant AllLeave(g.nodes, g.edges[..i], at)
      invariant next.Stop? ==> Onward(g.nodes, g.edges[..i], at.id) == []
      invariant next.On? ==>
        var onward := Onward(g.nodes, g.edges[..i], at.id);
        |onward| == 1 && Lookup(g.nodes, onward[0].to) == Some(next.target)
      invariant !next.Astray?
    {
      var edge := g.edges[i];
      OnwardStep(g.nodes, g.edges, at.id, i);
      OnwardGrows(g.nodes, g.edges, at.id, i + 1);
      if Control(edge) && edge.from == at.id {
        var target := Lookup(g.nodes, edge.to);
        if target.None? {
          assert !Leaves(g.nodes, at, edge);
          return Astray;
        }
        if !target.value.kind.Display? {
          if edge.port != success {
            assert !Leaves(g.nodes, at, edge);
            return Astray;
          }
          if next.On? {
            return Astray;
          }
          next := On(target.value);
        }
      }
    }
    assert g.edges[..|g.edges|] == g.edges;
  }

  /** A walk has no more nodes than the flow. */
  lemma WalkFits(g: Flow, path: seq<Node>)
    requires DistinctIds(path) && forall n | n in path :: n in g.nodes
    ensures |path| <= |g.nodes|
  {
    DistinctFit(path, g.nodes);
  }

  lemma {:induction false} DistinctFit(path: seq<Node>, nodes: seq<Node>)
    requires DistinctIds(path) && forall n | n in path :: n in nodes
    ensures |path| <= |nodes|
  {
    if path != [] {
      var n := path[0];
      assert n in path;
      var k :| 0 <= k < |nodes| && nodes[k] == n;
      var rest := nodes[..k] + nodes[k + 1..];
      forall m | m in path[1..] ensures m in rest {
        var j :| 0 <= j < |path[1..]| && path[1..][j] == m;
        assert path[j + 1].id != path[0].id && path[j + 1] in path;
        var l :| 0 <= l < |nodes| && nodes[l] == m;
        assert m == if l < k then rest[l] else rest[l - 1];
      }
      DistinctFit(path[1..], rest);
    }
  }

  function Ids(path: seq<Node>): (r: seq<string>)
    ensures |r| == |path| && forall i | 0 <= i < |path| :: r[i] == path[i].id
  {
    seq(|path|, i requires 0 <= i < |path| => path[i].id)
  }

  /** Every line of the flow starts with the path. */
  ghost predicate Only(g: Flow, path: seq<Node>) {
    forall line | Straight(g, line) :: path <= line
  }

  /** What the walk has gathered. */
  ghost predicate Gathered(
    g: Flow, described: map<string, Info>, path: seq<Node>, lines: seq<Line>, requests: seq<string>, chain: seq<string>)
  {
    && Walk(g, path) && Only(g, path) && (forall n | n in path :: n in g.nodes)
    && lines == Lines(described, path) && requests == Requests(path) && chain == Ids(path)
  }

  lemma Begun(g: Flow, described: map<string, Info>)
    ensures |Starts(g.nodes)| != 1 ==> forall line :: !Straight(g, line)
    ensures |Starts(g.nodes)| == 1 ==>
      Gathered(g, described, Starts(g.nodes), [], [], [Starts(g.nodes)[0].id])
  {
    var starts := Starts(g.nodes);
    if |starts| == 1 {
      assert starts[0] in starts;
      OnlyTheStart(described, starts[0]);
      assert starts == [starts[0]];
    }
  }

  lemma OnlyTheStart(described: map<string, Info>, n: Node)
    requires n.kind.Start?
    ensures Lines(described, [n]) == [] && Requests([n]) == [] && Ids([n]) == [n.id]
  {
    assert Requests([n][..0]) == [];
  }

  /** Nothing that goes astray after the path is a line. */
  lemma NoLine(g: Flow, path: seq<Node>, next: Next)
    requires Walk(g, path) && Only(g, path)
    requires next.Stop? <==> Ends(g, path[|path| - 1])
    requires next.On? <==> LeavesWell(g, path[|path| - 1]) && |Onward(g.nodes, g.edges, path[|path| - 1].id)| == 1
    requires next.On? ==> Goes(g, path[|path| - 1], next.target)
    requires next.On? ==>
      || next.target.id in Ids(path) || !Sound(next.target) || (|path| == 1 && !next.target.kind.Request?)
    requires next.Stop? ==>
      |path| == 1 || !Covers(path, g.nodes) || !AllForward(Requests(path), g.edges)
    ensures forall line :: !Straight(g, line)
  {
    forall line ensures !Straight(g, line) {
      if Straight(g, line) {
        Follows(g, path, line);
      }
    }
  }

  lemma Onwards(g: Flow, described: map<string, Info>, path: seq<Node>, m: Node)
    requires Walk(g, path) && Only(g, path) && (forall n | n in path :: n in g.nodes)
    requires Goes(g, path[|path| - 1], m) && Sound(m) && m.id !in Ids(path) && (|path| == 1 ==> m.kind.Request?)
    ensures Gathered(g, described, path + [m], Extended(described, Lines(described, path), m),
                     Requests(path) + (if m.kind.Request? then [m.id] else []), Ids(path) + [m.id])
  {
    forall i | 0 <= i < |path| ensures path[i].id != m.id {
      assert Ids(path)[i] == path[i].id;
    }
    Longer(g, path, m);
    assert (path + [m])[..|path|] == path;
    forall line | Straight(g, line) ensures path + [m] <= line {
      Follows(g, path, line);
    }
    assert Ids(path + [m]) == Ids(path) + [m.id];
  }

  function Position(ids: seq<string>, id: string): (r: Option<nat>)
    ensures r.Some? ==> r.value < |ids| && ids[r.value] == id
    ensures r.None? <==> id !in ids
  {
    if ids == [] then None
    else if ids[0] == id then Some(0)
    else
      var rest := Position(ids[1..], id);
      if rest.Some? then Some(rest.value + 1) else None
  }

  ghost predicate Distinct(ids: seq<string>) {
    forall i, j | 0 <= i < j < |ids| :: ids[i] != ids[j]
  }

  lemma {:induction false} RequestsAreOf(path: seq<Node>)
    requires DistinctIds(path)
    ensures Distinct(Requests(path))
    ensures forall id | id in Requests(path) :: exists n :: n in path && n.id == id && n.kind.Request?
  {
    if path != [] {
      var front, last := path[..|path| - 1], path[|path| - 1];
      RequestsAreOf(front);
      forall i | 0 <= i < |Requests(front)| ensures Requests(front)[i] != last.id {
        assert Requests(front)[i] in Requests(front);
        var n :| n in front && n.id == Requests(front)[i];
        var k :| 0 <= k < |front| && front[k] == n;
        assert path[k].id != path[|path| - 1].id;
      }
      forall id | id in Requests(path) ensures exists n :: n in path && n.id == id && n.kind.Request? {
        if id in Requests(front) {
          var n :| n in front && n.id == id && n.kind.Request?;
          assert n in path;
        } else {
          assert last in path;
        }
      }
    }
  }

  /** What the wires carry, put with the request each comes from; nothing when one is not a forward wire. */
  method Wire(lines0: seq<Line>, requests: seq<string>, edges: seq<Edge>) returns (r: Option<seq<Line>>)
    requires |lines0| == |requests| && Distinct(requests)
    requires forall k | 0 <= k < |lines0| :: lines0[k].extract == []
    ensures r.Some? <==> AllForward(requests, edges)
    ensures r.Some? ==> r.value == WithExtracts(lines0, requests, edges)
  {
    var lines := lines0;
    for i := 0 to |edges|
      invariant AllForward(requests, edges[..i])
      invariant |lines| == |requests|
      invariant forall k | 0 <= k < |lines| :: lines[k] == lines0[k].(extract := Extracts(edges[..i], requests[k]))
    {
      var wire := edges[i];
      assert edges[..i + 1][..i] == edges[..i];
      if !Control(wire) {
        var from, to := Position(requests, wire.from), Position(requests, wire.to);
        if from.None? || to.None? || VarName(wire).None? || ExtractPath(wire.path).None? {
          assert !Forward(requests, wire);
          return None;
        }
        if to.value <= from.value {
          assert !Forward(requests, wire);
          return None;
        }
        var pair := (VarName(wire).value, ExtractPath(wire.path).value);
        var line := lines[from.value];
        if pair !in line.extract {
          lines := lines[from.value := line.(extract := line.extract + [pair])];
        }
      }
    }
    assert edges[..|edges|] == edges;
    return Some(lines);
  }

  lemma {:induction false} NothingExtractedYet(described: map<string, Info>, path: seq<Node>)
    ensures forall k | 0 <= k < |Lines(described, path)| :: Lines(described, path)[k].extract == []
  {
    if |path| > 1 {
      NothingExtractedYet(described, path[..|path| - 1]);
    }
  }

  /** The steps of a flow when it is a line: found exactly when some path makes it one, and read back from it. */
  method Linear(g: Flow, described: map<string, Info>) returns (r: Option<seq<Line>>)
    ensures r == Reading(g, described)
  {
    Begun(g, described);
    var starts := Starts(g.nodes);
    if |starts| != 1 {
      return None;
    }
    var at := starts[0];
    var lines, requests, chain := [], [], [at.id];
    ghost var path := starts;
    WalkFits(g, path);
    while true
      invariant Gathered(g, described, path, lines, requests, chain)
      invariant at == path[|path| - 1] && |path| <= |g.nodes|
      invariant lines == [] <==> |path| == 1
      decreases |g.nodes| - |path|
    {
      var next := NextOf(g, at);
      if next.Astray? {
        NoLine(g, path, next);
        return None;
      }
      if next.Stop? {
        break;
      }
      var target := next.target;
      if target.id in chain || !Sound(target) || (lines == [] && !target.kind.Request?) {
        NoLine(g, path, next);
        return None;
      }
      Onwards(g, described, path, target);
      lines := Extended(described, lines, target);
      if target.kind.Request? {
        requests := requests + [target.id];
      }
      chain, at := chain + [target.id], target;
      path := path + [target];
      WalkFits(g, path);
    }
    LinesFit(g, described, path);
    RequestsAreOf(path);
    NothingExtractedYet(described, path);
    if (exists n | n in g.nodes :: n.id !in chain && !n.kind.Display?) || lines == [] {
      NoLine(g, path, Stop);
      return None;
    }
    r := Wire(lines, requests, g.edges);
    if r.Some? {
      ReadingIs(g, described, path);
    } else {
      NoLine(g, path, Stop);
    }
  }
}
