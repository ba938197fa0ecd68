/** Which flows read back as steps, said of their nodes and edges themselves, in both directions. */
module FlowLines {
  import opened Wrappers
  import opened FlowSteps
  import opened FlowTheorems
  import opened FlowLaws

  /** The control edge at `k` goes from one node to another. */
  predicate IsStep(edges: seq<Edge>, k: nat, n: Node, m: Node) {
    k < |edges| && !IsWire(edges[k]) && edges[k].from == n.id && edges[k].to == m.id
  }

  /** Just one control edge does. */
  ghost predicate OneStep(edges: seq<Edge>, n: Node, m: Node) {
    exists k: nat :: IsStep(edges, k, n, m) && forall l: nat | IsStep(edges, l, n, m) :: l == k
  }

  /** A start, a request and then plain requests and written checks; all that is there but the displays. */
  ghost predicate NodesOf(nodes: seq<Node>, path: seq<Node>) {
    && |path| > 1 && path[0].kind.Start? && path[1].kind.Request?
    && (forall i | 0 < i < |path| :: if path[i].kind.Request? then IsPlainRequest(path[i]) else IsWrittenCheck(path[i]))
    && (forall i, j | 0 <= i < j < |path| :: path[i].id != path[j].id)
    && (forall n | n in path :: n in nodes)
    && (forall n | n in nodes && !n.kind.Display? :: n in path)
  }

  /** Where a control edge from the node at `i` may lead: to a display, or to the next node by its port. */
  ghost predicate LeadsOn(nodes: seq<Node>, path: seq<Node>, i: nat, e: Edge)
    requires i < |path|
  {
    exists m :: m in nodes && m.id == e.to
                && (m.kind.Display? || (e.port == GoesOnBy(path[i]) && i + 1 < |path| && m == path[i + 1]))
  }

  /** A wire from a request to a later one, into a variable, from a part of the body. */
  ghost predicate Carries(path: seq<Node>, e: Edge) {
    && (exists i, j :: 0 <= i < j < |path| && path[i].kind.Request? && path[j].kind.Request?
                       && path[i].id == e.from && path[j].id == e.to)
    && !e.input.Absent? && "var:" <= e.input.text
    && e.path != [] && e.path[0] == Key("body") && Neither !in e.path
  }

  ghost predicate IsLine(g: Flow, path: seq<Node>) {
    && NodesOf(g.nodes, path)
    && (forall i: nat, e | i < |path| && e in g.edges && !IsWire(e) && e.from == path[i].id ::
          LeadsOn(g.nodes, path, i, e))
    && (forall i: nat, j | i < |path| - 1 && j == i + 1 :: OneStep(g.edges, path[i], path[j]))
    && (forall e | e in g.edges && IsWire(e) :: Carries(path, e))
  }

  // ---- Edges that go on ----

  lemma {:induction false} NoOnward(nodes: seq<Node>, edges: seq<Edge>, id: string)
    ensures Onward(nodes, edges, id) == [] <==> forall e | e in edges :: !IsOnward(nodes, e, id)
  {
    if edges != [] {
      NoOnward(nodes, edges[..|edges| - 1], id);
      assert edges == edges[..|edges| - 1] + [edges[|edges| - 1]];
    }
  }

  lemma {:induction false} JustOnward(nodes: seq<Node>, edges: seq<Edge>, id: string, k: nat)
    requires k < |edges| && IsOnward(nodes, edges[k], id)
    requires forall l | 0 <= l < |edges| && IsOnward(nodes, edges[l], id) :: l == k
    ensures Onward(nodes, edges, id) == [edges[k]]
  {
    var front := edges[..|edges| - 1];
    assert forall l | 0 <= l < |front| :: front[l] == edges[l];
    if k < |front| {
      JustOnward(nodes, front, id, k);
    } else {
      NoOnward(nodes, front, id);
    }
  }

  /** What leads on, told as an edge that goes on. */
  lemma LeadingIs(nodes: seq<Node>, path: seq<Node>, i: nat, e: Edge)
    requires DistinctIds(nodes) && NodesOf(nodes, path) && i < |path| && !IsWire(e) && e.from == path[i].id
    requires LeadsOn(nodes, path, i, e)
    ensures Leaves(nodes, path[i], e)
    ensures IsOnward(nodes, e, path[i].id) <==> i + 1 < |path| && e.to == path[i + 1].id
  {
    var m :| m in nodes && m.id == e.to
             && (m.kind.Display? || (e.port == GoesOnBy(path[i]) && i + 1 < |path| && m == path[i + 1]));
    LookupIs(nodes, m);
    if i + 1 < |path| {
      assert path[i + 1] in path;
      LookupIs(nodes, path[i + 1]);
    }
  }

  lemma PortIs(n: Node)
    requires n.kind.Start? || n.kind.Request? || n.kind.Validate? || n.kind.Evaluate?
    ensures PortOf(n.kind) == Some(GoesOnBy(n))
  {
  }

  // ---- A line so told is a line ----

  lemma {:induction false} NoStarts(nodes: seq<Node>)
    requires forall n | n in nodes :: !n.kind.Start?
    ensures Starts(nodes) == []
  {
    if nodes != [] {
      NoStarts(nodes[1..]);
    }
  }

  lemma {:induction false} OneStart(nodes: seq<Node>, start: Node)
    requires DistinctIds(nodes) && start in nodes && start.kind.Start?
    requires forall n | n in nodes && n.kind.Start? :: n == start
    ensures Starts(nodes) == [start]
  {
    if nodes[0] == start {
      forall n | n in nodes[1..] ensures !n.kind.Start? {
        var k :| 0 <= k < |nodes[1..]| && nodes[1..][k] == n;
        assert nodes[0].id != nodes[k + 1].id;
      }
      NoStarts(nodes[1..]);
    } else {
      assert nodes == [nodes[0]] + nodes[1..] && nodes[0] in nodes;
      OneStart(nodes[1..], start);
    }
  }

  lemma LineLeaves(g: Flow, path: seq<Node>, i: nat)
    requires DistinctIds(g.nodes) && IsLine(g, path) && i < |path|
    ensures LeavesWell(g, path[i])
    ensures forall e | e in g.edges && IsOnward(g.nodes, e, path[i].id) ::
      i + 1 < |path| && !IsWire(e) && e.from == path[i].id && e.to == path[i + 1].id
  {
    PortIs(path[i]);
    forall e | e in g.edges
      ensures Leaves(g.nodes, path[i], e)
      ensures IsOnward(g.nodes, e, path[i].id) ==> i + 1 < |path| && e.to == path[i + 1].id
    {
      if !IsWire(e) && e.from == path[i].id {
        LeadingIs(g.nodes, path, i, e);
      }
    }
  }

  lemma LineGoes(g: Flow, path: seq<Node>, i: nat)
    requires DistinctIds(g.nodes) && IsLine(g, path) && i + 1 < |path|
    ensures Goes(g, path[i], path[i + 1])
  {
    var n, m := path[i], path[i + 1];
    LineLeaves(g, path, i);
    assert OneStep(g.edges, n, m);
    var k: nat :| IsStep(g.edges, k, n, m) && forall l: nat | IsStep(g.edges, l, n, m) :: l == k;
    assert LeadsOn(g.nodes, path, i, g.edges[k]);
    LeadingIs(g.nodes, path, i, g.edges[k]);
    forall l: nat | l < |g.edges| && IsOnward(g.nodes, g.edges[l], n.id) ensures l == k {
      assert g.edges[l] in g.edges;
      assert IsStep(g.edges, l, n, m);
    }
    JustOnward(g.nodes, g.edges, n.id, k);
    assert m in path;
    LookupIs(g.nodes, m);
  }

  lemma {:induction false} RequestPlaces(path: seq<Node>, i: nat)
    requires i < |path| && path[i].kind.Request?
    ensures path[i].id in Requests(path)
  {
    if i < |path| - 1 {
      RequestPlaces(path[..|path| - 1], i);
    }
  }

  ghost predicate Follow(ids: seq<string>, x: string, y: string) {
    exists a, b :: 0 <= a < b < |ids| && ids[a] == x && ids[b] == y
  }

  lemma FollowInLonger(ids: seq<string>, longer: seq<string>, x: string, y: string)
    requires Follow(ids, x, y) && ids <= longer
    ensures Follow(longer, x, y)
  {
    var a, b :| 0 <= a < b < |ids| && ids[a] == x && ids[b] == y;
    assert longer[a] == x && longer[b] == y;
  }

  lemma {:induction false} RequestsInOrder(path: seq<Node>, i: nat, j: nat)
    requires i < j < |path| && path[i].kind.Request? && path[j].kind.Request?
    ensures Follow(Requests(path), path[i].id, path[j].id)
  {
    var front, ids := path[..|path| - 1], Requests(path);
    if j < |front| {
      RequestsInOrder(front, i, j);
      FollowInLonger(Requests(front), ids, path[i].id, path[j].id);
    } else {
      RequestPlaces(front, i);
      var a :| 0 <= a < |Requests(front)| && Requests(front)[a] == path[i].id;
      assert 0 <= a < |ids| - 1 && ids[a] == path[i].id && ids[|ids| - 1] == path[j].id;
    }
  }

  lemma {:induction false} PartsHaveText(parts: seq<Part>)
    requires Neither !in parts
    ensures PathText(parts).Some?
  {
    if parts != [] {
      PartsHaveText(parts[1..]);
      assert parts[0] in parts && PathText(parts[1..]).Some?;
    }
  }

  lemma WireForward(path: seq<Node>, e: Edge)
    requires Carries(path, e)
    ensures Forward(Requests(path), e)
  {
    var i, j :| 0 <= i < j < |path| && path[i].kind.Request? && path[j].kind.Request?
                && path[i].id == e.from && path[j].id == e.to;
    RequestsInOrder(path, i, j);
    PartsHaveText(e.path[1..]);
    assert VAR == "var:";
  }

  lemma LineStarts(g: Flow, path: seq<Node>)
    requires DistinctIds(g.nodes) && NodesOf(g.nodes, path)
    ensures Starts(g.nodes) == [path[0]]
  {
    assert path[0] in path;
    forall n | n in g.nodes && n.kind.Start? ensures n == path[0] {
      var i :| 0 <= i < |path| && path[i] == n;
    }
    OneStart(g.nodes, path[0]);
  }

  lemma LineEnds(g: Flow, path: seq<Node>)
    requires DistinctIds(g.nodes) && IsLine(g, path)
    ensures Ends(g, path[|path| - 1])
  {
    LineLeaves(g, path, |path| - 1);
    NoOnward(g.nodes, g.edges, path[|path| - 1].id);
  }

  lemma LineWires(g: Flow, path: seq<Node>)
    requires forall e | e in g.edges && IsWire(e) :: Carries(path, e)
    ensures AllForward(Requests(path), g.edges)
  {
    forall e | e in g.edges && !Control(e) ensures Forward(Requests(path), e) {
      WireForward(path, e);
    }
  }

  lemma NodesAreSound(nodes: seq<Node>, path: seq<Node>)
    requires NodesOf(nodes, path)
    ensures Covers(path, nodes)
    ensures forall i | 0 < i < |path| :: Sound(path[i])
  {
    forall i | 0 < i < |path| ensures Sound(path[i]) {
      SoundIs(path[i]);
    }
  }

  lemma LineIsStraight(g: Flow, path: seq<Node>)
    requires DistinctIds(g.nodes) && IsLine(g, path)
    ensures Straight(g, path)
  {
    LineStarts(g, path);
    forall i, j | 0 <= i && j == i + 1 < |path| ensures Goes(g, path[i], path[j]) {
      LineGoes(g, path, i);
    }
    NodesAreSound(g.nodes, path);
    LineEnds(g, path);
    LineWires(g, path);
  }

  // ---- A line is one so told ----

  lemma {:induction false} OrderOfRequests(path: seq<Node>, a: nat, b: nat)
    requires a < b < |Requests(path)|
    ensures exists i, j :: 0 <= i < j < |path| && path[i].kind.Request? && path[j].kind.Request?
                           && path[i].id == Requests(path)[a] && path[j].id == Requests(path)[b]
  {
    var front, ids := path[..|path| - 1], Requests(path);
    if b < |Requests(front)| {
      OrderOfRequests(front, a, b);
      var i, j :| 0 <= i < j < |front| && front[i].kind.Request? && front[j].kind.Request?
                  && front[i].id == Requests(front)[a] && front[j].id == Requests(front)[b];
      assert path[i] == front[i] && path[j] == front[j];
    } else {
      RequestIs(front, ids[a]);
      var i :| 0 <= i < |front| && front[i].id == ids[a] && front[i].kind.Request?;
      assert path[i] == front[i] && path[|path| - 1].id == ids[b];
    }
  }

  lemma ForwardCarries(path: seq<Node>, e: Edge)
    requires Forward(Requests(path), e)
    ensures Carries(path, e)
  {
    var ids := Requests(path);
    var a, b :| 0 <= a < b < |ids| && ids[a] == e.from && ids[b] == e.to;
    OrderOfRequests(path, a, b);
    PairIs(e);
  }

  lemma StraightNodes(g: Flow, path: seq<Node>)
    requires DistinctIds(g.nodes) && Straight(g, path)
    ensures NodesOf(g.nodes, path)
  {
    PathIsOfNodes(g, path);
    assert path[0] in Starts(g.nodes);
    forall i | 0 < i < |path|
      ensures if path[i].kind.Request? then IsPlainRequest(path[i]) else IsWrittenCheck(path[i])
    {
      SoundIs(path[i]);
    }
    forall n | n in g.nodes && !n.kind.Display? ensures n in path {
      var i := OnThePath(g, path, n);
    }
  }

  lemma StraightLeads(g: Flow, path: seq<Node>, i: nat, e: Edge)
    requires DistinctIds(g.nodes) && Straight(g, path) && NodesOf(g.nodes, path)
    requires i < |path| && e in g.edges && !IsWire(e) && e.from == path[i].id
    ensures LeadsOn(g.nodes, path, i, e)
  {
    PathLeavesWell(g, path, i);
    PortIs(path[i]);
    assert Leaves(g.nodes, path[i], e);
    if !Lookup(g.nodes, e.to).value.kind.Display? {
      var k :| 0 <= k < |g.edges| && g.edges[k] == e;
      OnwardHas(g.nodes, g.edges, path[i].id, k);
      StraightGoesOn(g, path, i, e);
    }
  }

  lemma StraightGoesOn(g: Flow, path: seq<Node>, i: nat, e: Edge)
    requires i < |path| && e in Onward(g.nodes, g.edges, path[i].id)
    requires if i + 1 < |path| then Goes(g, path[i], path[i + 1]) else Ends(g, path[i])
    ensures i + 1 < |path| && Lookup(g.nodes, e.to) == Some(path[i + 1])
  {
  }

  lemma {:induction false} OnwardHas(nodes: seq<Node>, edges: seq<Edge>, id: string, k: nat)
    requires k < |edges| && IsOnward(nodes, edges[k], id)
    ensures edges[k] in Onward(nodes, edges, id)
  {
    if k < |edges| - 1 {
      OnwardHas(nodes, edges[..|edges| - 1], id, k);
    }
  }

  lemma StraightSteps(g: Flow, path: seq<Node>, i: nat)
    requires DistinctIds(g.nodes) && Straight(g, path) && NodesOf(g.nodes, path) && i + 1 < |path|
    ensures OneStep(g.edges, path[i], path[i + 1])
  {
    var n, m := path[i], path[i + 1];
    assert Goes(g, n, m);
    var e := Onward(g.nodes, g.edges, n.id)[0];
    assert e in Onward(g.nodes, g.edges, n.id);
    var k: nat :| k < |g.edges| && g.edges[k] == e;
    assert Lookup(g.nodes, e.to).value.id == e.to;
    assert IsStep(g.edges, k, n, m);
    assert m in path;
    LookupIs(g.nodes, m);
    forall l: nat | IsStep(g.edges, l, n, m) ensures l == k {
      if l < k {
        TwoOnward(g.nodes, g.edges, n.id, l, k);
      } else if k < l {
        TwoOnward(g.nodes, g.edges, n.id, k, l);
      }
    }
  }

  lemma StraightIsLine(g: Flow, path: seq<Node>)
    requires DistinctIds(g.nodes) && Straight(g, path)
    ensures IsLine(g, path)
  {
    StraightNodes(g, path);
    forall i: nat, e | i < |path| && e in g.edges && !IsWire(e) && e.from == path[i].id
      ensures LeadsOn(g.nodes, path, i, e)
    {
      StraightLeads(g, path, i, e);
    }
    forall i: nat, j | i < |path| - 1 && j == i + 1 ensures OneStep(g.edges, path[i], path[j]) {
      StraightSteps(g, path, i);
    }
    forall e | e in g.edges && IsWire(e) ensures Carries(path, e) {
      ForwardCarries(path, e);
    }
  }

  /** A flow whose ids are distinct reads back as steps exactly when it is a line: a start, a request and then plain
      requests and written checks, each with one control edge to the next by its port, everything else a display,
      and wires that only carry parts of a request's body to later requests. */
  lemma LinesReadBack(g: Flow, described: map<string, Info>)
    requires DistinctIds(g.nodes)
    ensures Reading(g, described).Some? <==> exists path :: IsLine(g, path)
  {
    forall path ensures IsLine(g, path) <==> Straight(g, path) {
      LineIs(g, path);
    }
  }

  lemma LineIs(g: Flow, path: seq<Node>)
    requires DistinctIds(g.nodes)
    ensures IsLine(g, path) <==> Straight(g, path)
  {
    if IsLine(g, path) {
      LineIsStraight(g, path);
    }
    if Straight(g, path) {
      StraightIsLine(g, path);
    }
  }

  // ---- What a wire carries ----

  /** The path of a wire as text, one key or index after the other. */
  lemma {:induction false} PathGoesOn(parts: seq<Part>, text: string)
    requires Neither !in parts
    ensures PathText([]) == Some("")
    ensures PathText(parts).Some?
    ensures PathText(parts + [Key(text)]) == Some(PathText(parts).value + ("." + text))
    ensures PathText(parts + [Index(text)]) == Some(PathText(parts).value + ("[" + text + "]"))
  {
    PartsHaveText(parts);
    PathAndPart(parts, Key(text), "." + text);
    PathAndPart(parts, Index(text), "[" + text + "]");
  }

  lemma PathOfOne(part: Part, text: string)
    requires part == Key(text) || part == Index(text)
    ensures PathText([part]) == Some(if part.Key? then "." + text else "[" + text + "]")
  {
    assert [part][1..] == [] && PathText([]) == Some("");
    assert "." + text + "" == "." + text && "[" + text + "]" + "" == "[" + text + "]";
  }

  lemma {:induction false} PathAndPart(parts: seq<Part>, part: Part, shown: string)
    requires PathText(parts).Some? && !part.Neither? && Neither !in parts
    requires shown == if part.Key? then "." + part.text else "[" + part.text + "]"
    ensures PathText(parts + [part]) == Some(PathText(parts).value + shown)
  {
    if parts == [] {
      PathOfOne(part, part.text);
      assert [] + [part] == [part] && PathText([]) == Some("") && "" + shown == shown;
    } else {
      assert parts[0] in parts;
      PathAndPart(parts[1..], part, shown);
      assert (parts + [part])[1..] == parts[1..] + [part];
      var rest := PathText(parts[1..]).value;
      match parts[0]
      case Key(text) => assert "." + text + (rest + shown) == ("." + text + rest) + shown;
      case Index(text) => assert "[" + text + "]" + (rest + shown) == ("[" + text + "]" + rest) + shown;
    }
  }

  /** A wire carries its variable's name and that text, or a dot for the whole body. */
  lemma PairOfWire(e: Edge, name: string, parts: seq<Part>)
    requires e.input == Text("var:" + name) && e.path == [Key("body")] + parts && Neither !in parts
    ensures PathText(parts).Some? && (PathText(parts).value == "" <==> parts == [])
    ensures Pair(e) == Some((name, if parts == [] then "." else PathText(parts).value))
  {
    PartsHaveText(parts);
    assert e.path[1..] == parts;
    assert e.input.text[|VAR|..] == name;
    if parts != [] {
      assert parts[0] in parts;
    }
  }
}
