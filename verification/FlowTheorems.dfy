/** What reading a flow back promises: the lines are the path, a drawn line reads back as its steps, and the order in
    which nodes and edges are listed does not matter. */
module FlowTheorems {
  import opened Wrappers
  import opened FlowSteps

  // ---- Flattened, the lines are the path ----

  datatype Item = Call(line: Line) | Check(text: string)

  function ItemOf(described: map<string, Info>, n: Node): Item {
    if n.kind.Request? then Call(LineOf(described, n))
    else Check(if EXPECT <= n.name then n.name[|EXPECT|..] else n.name)
  }

  function ItemsOf(described: map<string, Info>, nodes: seq<Node>): (r: seq<Item>) {
    seq(|nodes|, i requires 0 <= i < |nodes| => ItemOf(described, nodes[i]))
  }

  function Checks(texts: seq<string>): (r: seq<Item>) {
    seq(|texts|, i requires 0 <= i < |texts| => Check(texts[i]))
  }

  /** Each line, bare, and then its checks. */
  function Flat(lines: seq<Line>): seq<Item> {
    if lines == [] then []
    else
      var last := lines[|lines| - 1];
      Flat(lines[..|lines| - 1]) + [Call(last.(extract := [], expects := []))] + Checks(last.expects)
  }

  lemma ExtendedFlat(described: map<string, Info>, lines: seq<Line>, n: Node)
    requires Sound(n) && (lines == [] ==> n.kind.Request?)
    ensures Extended(described, lines, n) != []
    ensures Flat(Extended(described, lines, n)) == Flat(lines) + [ItemOf(described, n)]
  {
    var after := Extended(described, lines, n);
    if n.kind.Request? {
      assert after[..|after| - 1] == lines;
      assert LineOf(described, n).(extract := [], expects := []) == LineOf(described, n);
    } else {
      var k := |lines| - 1;
      var text := n.name[|EXPECT|..];
      assert after[..k] == lines[..k];
      assert Checks(lines[k].expects + [text]) == Checks(lines[k].expects) + [Check(text)];
    }
  }

  /** The lines, flattened, are the path after its start: every node once, in order. */
  lemma LinesAreThePath(g: Flow, described: map<string, Info>, path: seq<Node>)
    requires Walk(g, path)
    ensures Flat(Lines(described, path)) == ItemsOf(described, path[1..])
    ensures Lines(described, path) == [] <==> |path| == 1
  {
    FlatLines(described, path);
  }

  lemma {:induction false} FlatLines(described: map<string, Info>, path: seq<Node>)
    requires |path| > 0 && (forall i | 0 < i < |path| :: Sound(path[i])) && (|path| > 1 ==> path[1].kind.Request?)
    ensures Flat(Lines(described, path)) == ItemsOf(described, path[1..])
    ensures Lines(described, path) == [] <==> |path| == 1
  {
    if |path| > 1 {
      var front, n := path[..|path| - 1], path[|path| - 1];
      FlatLines(described, front);
      FlatOfLast(described, Lines(described, front), front[1..], n);
      FrontAndLast(path);
    }
  }

  lemma FrontAndLast(path: seq<Node>)
    requires |path| > 1
    ensures path[..|path| - 1][1..] + [path[|path| - 1]] == path[1..]
  {
  }

  lemma FlatOfLast(described: map<string, Info>, lines: seq<Line>, nodes: seq<Node>, n: Node)
    requires Sound(n) && (lines == [] ==> n.kind.Request?)
    requires Flat(lines) == ItemsOf(described, nodes)
    ensures Flat(Extended(described, lines, n)) == ItemsOf(described, nodes + [n])
    ensures Extended(described, lines, n) != []
  {
    ExtendedFlat(described, lines, n);
    ItemsOfLast(described, nodes, n);
  }

  lemma ItemsOfLast(described: map<string, Info>, nodes: seq<Node>, n: Node)
    ensures ItemsOf(described, nodes + [n]) == ItemsOf(described, nodes) + [ItemOf(described, n)]
  {
  }

  /** What a line extracts is what the wires from its request carry, each pair once. */
  lemma {:induction false} ExtractsAre(edges: seq<Edge>, id: string)
    ensures forall i, j | 0 <= i < j < |Extracts(edges, id)| :: Extracts(edges, id)[i] != Extracts(edges, id)[j]
    ensures forall p :: p in Extracts(edges, id) <==> Carried(edges, id, p)
  {
    if edges != [] {
      var front, e := edges[..|edges| - 1], edges[|edges| - 1];
      ExtractsAre(front, id);
      forall p ensures p in Extracts(edges, id) <==> Carried(edges, id, p) {
        assert Carried(edges, id, p) <==> Carried(front, id, p) || (!Control(e) && e.from == id && Pair(e) == Some(p));
      }
    }
  }

  ghost predicate Carried(edges: seq<Edge>, id: string, p: (string, string)) {
    exists e :: e in edges && !Control(e) && e.from == id && Pair(e) == Some(p)
  }

  // ---- The order of nodes and edges ----

  lemma {:induction false} LookupIs(nodes: seq<Node>, n: Node)
    requires DistinctIds(nodes) && n in nodes
    ensures Lookup(nodes, n.id) == Some(n)
  {
    var m := Lookup(nodes, n.id).value;
    var i :| 0 <= i < |nodes| && nodes[i] == n;
    var j :| 0 <= j < |nodes| && nodes[j] == m;
    assert nodes[i].id == nodes[j].id;
  }

  /** Two flows with the same nodes and edges, listed in any order. */
  ghost predicate SameFlow(g: Flow, h: Flow) {
    && multiset(g.nodes) == multiset(h.nodes) && multiset(g.edges) == multiset(h.edges)
    && DistinctIds(g.nodes) && DistinctIds(h.nodes)
  }

  lemma SameElements<T>(a: seq<T>, b: seq<T>)
    requires multiset(a) == multiset(b)
    ensures forall x :: x in a <==> x in b
  {
    forall x ensures x in a <==> x in b {
      assert x in a <==> x in multiset(a);
      assert x in b <==> x in multiset(b);
    }
  }

  lemma SameLookup(g: Flow, h: Flow, id: string)
    requires SameFlow(g, h)
    ensures Lookup(g.nodes, id) == Lookup(h.nodes, id)
  {
    SameElements(g.nodes, h.nodes);
    var found := Lookup(g.nodes, id);
    if found.Some? {
      LookupIs(h.nodes, found.value);
    }
  }

  lemma {:induction false} OnwardCounts(nodes: seq<Node>, edges: seq<Edge>, id: string, e: Edge)
    ensures multiset(Onward(nodes, edges, id))[e] == if IsOnward(nodes, e, id) then multiset(edges)[e] else 0
  {
    if edges != [] {
      OnwardCounts(nodes, edges[..|edges| - 1], id, e);
      assert edges == edges[..|edges| - 1] + [edges[|edges| - 1]];
    }
  }

  lemma SameOnward(g: Flow, h: Flow, id: string)
    requires SameFlow(g, h)
    ensures multiset(Onward(g.nodes, g.edges, id)) == multiset(Onward(h.nodes, h.edges, id))
  {
    forall e ensures multiset(Onward(g.nodes, g.edges, id))[e] == multiset(Onward(h.nodes, h.edges, id))[e] {
      OnwardCounts(g.nodes, g.edges, id, e);
      OnwardCounts(h.nodes, h.edges, id, e);
      SameLookup(g, h, e.to);
    }
  }

  lemma SameLength<T>(a: seq<T>, b: seq<T>)
    requires multiset(a) == multiset(b)
    ensures |a| == |b|
    ensures |a| == 1 ==> a == b
  {
    assert |multiset(a)| == |a| && |multiset(b)| == |b|;
    if |a| == 1 {
      assert a[0] in multiset(b);
      assert a == [a[0]] && b == [b[0]];
    }
  }

  lemma SameStep(g: Flow, h: Flow, n: Node)
    requires SameFlow(g, h)
    ensures LeavesWell(g, n) ==> LeavesWell(h, n)
    ensures forall m :: LeadsTo(g, n, m) ==> LeadsTo(h, n, m)
    ensures Onward(g.nodes, g.edges, n.id) == [] ==> Onward(h.nodes, h.edges, n.id) == []
  {
    SameOnward(g, h, n.id);
    SameLength(Onward(g.nodes, g.edges, n.id), Onward(h.nodes, h.edges, n.id));
    SameElements(g.edges, h.edges);
    forall e | e in h.edges && LeavesWell(g, n) ensures Leaves(h.nodes, n, e) {
      assert Leaves(g.nodes, n, e);
      SameLookup(g, h, e.to);
    }
    forall m | LeadsTo(g, n, m) ensures LeadsTo(h, n, m) {
      SameLookup(g, h, Onward(g.nodes, g.edges, n.id)[0].to);
    }
  }

  lemma {:induction false} StartsCount(nodes: seq<Node>, n: Node)
    ensures multiset(Starts(nodes))[n] == if n.kind.Start? then multiset(nodes)[n] else 0
  {
    if nodes != [] {
      StartsCount(nodes[1..], n);
      assert nodes == [nodes[0]] + nodes[1..];
    }
  }

  lemma SameStarts(g: Flow, h: Flow)
    requires SameFlow(g, h)
    ensures |Starts(g.nodes)| == 1 ==> Starts(g.nodes) == Starts(h.nodes)
  {
    forall n ensures multiset(Starts(g.nodes))[n] == multiset(Starts(h.nodes))[n] {
      StartsCount(g.nodes, n);
      StartsCount(h.nodes, n);
    }
    SameLength(Starts(g.nodes), Starts(h.nodes));
  }

  lemma SameWalk(g: Flow, h: Flow, path: seq<Node>)
    requires SameFlow(g, h) && Walk(g, path)
    ensures Walk(h, path)
  {
    SameStarts(g, h);
    forall i, j | 0 <= i && j == i + 1 < |path| ensures Goes(h, path[i], path[j]) {
      assert Goes(g, path[i], path[j]);
      SameStep(g, h, path[i]);
    }
  }

  lemma SameStraight(g: Flow, h: Flow, path: seq<Node>)
    requires SameFlow(g, h) && Straight(g, path)
    ensures Straight(h, path)
  {
    SameWalk(g, h, path);
    SameStep(g, h, path[|path| - 1]);
    SameElements(g.nodes, h.nodes);
    SameElements(g.edges, h.edges);
  }

  /** Two readings that differ at most in the order of what each line extracts. */
  ghost predicate SameLines(a: seq<Line>, b: seq<Line>) {
    |a| == |b| && forall k | 0 <= k < |a| ::
      a[k].(extract := []) == b[k].(extract := []) && multiset(a[k].extract) == multiset(b[k].extract)
  }

  lemma SameExtracts(g: Flow, h: Flow, id: string)
    requires SameFlow(g, h)
    ensures multiset(Extracts(g.edges, id)) == multiset(Extracts(h.edges, id))
  {
    ExtractsAre(g.edges, id);
    ExtractsAre(h.edges, id);
    SameElements(g.edges, h.edges);
    var a, b := Extracts(g.edges, id), Extracts(h.edges, id);
    forall p ensures multiset(a)[p] == multiset(b)[p] {
      OnceEach(a, p);
      OnceEach(b, p);
      assert Carried(g.edges, id, p) <==> Carried(h.edges, id, p);
    }
  }

  lemma {:induction false} OnceEach<T>(s: seq<T>, x: T)
    requires forall i, j | 0 <= i < j < |s| :: s[i] != s[j]
    ensures multiset(s)[x] == if x in s then 1 else 0
  {
    if s != [] {
      OnceEach(s[1..], x);
      assert s == [s[0]] + s[1..];
      assert s[0] !in s[1..];
    }
  }

  lemma SameReadBack(g: Flow, h: Flow, described: map<string, Info>, path: seq<Node>)
    requires SameFlow(g, h) && |Lines(described, path)| == |Requests(path)|
    ensures SameLines(ReadBack(g, described, path), ReadBack(h, described, path))
  {
    var a, b := ReadBack(g, described, path), ReadBack(h, described, path);
    forall k | 0 <= k < |a|
      ensures a[k].(extract := []) == b[k].(extract := []) && multiset(a[k].extract) == multiset(b[k].extract)
    {
      SameExtracts(g, h, Requests(path)[k]);
    }
  }

  /** The order in which nodes and edges are listed changes nothing but the order of extracts. */
  lemma OrderDoesNotMatter(g: Flow, h: Flow, described: map<string, Info>)
    requires SameFlow(g, h)
    ensures Reading(g, described).Some? <==> Reading(h, described).Some?
    ensures Reading(g, described).Some? ==> SameLines(Reading(g, described).value, Reading(h, described).value)
  {
    if path :| Straight(g, path) {
      SameStraight(g, h, path);
      ReadingIs(g, described, path);
      ReadingIs(h, described, path);
      SameReadBack(g, h, described, path);
    } else if path :| Straight(h, path) {
      SameStraight(h, g, path);
    }
  }

  // ---- A drawn line reads back ----

  /** A line as it is drawn: the path with an edge from each node to the next by its success port, display nodes with
      any edges to them, and wires. */
  function Drawn(path: seq<Node>, displays: seq<Node>, shown: seq<Edge>, wires: seq<Edge>): (g: Flow) {
    Flow(path + displays, Chain(path) + shown + wires)
  }

  function Arrow(n: Node, m: Node): Edge {
    Edge(n.id, (if PortOf(n.kind).Some? then PortOf(n.kind).value else "out"), m.id, Absent, [])
  }

  function Chain(path: seq<Node>): (r: seq<Edge>) {
    if path == [] then [] else seq(|path| - 1, i requires 0 <= i < |path| - 1 => Arrow(path[i], path[i + 1]))
  }

  ghost predicate CanBeDrawn(path: seq<Node>, displays: seq<Node>, shown: seq<Edge>, wires: seq<Edge>) {
    && |path| > 1 && path[0].kind.Start? && path[1].kind.Request?
    && (forall i | 0 < i < |path| :: Sound(path[i]))
    && DistinctIds(path + displays)
    && (forall n | n in displays :: n.kind.Display?)
    && (forall e | e in shown :: Control(e) && exists n :: n in displays && n.id == e.to)
    && (forall e | e in wires :: !Control(e) && Forward(Requests(path), e))
  }

  lemma {:induction false} OnwardOfBoth(nodes: seq<Node>, a: seq<Edge>, b: seq<Edge>, id: string)
    ensures Onward(nodes, a + b, id) == Onward(nodes, a, id) + Onward(nodes, b, id)
  {
    if b == [] {
      assert a + b == a;
    } else {
      assert (a + b)[..|a + b| - 1] == a + b[..|b| - 1];
      OnwardOfBoth(nodes, a, b[..|b| - 1], id);
    }
  }

  lemma {:induction false} NotOnward(nodes: seq<Node>, edges: seq<Edge>, id: string)
    requires forall e | e in edges :: !IsOnward(nodes, e, id)
    ensures Onward(nodes, edges, id) == []
  {
    if edges != [] {
      NotOnward(nodes, edges[..|edges| - 1], id);
    }
  }

  lemma {:induction false} OnwardAt(nodes: seq<Node>, edges: seq<Edge>, id: string, i: nat)
    requires forall k: nat | k < |edges| :: IsOnward(nodes, edges[k], id) <==> k == i
    ensures Onward(nodes, edges, id) == if i < |edges| then [edges[i]] else []
  {
    if edges != [] {
      var front := edges[..|edges| - 1];
      if i < |front| {
        OnwardAt(nodes, front, id, i);
      } else {
        NotOnward(nodes, front, id);
      }
    }
  }

  ghost predicate Shows(nodes: seq<Node>, n: Node) {
    Lookup(nodes, n.id) == Some(n) && !n.kind.Display?
  }

  lemma ArrowGoesOn(nodes: seq<Node>, n: Node, m: Node, id: string)
    requires Shows(nodes, m)
    ensures IsOnward(nodes, Arrow(n, m), id) <==> n.id == id
  {
  }

  lemma SameId(path: seq<Node>, k: nat, i: nat)
    requires DistinctIds(path) && k < |path| && i < |path|
    ensures path[k].id == path[i].id <==> k == i
  {
  }

  /** From each node of the chain there is one arrow, to the next. */
  lemma OneArrow(nodes: seq<Node>, path: seq<Node>, i: nat)
    requires DistinctIds(path) && i < |path|
    requires forall k | 0 <= k < |path| :: Shows(nodes, path[k])
    ensures Onward(nodes, Chain(path), path[i].id) == if i + 1 < |path| then [Arrow(path[i], path[i + 1])] else []
  {
    forall k: nat | k < |path| - 1 ensures ArrowFrom(nodes, path, k, i) {
      ChainGoesOn(nodes, path, k, i);
    }
    ArrowsFrom(nodes, path, i);
  }

  ghost predicate ArrowFrom(nodes: seq<Node>, path: seq<Node>, k: nat, i: nat)
    requires k < |path| - 1 && i < |path|
  {
    IsOnward(nodes, Chain(path)[k], path[i].id) <==> k == i
  }

  lemma ArrowsFrom(nodes: seq<Node>, path: seq<Node>, i: nat)
    requires i < |path| && forall k: nat | k < |path| - 1 :: ArrowFrom(nodes, path, k, i)
    ensures Onward(nodes, Chain(path), path[i].id) == if i + 1 < |path| then [Arrow(path[i], path[i + 1])] else []
  {
    var id, chain := path[i].id, Chain(path);
    forall k: nat | k < |chain| ensures IsOnward(nodes, chain[k], id) <==> k == i {
      assert ArrowFrom(nodes, path, k, i);
    }
    OnwardAt(nodes, chain, id, i);
  }

  lemma ChainGoesOn(nodes: seq<Node>, path: seq<Node>, k: nat, i: nat)
    requires DistinctIds(path) && i < |path| && k < |path| - 1
    requires Shows(nodes, path[k + 1])
    ensures ArrowFrom(nodes, path, k, i)
  {
    SameId(path, k, i);
    ChainAt(path, k);
    ArrowOf(nodes, Chain(path)[k], path, k, i);
  }

  lemma ChainAt(path: seq<Node>, k: nat)
    requires k < |path| - 1
    ensures Chain(path)[k] == Arrow(path[k], path[k + 1])
  {
  }

  lemma ArrowOf(nodes: seq<Node>, e: Edge, path: seq<Node>, k: nat, i: nat)
    requires i < |path| && k < |path| - 1 && e == Arrow(path[k], path[k + 1])
    requires path[k].id == path[i].id <==> k == i
    requires Shows(nodes, path[k + 1])
    ensures IsOnward(nodes, e, path[i].id) <==> k == i
  {
    ArrowGoesOn(nodes, path[k], path[k + 1], path[i].id);
  }

  lemma DrawnLookup(path: seq<Node>, displays: seq<Node>, n: Node)
    requires DistinctIds(path + displays) && n in path + displays
    ensures Lookup(path + displays, n.id) == Some(n)
  {
    LookupIs(path + displays, n);
  }

  lemma {:induction false} StartsOfOne(nodes: seq<Node>)
    requires forall n | n in nodes :: !n.kind.Start?
    ensures Starts(nodes) == []
  {
    if nodes != [] {
      StartsOfOne(nodes[1..]);
    }
  }

  /** Every edge of a drawn line leaves well. */
  lemma DrawnLeaves(path: seq<Node>, displays: seq<Node>, shown: seq<Edge>, wires: seq<Edge>, i: nat)
    requires CanBeDrawn(path, displays, shown, wires) && i < |path|
    ensures LeavesWell(Drawn(path, displays, shown, wires), path[i])
  {
    var nodes, n := path + displays, path[i];
    ChainLeaves(path, displays, i);
    forall e | e in shown ensures Leaves(nodes, n, e) {
      ShownLeaves(path, displays, n, e);
    }
    AllLeaveBoth(nodes, Chain(path), shown, n);
    WiresLeave(nodes, wires, n);
    AllLeaveBoth(nodes, Chain(path) + shown, wires, n);
    PortOfSound(path, i);
  }

  lemma PortOfSound(path: seq<Node>, i: nat)
    requires i < |path| && path[0].kind.Start? && forall i | 0 < i < |path| :: Sound(path[i])
    ensures PortOf(path[i].kind).Some?
  {
  }

  lemma AllLeaveBoth(nodes: seq<Node>, a: seq<Edge>, b: seq<Edge>, n: Node)
    requires AllLeave(nodes, a, n) && AllLeave(nodes, b, n)
    ensures AllLeave(nodes, a + b, n)
  {
  }

  lemma WiresLeave(nodes: seq<Node>, wires: seq<Edge>, n: Node)
    requires forall e | e in wires :: !Control(e)
    ensures AllLeave(nodes, wires, n)
  {
  }

  lemma ChainLeaves(path: seq<Node>, displays: seq<Node>, i: nat)
    requires DistinctIds(path + displays) && i < |path|
    requires path[0].kind.Start? && forall i | 0 < i < |path| :: Sound(path[i])
    ensures AllLeave(path + displays, Chain(path), path[i])
  {
    forall e | e in Chain(path) ensures Leaves(path + displays, path[i], e) {
      var k :| 0 <= k < |Chain(path)| && Chain(path)[k] == e;
      PortOfSound(path, i);
      ChainAt(path, k);
      ArrowLeaves(path, displays, k, i);
    }
  }

  lemma ShownLeaves(path: seq<Node>, displays: seq<Node>, n: Node, e: Edge)
    requires DistinctIds(path + displays) && forall d | d in displays :: d.kind.Display?
    requires exists d :: d in displays && d.id == e.to
    ensures Leaves(path + displays, n, e)
  {
    var d :| d in displays && d.id == e.to;
    DrawnLookup(path, displays, d);
  }

  lemma ArrowLeaves(path: seq<Node>, displays: seq<Node>, k: nat, i: nat)
    requires DistinctIds(path + displays) && k + 1 < |path| && i < |path|
    requires PortOf(path[i].kind).Some?
    ensures Leaves(path + displays, path[i], Arrow(path[k], path[k + 1]))
  {
    var nodes := path + displays;
    DrawnLookup(path, displays, path[k + 1]);
    assert nodes[k] == path[k] && nodes[i] == path[i];
    SameId(nodes, k, i);
  }

  lemma ShownIsNotOnward(path: seq<Node>, displays: seq<Node>, shown: seq<Edge>, id: string)
    requires DistinctIds(path + displays) && forall n | n in displays :: n.kind.Display?
    requires forall e | e in shown :: exists n :: n in displays && n.id == e.to
    ensures Onward(path + displays, shown, id) == []
  {
    forall e | e in shown ensures !IsOnward(path + displays, e, id) {
      var n :| n in displays && n.id == e.to;
      DrawnLookup(path, displays, n);
    }
    NotOnward(path + displays, shown, id);
  }

  lemma DrawnOnward(path: seq<Node>, displays: seq<Node>, shown: seq<Edge>, wires: seq<Edge>, i: nat)
    requires CanBeDrawn(path, displays, shown, wires) && i < |path|
    ensures var g := Drawn(path, displays, shown, wires);
            Onward(g.nodes, g.edges, path[i].id) == if i + 1 < |path| then [Arrow(path[i], path[i + 1])] else []
  {
    var nodes := path + displays;
    ShownIsNotOnward(path, displays, shown, path[i].id);
    ChainAlone(nodes, Chain(path), shown, wires, path[i].id);
    PathIds(path, displays);
    PathShows(path, displays);
    OneArrow(nodes, path, i);
  }

  lemma ChainAlone(nodes: seq<Node>, chain: seq<Edge>, shown: seq<Edge>, wires: seq<Edge>, id: string)
    requires Onward(nodes, shown, id) == [] && forall e | e in wires :: !Control(e)
    ensures Onward(nodes, chain + shown + wires, id) == Onward(nodes, chain, id)
  {
    OnwardOfBoth(nodes, chain + shown, wires, id);
    OnwardOfBoth(nodes, chain, shown, id);
    NotOnward(nodes, wires, id);
  }

  lemma PathShows(path: seq<Node>, displays: seq<Node>)
    requires DistinctIds(path + displays) && |path| > 0 && path[0].kind.Start?
    requires forall i | 0 < i < |path| :: Sound(path[i])
    ensures forall k | 0 <= k < |path| :: Shows(path + displays, path[k])
  {
    forall k | 0 <= k < |path| ensures Shows(path + displays, path[k]) {
      DrawnLookup(path, displays, path[k]);
    }
  }

  lemma DrawnGoes(path: seq<Node>, displays: seq<Node>, shown: seq<Edge>, wires: seq<Edge>, i: nat)
    requires CanBeDrawn(path, displays, shown, wires) && i + 1 < |path|
    ensures Goes(Drawn(path, displays, shown, wires), path[i], path[i + 1])
  {
    DrawnLeaves(path, displays, shown, wires, i);
    DrawnOnward(path, displays, shown, wires, i);
    DrawnLookup(path, displays, path[i + 1]);
  }

  lemma DrawnWalks(path: seq<Node>, displays: seq<Node>, shown: seq<Edge>, wires: seq<Edge>)
    requires CanBeDrawn(path, displays, shown, wires)
    ensures Walk(Drawn(path, displays, shown, wires), path)
  {
    var g := Drawn(path, displays, shown, wires);
    PathIds(path, displays);
    forall i, j | 0 <= i && j == i + 1 < |path| ensures Goes(g, path[i], path[j]) {
      DrawnGoes(path, displays, shown, wires, i);
    }
    DrawnStarts(path, displays);
  }

  lemma DrawnStarts(path: seq<Node>, displays: seq<Node>)
    requires |path| > 0 && path[0].kind.Start? && forall i | 0 < i < |path| :: Sound(path[i])
    requires forall n | n in displays :: n.kind.Display?
    ensures Starts(path + displays) == [path[0]]
  {
    assert (path + displays)[1..] == path[1..] + displays;
    StartsOfOne(path[1..] + displays);
  }

  lemma PathIds(path: seq<Node>, displays: seq<Node>)
    requires DistinctIds(path + displays)
    ensures DistinctIds(path)
  {
    forall i, j | 0 <= i < j < |path| ensures path[i].id != path[j].id {
      assert (path + displays)[i] == path[i] && (path + displays)[j] == path[j];
    }
  }

  /** A drawn line is that line. */
  lemma DrawnIsStraight(path: seq<Node>, displays: seq<Node>, shown: seq<Edge>, wires: seq<Edge>)
    requires CanBeDrawn(path, displays, shown, wires)
    ensures Straight(Drawn(path, displays, shown, wires), path)
  {
    DrawnWalks(path, displays, shown, wires);
    DrawnLeaves(path, displays, shown, wires, |path| - 1);
    DrawnOnward(path, displays, shown, wires, |path| - 1);
    DrawnWires(path, shown, wires);
    DrawnCovers(path, displays);
  }

  lemma DrawnCovers(path: seq<Node>, displays: seq<Node>)
    requires forall n | n in displays :: n.kind.Display?
    ensures Covers(path, path + displays)
  {
  }

  lemma DrawnWires(path: seq<Node>, shown: seq<Edge>, wires: seq<Edge>)
    requires forall e | e in shown :: Control(e)
    requires forall e | e in wires :: !Control(e) && Forward(Requests(path), e)
    ensures AllForward(Requests(path), Chain(path) + shown + wires)
  {
  }
}
