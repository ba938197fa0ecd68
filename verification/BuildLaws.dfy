/** The flow drawn for steps, said of its nodes and edges themselves. */
module BuildLaws {
  import opened Wrappers
  import opened FlowSteps
  import opened FlowTheorems
  import opened FlowWriting
  import opened FlowExtracts
  import opened FlowBuilding
  import TimeText
  import FlowLaws

  // ---- The nodes ----

  /** The request node of the step with this number. */
  predicate IsRequestFor(n: Node, d: Draft, number: nat) {
    && n.id == "s" + TimeText.Digits(number) && n.kind == Request && n.name == d.name && n.variables == d.vars
    && n.requestKind == (match d.kind
                         case Requests => "requests"
                         case GraphqlRequests => "graphqlRequests"
                         case SoapRequests => "soapRequests"
                         case GrpcRequests => "grpcRequests")
    && n.failOnStatus == None && n.executeScripts == None && n.executeTests == None && n.ignoreTestErrors == None
    && n.retries == 0
  }

  /** The node of a check: a rule when there is one for it. */
  predicate IsCheckFor(n: Node, e: Expect, number: nat, check: nat) {
    && n.id == "s" + TimeText.Digits(number) + "_x" + TimeText.Digits(check) && n.name == "expect " + e.text
    && (if e.rule then n.kind == Validate && n.rules == 1 else n.kind == Evaluate)
  }

  lemma {:induction false} CheckIsDrawn(n: nat, expects: seq<Expect>, k: nat)
    requires k < |expects|
    ensures IsCheckFor(CheckNodes(NumberedChecks(n, expects))[k], expects[k], n, k + 1)
  {
    var front, checks := expects[..|expects| - 1], NumberedChecks(n, expects);
    if k < |front| {
      CheckIsDrawn(n, front, k);
      assert checks[k] == NumberedChecks(n, front)[k];
    } else {
      CheckIdIs(n, k + 1);
    }
  }

  lemma CheckIdIs(n: nat, m: nat)
    ensures Id(CheckTag(n, m)) == "s" + TimeText.Digits(n) + "_x" + TimeText.Digits(m)
  {
    var a, b := TimeText.Digits(n), TimeText.Digits(m);
    assert ['s'] + a + ['_'] + (['x'] + b) == "s" + a + "_x" + b;
  }

  lemma DisplaysAre(path: seq<Node>)
    requires path != []
    ensures var more := Displays(path);
            if path[|path| - 1].kind.Validate? then
              |more| == 1 && more[0].id == "done" && more[0].kind == Display && more[0].name == "Done"
            else more == []
  {
  }

  lemma NoSteps()
    ensures Path([]) == [START]
  {
    assert Numbered([]) == [];
  }

  lemma StartIs()
    ensures START.id == "start" && START.kind == Start
  {
  }

  /** A flow is drawn from a start, what its steps add to it, and a display after a last check that is a rule. */
  lemma FlowIsDrawn(flow: Flow, drafts: seq<Draft>)
    requires IsBuilt(flow, drafts)
    ensures Path([]) == [START] && START.id == "start" && START.kind == Start
    ensures exists more :: flow.nodes == Path(drafts) + more && EndsWith(more, drafts)
  {
    NoSteps();
    StartIs();
    LastNode(drafts);
    DisplaysAre(Path(drafts));
    var more := Displays(Path(drafts));
    assert flow.nodes == Path(drafts) + more;
  }

  ghost predicate ChecksAreFor(checks: seq<Node>, expects: seq<Expect>, number: nat) {
    |checks| == |expects| && forall k | 0 <= k < |checks| :: IsCheckFor(checks[k], expects[k], number, k + 1)
  }

  /** `Done` after a rule at the end, and nothing after anything else. */
  ghost predicate EndsWith(more: seq<Node>, drafts: seq<Draft>) {
    if drafts != [] && RuleLast(drafts[|drafts| - 1].expects) then
      |more| == 1 && more[0].id == "done" && more[0].kind == Display && more[0].name == "Done"
    else more == []
  }

  predicate RuleLast(expects: seq<Expect>) {
    expects != [] && expects[|expects| - 1].rule
  }

  /** Each step adds its request, and its checks in order. */
  lemma StepIsDrawn(drafts: seq<Draft>, i: nat)
    requires i < |drafts|
    ensures exists n, checks :: Path(drafts[..i + 1]) == Path(drafts[..i]) + [n] + checks
                                && IsRequestFor(n, drafts[i], i + 1)
                                && ChecksAreFor(checks, drafts[i].expects, i + 1)
  {
    StepsTo(drafts, i);
    var step := NumberedStep(i + 1, drafts[i]);
    var n, checks := RequestNode(step), CheckNodes(step.checks);
    forall k | 0 <= k < |checks| ensures IsCheckFor(checks[k], drafts[i].expects[k], i + 1, k + 1) {
      CheckIsDrawn(i + 1, drafts[i].expects, k);
    }
    assert Path(drafts[..i + 1]) == Path(drafts[..i]) + [n] + checks && IsRequestFor(n, drafts[i], i + 1);
  }

  lemma LastNode(drafts: seq<Draft>)
    ensures Path(drafts)[|Path(drafts)| - 1].kind.Validate? <==>
              drafts != [] && RuleLast(drafts[|drafts| - 1].expects)
  {
    if drafts == [] {
      assert Numbered([]) == [];
    } else {
      var i := |drafts| - 1;
      StepIsDrawn(drafts, i);
      assert drafts[..i + 1] == drafts;
      var n, checks :| Path(drafts) == Path(drafts[..i]) + [n] + checks && IsRequestFor(n, drafts[i], i + 1)
                       && ChecksAreFor(checks, drafts[i].expects, i + 1);
      if checks != [] {
        assert IsCheckFor(checks[|checks| - 1], drafts[i].expects[|checks| - 1], i + 1, |checks|);
      }
    }
  }

  // ---- The wires ----

  /** The last of the extracts with this name. */
  ghost predicate IsLastNamed(extract: seq<(string, seq<PathKey>)>, x: nat) {
    x < |extract| && forall y | x < y < |extract| :: extract[y].0 != extract[x].0
  }

  predicate Extracts(d: Draft, name: string) {
    exists y :: 0 <= y < |d.extract| && d.extract[y].0 == name
  }

  /** What step `i` extracts last under a name, when no step after it and before `b` extracts that name. */
  ghost predicate StillHolds(drafts: seq<Draft>, i: nat, x: nat, b: nat) {
    && i < b <= |drafts| && IsLastNamed(drafts[i].extract, x)
    && forall c | i < c < b :: !Extracts(drafts[c], drafts[i].extract[x].0)
  }

  function KnownFrom(extract: (string, seq<PathKey>), id: string): Known {
    Known(extract.0, id, Keys(extract.1))
  }

  lemma {:induction false} WithoutIs(known: seq<Known>, name: string, k: Known)
    ensures k in Without(known, name) <==> k in known && k.name != name
  {
    if known != [] {
      WithoutIs(known[..|known| - 1], name, k);
      assert known == known[..|known| - 1] + [known[|known| - 1]];
    }
  }

  ghost predicate Learns(extract: seq<(string, seq<PathKey>)>, id: string, k: Known) {
    exists x: nat :: IsLastNamed(extract, x) && k == KnownFrom(extract[x], id)
  }

  ghost predicate HasName(extract: seq<(string, seq<PathKey>)>, name: string) {
    exists y :: 0 <= y < |extract| && extract[y].0 == name
  }

  lemma {:induction false} LearntIs(known: seq<Known>, id: string, extract: seq<(string, seq<PathKey>)>, k: Known)
    ensures k in Learnt(known, id, Extracted(extract)) <==>
              (k in known && !HasName(extract, k.name)) || Learns(extract, id, k)
  {
    if extract != [] {
      LearntIs(known, id, extract[..|extract| - 1], k);
      LearntLast(known, id, extract, k);
      LearnsLast(extract, id, k);
    }
  }

  lemma LearntLast(known: seq<Known>, id: string, extract: seq<(string, seq<PathKey>)>, k: Known)
    requires extract != []
    ensures var front, last := extract[..|extract| - 1], extract[|extract| - 1];
            k in Learnt(known, id, Extracted(extract)) <==>
              (k in Learnt(known, id, Extracted(front)) && k.name != last.0) || k == KnownFrom(last, id)
  {
    var front, last := extract[..|extract| - 1], extract[|extract| - 1];
    assert Extracted(extract)[..|front|] == Extracted(front);
    WithoutIs(Learnt(known, id, Extracted(front)), last.0, k);
  }

  lemma LearnsMore(front: seq<(string, seq<PathKey>)>, last: (string, seq<PathKey>), id: string, k: Known)
    ensures Learns(front + [last], id, k) <==> (Learns(front, id, k) && k.name != last.0) || k == KnownFrom(last, id)
    ensures HasName(front + [last], k.name) <==> HasName(front, k.name) || k.name == last.0
  {
    var all := front + [last];
    assert IsLastNamed(all, |front|) && all[|front|] == last;
    forall x: nat | x < |front| ensures IsLastNamed(all, x) <==> IsLastNamed(front, x) && front[x].0 != last.0 {
      assert forall y | 0 <= y < |front| :: all[y] == front[y];
    }
    assert forall x: nat | x < |front| :: all[x] == front[x];
  }

  lemma LearnsLast(extract: seq<(string, seq<PathKey>)>, id: string, k: Known)
    requires extract != []
    ensures var front, last := extract[..|extract| - 1], extract[|extract| - 1];
            && (Learns(extract, id, k) <==> (Learns(front, id, k) && k.name != last.0) || k == KnownFrom(last, id))
            && (HasName(extract, k.name) <==> HasName(front, k.name) || k.name == last.0)
  {
    LearnsMore(extract[..|extract| - 1], extract[|extract| - 1], id, k);
    assert extract[..|extract| - 1] + [extract[|extract| - 1]] == extract;
  }

  // ---- What is known ----

  ghost predicate KnownBefore(drafts: seq<Draft>, b: nat, k: Known) {
    exists i: nat, x: nat ::
      StillHolds(drafts, i, x, b) && k == KnownFrom(drafts[i].extract[x], "s" + TimeText.Digits(i + 1))
  }

  lemma HoldsOneMore(drafts: seq<Draft>, i: nat, x: nat, b: nat)
    requires b < |drafts|
    ensures StillHolds(drafts, i, x, b + 1) <==>
              if i == b then IsLastNamed(drafts[b].extract, x)
              else StillHolds(drafts, i, x, b) && !Extracts(drafts[b], drafts[i].extract[x].0)
  {
  }

  lemma KnownOneMore(drafts: seq<Draft>, b: nat, k: Known)
    requires b < |drafts|
    ensures KnownBefore(drafts, b + 1, k) <==>
              || (KnownBefore(drafts, b, k) && !HasName(drafts[b].extract, k.name))
              || Learns(drafts[b].extract, "s" + TimeText.Digits(b + 1), k)
  {
    forall i: nat, x: nat
      ensures StillHolds(drafts, i, x, b + 1) <==>
                if i == b then IsLastNamed(drafts[b].extract, x)
                else StillHolds(drafts, i, x, b) && !Extracts(drafts[b], drafts[i].extract[x].0)
    {
      HoldsOneMore(drafts, i, x, b);
    }
    assert forall name :: Extracts(drafts[b], name) <==> HasName(drafts[b].extract, name);
  }

  lemma {:induction false} KnownIs(drafts: seq<Draft>, b: nat, k: Known)
    requires b <= |drafts|
    ensures k in KnownAfter(Numbered(drafts[..b])) <==> KnownBefore(drafts, b, k)
  {
    if b == 0 {
      assert Numbered([]) == [];
    } else {
      KnownIs(drafts, b - 1, k);
      StepsTo(drafts, b - 1);
      LearntIs(KnownAfter(Numbered(drafts[..b - 1])), Id(RequestTag(b)), drafts[b - 1].extract, k);
      KnownOneMore(drafts, b - 1, k);
    }
  }

  // ---- The wires ----

  /** The wire that carries a known value to the step with this number. */
  predicate IsWireOf(e: Edge, k: Known, number: nat) {
    && e.from == k.from && e.port == "success" && e.to == "s" + TimeText.Digits(number)
    && e.input == Text("var:" + k.name) && e.path == [Key("body")] + k.keys
  }

  lemma WireOfIs(k: Known, number: nat, e: Edge)
    ensures e == WireTo(k, Id(RequestTag(number))) <==> IsWireOf(e, k, number)
  {
  }

  lemma {:induction false} WiresToHas(known: seq<Known>, to: string, e: Edge)
    ensures e in WiresTo(known, to) <==> exists k :: k in known && e == WireTo(k, to)
  {
    if known != [] {
      WiresToHas(known[..|known| - 1], to, e);
      assert forall k :: k in known <==> k in known[..|known| - 1] || k == known[|known| - 1];
    }
  }

  lemma WiresToAre(known: seq<Known>, number: nat, e: Edge)
    ensures e in WiresTo(known, Id(RequestTag(number))) <==> exists k :: k in known && IsWireOf(e, k, number)
  {
    WiresToHas(known, Id(RequestTag(number)), e);
    forall k ensures e == WireTo(k, Id(RequestTag(number))) <==> IsWireOf(e, k, number) {
      WireOfIs(k, number, e);
    }
  }

  /** The wires to step `b`. */
  function WiresAt(drafts: seq<Draft>, b: nat): seq<Edge> {
    if b < |drafts| then WiresTo(KnownAfter(Numbered(drafts[..b])), Id(RequestTag(b + 1))) else []
  }

  lemma WiresOfStep(drafts: seq<Draft>, b: nat)
    requires b < |drafts|
    ensures Wires(Numbered(drafts[..b + 1])) == Wires(Numbered(drafts[..b])) + WiresAt(drafts, b)
  {
    StepsTo(drafts, b);
  }

  lemma WiresOfNone(drafts: seq<Draft>)
    ensures Wires(Numbered(drafts[..0])) == []
  {
    assert Numbered([]) == [];
  }

  /** `parts(0)`, `parts(1)` and so on, one after the other. */
  function Joined<T>(parts: nat -> seq<T>, n: nat): seq<T> {
    if n == 0 then [] else Joined(parts, n - 1) + parts(n - 1)
  }

  lemma {:induction false} InJoined<T>(parts: nat -> seq<T>, n: nat, x: T)
    ensures x in Joined(parts, n) <==> exists b: nat :: b < n && x in parts(b)
  {
    if n > 0 {
      InJoined(parts, n - 1, x);
    }
  }

  lemma {:induction false} WiresAreJoined(drafts: seq<Draft>, n: nat)
    requires n <= |drafts|
    ensures Wires(Numbered(drafts[..n])) == Joined(b => WiresAt(drafts, b), n)
  {
    if n == 0 {
      WiresOfNone(drafts);
    } else {
      WiresAreJoined(drafts, n - 1);
      WiresOfStep(drafts, n - 1);
    }
  }

  lemma {:induction false} ThoseAre(edges: seq<Edge>, e: Edge)
    ensures e in Those(edges, false) <==> e in edges && FlowLaws.IsWire(e)
  {
    if edges != [] {
      ThoseAre(edges[..|edges| - 1], e);
      assert edges == edges[..|edges| - 1] + [edges[|edges| - 1]];
    }
  }

  /** A wire from one step to another, for what the one extracts. */
  predicate IsWireFor(e: Edge, from: nat, extract: (string, seq<PathKey>), to: nat) {
    && e.from == "s" + TimeText.Digits(from) && e.port == "success" && e.to == "s" + TimeText.Digits(to)
    && e.input == Text("var:" + extract.0) && e.path == [Key("body")] + Keys(extract.1)
  }

  lemma WireFor(e: Edge, from: nat, extract: (string, seq<PathKey>), to: nat)
    ensures IsWireFor(e, from, extract, to) <==> IsWireOf(e, KnownFrom(extract, "s" + TimeText.Digits(from)), to)
  {
  }

  lemma WireFrom(drafts: seq<Draft>, b: nat, e: Edge) returns (i: nat, x: nat)
    requires b < |drafts| && e in WiresAt(drafts, b)
    ensures StillHolds(drafts, i, x, b) && IsWireFor(e, i + 1, drafts[i].extract[x], b + 1)
  {
    WiresToAre(KnownAfter(Numbered(drafts[..b])), b + 1, e);
    var k :| k in KnownAfter(Numbered(drafts[..b])) && IsWireOf(e, k, b + 1);
    KnownIs(drafts, b, k);
    i, x :| StillHolds(drafts, i, x, b) && k == KnownFrom(drafts[i].extract[x], "s" + TimeText.Digits(i + 1));
    WireFor(e, i + 1, drafts[i].extract[x], b + 1);
  }

  lemma WireIsIn(known: seq<Known>, k: Known, number: nat, e: Edge)
    requires k in known && IsWireOf(e, k, number)
    ensures e in WiresTo(known, Id(RequestTag(number)))
  {
    WiresToAre(known, number, e);
  }

  lemma IsKnown(drafts: seq<Draft>, i: nat, x: nat, b: nat, k: Known)
    requires StillHolds(drafts, i, x, b) && k == KnownFrom(drafts[i].extract[x], "s" + TimeText.Digits(i + 1))
    ensures k in KnownAfter(Numbered(drafts[..b]))
  {
    assert KnownBefore(drafts, b, k);
    KnownIs(drafts, b, k);
  }

  lemma WireIsThere(drafts: seq<Draft>, i: nat, x: nat, b: nat, e: Edge)
    requires b < |drafts| && StillHolds(drafts, i, x, b) && IsWireFor(e, i + 1, drafts[i].extract[x], b + 1)
    ensures e in WiresAt(drafts, b)
  {
    var k := KnownFrom(drafts[i].extract[x], "s" + TimeText.Digits(i + 1));
    IsKnown(drafts, i, x, b, k);
    WireFor(e, i + 1, drafts[i].extract[x], b + 1);
    WireIsIn(KnownAfter(Numbered(drafts[..b])), k, b + 1, e);
  }

  lemma WiresOfFlow(flow: Flow, drafts: seq<Draft>)
    requires IsBuilt(flow, drafts)
    ensures Those(flow.edges, false) == Wires(Numbered(drafts))
  {
  }

  lemma WiresOfAll(drafts: seq<Draft>, e: Edge)
    ensures e in Wires(Numbered(drafts)) <==> e in Joined(b => WiresAt(drafts, b), |drafts|)
  {
    assert drafts[..|drafts|] == drafts;
    WiresAreJoined(drafts, |drafts|);
  }

  lemma PartIsIn<T>(parts: nat -> seq<T>, n: nat, b: nat, x: T)
    requires b < n && x in parts(b)
    ensures x in Joined(parts, n)
  {
    InJoined(parts, n, x);
  }

  lemma PartOf<T>(parts: nat -> seq<T>, n: nat, x: T) returns (b: nat)
    requires x in Joined(parts, n)
    ensures b < n && x in parts(b)
  {
    InJoined(parts, n, x);
    b :| b < n && x in parts(b);
  }

  ghost predicate IsDrawnWire(drafts: seq<Draft>, e: Edge) {
    exists i: nat, x: nat, b: nat ::
      b < |drafts| && StillHolds(drafts, i, x, b) && IsWireFor(e, i + 1, drafts[i].extract[x], b + 1)
  }

  lemma IsDrawn(drafts: seq<Draft>, e: Edge)
    requires e in Joined(b => WiresAt(drafts, b), |drafts|)
    ensures IsDrawnWire(drafts, e)
  {
    var b := PartOf(b => WiresAt(drafts, b), |drafts|, e);
    var i, x := WireFrom(drafts, b, e);
  }

  lemma DrawnIsThere(drafts: seq<Draft>, i: nat, x: nat, b: nat, e: Edge)
    requires b < |drafts| && StillHolds(drafts, i, x, b) && IsWireFor(e, i + 1, drafts[i].extract[x], b + 1)
    ensures e in Joined(b => WiresAt(drafts, b), |drafts|)
  {
    WireIsThere(drafts, i, x, b, e);
    var parts := b => WiresAt(drafts, b);
    assert parts(b) == WiresAt(drafts, b);
    PartIsIn(parts, |drafts|, b, e);
  }

  lemma DrawnWiresAre(drafts: seq<Draft>, e: Edge)
    ensures e in Wires(Numbered(drafts)) <==> IsDrawnWire(drafts, e)
  {
    WiresOfAll(drafts, e);
    if e in Joined(b => WiresAt(drafts, b), |drafts|) {
      IsDrawn(drafts, e);
    }
    if IsDrawnWire(drafts, e) {
      var i: nat, x: nat, b: nat :|
        b < |drafts| && StillHolds(drafts, i, x, b) && IsWireFor(e, i + 1, drafts[i].extract[x], b + 1);
      DrawnIsThere(drafts, i, x, b, e);
    }
  }

  /** The wires of the flow: each step is wired to what the steps before it extract and no step between extracts
      again, by a variable of that name, and to nothing else. */
  lemma WiresAreDrawn(flow: Flow, drafts: seq<Draft>, e: Edge)
    requires IsBuilt(flow, drafts)
    ensures e in flow.edges && FlowLaws.IsWire(e) <==>
              exists i: nat, x: nat, b: nat :: b < |drafts| && StillHolds(drafts, i, x, b)
                                               && IsWireFor(e, i + 1, drafts[i].extract[x], b + 1)
  {
    WiresOfFlow(flow, drafts);
    ThoseAre(flow.edges, e);
    DrawnWiresAre(drafts, e);
  }
}
