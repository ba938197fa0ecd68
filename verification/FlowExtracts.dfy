/** What steps extract: wired to every later request under its name, and read back from the wires. */
module FlowExtracts {
  import opened Wrappers
  import opened FlowSteps
  import opened FlowTheorems
  import opened FlowReading
  import opened FlowWriting

  // ---- The wires ----

  /** An extracted name: the request it comes from, and the part of its body. */
  datatype Known = Known(name: string, from: string, keys: seq<Part>)

  /** The names known, without one. */
  function Without(known: seq<Known>, name: string): (r: seq<Known>)
    ensures forall k | k in r :: k in known && k.name != name
  {
    if known == [] then []
    else
      var before, last := Without(known[..|known| - 1], name), known[|known| - 1];
      if last.name == name then before else before + [last]
  }

  /** The names known after a request: what it extracts takes the place of what had the name. */
  function Learnt(known: seq<Known>, id: string, extract: seq<Extract>): (r: seq<Known>) {
    if extract == [] then known
    else
      var last := extract[|extract| - 1];
      Without(Learnt(known, id, extract[..|extract| - 1]), last.name) + [Known(last.name, id, last.keys)]
  }

  function KnownAfter(steps: seq<Step>): (r: seq<Known>) {
    if steps == [] then []
    else
      var last := steps[|steps| - 1];
      Learnt(KnownAfter(steps[..|steps| - 1]), last.id, last.extract)
  }

  function WireTo(known: Known, to: string): Edge {
    Edge(known.from, "success", to, Text(VAR + known.name), [Key("body")] + known.keys)
  }

  function WiresTo(known: seq<Known>, to: string): (r: seq<Edge>) {
    if known == [] then [] else WiresTo(known[..|known| - 1], to) + [WireTo(known[|known| - 1], to)]
  }

  /** Each request is wired to every name known before it. */
  function Wires(steps: seq<Step>): (r: seq<Edge>) {
    if steps == [] then []
    else Wires(steps[..|steps| - 1]) + WiresTo(KnownAfter(steps[..|steps| - 1]), steps[|steps| - 1].id)
  }

  // ---- What comes back ----

  /** A name and the text of its path. */
  function PairOf(name: string, keys: seq<Part>): (string, string) {
    var path := ExtractPath([Key("body")] + keys);
    (name, if path.Some? then path.value else "")
  }

  function Pairs(extract: seq<Extract>): (r: seq<(string, string)>)
    ensures |r| == |extract|
  {
    if extract == [] then []
    else
      var last := extract[|extract| - 1];
      Pairs(extract[..|extract| - 1]) + [PairOf(last.name, last.keys)]
  }

  predicate Names(extract: seq<Extract>, name: string) {
    extract != [] && (extract[|extract| - 1].name == name || Names(extract[..|extract| - 1], name))
  }

  /** No name is there twice. */
  predicate DistinctNames(extract: seq<Extract>) {
    extract != [] ==>
      var front := extract[..|extract| - 1];
      DistinctNames(front) && !Names(front, extract[|extract| - 1].name)
  }

  function WithoutName(extract: seq<Extract>, name: string): (r: seq<Extract>) {
    if extract == [] then []
    else
      var before, last := WithoutName(extract[..|extract| - 1], name), extract[|extract| - 1];
      if last.name == name then before else before + [last]
  }

  /** The last of each name. */
  function Kept(extract: seq<Extract>): (r: seq<Extract>) {
    if extract == [] then []
    else
      var last := extract[|extract| - 1];
      WithoutName(Kept(extract[..|extract| - 1]), last.name) + [last]
  }

  lemma NamesOfOneMore(extract: seq<Extract>, e: Extract, name: string)
    ensures Names(extract + [e], name) <==> e.name == name || Names(extract, name)
    ensures DistinctNames(extract + [e]) <==> DistinctNames(extract) && !Names(extract, e.name)
  {
    assert (extract + [e])[..|extract|] == extract;
  }

  lemma {:induction false} WithoutNameIs(extract: seq<Extract>, name: string, other: string)
    ensures !Names(extract, name) ==> WithoutName(extract, name) == extract
    ensures |WithoutName(extract, name)| <= |extract| - if Names(extract, name) then 1 else 0
    ensures Names(WithoutName(extract, name), other) <==> other != name && Names(extract, other)
  {
    if extract != [] {
      var front, last := extract[..|extract| - 1], extract[|extract| - 1];
      WithoutNameIs(front, name, other);
      NamesOfOneMore(WithoutName(front, name), last, other);
      assert extract == front + [last];
    }
  }

  lemma {:induction false} WithoutNameDistinct(extract: seq<Extract>, name: string)
    requires DistinctNames(extract)
    ensures DistinctNames(WithoutName(extract, name))
  {
    if extract != [] {
      var front, last := extract[..|extract| - 1], extract[|extract| - 1];
      WithoutNameDistinct(front, name);
      WithoutNameIs(front, name, last.name);
      NamesOfOneMore(WithoutName(front, name), last, last.name);
    }
  }

  lemma {:induction false} KeptNames(extract: seq<Extract>, name: string)
    ensures Names(Kept(extract), name) <==> Names(extract, name)
  {
    if extract != [] {
      var front, last := extract[..|extract| - 1], extract[|extract| - 1];
      KeptNames(front, name);
      WithoutNameIs(Kept(front), last.name, name);
      NamesOfOneMore(WithoutName(Kept(front), last.name), last, name);
    }
  }

  lemma {:induction false} KeptDistinct(extract: seq<Extract>)
    ensures DistinctNames(Kept(extract))
  {
    if extract != [] {
      var front, last := extract[..|extract| - 1], extract[|extract| - 1];
      KeptDistinct(front);
      WithoutNameDistinct(Kept(front), last.name);
      WithoutNameIs(Kept(front), last.name, last.name);
      NamesOfOneMore(WithoutName(Kept(front), last.name), last, last.name);
    }
  }

  lemma {:induction false} KeptAll(extract: seq<Extract>)
    requires DistinctNames(extract)
    ensures Kept(extract) == extract
  {
    if extract != [] {
      var front, last := extract[..|extract| - 1], extract[|extract| - 1];
      KeptAll(front);
      WithoutNameIs(front, last.name, last.name);
      assert extract == front + [last];
    }
  }

  lemma {:induction false} KeptFewer(extract: seq<Extract>)
    ensures |Kept(extract)| <= |extract|
    ensures !DistinctNames(extract) ==> |Kept(extract)| < |extract|
  {
    if extract != [] {
      var front, last := extract[..|extract| - 1], extract[|extract| - 1];
      KeptFewer(front);
      KeptNames(front, last.name);
      WithoutNameIs(Kept(front), last.name, last.name);
    }
  }

  /** The last of each name is all there is exactly when no name is there twice. */
  lemma KeptIs(extract: seq<Extract>)
    ensures |Kept(extract)| == |extract| <==> DistinctNames(extract)
    ensures Kept(extract) == extract <==> DistinctNames(extract)
  {
    KeptFewer(extract);
    if DistinctNames(extract) {
      KeptAll(extract);
    }
  }

  // ---- What the wires from a request carry ----

  /** The pairs of the names that come from `id`. */
  function Own(known: seq<Known>, id: string): (r: seq<(string, string)>) {
    if known == [] then []
    else
      var before, last := Own(known[..|known| - 1], id), known[|known| - 1];
      if last.from == id then before + [PairOf(last.name, last.keys)] else before
  }

  /** `pairs` after `before`, but those that are there. */
  function Added(before: seq<(string, string)>, pairs: seq<(string, string)>): (r: seq<(string, string)>) {
    if pairs == [] then before
    else
      var r, last := Added(before, pairs[..|pairs| - 1]), pairs[|pairs| - 1];
      if last in r then r else r + [last]
  }

  ghost predicate AllReadable(known: seq<Known>) {
    forall k | k in known :: Neither !in k.keys
  }

  lemma {:induction false} KeysHaveText(keys: seq<Part>)
    requires Neither !in keys
    ensures PathText(keys).Some?
  {
    if keys != [] {
      assert keys[0] in keys;
      KeysHaveText(keys[1..]);
    }
  }

  lemma WireCarries(known: Known, to: string)
    requires Neither !in known.keys
    ensures !Control(WireTo(known, to)) && Pair(WireTo(known, to)) == Some(PairOf(known.name, known.keys))
  {
    KeysHaveText(known.keys);
    assert ([Key("body")] + known.keys)[1..] == known.keys;
    assert (VAR + known.name)[|VAR|..] == known.name;
    assert VAR + known.name != "";
  }

  /** More wires carry more. */
  lemma {:induction false} WiresAdd(edges: seq<Edge>, known: seq<Known>, to: string, id: string)
    requires AllReadable(known)
    ensures Extracts(edges + WiresTo(known, to), id) == Added(Extracts(edges, id), Own(known, id))
  {
    if known == [] {
      assert edges + [] == edges;
    } else {
      var front, last := known[..|known| - 1], known[|known| - 1];
      WiresAdd(edges, front, to, id);
      WireCarries(last, to);
      assert edges + WiresTo(known, to) == edges + WiresTo(front, to) + [WireTo(last, to)];
      ExtractsOfOneMore(edges + WiresTo(front, to), WireTo(last, to), id, PairOf(last.name, last.keys));
      AddedOneMore(Extracts(edges, id), Own(front, id), PairOf(last.name, last.keys));
    }
  }

  lemma ExtractsOfOneMore(edges: seq<Edge>, wire: Edge, id: string, p: (string, string))
    requires !Control(wire) && Pair(wire) == Some(p)
    ensures Extracts(edges + [wire], id)
         == if wire.from == id && p !in Extracts(edges, id) then Extracts(edges, id) + [p] else Extracts(edges, id)
  {
    assert (edges + [wire])[..|edges|] == edges;
  }

  lemma AddedOneMore(before: seq<(string, string)>, pairs: seq<(string, string)>, p: (string, string))
    ensures Added(before, pairs + [p])
         == if p in Added(before, pairs) then Added(before, pairs) else Added(before, pairs) + [p]
  {
    assert (pairs + [p])[..|pairs|] == pairs;
  }

  lemma {:induction false} AddedNothing(before: seq<(string, string)>, pairs: seq<(string, string)>)
    requires forall p | p in pairs :: p in before
    ensures Added(before, pairs) == before
  {
    if pairs != [] {
      AddedNothing(before, pairs[..|pairs| - 1]);
    }
  }

  lemma {:induction false} PairIsNamed(extract: seq<Extract>, p: (string, string))
    requires p in Pairs(extract)
    ensures Names(extract, p.0)
  {
    var front := extract[..|extract| - 1];
    if p in Pairs(front) {
      PairIsNamed(front, p);
    }
  }

  lemma {:induction false} AddedToNothing(extract: seq<Extract>)
    requires DistinctNames(extract)
    ensures Added([], Pairs(extract)) == Pairs(extract)
  {
    if extract != [] {
      var front, last := extract[..|extract| - 1], extract[|extract| - 1];
      AddedToNothing(front);
      assert Pairs(extract)[..|extract| - 1] == Pairs(front);
      if PairOf(last.name, last.keys) in Pairs(front) {
        PairIsNamed(front, PairOf(last.name, last.keys));
      }
    }
  }

  // ---- What is known ----

  function PairsBut(pairs: seq<(string, string)>, name: string): (r: seq<(string, string)>)
    ensures forall p | p in r :: p in pairs
  {
    if pairs == [] then []
    else
      var before, last := PairsBut(pairs[..|pairs| - 1], name), pairs[|pairs| - 1];
      if last.0 == name then before else before + [last]
  }

  lemma {:induction false} PairsWithout(extract: seq<Extract>, name: string)
    ensures Pairs(WithoutName(extract, name)) == PairsBut(Pairs(extract), name)
  {
    if extract != [] {
      var front, last := extract[..|extract| - 1], extract[|extract| - 1];
      PairsWithout(front, name);
      PairsOfOneMore(WithoutName(front, name), last);
      assert Pairs(extract)[..|extract| - 1] == Pairs(front);
    }
  }

  lemma PairsOfOneMore(extract: seq<Extract>, e: Extract)
    ensures Pairs(extract + [e]) == Pairs(extract) + [PairOf(e.name, e.keys)]
  {
    assert (extract + [e])[..|extract|] == extract;
  }

  lemma OwnOfOneMore(known: seq<Known>, k: Known, id: string)
    ensures Own(known + [k], id) == Own(known, id) + if k.from == id then [PairOf(k.name, k.keys)] else []
  {
    assert (known + [k])[..|known|] == known;
  }

  lemma {:induction false} OwnWithout(known: seq<Known>, name: string, id: string)
    ensures Own(Without(known, name), id) == PairsBut(Own(known, id), name)
  {
    if known != [] {
      var front, last := known[..|known| - 1], known[|known| - 1];
      OwnWithout(front, name, id);
      OwnOfOneMore(Without(front, name), last, id);
      if last.from == id {
        assert Own(known, id)[..|Own(known, id)| - 1] == Own(front, id);
      }
    }
  }

  /** Another request leaves of what comes from `id` at most what there was. */
  lemma {:induction false} LearntElsewhere(known: seq<Known>, other: string, extract: seq<Extract>, id: string)
    requires other != id
    ensures forall p | p in Own(Learnt(known, other, extract), id) :: p in Own(known, id)
  {
    if extract != [] {
      var front, last := Learnt(known, other, extract[..|extract| - 1]), extract[|extract| - 1];
      LearntElsewhere(known, other, extract[..|extract| - 1], id);
      OwnWithout(front, last.name, id);
      OwnOfOneMore(Without(front, last.name), Known(last.name, other, last.keys), id);
    }
  }

  /** A request's own names are what it extracts, the last of each name. */
  lemma {:induction false} LearntHere(known: seq<Known>, id: string, extract: seq<Extract>)
    requires Own(known, id) == []
    ensures Own(Learnt(known, id, extract), id) == Pairs(Kept(extract))
  {
    if extract != [] {
      var before, last := extract[..|extract| - 1], extract[|extract| - 1];
      LearntHere(known, id, before);
      OwnWithout(Learnt(known, id, before), last.name, id);
      OwnOfOneMore(Without(Learnt(known, id, before), last.name), Known(last.name, id, last.keys), id);
      PairsWithout(Kept(before), last.name);
      PairsOfOneMore(WithoutName(Kept(before), last.name), last);
    }
  }

  /** Every name known comes from one of the requests, by a path with a text. */
  ghost predicate ComeFrom(known: seq<Known>, ids: seq<string>) {
    forall k | k in known :: k.from in ids && Neither !in k.keys
  }

  lemma {:induction false} LearntComeFrom(known: seq<Known>, id: string, extract: seq<Extract>, ids: seq<string>)
    requires ComeFrom(known, ids) && id in ids && forall i | 0 <= i < |extract| :: Neither !in extract[i].keys
    ensures ComeFrom(Learnt(known, id, extract), ids)
  {
    if extract != [] {
      LearntComeFrom(known, id, extract[..|extract| - 1], ids);
    }
  }

  lemma {:induction false} KnownComeFrom(steps: seq<Step>)
    requires forall i | 0 <= i < |steps| :: Writable(steps[i])
    ensures ComeFrom(KnownAfter(steps), StepIds(steps))
  {
    if steps != [] {
      var front, last := steps[..|steps| - 1], steps[|steps| - 1];
      KnownComeFrom(front);
      StepsLast(front, last);
      assert steps == front + [last];
      LearntComeFrom(KnownAfter(front), last.id, last.extract, StepIds(steps));
    }
  }

  lemma {:induction false} OwnOfNone(known: seq<Known>, ids: seq<string>, id: string)
    requires ComeFrom(known, ids) && id !in ids
    ensures Own(known, id) == []
  {
    if known != [] {
      assert known[|known| - 1] in known;
      OwnOfNone(known[..|known| - 1], ids, id);
    }
  }

  // ---- The round trip of what is extracted ----

  ghost predicate DistinctSteps(steps: seq<Step>) {
    forall i, j | 0 <= i < j < |steps| :: steps[i].id != steps[j].id
  }

  /** What comes back of what step `k` extracts: nothing of the last one, which has no request after it. */
  function Back(steps: seq<Step>, k: nat): (r: seq<(string, string)>)
    requires k < |steps|
  {
    if k == |steps| - 1 then [] else Pairs(Kept(steps[k].extract))
  }

  lemma LastIsNew(steps: seq<Step>)
    requires steps != [] && DistinctSteps(steps)
    ensures steps[|steps| - 1].id !in StepIds(steps[..|steps| - 1])
  {
    var front := steps[..|steps| - 1];
    forall i | 0 <= i < |front| ensures StepIds(front)[i] != steps[|steps| - 1].id {
      assert StepIds(front)[i] == steps[i].id;
    }
  }

  /** What is known of step `k` after the steps: all it extracts, if it is the last; later at most that. */
  lemma {:induction false} KnownOf(steps: seq<Step>, k: nat)
    requires (forall i | 0 <= i < |steps| :: Writable(steps[i])) && DistinctSteps(steps) && k < |steps|
    ensures var own, pairs := Own(KnownAfter(steps), steps[k].id), Pairs(Kept(steps[k].extract));
            (k == |steps| - 1 ==> own == pairs) && forall p | p in own :: p in pairs
  {
    var front, last := steps[..|steps| - 1], steps[|steps| - 1];
    if k == |steps| - 1 {
      KnownOfLast(steps);
    } else {
      assert front[k] == steps[k] && steps[k].id != last.id;
      KnownOf(front, k);
      LearntElsewhere(KnownAfter(front), last.id, last.extract, steps[k].id);
    }
  }

  lemma KnownOfLast(steps: seq<Step>)
    requires (forall i | 0 <= i < |steps| :: Writable(steps[i])) && DistinctSteps(steps) && steps != []
    ensures var last := steps[|steps| - 1]; Own(KnownAfter(steps), last.id) == Pairs(Kept(last.extract))
  {
    var front, last := steps[..|steps| - 1], steps[|steps| - 1];
    KnownComeFrom(front);
    LastIsNew(steps);
    OwnOfNone(KnownAfter(front), StepIds(front), last.id);
    LearntHere(KnownAfter(front), last.id, last.extract);
  }

  /** Each step's extracts come back from its wires, the last of each name and in order; nothing of the last step's. */
  lemma {:induction false} ExtractsComeBack(steps: seq<Step>, k: nat)
    requires (forall i | 0 <= i < |steps| :: Writable(steps[i])) && DistinctSteps(steps) && k < |steps|
    ensures Extracts(Wires(steps), steps[k].id) == Back(steps, k)
  {
    var front, last := steps[..|steps| - 1], steps[|steps| - 1];
    KnownComeFrom(front);
    WiresAdd(Wires(front), KnownAfter(front), last.id, steps[k].id);
    if k == |steps| - 1 {
      LastIsNew(steps);
      OwnOfNone(KnownAfter(front), StepIds(front), last.id);
      NothingFrom(front, last.id);
    } else {
      assert front[k] == steps[k];
      KnownOf(front, k);
      ExtractsComeBack(front, k);
      MoreComesBack(steps[k].extract, Extracts(Wires(front), steps[k].id), Own(KnownAfter(front), steps[k].id));
    }
  }

  /** What a step extracts is carried by the first wires from it, and carried again, if at all, by later ones. */
  lemma MoreComesBack(extract: seq<Extract>, before: seq<(string, string)>, own: seq<(string, string)>)
    requires var pairs := Pairs(Kept(extract));
             || (before == [] && own == pairs)
             || (before == pairs && forall p | p in own :: p in pairs)
    ensures Added(before, own) == Pairs(Kept(extract))
  {
    if before == [] && own == Pairs(Kept(extract)) {
      KeptDistinct(extract);
      AddedToNothing(Kept(extract));
    } else {
      AddedNothing(before, own);
    }
  }

  /** No wire comes from what is no step. */
  lemma {:induction false} NothingFrom(steps: seq<Step>, id: string)
    requires (forall i | 0 <= i < |steps| :: Writable(steps[i])) && id !in StepIds(steps)
    ensures Extracts(Wires(steps), id) == []
  {
    if steps != [] {
      var front, last := steps[..|steps| - 1], steps[|steps| - 1];
      StepsLast(front, last);
      assert steps == front + [last];
      NothingFrom(front, id);
      KnownComeFrom(front);
      OwnOfNone(KnownAfter(front), StepIds(front), id);
      WiresAdd(Wires(front), KnownAfter(front), last.id, id);
    }
  }

  // ---- The wires go forward ----

  lemma {:induction false} WiresToForward(known: seq<Known>, front: seq<string>, to: string)
    requires ComeFrom(known, front)
    ensures forall e | e in WiresTo(known, to) :: !Control(e) && Forward(front + [to], e)
  {
    if known != [] {
      var last := known[|known| - 1];
      assert last in known;
      WiresToForward(known[..|known| - 1], front, to);
      WireCarries(last, to);
      var i :| 0 <= i < |front| && front[i] == last.from;
      var ids := front + [to];
      assert ids[i] == last.from && ids[|front|] == to;
    }
  }

  lemma ForwardOfMore(ids: seq<string>, id: string, e: Edge)
    requires Forward(ids, e)
    ensures Forward(ids + [id], e)
  {
    var i, j :| 0 <= i < j < |ids| && ids[i] == e.from && ids[j] == e.to;
    assert (ids + [id])[i] == e.from && (ids + [id])[j] == e.to;
  }

  lemma {:induction false} WiresForward(steps: seq<Step>)
    requires forall i | 0 <= i < |steps| :: Writable(steps[i])
    ensures forall e | e in Wires(steps) :: !Control(e) && Forward(StepIds(steps), e)
  {
    if steps != [] {
      var front, last := steps[..|steps| - 1], steps[|steps| - 1];
      StepsLast(front, last);
      assert steps == front + [last];
      WiresForward(front);
      KnownComeFrom(front);
      WiresToForward(KnownAfter(front), StepIds(front), last.id);
      forall e | e in Wires(front) ensures Forward(StepIds(steps), e) {
        ForwardOfMore(StepIds(front), last.id, e);
      }
    }
  }

  // ---- The round trip ----

  /** The line of a step, all of it. */
  function WholeLine(step: Step): Line {
    StepLine(step).(extract := Pairs(step.extract))
  }

  function WholeLines(steps: seq<Step>): (r: seq<Line>)
    ensures |r| == |steps| && forall k | 0 <= k < |steps| :: r[k] == WholeLine(steps[k])
  {
    if steps == [] then [] else WholeLines(steps[..|steps| - 1]) + [WholeLine(steps[|steps| - 1])]
  }

  function BackLines(steps: seq<Step>): (r: seq<Line>)
    ensures |r| == |steps| && forall k | 0 <= k < |steps| :: r[k] == StepLine(steps[k]).(extract := Back(steps, k))
  {
    seq(|steps|, k requires 0 <= k < |steps| => StepLine(steps[k]).(extract := Back(steps, k)))
  }

  /** The last step extracts nothing, and no other extracts a name twice. */
  predicate NothingLost(steps: seq<Step>)
    requires steps != []
  {
    && steps[|steps| - 1].extract == []
    && forall k | 0 <= k < |steps| - 1 :: DistinctNames(steps[k].extract)
  }

  /** The steps come back whole exactly when the last one extracts nothing and no other extracts a name twice. */
  lemma BackWhole(steps: seq<Step>)
    requires steps != []
    ensures BackLines(steps) == WholeLines(steps) <==> NothingLost(steps)
  {
    forall k: nat | k < |steps|
      ensures BackLines(steps)[k] == WholeLines(steps)[k] <==>
              if k == |steps| - 1 then steps[k].extract == [] else DistinctNames(steps[k].extract)
    {
      LineBackWhole(steps, k);
    }
  }

  lemma LineBackWhole(steps: seq<Step>, k: nat)
    requires k < |steps|
    ensures StepLine(steps[k]).(extract := Back(steps, k)) == WholeLine(steps[k]) <==>
            if k == |steps| - 1 then steps[k].extract == [] else DistinctNames(steps[k].extract)
  {
    KeptIs(steps[k].extract);
  }

  /** Any non-empty list of steps, drawn with the wires of what they extract and with any display nodes, reads back as
      those steps: whole exactly when the last one extracts nothing and no other extracts a name twice. */
  lemma StepsReadBack(g: Flow, described: map<string, Info>, start: Node, steps: seq<Step>, displays: seq<Node>,
                      shown: seq<Edge>)
    requires StepsCanBeDrawn(start, steps, displays, shown, [])
    requires forall i | 0 <= i < |steps| :: Describes(described, steps[i])
    requires DrawnAs(g, Written(start, steps), displays, shown, Wires(steps))
    ensures Reading(g, described) == Some(BackLines(steps))
    ensures Reading(g, described) == Some(WholeLines(steps)) <==> NothingLost(steps)
  {
    WiresForward(steps);
    DrawnStepsReadBack(g, described, start, steps, displays, shown, Wires(steps));
    StepsAreDistinct(described, start, steps, displays);
    forall k: nat | k < |steps| ensures Extracts(Wires(steps), steps[k].id) == Back(steps, k) {
      ExtractsComeBack(steps, k);
    }
    assert LinesWith(steps, Wires(steps)) == BackLines(steps);
    BackWhole(steps);
  }

  lemma StepsAreDistinct(described: map<string, Info>, start: Node, steps: seq<Step>, displays: seq<Node>)
    requires DistinctIds(Written(start, steps) + displays) && start.kind.Start?
    requires forall i | 0 <= i < |steps| :: Describes(described, steps[i])
    ensures DistinctSteps(steps)
  {
    PathIds(Written(start, steps), displays);
    LinesOfSteps(described, start, steps);
    RequestsAreOf(Written(start, steps));
    forall i, j | 0 <= i < j < |steps| ensures steps[i].id != steps[j].id {
      assert StepIds(steps)[i] == steps[i].id && StepIds(steps)[j] == steps[j].id;
    }
  }
}
