/** What ships, said of the packages' fields: a dependency is left out for a test feature only. */
module LicenseLaws {
  import opened Wrappers
  import opened Reachability
  import opened Licenses
  import opened Shipping

  lemma NoEdges(edge: (string, string) -> bool, avoid: set<string>, starts: set<string>)
    requires forall a, b :: !edge(a, b)
    ensures forall x :: Reaches(edge, avoid, starts, x) <==> x in starts && x !in avoid
  {
    var s := starts - avoid;
    forall x | x in s ensures Reaches(edge, avoid, starts, x) {
      StartReaches(edge, avoid, starts, x);
    }
    ClosedIsReached(edge, avoid, starts, s);
  }

  // ---- Features that only switch dependencies on ----

  /** Every feature's only item is `dep:` and the dependency that `deps` has for it. */
  ghost predicate Switches(features: Manifest, deps: map<string, string>) {
    && features.Keys == deps.Keys
    && forall f | f in features :: '/' !in deps[f] && features[f] == ["dep:" + deps[f]]
  }

  /** What a feature switches on: its dependency, or what has its name. */
  function By(deps: map<string, string>, f: string): string {
    if f in deps then deps[f] else f
  }

  lemma ItemSwitches(features: Manifest, deps: map<string, string>, f: string, d: string)
    requires Switches(features, deps)
    ensures !FollowedEdge(features, f, d) && !PlainEdge(features, f, d)
    ensures SwitchesOn(features, f, d) <==> d == By(deps, f)
    ensures forall i | 0 <= i < |ItemsOf(features, f)| :: '/' !in ItemsOf(features, f)[i]
  {
    if f in features {
      DepItem(deps[f]);
      assert features[f][0] == "dep:" + deps[f];
      assert '/' !in features[f][0];
    }
  }

  lemma ItemsSwitch(features: Manifest, deps: map<string, string>)
    requires Switches(features, deps)
    ensures forall a, b :: !FollowedEdge(features, a, b)
    ensures forall a, b :: !PlainEdge(features, a, b)
    ensures forall f, d :: SwitchesOn(features, f, d) <==> d == By(deps, f)
    ensures forall d :: !Mentions(features, d)
  {
    forall f, d
      ensures !FollowedEdge(features, f, d) && !PlainEdge(features, f, d)
      ensures SwitchesOn(features, f, d) <==> d == By(deps, f)
      ensures forall i | 0 <= i < |ItemsOf(features, f)| :: '/' !in ItemsOf(features, f)[i]
    {
      ItemSwitches(features, deps, f, d);
    }
  }

  lemma SwitchesImply(features: Manifest, deps: map<string, string>)
    requires Switches(features, deps)
    ensures forall f :: Implied(features, f) <==> f == "test-support"
  {
    ItemsSwitch(features, deps);
    NoEdges((a, b) => PlainEdge(features, a, b), {}, {TEST_SUPPORT});
  }

  /** Enabled features switch on what their items say; without tests, `test-support` does not count. */
  lemma EnabledBy(features: Manifest, deps: map<string, string>, enabled: set<string>, tests: bool, d: string)
    requires Switches(features, deps)
    ensures Enabled(features, enabled, tests, d) <==>
              exists f :: f in enabled && (tests || f != "test-support") && d == By(deps, f)
  {
    var avoid := if tests then {} else {TEST_SUPPORT};
    SwitchesImply(features, deps);
    ItemsSwitch(features, deps);
    assert Avoids(features, tests, avoid);
    EnabledIs(features, enabled, avoid, tests, d);
    NoEdges((a, b) => FollowedEdge(features, a, b), avoid, enabled);
    forall f | f in enabled && (tests || f != "test-support") && d == By(deps, f)
      ensures SwitchedOn(features, enabled, avoid, tests, d)
    {
      assert Reaches((a, b) => FollowedEdge(features, a, b), avoid, enabled, f) && SwitchesOn(features, f, d);
    }
    if SwitchedOn(features, enabled, avoid, tests, d) {
      var f :| Reaches((a, b) => FollowedEdge(features, a, b), avoid, enabled, f) && SwitchesOn(features, f, d);
      assert f in enabled && f !in avoid;
    }
  }

  // ---- What is left out ----

  /** One of the declarations is a normal and optional one of the crate `name`, and `test-support` is enabled and
      switches it on, under the name it is given there, and no other feature that is enabled does. */
  ghost predicate LeftOut(declared: seq<Declared>, name: string, enabled: seq<string>, deps: map<string, string>) {
    exists i :: 0 <= i < |declared| && declared[i].name == name && declared[i].kind == None && declared[i].optional
      && OnlyTests(enabled, deps, match declared[i].rename case None => name case Some(other) => other)
  }

  ghost predicate OnlyTests(enabled: seq<string>, deps: map<string, string>, key: string) {
    && "test-support" in enabled && By(deps, "test-support") == key
    && forall f | f in enabled && f != "test-support" :: By(deps, f) != key
  }

  lemma OnlyTestsIs(features: Manifest, deps: map<string, string>, enabled: seq<string>, key: string)
    requires Switches(features, deps)
    ensures OnlyTests(enabled, deps, key) <==>
              && Enabled(features, (set f | f in enabled), true, key)
              && !Enabled(features, (set f | f in enabled), false, key)
  {
    EnabledBy(features, deps, set f | f in enabled, true, key);
    EnabledBy(features, deps, set f | f in enabled, false, key);
  }

  /** A dependency ships when it is resolved as a normal one and is not left out. */
  lemma ShipsIs(m: Metadata, id: string, pkg: string, deps: map<string, string>)
    requires id in m.packages && id in m.nodes && pkg in m.packages && Switches(m.packages[id].features, deps)
    ensures Ships(m, id, pkg) <==>
              && (exists i :: 0 <= i < |m.nodes[id].deps| && m.nodes[id].deps[i].pkg == pkg
                              && None in m.nodes[id].deps[i].kinds)
              && !LeftOut(m.packages[id].dependencies, m.packages[pkg].name, m.nodes[id].features, deps)
  {
    var p, enabled := m.packages[id], m.nodes[id].features;
    forall key ensures OnlyTests(enabled, deps, key) <==>
                  Enabled(p.features, (set f | f in enabled), true, key)
                  && !Enabled(p.features, (set f | f in enabled), false, key)
    {
      OnlyTestsIs(p.features, deps, enabled, key);
    }
  }
}
