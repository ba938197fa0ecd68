/** Which packages ship: the optional dependencies a package's features switch on, and the walk over the normal
    dependencies that leaves out what only tests need. */
module Licenses {
  import opened Wrappers
  import opened Reachability

  type Manifest = map<string, seq<string>>

  function ItemsOf(features: Manifest, feature: string): seq<string> {
    if feature in features then features[feature] else []
  }

  // ---- Items of a feature ----

  function SlashAt(item: string): (i: nat)
    ensures i <= |item|
    ensures i < |item| <==> '/' in item
    ensures i < |item| ==> item[i] == '/'
  {
    if item == [] || item[0] == '/' then 0 else 1 + SlashAt(item[1..])
  }

  /** What stands before the first slash. */
  function Before(item: string): string {
    item[..SlashAt(item)]
  }

  predicate IsDep(item: string) {
    "dep:" <= item
  }

  /** A feature of the package, as the closure of `test-support` follows items. */
  predicate Plain(item: string) {
    '/' !in item && ':' !in item
  }

  /** A feature of the package, as the enabled features are followed. */
  predicate Followed(item: string) {
    !IsDep(item) && '/' !in item
  }

  predicate Weak(dep: string) {
    dep != [] && dep[|dep| - 1] == '?'
  }

  function TrimWeak(dep: string): string {
    if Weak(dep) then TrimWeak(dep[..|dep| - 1]) else dep
  }

  /** What `item` switches on by itself: `dep:x`, or `x/feat` unless it is `x?/feat`. */
  function Directly(item: string): Option<string> {
    if IsDep(item) then Some(item[4..])
    else if '/' in item && !Weak(Before(item)) then Some(Before(item))
    else None
  }

  // ---- What is switched on ----

  predicate PlainEdge(features: Manifest, f: string, g: string) {
    g in ItemsOf(features, f) && Plain(g)
  }

  predicate FollowedEdge(features: Manifest, f: string, g: string) {
    g in ItemsOf(features, f) && Followed(g)
  }

  const TEST_SUPPORT: string := "test-support"

  /** `test-support` and the features it implies. */
  ghost predicate Implied(features: Manifest, f: string) {
    Reaches((a, b) => PlainEdge(features, a, b), {}, {TEST_SUPPORT}, f)
  }

  /** `avoid` is what `test-support` implies, or nothing when tests count. */
  ghost predicate Avoids(features: Manifest, tests: bool, avoid: set<string>) {
    forall f :: f in avoid <==> !tests && Implied(features, f)
  }

  /** Feature `f` switches on `d`: one of its items does, or it is no feature but the dependency itself. */
  predicate SwitchesOn(features: Manifest, f: string, d: string) {
    if f in features then exists i :: 0 <= i < |features[f]| && Directly(features[f][i]) == Some(d) else d == f
  }

  /** A feature that `test-support` implies mentions `d`, weakly or not. */
  ghost predicate Mentions(features: Manifest, d: string) {
    exists f, i :: Implied(features, f) && 0 <= i < |ItemsOf(features, f)|
                   && '/' in ItemsOf(features, f)[i] && d == TrimWeak(Before(ItemsOf(features, f)[i]))
  }

  ghost predicate SwitchedOn(features: Manifest, enabled: set<string>, avoid: set<string>, tests: bool, d: string) {
    || (tests && Mentions(features, d))
    || exists f :: Reaches((a, b) => FollowedEdge(features, a, b), avoid, enabled, f) && SwitchesOn(features, f, d)
  }

  /** The optional dependencies that the features `enabled` switch on; with `tests` false, as if nothing that
      `test-support` implies were enabled. */
  ghost predicate Enabled(features: Manifest, enabled: set<string>, tests: bool, d: string) {
    exists avoid :: Avoids(features, tests, avoid) && SwitchedOn(features, enabled, avoid, tests, d)
  }

  /** What `test-support` implies. */
  method ImpliedByTests(features: Manifest) returns (implied: set<string>)
    ensures forall f :: f in implied <==> Implied(features, f)
  {
    ghost var edge, starts := (a, b) => PlainEdge(features, a, b), {TEST_SUPPORT};
    implied := {};
    var stack := [TEST_SUPPORT];
    SearchBegins(edge, {}, starts, stack);
    while stack != []
      invariant Searching(edge, {}, starts, implied, stack)
      decreases features.Keys - implied, |stack|
    {
      var feature := stack[|stack| - 1];
      ghost var rest, seen := stack[..|stack| - 1], implied;
      assert stack == rest + [feature];
      stack := stack[..|stack| - 1];
      if feature in implied {
        SearchSkips(edge, {}, starts, seen, rest, feature);
      } else {
        implied := implied + {feature};
        var items := ItemsOf(features, feature);
        var i := 0;
        while i < |items|
          invariant 0 <= i <= |items|
          invariant forall g :: g in stack <==> g in rest || (g in items[..i] && Plain(g))
          invariant feature !in features ==> stack == rest
        {
          assert items[..i + 1] == items[..i] + [items[i]];
          if Plain(items[i]) {
            stack := stack + [items[i]];
          }
          i := i + 1;
        }
        assert items[..i] == items;
        SearchVisits(edge, {}, starts, seen, rest, feature, stack);
        Fewer(features, seen, feature);
      }
    }
    SearchEnds(edge, {}, starts, implied);
  }

  /** A feature of the manifest seen for the first time leaves fewer to see. */
  lemma Fewer(features: Manifest, seen: set<string>, f: string)
    requires f !in seen
    ensures f in features ==> features.Keys - (seen + {f}) < features.Keys - seen
    ensures f !in features ==> features.Keys - (seen + {f}) == features.Keys - seen
  {
    if f in features {
      assert f in features.Keys - seen && f !in features.Keys - (seen + {f});
    }
  }

  /** What the features that `test-support` implies mention. */
  method Mentioned(features: Manifest, implied: set<string>) returns (on: set<string>)
    requires forall f :: f in implied <==> Implied(features, f)
    ensures forall d :: d in on <==> Mentions(features, d)
  {
    on := {};
    var todo := implied;
    while todo != {}
      invariant todo <= implied
      invariant forall d | d in on :: Mentions(features, d)
      invariant forall f, i |
                  f in implied - todo && 0 <= i < |ItemsOf(features, f)| && '/' in ItemsOf(features, f)[i] ::
                  TrimWeak(Before(ItemsOf(features, f)[i])) in on
      decreases todo
    {
      var f :| f in todo;
      var items := ItemsOf(features, f);
      var i := 0;
      while i < |items|
        invariant 0 <= i <= |items|
        invariant forall d | d in on :: Mentions(features, d)
        invariant forall g, k |
                    g in implied - todo && 0 <= k < |ItemsOf(features, g)| && '/' in ItemsOf(features, g)[k] ::
                    TrimWeak(Before(ItemsOf(features, g)[k])) in on
        invariant forall k | 0 <= k < i && '/' in items[k] :: TrimWeak(Before(items[k])) in on
      {
        if '/' in items[i] {
          on := on + {TrimWeak(Before(items[i]))};
        }
        i := i + 1;
      }
      todo := todo - {f};
    }
  }

  /** The optional dependencies that `package`'s enabled features switch on. */
  method EnabledOptional(features: Manifest, enabled: seq<string>, tests: bool) returns (on: set<string>)
    ensures forall d :: d in on <==> Enabled(features, (set f | f in enabled), tests, d)
  {
    var implied := ImpliedByTests(features);
    on := {};
    if tests {
      on := Mentioned(features, implied);
      implied := {};
    }
    ghost var mentioned, starts := on, set f | f in enabled;
    on := SwitchOn(features, enabled, implied, on);
    forall d ensures d in on <==> Enabled(features, starts, tests, d) {
      EnabledIs(features, starts, implied, tests, d);
    }
  }

  /** The walk over the features, which passes by those to avoid. */
  method SwitchOn(features: Manifest, enabled: seq<string>, avoid: set<string>, mentioned: set<string>)
      returns (on: set<string>)
    ensures forall d :: d in on <==>
      || d in mentioned
      || exists f :: Reaches((a, b) => FollowedEdge(features, a, b), avoid, (set f | f in enabled), f)
                     && SwitchesOn(features, f, d)
  {
    ghost var starts := set f | f in enabled;
    ghost var edge := (a, b) => FollowedEdge(features, a, b);
    var stack, seen: set<string> := enabled, {};
    on := mentioned;
    SearchBegins(edge, avoid, starts, stack);
    while stack != []
      invariant Searching(edge, avoid, starts, seen, stack)
      invariant IsOn(features, mentioned, seen, on)
      decreases features.Keys - seen, |stack|
    {
      var feature := stack[|stack| - 1];
      ghost var rest, was, before := stack[..|stack| - 1], seen, on;
      assert stack == rest + [feature];
      stack := stack[..|stack| - 1];
      if feature in avoid || feature in seen {
        SearchSkips(edge, avoid, starts, seen, rest, feature);
        continue;
      }
      Fewer(features, seen, feature);
      seen := seen + {feature};
      if feature in features {
        stack, on := Follow(features, feature, stack, on);
      } else {
        on := on + {feature};
      }
      SearchVisits(edge, avoid, starts, was, rest, feature, stack);
      MoreIsOn(features, mentioned, was, before, feature, on);
    }
    SearchEnds(edge, avoid, starts, seen);
  }

  /** What the features seen switch on is on, with what was on before them. */
  ghost predicate IsOn(features: Manifest, before: set<string>, seen: set<string>, on: set<string>) {
    forall d :: d in on <==> d in before || exists f :: f in seen && SwitchesOn(features, f, d)
  }

  lemma MoreIsOn(features: Manifest, before: set<string>, seen: set<string>, on: set<string>, f: string,
                 more: set<string>)
    requires IsOn(features, before, seen, on) && forall d :: d in more <==> d in on || SwitchesOn(features, f, d)
    ensures IsOn(features, before, seen + {f}, more)
  {
  }

  /** There is one set to avoid. */
  lemma EnabledIs(features: Manifest, enabled: set<string>, avoid: set<string>, tests: bool, d: string)
    requires Avoids(features, tests, avoid)
    ensures Enabled(features, enabled, tests, d) <==> SwitchedOn(features, enabled, avoid, tests, d)
  {
    if Enabled(features, enabled, tests, d) {
      var other :| Avoids(features, tests, other) && SwitchedOn(features, enabled, other, tests, d);
      assert other == avoid;
    }
  }

  /** The items of `feature`, one after the other. */
  method Follow(features: Manifest, feature: string, stack: seq<string>, on: set<string>)
      returns (stack': seq<string>, on': set<string>)
    requires feature in features
    ensures forall g :: g in stack' <==> g in stack || FollowedEdge(features, feature, g)
    ensures forall d :: d in on' <==> d in on || SwitchesOn(features, feature, d)
  {
    stack', on' := stack, on;
    var items := features[feature];
    var i := 0;
    while i < |items|
      invariant 0 <= i <= |items|
      invariant forall g :: g in stack' <==> g in stack || (g in items[..i] && Followed(g))
      invariant forall d :: d in on' <==> d in on || exists k :: 0 <= k < i && Directly(items[k]) == Some(d)
    {
      var item := items[i];
      if IsDep(item) {
        on' := on' + {item[4..]};
      } else if '/' in item {
        if !Weak(Before(item)) {
          on' := on' + {Before(item)};
        }
      } else {
        stack' := stack' + [item];
      }
      i := i + 1;
    }
    assert items[..i] == items;
  }

  /** Leaving out what tests imply never switches more on. */
  lemma WithoutTestsIsLess(features: Manifest, enabled: set<string>, d: string)
    requires Enabled(features, enabled, false, d)
    ensures Enabled(features, enabled, true, d)
  {
    var avoid :| Avoids(features, false, avoid) && SwitchedOn(features, enabled, avoid, false, d);
    var edge := (a, b) => FollowedEdge(features, a, b);
    var f :| Reaches((a, b) => FollowedEdge(features, a, b), avoid, enabled, f) && SwitchesOn(features, f, d);
    assert Reaches(edge, avoid, enabled, f);
    ReachesMore(edge, avoid, {}, enabled, f);
    assert Avoids(features, true, {});
    assert SwitchedOn(features, enabled, {}, true, d);
  }

  // ---- Items, spelled out ----

  /** The name of a crate or a feature. */
  predicate IsName(s: string) {
    s != [] && '/' !in s && ':' !in s && '?' !in s
  }

  lemma {:induction false} SlashIsAt(dep: string, rest: string)
    requires '/' !in dep
    ensures SlashAt(dep + ['/'] + rest) == |dep|
  {
    if dep != [] {
      assert (dep + ['/'] + rest)[1..] == dep[1..] + ['/'] + rest;
      SlashIsAt(dep[1..], rest);
    }
  }

  lemma BeforeSlash(dep: string, rest: string)
    requires '/' !in dep
    ensures Before(dep + ['/'] + rest) == dep && (dep + ['/'] + rest)[|dep|] == '/'
  {
    SlashIsAt(dep, rest);
    assert (dep + ['/'] + rest)[..|dep|] == dep;
  }

  lemma DepHasColon(item: string)
    requires IsDep(item)
    ensures ':' in item
  {
    assert item[3] == "dep:"[3];
  }

  lemma NotDep(dep: string, rest: string)
    requires ':' !in dep && rest != [] && rest[0] != ':' && ':' !in rest
    ensures !IsDep(dep + rest)
  {
    if IsDep(dep + rest) {
      DepHasColon(dep + rest);
    }
  }

  /** `dep:x` switches on `x` and leads to no feature. */
  lemma DepItem(d: string)
    ensures Directly("dep:" + d) == Some(d) && !Followed("dep:" + d) && !Plain("dep:" + d)
  {
    assert ("dep:" + d)[4..] == d && ("dep:" + d)[3] == ':';
  }

  /** `x/f` switches on `x`, and is no feature. */
  lemma FeatureOfItem(d: string, f: string)
    requires IsName(d) && IsName(f)
    ensures Directly(d + ['/'] + f) == Some(d) && !Followed(d + ['/'] + f) && !Plain(d + ['/'] + f)
    ensures TrimWeak(Before(d + ['/'] + f)) == d
  {
    BeforeSlash(d, f);
    assert d + ['/'] + f == d + (['/'] + f);
    NotDep(d, ['/'] + f);
  }

  lemma {:induction false} MarksAreTrimmed(d: string, marks: string)
    requires '?' !in d && forall i | 0 <= i < |marks| :: marks[i] == '?'
    ensures TrimWeak(d + marks) == d
    decreases |marks|
  {
    if marks == [] {
      assert d + marks == d;
    } else {
      assert (d + marks)[..|d + marks| - 1] == d + marks[..|marks| - 1];
      MarksAreTrimmed(d, marks[..|marks| - 1]);
    }
  }

  /** `x?/f` switches on nothing, and is no feature; what it mentions is `x`, however many marks there are. */
  lemma WeakItem(d: string, marks: string, f: string)
    requires IsName(d) && IsName(f) && marks != [] && forall i | 0 <= i < |marks| :: marks[i] == '?'
    ensures Directly(d + marks + ['/'] + f) == None
    ensures !Followed(d + marks + ['/'] + f) && !Plain(d + marks + ['/'] + f)
    ensures TrimWeak(Before(d + marks + ['/'] + f)) == d
  {
    var dep := d + marks;
    assert '/' !in dep && dep[|dep| - 1] == '?';
    BeforeSlash(dep, f);
    assert dep + ['/'] + f == dep + (['/'] + f);
    NotDep(dep, ['/'] + f);
    MarksAreTrimmed(d, marks);
  }

  /** A plain name switches on nothing by itself, and leads to the feature of that name. */
  lemma NameItem(f: string)
    requires IsName(f)
    ensures Directly(f) == None && Followed(f) && Plain(f)
  {
    if IsDep(f) {
      DepHasColon(f);
    }
  }

  /** A feature that is none of the manifest's is the optional dependency of that name. */
  lemma NoFeatureIsItself(features: Manifest, f: string, d: string)
    requires f !in features
    ensures SwitchesOn(features, f, d) <==> d == f
  {
  }

  /** So a feature with one item of each kind switches on what the first two name, and leads on by the last only. */
  lemma EachItem(features: Manifest, feature: string, a: string, b: string, c: string, f: string, g: string)
    requires IsName(a) && IsName(b) && IsName(c) && IsName(f) && IsName(g) && feature in features
    requires features[feature] == ["dep:" + a, b + ['/'] + f, c + ['?'] + ['/'] + f, g]
    ensures forall d :: SwitchesOn(features, feature, d) <==> d == a || d == b
    ensures forall h :: FollowedEdge(features, feature, h) <==> h == g
    ensures forall h :: PlainEdge(features, feature, h) <==> h == g
  {
    DepItem(a);
    FeatureOfItem(b, f);
    WeakItem(c, ['?'], f);
    NameItem(g);
    var items := features[feature];
    assert items[0] == "dep:" + a && items[1] == b + ['/'] + f && items[2] == c + ['?'] + ['/'] + f && items[3] == g;
    forall d ensures SwitchesOn(features, feature, d) <==> d == a || d == b {
      assert Directly(items[0]) == Some(a) && Directly(items[1]) == Some(b);
    }
  }
}
