/** Every package that ships: reached from the workspace members through normal dependencies, without the optional
    ones that only a test feature switches on. */
module Shipping {
  import opened Wrappers
  import opened Reachability
  import opened Licenses

  /** A dependency as a package declares it (`kind` of a normal one: none). */
  datatype Declared = Declared(name: string, rename: Option<string>, kind: Option<string>, optional: bool)

  datatype Package = Package(name: string, version: string, features: Manifest, dependencies: seq<Declared>)

  /** A dependency as it was resolved: the package, and the kinds it is used as. */
  datatype Resolved = Resolved(pkg: string, kinds: seq<Option<string>>)

  datatype Node = Node(features: seq<string>, deps: seq<Resolved>)

  /** What the resolver reports: packages and resolve nodes by id, and the workspace members. */
  datatype Metadata = Metadata(packages: map<string, Package>, nodes: map<string, Node>, roots: seq<string>)

  function NameOf(m: Metadata, pkg: string): string {
    if pkg in m.packages then m.packages[pkg].name else ""
  }

  function Key(m: Metadata, d: Declared, pkg: string): string {
    if d.rename.Some? then d.rename.value else NameOf(m, pkg)
  }

  predicate OptionalAs(m: Metadata, d: Declared, pkg: string) {
    d.name == NameOf(m, pkg) && d.kind.None? && d.optional
  }

  /** Package `id` declares `pkg` as an optional dependency that its features switch on only with tests. */
  ghost predicate OnlyForTests(m: Metadata, id: string, pkg: string) {
    id in m.packages && id in m.nodes &&
    var p, enabled := m.packages[id], set f | f in m.nodes[id].features;
    exists i :: 0 <= i < |p.dependencies| && OptionalAs(m, p.dependencies[i], pkg)
      && Licenses.Enabled(p.features, enabled, true, Key(m, p.dependencies[i], pkg))
      && !Licenses.Enabled(p.features, enabled, false, Key(m, p.dependencies[i], pkg))
  }

  /** `pkg` is a normal dependency of `id`, and not only for tests. */
  ghost predicate Ships(m: Metadata, id: string, pkg: string) {
    id in m.nodes && !OnlyForTests(m, id, pkg)
    && exists i :: 0 <= i < |m.nodes[id].deps| && m.nodes[id].deps[i].pkg == pkg && None in m.nodes[id].deps[i].kinds
  }

  function Roots(m: Metadata): set<string> {
    set r | r in m.roots
  }

  ghost predicate Shipped(m: Metadata, id: string) {
    Reaches((a, b) => Ships(m, a, b), {}, Roots(m), id)
  }

  predicate OwnCrate(name: string) {
    "bifurc-" <= name
  }

  /** The crates to list, by name and version. */
  ghost predicate Listed(m: Metadata, crate: (string, string)) {
    exists id :: Shipped(m, id) && id !in m.roots && id in m.packages && !OwnCrate(m.packages[id].name)
                 && crate == (m.packages[id].name, m.packages[id].version)
  }

  /** Whether one of the declarations makes `pkg` a dependency for tests only. */
  method IsOnlyForTests(m: Metadata, id: string, pkg: string, withTests: set<string>, withoutTests: set<string>)
      returns (only: bool)
    requires id in m.nodes
    requires id in m.packages ==>
      var enabled := set f | f in m.nodes[id].features;
      (forall d :: d in withTests <==> Licenses.Enabled(m.packages[id].features, enabled, true, d))
      && (forall d :: d in withoutTests <==> Licenses.Enabled(m.packages[id].features, enabled, false, d))
    ensures only <==> OnlyForTests(m, id, pkg)
  {
    if id !in m.packages {
      return false;
    }
    var declared := m.packages[id].dependencies;
    var i := 0;
    while i < |declared|
      invariant 0 <= i <= |declared|
      invariant forall k | 0 <= k < i && OptionalAs(m, declared[k], pkg) ::
                  Key(m, declared[k], pkg) !in withTests || Key(m, declared[k], pkg) in withoutTests
    {
      var key := Key(m, declared[i], pkg);
      if OptionalAs(m, declared[i], pkg) && key in withTests && key !in withoutTests {
        return true;
      }
      i := i + 1;
    }
    return false;
  }

  /** The packages `id` pushes. */
  method Pushed(m: Metadata, id: string) returns (next: seq<string>)
    requires id in m.nodes
    ensures forall pkg :: pkg in next <==> Ships(m, id, pkg)
  {
    var node := m.nodes[id];
    var withTests: set<string>, withoutTests: set<string> := {}, {};
    if id in m.packages {
      withTests := EnabledOptional(m.packages[id].features, node.features, true);
      withoutTests := EnabledOptional(m.packages[id].features, node.features, false);
    }
    next := [];
    var i := 0;
    while i < |node.deps|
      invariant 0 <= i <= |node.deps|
      invariant forall pkg | pkg in next :: Ships(m, id, pkg)
      invariant forall k | 0 <= k < i && None in node.deps[k].kinds ::
                  node.deps[k].pkg in next || OnlyForTests(m, id, node.deps[k].pkg)
    {
      var dep := node.deps[i];
      if None in dep.kinds {
        var only := IsOnlyForTests(m, id, dep.pkg, withTests, withoutTests);
        if !only {
          next := next + [dep.pkg];
        }
      }
      i := i + 1;
    }
  }

  /** The walk: exactly what ships, whatever the order of the stack. */
  method Walk(m: Metadata) returns (seen: set<string>)
    ensures forall id :: id in seen <==> Shipped(m, id)
    ensures forall s | Closed((a, b) => Ships(m, a, b), {}, Roots(m), s) :: seen <= s
  {
    ghost var edge, roots := (a, b) => Ships(m, a, b), Roots(m);
    seen := {};
    var stack := m.roots;
    SearchBegins(edge, {}, roots, stack);
    while stack != []
      invariant Searching(edge, {}, roots, seen, stack)
      decreases m.nodes.Keys - seen, |stack|
    {
      var id := stack[|stack| - 1];
      ghost var rest, was := stack[..|stack| - 1], seen;
      assert stack == rest + [id];
      stack := stack[..|stack| - 1];
      if id in seen {
        SearchSkips(edge, {}, roots, seen, rest, id);
        continue;
      }
      FewerNodes(m, seen, id);
      seen := seen + {id};
      if id in m.nodes {
        var next := Pushed(m, id);
        stack := stack + next;
      }
      SearchVisits(edge, {}, roots, was, rest, id, stack);
    }
    SearchEnds(edge, {}, roots, seen);
  }

  lemma FewerNodes(m: Metadata, seen: set<string>, id: string)
    requires id !in seen
    ensures id in m.nodes ==> m.nodes.Keys - (seen + {id}) < m.nodes.Keys - seen
    ensures id !in m.nodes ==> m.nodes.Keys - (seen + {id}) == m.nodes.Keys - seen
  {
    if id in m.nodes {
      assert id in m.nodes.Keys - seen && id !in m.nodes.Keys - (seen + {id});
    }
  }

  /** The crates to list, or a package that ships and the metadata lacks. */
  method ShippedCrates(m: Metadata) returns (r: Result<set<(string, string)>, string>)
    ensures r.Ok? <==> forall id | Shipped(m, id) && id !in m.roots :: id in m.packages
    ensures r.Ok? ==> forall crate :: crate in r.value <==> Listed(m, crate)
    ensures r.Ok? ==> forall name, version :: (name, version) in r.value <==>
      exists id :: Shipped(m, id) && id !in m.roots && id in m.packages && !("bifurc-" <= name)
                   && m.packages[id].name == name && m.packages[id].version == version
    ensures r.Err? ==> Shipped(m, r.error) && r.error !in m.roots && r.error !in m.packages
  {
    var seen := Walk(m);
    var crates: set<(string, string)> := {};
    var todo := seen - Roots(m);
    ghost var all := todo;
    while todo != {}
      invariant todo <= all
      invariant forall id | id in all - todo :: id in m.packages
      invariant forall crate | crate in crates :: Listed(m, crate)
      invariant forall id | id in all - todo && id in m.packages && !OwnCrate(m.packages[id].name) ::
                  (m.packages[id].name, m.packages[id].version) in crates
      decreases todo
    {
      var id :| id in todo;
      if id !in m.packages {
        return Err(id);
      }
      var p := m.packages[id];
      if !OwnCrate(p.name) {
        crates := crates + {(p.name, p.version)};
        assert Listed(m, (p.name, p.version));
      }
      todo := todo - {id};
    }
    r := Ok(crates);
  }
}
