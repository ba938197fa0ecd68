/** Reachability by paths, and why a worklist that has run dry has found it. */
module Reachability {

  /** `p` follows `edge` and keeps out of `avoid`. */
  ghost predicate IsPath<T(!new)>(edge: (T, T) -> bool, avoid: set<T>, p: seq<T>) {
    && p != []
    && (forall i | 0 <= i < |p| :: p[i] !in avoid)
    && (forall i | 0 <= i < |p| - 1 :: edge(p[i], p[i + 1]))
  }

  ghost predicate PathTo<T(!new)>(edge: (T, T) -> bool, avoid: set<T>, starts: set<T>, p: seq<T>, x: T) {
    IsPath(edge, avoid, p) && p[0] in starts && p[|p| - 1] == x
  }

  /** Some path from `starts` that keeps out of `avoid` ends at `x`. */
  ghost predicate Reaches<T(!new)>(edge: (T, T) -> bool, avoid: set<T>, starts: set<T>, x: T) {
    exists p :: PathTo(edge, avoid, starts, p, x)
  }

  /** `s` has the starts and, with each of its members, what that leads to; but for what is avoided. */
  ghost predicate Closed<T(!new)>(edge: (T, T) -> bool, avoid: set<T>, starts: set<T>, s: set<T>) {
    && (forall x | x in starts && x !in avoid :: x in s)
    && (forall x, y | x in s && edge(x, y) && y !in avoid :: y in s)
  }

  lemma StartReaches<T(!new)>(edge: (T, T) -> bool, avoid: set<T>, starts: set<T>, x: T)
    requires x in starts && x !in avoid
    ensures Reaches(edge, avoid, starts, x)
  {
    assert PathTo(edge, avoid, starts, [x], x);
  }

  lemma EdgeReaches<T(!new)>(edge: (T, T) -> bool, avoid: set<T>, starts: set<T>, x: T, y: T)
    requires Reaches(edge, avoid, starts, x) && edge(x, y) && y !in avoid
    ensures Reaches(edge, avoid, starts, y)
  {
    var p :| PathTo(edge, avoid, starts, p, x);
    assert PathTo(edge, avoid, starts, p + [y], y);
  }

  /** What is reached is in every closed set. */
  lemma {:induction false} ClosedHasReached<T(!new)>(edge: (T, T) -> bool, avoid: set<T>, starts: set<T>, s: set<T>,
                                                    p: seq<T>, x: T)
    requires Closed(edge, avoid, starts, s) && PathTo(edge, avoid, starts, p, x)
    ensures x in s
    decreases |p|
  {
    if |p| == 1 {
    } else {
      var q := p[..|p| - 1];
      assert q[|q| - 1] == p[|p| - 2];
      assert edge(p[|p| - 2], p[|p| - 2 + 1]);
      assert PathTo(edge, avoid, starts, q, q[|q| - 1]);
      ClosedHasReached(edge, avoid, starts, s, q, q[|q| - 1]);
    }
  }

  /** A set of reached things that is closed is exactly what is reached, and the least closed set. */
  lemma ClosedIsReached<T(!new)>(edge: (T, T) -> bool, avoid: set<T>, starts: set<T>, s: set<T>)
    requires Closed(edge, avoid, starts, s) && forall x | x in s :: Reaches(edge, avoid, starts, x)
    ensures forall x :: x in s <==> Reaches(edge, avoid, starts, x)
    ensures forall t | Closed(edge, avoid, starts, t) :: s <= t
  {
    forall x | Reaches(edge, avoid, starts, x) ensures x in s {
      var p :| PathTo(edge, avoid, starts, p, x);
      ClosedHasReached(edge, avoid, starts, s, p, x);
    }
    forall t | Closed(edge, avoid, starts, t) ensures s <= t {
      forall x | x in s ensures x in t {
        var p :| PathTo(edge, avoid, starts, p, x);
        ClosedHasReached(edge, avoid, starts, t, p, x);
      }
    }
  }

  /** Avoiding less, and starting from as much, reaches no less. */
  lemma ReachesMore<T(!new)>(edge: (T, T) -> bool, avoid: set<T>, less: set<T>, starts: set<T>, x: T)
    requires Reaches(edge, avoid, starts, x) && less <= avoid
    ensures Reaches(edge, less, starts, x)
  {
    var p :| PathTo(edge, avoid, starts, p, x);
    assert PathTo(edge, less, starts, p, x);
  }

  // ---- The worklist ----

  /** A search under way: what is seen or stacked is reached, and what is seen leads to nothing else. */
  ghost predicate Searching<T(!new)>(edge: (T, T) -> bool, avoid: set<T>, starts: set<T>, seen: set<T>, stack: seq<T>) {
    && (forall x | x in seen :: x !in avoid && Reaches(edge, avoid, starts, x))
    && (forall x | x in stack && x !in avoid :: Reaches(edge, avoid, starts, x))
    && (forall x | x in starts && x !in avoid :: x in seen || x in stack)
    && (forall x, y | x in seen && edge(x, y) && y !in avoid :: y in seen || y in stack)
  }

  lemma SearchBegins<T(!new)>(edge: (T, T) -> bool, avoid: set<T>, starts: set<T>, stack: seq<T>)
    requires forall x :: x in stack <==> x in starts
    ensures Searching(edge, avoid, starts, {}, stack)
  {
    forall x | x in stack && x !in avoid ensures Reaches(edge, avoid, starts, x) {
      StartReaches(edge, avoid, starts, x);
    }
  }

  /** What is to be avoided, or was seen, can be dropped. */
  lemma SearchSkips<T(!new)>(edge: (T, T) -> bool, avoid: set<T>, starts: set<T>, seen: set<T>, stack: seq<T>, x: T)
    requires Searching(edge, avoid, starts, seen, stack + [x]) && (x in avoid || x in seen)
    ensures Searching(edge, avoid, starts, seen, stack)
  {
    assert forall y :: y in stack + [x] <==> y in stack || y == x;
  }

  /** What is taken from the stack is seen once all it leads to is on the stack. */
  lemma SearchVisits<T(!new)>(edge: (T, T) -> bool, avoid: set<T>, starts: set<T>, seen: set<T>, stack: seq<T>, x: T,
                              after: seq<T>)
    requires Searching(edge, avoid, starts, seen, stack + [x]) && x !in avoid
    requires forall y :: y in after <==> y in stack || edge(x, y)
    ensures Searching(edge, avoid, starts, seen + {x}, after)
  {
    assert forall y :: y in stack + [x] <==> y in stack || y == x;
    forall y | y in after && y !in avoid ensures Reaches(edge, avoid, starts, y) {
      if edge(x, y) {
        EdgeReaches(edge, avoid, starts, x, y);
      }
    }
  }

  /** A search that has run dry has found what is reached: the least closed set. */
  lemma SearchEnds<T(!new)>(edge: (T, T) -> bool, avoid: set<T>, starts: set<T>, seen: set<T>)
    requires Searching(edge, avoid, starts, seen, [])
    ensures forall x :: x in seen <==> Reaches(edge, avoid, starts, x)
    ensures forall t | Closed(edge, avoid, starts, t) :: seen <= t
  {
    ClosedIsReached(edge, avoid, starts, seen);
  }
}
