/** Edit distance for did-you-mean: the one-row table, the distance it computes, and what that distance is. */
module EditDistance {

  function Min(a: nat, b: nat): nat {
    if a <= b then a else b
  }

  function Cost(x: char, y: char): nat {
    if x != y then 1 else 0
  }

  /** The distance by its recurrence on the last characters. */
  function Distance(a: string, b: string): nat
    decreases |a| + |b|
  {
    if a == [] then |b|
    else if b == [] then |a|
    else
      var a', b' := a[..|a| - 1], b[..|b| - 1];
      Min(Min(Distance(a', b') + Cost(a[|a| - 1], b[|b| - 1]), Distance(a', b) + 1), Distance(a, b') + 1)
  }

  // ---- The loop ----

  /** The table: the distance of the first `i` characters of `a` and the first `j` of `b`. */
  ghost function Cell(a: string, b: string, i: nat, j: nat): nat
    requires i <= |a| && j <= |b|
  {
    Distance(a[..i], b[..j])
  }

  lemma CellStep(a: string, b: string, i: nat, j: nat)
    requires i < |a| && j < |b|
    ensures Cell(a, b, i + 1, j + 1)
         == Min(Min(Cell(a, b, i, j) + Cost(a[i], b[j]), Cell(a, b, i, j + 1) + 1), Cell(a, b, i + 1, j) + 1)
  {
    assert a[..i + 1][..i] == a[..i] && b[..j + 1][..j] == b[..j];
  }

  lemma CellEdges(a: string, b: string, i: nat, j: nat)
    requires i <= |a| && j <= |b|
    ensures Cell(a, b, i, 0) == i && Cell(a, b, 0, j) == j
  {
  }

  lemma FirstRow(a: string, b: string)
    ensures forall j | 0 <= j <= |b| :: Cell(a, b, 0, j) == j
  {
    forall j | 0 <= j <= |b| ensures Cell(a, b, 0, j) == j {
      CellEdges(a, b, 0, j);
    }
  }

  lemma LastCell(a: string, b: string)
    ensures Cell(a, b, |a|, |b|) == Distance(a, b)
  {
    assert a[..|a|] == a && b[..|b|] == b;
  }

  /** The distance with one row of the table, overwritten in place. */
  method Levenshtein(a: string, b: string) returns (d: nat)
    ensures d == Distance(a, b)
  {
    var row := new nat[|b| + 1](j => j);
    FirstRow(a, b);
    var i := 0;
    while i < |a|
      invariant 0 <= i <= |a|
      invariant forall k | 0 <= k <= |b| :: row[k] == Cell(a, b, i, k)
    {
      var diag := row[0];
      row[0] := i + 1;
      CellEdges(a, b, i + 1, 0);
      var j := 0;
      while j < |b|
        invariant 0 <= j <= |b|
        invariant diag == Cell(a, b, i, j)
        invariant forall k | 0 <= k <= j :: row[k] == Cell(a, b, i + 1, k)
        invariant forall k | j < k <= |b| :: row[k] == Cell(a, b, i, k)
      {
        var up := row[j + 1];
        CellStep(a, b, i, j);
        row[j + 1] := Min(Min(diag + Cost(a[i], b[j]), up + 1), row[j] + 1);
        diag := up;
        j := j + 1;
      }
      i := i + 1;
    }
    LastCell(a, b);
    d := row[|b|];
  }

  // ---- A metric ----

  lemma {:induction false} ZeroIffEqual(a: string, b: string)
    ensures Distance(a, b) == 0 <==> a == b
    decreases |a| + |b|
  {
    if a != [] && b != [] {
      ZeroIffEqual(a[..|a| - 1], b[..|b| - 1]);
      assert a == a[..|a| - 1] + [a[|a| - 1]] && b == b[..|b| - 1] + [b[|b| - 1]];
    }
  }

  lemma {:induction false} Symmetric(a: string, b: string)
    ensures Distance(a, b) == Distance(b, a)
    decreases |a| + |b|
  {
    if a != [] && b != [] {
      Symmetric(a[..|a| - 1], b[..|b| - 1]);
      Symmetric(a[..|a| - 1], b);
      Symmetric(a, b[..|b| - 1]);
    }
  }

  /** No fewer edits than the lengths differ by, and no more than both together. */
  lemma {:induction false} LengthBounds(a: string, b: string)
    ensures |a| <= Distance(a, b) + |b| && |b| <= Distance(a, b) + |a|
    ensures Distance(a, b) <= |a| + |b|
    decreases |a| + |b|
  {
    if a != [] && b != [] {
      LengthBounds(a[..|a| - 1], b[..|b| - 1]);
      LengthBounds(a[..|a| - 1], b);
      LengthBounds(a, b[..|b| - 1]);
    }
  }

  lemma {:induction false} Triangle(a: string, b: string, c: string)
    ensures Distance(a, c) <= Distance(a, b) + Distance(b, c)
    decreases |a| + |b| + |c|
  {
    LengthBounds(a, b);
    LengthBounds(b, c);
    LengthBounds(a, c);
    if a != [] && b != [] && c != [] {
      var a', b', c' := a[..|a| - 1], b[..|b| - 1], c[..|c| - 1];
      Triangle(a', b, c);
      Triangle(a, b, c');
      Triangle(a', b', c');
      Triangle(a, b', c');
      Triangle(a', b', c);
      Triangle(a, b', c);
    }
  }

  // ---- The number of edits ----

  /** `b` is `a` with one character inserted, deleted or replaced. */
  ghost predicate OneEdit(a: string, b: string) {
    exists pre: string, post: string, x: string, y: string {:trigger pre + x + post, pre + y + post} ::
      a == pre + x + post && b == pre + y + post && |x| <= 1 && |y| <= 1 && x != y
  }

  /** `n` edits, one after the other, turn `a` into `b`. */
  ghost predicate Edits(a: string, b: string, n: nat)
    decreases n
  {
    if n == 0 then a == b else exists m :: OneEdit(a, m) && Edits(m, b, n - 1)
  }

  lemma EditAppended(a: string, b: string, z: string)
    requires OneEdit(a, b)
    ensures OneEdit(a + z, b + z)
  {
    var pre, post, x, y :| a == pre + x + post && b == pre + y + post && |x| <= 1 && |y| <= 1 && x != y;
    assert a + z == pre + x + (post + z) && b + z == pre + y + (post + z);
  }

  lemma {:induction false} EditsAppended(a: string, b: string, n: nat, z: string)
    requires Edits(a, b, n)
    ensures Edits(a + z, b + z, n)
    decreases n
  {
    if n == 0 {
    } else {
      var m :| OneEdit(a, m) && Edits(m, b, n - 1);
      EditAppended(a, m, z);
      EditsAppended(m, b, n - 1, z);
    }
  }

  /** One more edit at the end. */
  lemma {:induction false} EditsThenOne(a: string, b: string, n: nat, c: string)
    requires Edits(a, b, n) && OneEdit(b, c)
    ensures Edits(a, c, n + 1)
    decreases n
  {
    if n == 0 {
      assert Edits(c, c, 0);
    } else {
      var m :| OneEdit(a, m) && Edits(m, b, n - 1);
      EditsThenOne(m, b, n - 1, c);
    }
  }

  lemma OneEditAt(pre: string, x: string, y: string)
    requires |x| <= 1 && |y| <= 1 && x != y
    ensures OneEdit(pre + x, pre + y)
  {
    assert pre + x == pre + x + [] && pre + y == pre + y + [];
  }

  lemma LastAdded(a: string, b: string, c: char, n: nat)
    requires Edits(a, b, n)
    ensures Edits(a, b + [c], n + 1)
  {
    OneEditAt(b, [], [c]);
    assert b + [] == b;
    EditsThenOne(a, b, n, b + [c]);
  }

  lemma LastRemoved(a: string, c: char, b: string, n: nat)
    requires Edits(a, b, n)
    ensures Edits(a + [c], b, n + 1)
  {
    OneEditAt(a, [c], []);
    assert a + [] == a;
  }

  lemma LastReplaced(a: string, x: char, b: string, y: char, n: nat)
    requires Edits(a, b, n)
    ensures Edits(a + [x], b + [y], n + Cost(x, y))
  {
    EditsAppended(a, b, n, [x]);
    if x != y {
      OneEditAt(b, [x], [y]);
      EditsThenOne(a + [x], b + [x], n, b + [y]);
    }
  }

  /** As many edits as the distance says are enough. */
  lemma {:induction false} Reachable(a: string, b: string)
    ensures Edits(a, b, Distance(a, b))
    decreases |a| + |b|
  {
    if a == [] && b == [] {
    } else if a == [] || (b != [] && Distance(a, b) == Distance(a, b[..|b| - 1]) + 1) {
      Reachable(a, b[..|b| - 1]);
      LastAdded(a, b[..|b| - 1], b[|b| - 1], Distance(a, b[..|b| - 1]));
      Last(b);
    } else if b == [] || Distance(a, b) == Distance(a[..|a| - 1], b) + 1 {
      Reachable(a[..|a| - 1], b);
      LastRemoved(a[..|a| - 1], a[|a| - 1], b, Distance(a[..|a| - 1], b));
      Last(a);
    } else {
      var a', b' := a[..|a| - 1], b[..|b| - 1];
      Reachable(a', b');
      LastReplaced(a', a[|a| - 1], b', b[|b| - 1], Distance(a', b'));
      Last(a);
      Last(b);
    }
  }

  lemma Last(s: string)
    requires s != []
    ensures s[..|s| - 1] + [s[|s| - 1]] == s
  {
  }

  lemma {:induction false} OneEditIsClose(pre: string, post: string, x: string, y: string)
    requires |x| <= 1 && |y| <= 1
    ensures Distance(pre + x + post, pre + y + post) <= 1
    decreases |pre| + |post|
  {
    if post != [] {
      var front, c := post[..|post| - 1], post[|post| - 1];
      OneEditIsClose(pre, front, x, y);
      Last(post);
      MoveLast(pre + x, front, c);
      MoveLast(pre + y, front, c);
      SameLastIsNoFurther(pre + x + front, pre + y + front, c);
    } else {
      assert pre + x + [] == pre + x && pre + y + [] == pre + y;
      LastEditIsClose(pre, x, y);
    }
  }

  lemma MoveLast(a: string, b: string, c: char)
    ensures a + (b + [c]) == a + b + [c]
  {
  }

  /** The same character at the end of both takes them no further apart. */
  lemma SameLastIsNoFurther(a: string, b: string, c: char)
    ensures Distance(a + [c], b + [c]) <= Distance(a, b)
  {
    assert (a + [c])[..|a|] == a && (b + [c])[..|b|] == b;
  }

  lemma LastEditIsClose(pre: string, x: string, y: string)
    requires |x| <= 1 && |y| <= 1
    ensures Distance(pre + x, pre + y) <= 1
  {
    AtMostOne(pre, x);
    AtMostOne(pre, y);
    if x == [] && y == [] {
      ZeroIffEqual(pre, pre);
    } else if x == [] {
      OneMoreIsClose(pre, y[0]);
    } else if y == [] {
      OneMoreIsClose(pre, x[0]);
    } else {
      OneOtherIsClose(pre, x[0], y[0]);
    }
  }

  lemma AtMostOne(pre: string, x: string)
    requires |x| <= 1
    ensures pre + x == if x == [] then pre else pre + [x[0]]
  {
  }

  lemma OneMoreIsClose(pre: string, c: char)
    ensures Distance(pre + [c], pre) <= 1 && Distance(pre, pre + [c]) <= 1
  {
    ZeroIffEqual(pre, pre);
    assert (pre + [c])[..|pre|] == pre;
  }

  lemma OneOtherIsClose(pre: string, c: char, d: char)
    ensures Distance(pre + [c], pre + [d]) <= 1
  {
    ZeroIffEqual(pre, pre);
    assert (pre + [c])[..|pre|] == pre && (pre + [d])[..|pre|] == pre;
  }

  lemma OneEditDistance(a: string, b: string)
    requires OneEdit(a, b)
    ensures Distance(a, b) <= 1
  {
    var pre, post, x, y :| a == pre + x + post && b == pre + y + post && |x| <= 1 && |y| <= 1 && x != y;
    OneEditIsClose(pre, post, x, y);
  }

  /** And no fewer are: each edit comes at most one closer. */
  lemma {:induction false} NoFewerEdits(a: string, b: string, n: nat)
    requires Edits(a, b, n)
    ensures Distance(a, b) <= n
    decreases n
  {
    if n == 0 {
      ZeroIffEqual(a, b);
    } else {
      var m :| OneEdit(a, m) && Edits(m, b, n - 1);
      OneEditDistance(a, m);
      NoFewerEdits(m, b, n - 1);
      Triangle(a, m, b);
    }
  }

  /** The distance is the least number of insertions, deletions and replacements. */
  lemma DistanceIsLeastEdits(a: string, b: string)
    ensures Edits(a, b, Distance(a, b))
    ensures forall n: nat :: Edits(a, b, n) ==> Distance(a, b) <= n
  {
    Reachable(a, b);
    forall n: nat | Edits(a, b, n) ensures Distance(a, b) <= n {
      NoFewerEdits(a, b, n);
    }
  }
}
