/** The row a user names: five ways to match, tried in order, and the names suggested when none does. */
module NameLookup {
  import opened Wrappers
  import opened EditDistance

  /** What the lookup reads of a row: its id, and its names under the keys asked for. */
  datatype Row = Row(id: Option<string>, names: seq<string>)

  datatype Refusal = Ambiguous(step: nat, hits: seq<nat>) | NotFound(suggested: seq<string>)

  // ---- The five steps ----

  predicate Prefix(s: string, prefix: string) {
    prefix <= s
  }

  predicate Contains(s: string, part: string) {
    exists i :: 0 <= i <= |s| && Prefix(s[i..], part)
  }

  /** Whether `row` matches `wanted` at `step`; `lower` is the lower-case mapping. */
  predicate Matches(step: nat, row: Row, wanted: string, lower: string -> string) {
    match step
    case 0 => row.id == Some(wanted)
    case 1 => exists i :: 0 <= i < |row.names| && row.names[i] == wanted
    case 2 => exists i :: 0 <= i < |row.names| && lower(row.names[i]) == lower(wanted)
    case 3 => exists i :: 0 <= i < |row.names| && Prefix(lower(row.names[i]), lower(wanted))
    case _ => |wanted| >= 4 && row.id.Some? && Prefix(row.id.value, wanted)
  }

  predicate AnyMatch(step: nat, rows: seq<Row>, wanted: string, lower: string -> string) {
    exists i :: 0 <= i < |rows| && Matches(step, rows[i], wanted, lower)
  }

  /** `step` is the first one at which any row matches. */
  predicate FirstStep(step: nat, rows: seq<Row>, wanted: string, lower: string -> string) {
    && step < 5 && AnyMatch(step, rows, wanted, lower)
    && forall earlier: nat | earlier < step :: !AnyMatch(earlier, rows, wanted, lower)
  }

  /** `hits` lists exactly the rows that match at `step`, in order. */
  ghost predicate AreHits(hits: seq<nat>, step: nat, rows: seq<Row>, wanted: string, lower: string -> string) {
    && (forall k, l | 0 <= k < l < |hits| :: hits[k] < hits[l])
    && (forall i: nat :: i in hits <==> i < |rows| && Matches(step, rows[i], wanted, lower))
  }

  // ---- The suggestions ----

  /** The order of strings: by code points, a prefix first. */
  predicate StrLess(a: string, b: string) {
    b != [] && (a == [] || a[0] < b[0] || (a[0] == b[0] && StrLess(a[1..], b[1..])))
  }

  lemma {:induction false} StrLessTotal(a: string, b: string)
    ensures a == b || StrLess(a, b) || StrLess(b, a)
    ensures !(StrLess(a, b) && StrLess(b, a)) && (StrLess(a, b) ==> a != b)
    decreases |a|
  {
    if a != [] && b != [] {
      StrLessTotal(a[1..], b[1..]);
      assert a == [a[0]] + a[1..] && b == [b[0]] + b[1..];
    }
  }

  lemma {:induction false} StrLessTransitive(a: string, b: string, c: string)
    requires StrLess(a, b) && StrLess(b, c)
    ensures StrLess(a, c)
    decreases |a|
  {
    if a != [] && b != [] && c != [] && a[0] == b[0] == c[0] {
      StrLessTransitive(a[1..], b[1..], c[1..]);
    }
  }

  /** A candidate: its distance, then the name. */
  type Close = (nat, string)

  predicate Less(x: Close, y: Close) {
    x.0 < y.0 || (x.0 == y.0 && StrLess(x.1, y.1))
  }

  lemma LessTotal(x: Close, y: Close)
    ensures x == y || Less(x, y) || Less(y, x)
    ensures !(Less(x, y) && Less(y, x)) && (Less(x, y) ==> x != y)
  {
    StrLessTotal(x.1, y.1);
  }

  lemma LessTransitive(x: Close, y: Close, z: Close)
    requires Less(x, y) && Less(y, z)
    ensures Less(x, z)
  {
    if x.0 == y.0 == z.0 {
      StrLessTransitive(x.1, y.1, z.1);
    }
  }

  predicate Sorted(s: seq<Close>) {
    forall i, j | 0 <= i < j < |s| :: s[i] == s[j] || Less(s[i], s[j])
  }

  predicate StrictlySorted(s: seq<Close>) {
    forall i, j | 0 <= i < j < |s| :: Less(s[i], s[j])
  }

  lemma SortedCons(x: Close, s: seq<Close>)
    requires Sorted(s) && forall y | y in s :: x == y || Less(x, y)
    ensures Sorted([x] + s)
  {
  }

  lemma LeastOfSorted(x: Close, s: seq<Close>)
    requires Sorted(s) && (s == [] || x == s[0] || Less(x, s[0]))
    ensures forall y | y in s :: x == y || Less(x, y)
  {
    forall y | y in s ensures x == y || Less(x, y) {
      var i :| 0 <= i < |s| && s[i] == y;
      if x != s[0] && s[0] != y {
        LessTransitive(x, s[0], y);
      }
    }
  }

  function Insert(x: Close, s: seq<Close>): (r: seq<Close>)
    requires Sorted(s)
    ensures Sorted(r) && multiset(r) == multiset(s) + multiset{x}
  {
    if s == [] || x == s[0] || Less(x, s[0]) then
      LeastOfSorted(x, s);
      SortedCons(x, s);
      [x] + s
    else
      var rest := Insert(x, s[1..]);
      assert s == [s[0]] + s[1..];
      LessTotal(x, s[0]);
      LeastOfSorted(s[0], s[1..]);
      assert forall y | y in rest :: y in multiset(rest);
      SortedCons(s[0], rest);
      [s[0]] + rest
  }

  /** `sort`: by distance, then name. */
  function Sort(s: seq<Close>): (r: seq<Close>)
    ensures Sorted(r) && multiset(r) == multiset(s)
  {
    if s == [] then [] else
      assert s == [s[0]] + s[1..];
      Insert(s[0], Sort(s[1..]))
  }

  /** `dedup_by` on the names: only a neighbour is removed. */
  function Dedup(s: seq<Close>): seq<Close>
    decreases |s|
  {
    if |s| <= 1 then s
    else if s[0].1 == s[1].1 then Dedup([s[0]] + s[2..])
    else [s[0]] + Dedup(s[1..])
  }

  /** The distance is the name's own. */
  predicate ByName(s: seq<Close>) {
    forall i, j | 0 <= i < |s| && 0 <= j < |s| && s[i].1 == s[j].1 :: s[i] == s[j]
  }

  /** Removing neighbours is enough in a sorted list. */
  lemma {:induction false} DedupDistinct(s: seq<Close>)
    requires Sorted(s) && ByName(s)
    ensures StrictlySorted(Dedup(s))
    ensures forall x :: x in Dedup(s) <==> x in s
    decreases |s|
  {
    if |s| <= 1 {
    } else if s[0].1 == s[1].1 {
      assert s[0] == s[1] && [s[0]] + s[2..] == s[1..];
      DedupDistinct(s[1..]);
    } else {
      DedupDistinct(s[1..]);
      var rest := Dedup(s[1..]);
      forall x | x in rest ensures Less(s[0], x) {
        var k :| 0 <= k < |s[1..]| && s[1..][k] == x;
        if k > 0 && s[1] != x { LessTransitive(s[0], s[1], x); }
      }
    }
  }

  /** How far `name` is from what was asked for, whatever the case. */
  function Far(name: string, wanted: string, lower: string -> string): nat {
    Distance(lower(name), lower(wanted))
  }

  predicate IsClose(name: string, wanted: string, lower: string -> string) {
    var n := |lower(wanted)| / 4;
    Far(name, wanted, lower) <= (if n < 2 then 2 else n) || Contains(lower(name), lower(wanted))
  }

  predicate Candidate(name: string, rows: seq<Row>, wanted: string, lower: string -> string) {
    IsClose(name, wanted, lower) && exists i :: 0 <= i < |rows| && name in rows[i].names
  }

  /** The suggestions: candidates, each one once, at most three, the nearest first and by name among equals; a
      candidate left out is behind three that are not. */
  ghost predicate Suggests(names: seq<string>, rows: seq<Row>, wanted: string, lower: string -> string) {
    && |names| <= 3
    && (forall k | 0 <= k < |names| :: Candidate(names[k], rows, wanted, lower))
    && (forall k, l | 0 <= k < l < |names| :: names[k] != names[l])
    && (forall k, l | 0 <= k < l < |names| ::
          Less((Far(names[k], wanted, lower), names[k]), (Far(names[l], wanted, lower), names[l])))
    && (forall n | Candidate(n, rows, wanted, lower) && n !in names ::
          |names| == 3 && Less((Far(names[2], wanted, lower), names[2]), (Far(n, wanted, lower), n)))
  }

  /** The close names of every row, in order, with their distances. */
  method Closest(rows: seq<Row>, wanted: string, lower: string -> string) returns (names: seq<string>)
    ensures Suggests(names, rows, wanted, lower)
  {
    var close: seq<Close> := [];
    var i := 0;
    while i < |rows|
      invariant 0 <= i <= |rows|
      invariant forall c | c in close :: c.0 == Far(c.1, wanted, lower) && Candidate(c.1, rows[..i], wanted, lower)
      invariant forall n | Candidate(n, rows[..i], wanted, lower) :: (Far(n, wanted, lower), n) in close
    {
      var j := 0;
      ghost var before := close;
      while j < |rows[i].names|
        invariant 0 <= j <= |rows[i].names|
        invariant forall c | c in before :: c in close
        invariant forall c | c in close && c !in before ::
                    c.0 == Far(c.1, wanted, lower) && IsClose(c.1, wanted, lower) && c.1 in rows[i].names[..j]
        invariant forall n | n in rows[i].names[..j] && IsClose(n, wanted, lower) :: (Far(n, wanted, lower), n) in close
      {
        var n := rows[i].names[j];
        var d := Levenshtein(lower(n), lower(wanted));
        if IsClose(n, wanted, lower) {
          close := close + [(d, n)];
        }
        j := j + 1;
      }
      assert rows[i].names[..j] == rows[i].names;
      CandidatesGrow(rows, i, wanted, lower);
      i := i + 1;
    }
    assert rows[..i] == rows;
    names := BestThree(close, rows, wanted, lower);
  }

  /** Sorted, without repeats, and cut off after three. */
  method BestThree(close: seq<Close>, rows: seq<Row>, wanted: string, lower: string -> string)
      returns (names: seq<string>)
    requires forall c | c in close :: c.0 == Far(c.1, wanted, lower) && Candidate(c.1, rows, wanted, lower)
    requires forall n | Candidate(n, rows, wanted, lower) :: (Far(n, wanted, lower), n) in close
    ensures Suggests(names, rows, wanted, lower)
  {
    var sorted := Sort(close);
    var deduped := Dedup(sorted);
    SameMembers(close);
    DedupDistinct(sorted);
    var first := if |deduped| <= 3 then deduped else deduped[..3];
    names := seq(|first|, k requires 0 <= k < |first| => first[k].1);
    FirstThree(deduped, first, names, rows, wanted, lower);
  }

  lemma SameMembers(s: seq<Close>)
    ensures forall x :: x in Sort(s) <==> x in s
  {
    forall x ensures x in Sort(s) <==> x in s {
      assert x in multiset(Sort(s)) <==> x in multiset(s);
    }
  }

  lemma CandidatesGrow(rows: seq<Row>, i: nat, wanted: string, lower: string -> string)
    requires i < |rows|
    ensures forall n :: Candidate(n, rows[..i + 1], wanted, lower)
              <==> Candidate(n, rows[..i], wanted, lower) || (IsClose(n, wanted, lower) && n in rows[i].names)
  {
    forall n ensures Candidate(n, rows[..i + 1], wanted, lower)
              <==> Candidate(n, rows[..i], wanted, lower) || (IsClose(n, wanted, lower) && n in rows[i].names)
    {
      if IsClose(n, wanted, lower) && n in rows[i].names {
        assert n in rows[..i + 1][i].names;
      }
      if Candidate(n, rows[..i], wanted, lower) {
        var k :| 0 <= k < i && n in rows[..i][k].names;
        assert n in rows[..i + 1][k].names;
      }
    }
  }

  lemma FirstThree(all: seq<Close>, first: seq<Close>, names: seq<string>, rows: seq<Row>, wanted: string,
                   lower: string -> string)
    requires StrictlySorted(all) && first == if |all| <= 3 then all else all[..3]
    requires |names| == |first| && forall k | 0 <= k < |first| :: names[k] == first[k].1
    requires forall c | c in all :: c.0 == Far(c.1, wanted, lower) && Candidate(c.1, rows, wanted, lower)
    requires forall n | Candidate(n, rows, wanted, lower) :: (Far(n, wanted, lower), n) in all
    ensures Suggests(names, rows, wanted, lower)
  {
    forall k | 0 <= k < |names| ensures first[k] == (Far(names[k], wanted, lower), names[k]) && first[k] in all {
      assert first[k] == all[k];
    }
    forall k, l | 0 <= k < l < |names| ensures names[k] != names[l] && Less(first[k], first[l]) {
      assert Less(all[k], all[l]);
      LessTotal(first[k], first[l]);
    }
    forall n | Candidate(n, rows, wanted, lower) && n !in names
      ensures |names| == 3 && Less((Far(names[2], wanted, lower), names[2]), (Far(n, wanted, lower), n))
    {
      LeftOut(all, first, names, (Far(n, wanted, lower), n));
    }
  }

  /** What is cut off is behind the three that are kept. */
  lemma LeftOut(all: seq<Close>, first: seq<Close>, names: seq<string>, c: Close)
    requires StrictlySorted(all) && first == if |all| <= 3 then all else all[..3]
    requires |names| == |first| && forall k | 0 <= k < |names| :: names[k] == first[k].1
    requires c in all && c.1 !in names
    ensures |first| == 3 && Less(first[2], c)
  {
    var m :| 0 <= m < |all| && all[m] == c;
    assert forall k | 0 <= k < |names| :: names[k] in names && all[k] == first[k];
    assert m >= |first|;
    assert Less(all[2], all[m]);
  }

  // ---- The lookup ----

  /** What the lookup has to answer: the row, when it is the only one at the first step with any; the rows, when
      there are several; the suggestions, when no step has any. */
  ghost predicate IsAnswer(r: Result<nat, Refusal>, rows: seq<Row>, wanted: string, lower: string -> string) {
    match r
    case Ok(i) =>
      i < |rows| && exists step: nat :: FirstStep(step, rows, wanted, lower) && AreHits([i], step, rows, wanted, lower)
    case Err(Ambiguous(step, hits)) =>
      |hits| >= 2 && FirstStep(step, rows, wanted, lower) && AreHits(hits, step, rows, wanted, lower)
    case Err(NotFound(names)) =>
      (forall step: nat | step < 5 :: !AnyMatch(step, rows, wanted, lower)) && Suggests(names, rows, wanted, lower)
  }

  /** The one row `wanted` names. */
  method FindOne(rows: seq<Row>, wanted: string, lower: string -> string) returns (r: Result<nat, Refusal>)
    ensures IsAnswer(r, rows, wanted, lower)
  {
    var step := 0;
    while step < 5
      invariant 0 <= step <= 5
      invariant forall earlier: nat | earlier < step :: !AnyMatch(earlier, rows, wanted, lower)
    {
      var hits: seq<nat> := [];
      var i := 0;
      while i < |rows|
        invariant 0 <= i <= |rows|
        invariant forall k, l | 0 <= k < l < |hits| :: hits[k] < hits[l]
        invariant forall k | 0 <= k < |hits| :: hits[k] < i
        invariant forall k: nat :: k in hits <==> k < i && Matches(step, rows[k], wanted, lower)
      {
        if Matches(step, rows[i], wanted, lower) {
          hits := hits + [i];
        }
        i := i + 1;
      }
      assert AreHits(hits, step, rows, wanted, lower);
      if |hits| > 0 {
        assert hits[0] in hits;
        assert FirstStep(step, rows, wanted, lower);
      }
      if |hits| == 1 {
        assert hits == [hits[0]];
        return Ok(hits[0]);
      }
      if |hits| > 1 {
        return Err(Ambiguous(step, hits));
      }
      step := step + 1;
    }
    var names := Closest(rows, wanted, lower);
    r := Err(NotFound(names));
  }

  lemma {:induction false} SameAscending(a: seq<nat>, b: seq<nat>)
    requires forall k, l | 0 <= k < l < |a| :: a[k] < a[l]
    requires forall k, l | 0 <= k < l < |b| :: b[k] < b[l]
    requires forall x: nat :: x in a <==> x in b
    ensures a == b
    decreases |a|
  {
    if a == [] {
      assert forall k | 0 <= k < |b| :: b[k] in b;
    } else {
      assert a[0] in a && a[0] in b;
      assert b[0] in b && b[0] in a;
      forall x: nat ensures x in a[1..] <==> x in b[1..] {
        assert x in a <==> x == a[0] || x in a[1..];
        assert x in b <==> x == b[0] || x in b[1..];
      }
      SameAscending(a[1..], b[1..]);
      assert a == [a[0]] + a[1..] && b == [b[0]] + b[1..];
    }
  }

  /** The `k`-th suggestion, when the ones before it agree. */
  lemma SameSuggestion(a: seq<string>, b: seq<string>, k: nat, rows: seq<Row>, wanted: string, lower: string -> string)
    requires Suggests(a, rows, wanted, lower) && Suggests(b, rows, wanted, lower)
    requires k < |a| && k <= |b| && a[..k] == b[..k]
    ensures k < |b| && a[k] == b[k]
  {
    assert forall j | 0 <= j < k :: a[j] == a[..k][j] && b[j] == b[..k][j];
    ghost var here := a[k];
    assert k == |b| ==> here !in b;
    Behind(a, b, k, rows, wanted, lower);
    Behind(b, a, k, rows, wanted, lower);
    LessTotal((Far(a[k], wanted, lower), a[k]), (Far(b[k], wanted, lower), b[k]));
  }

  /** No name of `b` from position `k` on comes before `a[k]`. */
  lemma Behind(a: seq<string>, b: seq<string>, k: nat, rows: seq<Row>, wanted: string, lower: string -> string)
    requires Suggests(a, rows, wanted, lower) && Suggests(b, rows, wanted, lower)
    requires k < |a| && k < |b| && forall j | 0 <= j < k :: a[j] == b[j]
    ensures !Less((Far(b[k], wanted, lower), b[k]), (Far(a[k], wanted, lower), a[k]))
  {
    var x, y := (Far(a[k], wanted, lower), a[k]), (Far(b[k], wanted, lower), b[k]);
    LessTotal(x, y);
    if b[k] in a {
      var j :| 0 <= j < |a| && a[j] == b[k];
      assert j >= k;
      assert j > k ==> Less(x, y);
    } else {
      var z := (Far(a[2], wanted, lower), a[2]);
      assert Less(z, y);
      if k < 2 {
        LessTransitive(x, z, y);
      }
    }
  }

  lemma {:induction false} SameSuggestions(a: seq<string>, b: seq<string>, k: nat, rows: seq<Row>, wanted: string,
                                           lower: string -> string)
    requires Suggests(a, rows, wanted, lower) && Suggests(b, rows, wanted, lower)
    requires k <= |a| && k <= |b| && a[..k] == b[..k]
    ensures a == b
    decreases |a| - k
  {
    if k < |a| {
      SameSuggestion(a, b, k, rows, wanted, lower);
      assert a[..k + 1] == a[..k] + [a[k]] && b[..k + 1] == b[..k] + [b[k]];
      SameSuggestions(a, b, k + 1, rows, wanted, lower);
    } else if k < |b| {
      SameSuggestion(b, a, k, rows, wanted, lower);
    } else {
      assert a[..k] == a && b[..k] == b;
    }
  }

  /** The rows leave no choice: two answers that meet `IsAnswer` are the same, suggestions and their order
      included. */
  lemma AnswerIsUnique(a: Result<nat, Refusal>, b: Result<nat, Refusal>, rows: seq<Row>, wanted: string,
                       lower: string -> string)
    requires IsAnswer(a, rows, wanted, lower) && IsAnswer(b, rows, wanted, lower)
    ensures a == b
  {
    if a.Err? && a.error.NotFound? {
      assert b.Err? && b.error.NotFound?;
      SameSuggestions(a.error.suggested, b.error.suggested, 0, rows, wanted, lower);
    } else {
      var s := StepOf(a, rows, wanted, lower);
      var t := StepOf(b, rows, wanted, lower);
      assert s == t;
      SameAscending(HitsOf(a), HitsOf(b));
    }
  }

  function HitsOf(r: Result<nat, Refusal>): seq<nat> {
    match r
    case Ok(i) => [i]
    case Err(Ambiguous(_, hits)) => hits
    case Err(NotFound(_)) => []
  }

  lemma StepOf(r: Result<nat, Refusal>, rows: seq<Row>, wanted: string, lower: string -> string) returns (step: nat)
    requires IsAnswer(r, rows, wanted, lower) && exists s: nat :: s < 5 && AnyMatch(s, rows, wanted, lower)
    ensures FirstStep(step, rows, wanted, lower) && AreHits(HitsOf(r), step, rows, wanted, lower)
    ensures r.Err? ==> r.error.Ambiguous? && r.error.step == step
  {
    if r.Ok? {
      step :| FirstStep(step, rows, wanted, lower) && AreHits([r.value], step, rows, wanted, lower);
    } else {
      step := r.error.step;
    }
  }

  /** The full id of a row always finds it, whatever the names are, when no other row has it. */
  lemma FullIdWins(rows: seq<Row>, wanted: string, lower: string -> string, i: nat)
    requires i < |rows| && rows[i].id == Some(wanted)
    requires forall k | 0 <= k < |rows| && rows[k].id == Some(wanted) :: k == i
    ensures IsAnswer(Ok(i), rows, wanted, lower)
  {
    assert Matches(0, rows[i], wanted, lower);
    assert FirstStep(0, rows, wanted, lower) && AreHits([i], 0, rows, wanted, lower);
  }
}
