/** What the lookup answers, said of the rows' own ids and names. */
module NameLaws {
  import opened Wrappers
  import opened EditDistance
  import opened NameLookup

  // ---- Five ways a row can be meant ----

  predicate HasId(row: Row, wanted: string) {
    row.id == Some(wanted)
  }

  predicate IsNamed(row: Row, wanted: string) {
    wanted in row.names
  }

  predicate IsNamedInAnyCase(row: Row, wanted: string, lower: string -> string) {
    exists name :: name in row.names && lower(name) == lower(wanted)
  }

  /** `s` has the characters of `start` first. */
  predicate StartsWith(s: string, start: string) {
    |start| <= |s| && forall k | 0 <= k < |start| :: s[k] == start[k]
  }

  predicate NameStarts(row: Row, wanted: string, lower: string -> string) {
    exists name :: name in row.names && StartsWith(lower(name), lower(wanted))
  }

  predicate IdStarts(row: Row, wanted: string) {
    |wanted| >= 4 && row.id.Some? && StartsWith(row.id.value, wanted)
  }

  predicate Meant(way: nat, row: Row, wanted: string, lower: string -> string) {
    if way == 0 then HasId(row, wanted)
    else if way == 1 then IsNamed(row, wanted)
    else if way == 2 then IsNamedInAnyCase(row, wanted, lower)
    else if way == 3 then NameStarts(row, wanted, lower)
    else IdStarts(row, wanted)
  }

  lemma StartsWithIs(s: string, start: string)
    ensures StartsWith(s, start) <==> Prefix(s, start)
  {
    if StartsWith(s, start) {
      assert s[..|start|] == start;
    }
  }

  lemma MeantIs(way: nat, row: Row, wanted: string, lower: string -> string)
    requires way < 5
    ensures Matches(way, row, wanted, lower) <==> Meant(way, row, wanted, lower)
  {
    forall name | name in row.names
      ensures StartsWith(lower(name), lower(wanted)) <==> Prefix(lower(name), lower(wanted))
    {
      StartsWithIs(lower(name), lower(wanted));
    }
    if row.id.Some? {
      StartsWithIs(row.id.value, wanted);
    }
    if way == 2 || way == 3 {
      NameOrPlace(way, row, wanted, lower);
    }
  }

  lemma NameOrPlace(way: nat, row: Row, wanted: string, lower: string -> string)
    requires way == 2 || way == 3
    requires forall name | name in row.names ::
      StartsWith(lower(name), lower(wanted)) <==> Prefix(lower(name), lower(wanted))
    ensures Matches(way, row, wanted, lower) <==> Meant(way, row, wanted, lower)
  {
    if Matches(way, row, wanted, lower) {
      var i :| 0 <= i < |row.names|
            && if way == 2 then lower(row.names[i]) == lower(wanted) else Prefix(lower(row.names[i]), lower(wanted));
      assert row.names[i] in row.names;
    }
    if Meant(way, row, wanted, lower) {
      var name :| name in row.names
               && if way == 2 then lower(name) == lower(wanted) else StartsWith(lower(name), lower(wanted));
      var i :| 0 <= i < |row.names| && row.names[i] == name;
    }
  }

  // ---- The answer ----

  function MeantRows(way: nat, rows: seq<Row>, wanted: string, lower: string -> string): set<nat> {
    set i: nat | i < |rows| && Meant(way, rows[i], wanted, lower)
  }

  /** The rows meant the first way that any row is: by id, else by name, else by name whatever the case, else by the
      start of a name, else by the start of an id. */
  function FirstMeant(rows: seq<Row>, wanted: string, lower: string -> string): set<nat> {
    var byId := MeantRows(0, rows, wanted, lower);
    var byName := MeantRows(1, rows, wanted, lower);
    var byAnyCase := MeantRows(2, rows, wanted, lower);
    var byStart := MeantRows(3, rows, wanted, lower);
    if byId != {} then byId
    else if byName != {} then byName
    else if byAnyCase != {} then byAnyCase
    else if byStart != {} then byStart
    else MeantRows(4, rows, wanted, lower)
  }

  lemma HitsAreMeant(step: nat, hits: seq<nat>, rows: seq<Row>, wanted: string, lower: string -> string)
    requires FirstStep(step, rows, wanted, lower) && AreHits(hits, step, rows, wanted, lower)
    ensures forall i: nat :: i in hits <==> i in FirstMeant(rows, wanted, lower)
  {
    forall way: nat, i: nat | way < 5 && i < |rows|
      ensures Matches(way, rows[i], wanted, lower) <==> i in MeantRows(way, rows, wanted, lower)
    {
      MeantIs(way, rows[i], wanted, lower);
    }
    forall way: nat | way < 5
      ensures MeantRows(way, rows, wanted, lower) != {} <==> AnyMatch(way, rows, wanted, lower)
    {
      AnyIsMeant(way, rows, wanted, lower);
    }
  }

  lemma AnyIsMeant(way: nat, rows: seq<Row>, wanted: string, lower: string -> string)
    requires way < 5
    ensures MeantRows(way, rows, wanted, lower) != {} <==> AnyMatch(way, rows, wanted, lower)
  {
    if AnyMatch(way, rows, wanted, lower) {
      var i: nat :| i < |rows| && Matches(way, rows[i], wanted, lower);
      MeantIs(way, rows[i], wanted, lower);
      assert i in MeantRows(way, rows, wanted, lower);
    }
    if i: nat :| i in MeantRows(way, rows, wanted, lower) {
      MeantIs(way, rows[i], wanted, lower);
    }
  }

  /** The lookup answers the row meant, when the first way any row is meant leaves one; lists the rows, when it leaves
      several; and finds none exactly when no row is meant in any of the five ways. */
  lemma AnswerIs(r: Result<nat, Refusal>, rows: seq<Row>, wanted: string, lower: string -> string)
    requires IsAnswer(r, rows, wanted, lower)
    ensures var meant := FirstMeant(rows, wanted, lower);
            match r
            case Ok(i) => meant == {i}
            case Err(Ambiguous(_, hits)) =>
              && (set i | i in hits) == meant && |hits| >= 2 && forall k, l | 0 <= k < l < |hits| :: hits[k] < hits[l]
            case Err(NotFound(_)) => meant == {}
  {
    match r
    case Ok(i) =>
      var step: nat :| FirstStep(step, rows, wanted, lower) && AreHits([i], step, rows, wanted, lower);
      HitsAreMeant(step, [i], rows, wanted, lower);
      assert i in [i];
    case Err(Ambiguous(step, hits)) =>
      HitsAreMeant(step, hits, rows, wanted, lower);
    case Err(NotFound(_)) =>
      forall way: nat | way < 5 ensures MeantRows(way, rows, wanted, lower) == {} {
        AnyIsMeant(way, rows, wanted, lower);
      }
  }

  /** A row whose name differs in case only comes before those whose names start so, however many they are. */
  lemma AnyCaseBeforeStart(r: Result<nat, Refusal>, rows: seq<Row>, wanted: string, lower: string -> string, i: nat)
    requires IsAnswer(r, rows, wanted, lower) && i < |rows|
    requires forall k | 0 <= k < |rows| :: rows[k].id != Some(wanted) && wanted !in rows[k].names
    requires exists name :: name in rows[i].names && lower(name) == lower(wanted)
    requires forall k, name | 0 <= k < |rows| && name in rows[k].names && lower(name) == lower(wanted) :: k == i
    ensures r == Ok(i)
  {
    AnswerIs(r, rows, wanted, lower);
    assert MeantRows(0, rows, wanted, lower) == {} && MeantRows(1, rows, wanted, lower) == {};
    assert i in MeantRows(2, rows, wanted, lower) && MeantRows(2, rows, wanted, lower) == {i};
    OnlyOne(r, FirstMeant(rows, wanted, lower), i);
  }

  lemma OnlyOne(r: Result<nat, Refusal>, meant: set<nat>, i: nat)
    requires meant == {i}
    requires match r
             case Ok(j) => meant == {j}
             case Err(Ambiguous(_, hits)) =>
               (set j | j in hits) == meant && |hits| >= 2 && forall k, l | 0 <= k < l < |hits| :: hits[k] < hits[l]
             case Err(NotFound(_)) => meant == {}
    ensures r == Ok(i)
  {
    assert i in meant;
    match r
    case Ok(j) => assert j in meant;
    case Err(Ambiguous(_, hits)) => SeveralAreNotOne(hits, i);
    case Err(NotFound(_)) =>
  }

  lemma SeveralAreNotOne(hits: seq<nat>, i: nat)
    requires |hits| >= 2 && forall k, l | 0 <= k < l < |hits| :: hits[k] < hits[l]
    ensures (set j | j in hits) != {i}
  {
    TwoAreNotOne((set j | j in hits), hits[0], hits[1], i);
  }

  lemma TwoAreNotOne(s: set<nat>, x: nat, y: nat, i: nat)
    requires x in s && y in s && x != y
    ensures s != {i}
  {
    assert s == {i} ==> x in {i} && y in {i};
  }

  // ---- The suggestions ----

  /** Near enough to be meant: two edits, or a fourth of what was asked for, or it holds what was asked for. */
  predicate NearEnough(name: string, wanted: string, lower: string -> string) {
    || Distance(lower(name), lower(wanted)) <= 2
    || 4 * Distance(lower(name), lower(wanted)) <= |lower(wanted)|
    || exists i :: 0 <= i <= |lower(name)| && StartsWith(lower(name)[i..], lower(wanted))
  }

  lemma CloseIsNear(name: string, wanted: string, lower: string -> string)
    ensures IsClose(name, wanted, lower) <==> NearEnough(name, wanted, lower)
  {
    forall i | 0 <= i <= |lower(name)|
      ensures StartsWith(lower(name)[i..], lower(wanted)) <==> Prefix(lower(name)[i..], lower(wanted))
    {
      StartsWithIs(lower(name)[i..], lower(wanted));
    }
  }

  /** The order of texts: the first character that differs decides, and a text comes before what it starts. */
  predicate Before(a: string, b: string) {
    || (|a| < |b| && StartsWith(b, a))
    || exists k :: 0 <= k < |a| && k < |b| && a[..k] == b[..k] && a[k] < b[k]
  }

  lemma {:induction false} LessIsBefore(a: string, b: string)
    ensures StrLess(a, b) <==> Before(a, b)
    decreases |a|
  {
    if a != [] && b != [] && a[0] == b[0] {
      LessIsBefore(a[1..], b[1..]);
      SameFirst(a, b);
    } else if a != [] && b != [] {
      DifferentFirst(a, b);
    }
  }

  lemma SameStart(a: string, b: string)
    requires a != [] && b != [] && a[0] == b[0]
    ensures StartsWith(b, a) <==> StartsWith(b[1..], a[1..])
  {
    StartsWithIs(b, a);
    StartsWithIs(b[1..], a[1..]);
    assert a == [a[0]] + a[1..] && b == [b[0]] + b[1..];
  }

  lemma SameFirst(a: string, b: string)
    requires a != [] && b != [] && a[0] == b[0]
    ensures Before(a, b) <==> Before(a[1..], b[1..])
  {
    SameStart(a, b);
    if k :| 0 <= k < |a| && k < |b| && a[..k] == b[..k] && a[k] < b[k] {
      assert a[1..][..k - 1] == a[..k][1..] && b[1..][..k - 1] == b[..k][1..];
      assert a[1..][k - 1] < b[1..][k - 1];
    }
    if k :| 0 <= k < |a[1..]| && k < |b[1..]| && a[1..][..k] == b[1..][..k] && a[1..][k] < b[1..][k] {
      assert a[..k + 1] == [a[0]] + a[1..][..k] && b[..k + 1] == [b[0]] + b[1..][..k];
      assert a[k + 1] < b[k + 1];
    }
  }

  lemma DifferentFirst(a: string, b: string)
    requires a != [] && b != [] && a[0] != b[0]
    ensures Before(a, b) <==> a[0] < b[0]
  {
    forall k | 0 < k < |a| && k < |b| ensures a[..k] != b[..k] {
      assert a[..k][0] == a[0] && b[..k][0] == b[0];
    }
    assert a[..0] == b[..0];
  }

  /** The one that is nearer, or as near and before in the order of texts. */
  predicate Better(a: string, b: string, wanted: string, lower: string -> string) {
    var x, y := Distance(lower(a), lower(wanted)), Distance(lower(b), lower(wanted));
    x < y || (x == y && Before(a, b))
  }

  /** What is suggested: names of the rows that are near enough, best first, each once; all of them, or the three that
      are better than all others. */
  lemma SuggestionsAre(names: seq<string>, rows: seq<Row>, wanted: string, lower: string -> string)
    requires Suggests(names, rows, wanted, lower)
    ensures |names| <= 3
    ensures forall n | n in names ::
      NearEnough(n, wanted, lower) && exists i :: 0 <= i < |rows| && n in rows[i].names
    ensures forall k, l | 0 <= k < l < |names| :: Better(names[k], names[l], wanted, lower)
    ensures forall i, n | 0 <= i < |rows| && n in rows[i].names && NearEnough(n, wanted, lower) && n !in names ::
      |names| == 3 && Better(names[2], n, wanted, lower)
  {
    forall n ensures IsClose(n, wanted, lower) <==> NearEnough(n, wanted, lower) {
      CloseIsNear(n, wanted, lower);
    }
    forall a: string, b: string ensures StrLess(a, b) <==> Before(a, b) {
      LessIsBefore(a, b);
    }
    forall i, n | 0 <= i < |rows| && n in rows[i].names && NearEnough(n, wanted, lower)
      ensures Candidate(n, rows, wanted, lower)
    {
    }
  }
}
