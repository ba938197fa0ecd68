/** Ids shown as short tails, and the tails read back as ids. Ids are UTF-8 text: sequences of bytes, cut only where a
    character starts. */
module IdTails {
  import opened Wrappers

  newtype byte = b: int | 0 <= b < 256

  type Id = seq<byte>

  const HASH: byte := 0x23

  predicate EndsWith(id: Id, tail: Id) {
    |tail| <= |id| && id[|id| - |tail|..] == tail
  }

  /** Whether a character starts at `at`, so that the text can be cut there. */
  predicate Boundary(id: Id, at: nat)
    requires at <= |id|
  {
    at == 0 || at == |id| || id[at] < 0x80 || id[at] >= 0xC0
  }

  function Ending(ids: seq<Id>, tail: Id): (r: seq<Id>) {
    if ids == [] then []
    else if EndsWith(ids[0], tail) then [ids[0]] + Ending(ids[1..], tail)
    else Ending(ids[1..], tail)
  }

  // ---- The shortest tail ----

  /** The last `n` bytes of `id` can be its tail. */
  predicate Tells(ids: seq<Id>, id: Id, n: nat) {
    4 <= n <= |id| && Boundary(id, |id| - n) && |Ending(ids, id[|id| - n..])| == 1
  }

  function TailFrom(ids: seq<Id>, id: Id, n: nat): (r: Id)
    decreases |id| - n
  {
    if n > |id| then id
    else if Tells(ids, id, n) then id[|id| - n..]
    else TailFrom(ids, id, n + 1)
  }

  function Tails(ids: seq<Id>): (r: seq<Id>)
    ensures |r| == |ids|
  {
    seq(|ids|, i requires 0 <= i < |ids| => TailFrom(ids, ids[i], 4))
  }

  // ---- Reading a tail back ----

  function Bare(wanted: Id): Id {
    if wanted != [] && wanted[0] == HASH then wanted[1..] else wanted
  }

  datatype NotOne = NotFound | Ambiguous(hits: seq<Id>)

  function EntryId(ids: seq<Id>, wanted: Id): Result<Id, NotOne> {
    var tail := Bare(wanted);
    if tail in ids then Ok(tail)
    else
      var hits := Ending(ids, tail);
      if hits == [] then Err(NotFound) else if |hits| == 1 then Ok(hits[0]) else Err(Ambiguous(hits))
  }

  /** An approval: its id, and the rest of it. */
  datatype Item<T> = Item(id: Id, rest: T)

  function IdsOf<T>(items: seq<Item<T>>): (r: seq<Id>)
    ensures |r| == |items| && forall i | 0 <= i < |r| :: r[i] == items[i].id
  {
    seq(|items|, i requires 0 <= i < |items| => items[i].id)
  }

  /** The first of `items` with the id. */
  function First<T>(items: seq<Item<T>>, id: Id): (r: Option<Item<T>>)
    ensures r.None? <==> id !in IdsOf(items)
    ensures r.Some? ==> r.value.id == id && r.value in items
  {
    if items == [] then None
    else if items[0].id == id then
      assert IdsOf(items)[0] == id;
      Some(items[0])
    else
      var r := First(items[1..], id);
      assert id in IdsOf(items) <==> id in IdsOf(items[1..]) by {
        assert IdsOf(items)[1..] == IdsOf(items[1..]);
        assert IdsOf(items) == [items[0].id] + IdsOf(items)[1..];
      }
      r
  }

  function EndingItems<T>(items: seq<Item<T>>, tail: Id): (r: seq<Item<T>>)
  {
    if items == [] then []
    else if tail != [] && EndsWith(items[0].id, tail) then [items[0]] + EndingItems(items[1..], tail)
    else EndingItems(items[1..], tail)
  }

  function Resolve<T>(pending: seq<Item<T>>, wanted: Id): Result<Item<T>, NotOne> {
    var tail := Bare(wanted);
    var exact := First(pending, tail);
    if exact.Some? then Ok(exact.value)
    else
      var hits := EndingItems(pending, tail);
      if |hits| == 1 then Ok(hits[0]) else if hits == [] then Err(NotFound) else Err(Ambiguous(IdsOf(hits)))
  }

  // ---- What one hit means ----

  /** No id but the one at `i` ends with `tail`. */
  ghost predicate Alone(ids: seq<Id>, i: nat, tail: Id)
    requires i < |ids|
  {
    forall j | 0 <= j < |ids| && j != i :: !EndsWith(ids[j], tail)
  }

  /** The last `m` bytes of the id at `i` could stand for it. */
  ghost predicate WouldDo(ids: seq<Id>, i: nat, m: nat)
    requires i < |ids|
  {
    4 <= m <= |ids[i]| && Boundary(ids[i], |ids[i]| - m) && Alone(ids, i, ids[i][|ids[i]| - m..])
  }

  lemma {:induction false} NoneEnd(ids: seq<Id>, tail: Id)
    ensures Ending(ids, tail) == [] <==> forall j | 0 <= j < |ids| :: !EndsWith(ids[j], tail)
  {
    if ids != [] {
      NoneEnd(ids[1..], tail);
      assert forall j | 0 < j < |ids| :: ids[j] == ids[1..][j - 1];
    }
  }

  lemma {:induction false} OneEnds(ids: seq<Id>, i: nat, tail: Id)
    requires i < |ids| && EndsWith(ids[i], tail)
    ensures |Ending(ids, tail)| == 1 <==> Alone(ids, i, tail)
    ensures |Ending(ids, tail)| == 1 ==> Ending(ids, tail) == [ids[i]]
    ensures Ending(ids, tail) != []
  {
    var rest := ids[1..];
    assert forall j | 0 < j < |ids| :: ids[j] == rest[j - 1];
    if i == 0 {
      NoneEnd(rest, tail);
    } else {
      OneEnds(rest, i - 1, tail);
      assert Alone(ids, i, tail) ==> Alone(rest, i - 1, tail);
      assert Alone(rest, i - 1, tail) && !EndsWith(ids[0], tail) ==> Alone(ids, i, tail);
    }
  }

  lemma {:induction false} TailFromIs(ids: seq<Id>, id: Id, n: nat)
    requires 4 <= n && forall m: nat | m < n :: !Tells(ids, id, m)
    ensures IsShortest(ids, id, TailFrom(ids, id, n))
    decreases |id| - n
  {
    if n <= |id| {
      if Tells(ids, id, n) {
        assert EndsWith(id, id[|id| - n..]);
      } else {
        TailFromIs(ids, id, n + 1);
      }
    } else {
      assert id[|id| - |id|..] == id;
    }
  }

  ghost predicate IsShortest(ids: seq<Id>, id: Id, tail: Id) {
    && EndsWith(id, tail)
    && (Tells(ids, id, |tail|) || (tail == id && forall m: nat :: !Tells(ids, id, m)))
    && (forall m: nat | m < |tail| :: !Tells(ids, id, m))
  }

  /** Each tail is an end of its id that no other id has, of at least 4 bytes, and no shorter one would do; or the id
      itself, when none does. */
  lemma TailIsShortest(ids: seq<Id>, i: nat)
    requires i < |ids|
    ensures var id, tail := ids[i], Tails(ids)[i];
            && EndsWith(id, tail)
            && ((|tail| >= 4 && Alone(ids, i, tail)) || tail == id)
            && (forall m: nat | m < |tail| :: !WouldDo(ids, i, m))
            && (!Alone(ids, i, id) ==> tail == id)
  {
    var id, tail := ids[i], Tails(ids)[i];
    TailFromIs(ids, id, 4);
    OneEnds(ids, i, tail);
    forall m: nat | m < |tail| ensures !WouldDo(ids, i, m) {
      assert !Tells(ids, id, m);
      if m <= |id| {
        OneEnds(ids, i, id[|id| - m..]);
      }
    }
    forall j | 0 <= j < |ids| && j != i && EndsWith(ids[j], id) ensures EndsWith(ids[j], tail) {
      EndOfEnd(ids[j], id, tail);
    }
  }

  lemma EndsWithItself(id: Id)
    ensures EndsWith(id, id)
  {
    assert id[|id| - |id|..] == id;
  }

  lemma EndOfEnd(a: Id, b: Id, c: Id)
    requires EndsWith(a, b) && EndsWith(b, c)
    ensures EndsWith(a, c)
  {
    assert a[|a| - |c|..] == a[|a| - |b|..][|b| - |c|..];
  }

  // ---- Tails resolve back ----

  lemma BareHash(tail: Id)
    ensures Bare([HASH] + tail) == tail
  {
  }

  /** The tail shown for an id names that id, whatever the ids: duplicates, empty ids and ids that end others too. */
  lemma TailNamesItsId(ids: seq<Id>, i: nat)
    requires i < |ids|
    ensures EntryId(ids, [HASH] + Tails(ids)[i]) == Ok(ids[i])
  {
    var tail := Tails(ids)[i];
    TailIsShortest(ids, i);
    BareHash(tail);
    if tail != ids[i] {
      EndsWithItself(tail);
      OneEnds(ids, i, tail);
    }
  }

  /** What `EntryId` answers: the id itself, or the only one that ends so. */
  lemma EntryIdIs(ids: seq<Id>, wanted: Id, id: Id)
    ensures EntryId(ids, wanted) == Ok(id) <==>
              if Bare(wanted) in ids then id == Bare(wanted)
              else exists i ::
                0 <= i < |ids| && ids[i] == id && EndsWith(id, Bare(wanted)) && Alone(ids, i, Bare(wanted))
  {
    var tail := Bare(wanted);
    if tail !in ids {
      forall i | 0 <= i < |ids| && EndsWith(ids[i], tail)
        ensures |Ending(ids, tail)| == 1 <==> Alone(ids, i, tail)
        ensures |Ending(ids, tail)| == 1 ==> Ending(ids, tail) == [ids[i]]
      {
        OneEnds(ids, i, tail);
      }
      NoneEnd(ids, tail);
    }
  }

  // ---- Approvals ----

  lemma {:induction false} EndingItemsAre<T>(items: seq<Item<T>>, tail: Id)
    requires tail != []
    ensures IdsOf(EndingItems(items, tail)) == Ending(IdsOf(items), tail)
    ensures forall x | x in EndingItems(items, tail) :: x in items
  {
    if items != [] {
      EndingItemsAre(items[1..], tail);
      assert IdsOf(items)[1..] == IdsOf(items[1..]);
    }
  }

  ghost predicate DistinctItems<T>(items: seq<Item<T>>) {
    forall i, j | 0 <= i < j < |items| :: items[i].id != items[j].id
  }

  /** The item with that id, or one of them when there are several. */
  ghost predicate Names<T>(r: Result<Item<T>, NotOne>, pending: seq<Item<T>>, i: nat)
    requires i < |pending|
  {
    r.Ok? && r.value in pending && r.value.id == pending[i].id && (DistinctItems(pending) ==> r.value == pending[i])
  }

  lemma NamesById<T>(r: Result<Item<T>, NotOne>, pending: seq<Item<T>>, i: nat)
    requires i < |pending| && r.Ok? && r.value in pending && r.value.id == pending[i].id
    ensures Names(r, pending, i)
  {
    var k :| 0 <= k < |pending| && pending[k] == r.value;
    assert DistinctItems(pending) ==> k == i;
  }

  /** The whole id names the item. */
  lemma WholeIdNames<T>(pending: seq<Item<T>>, i: nat)
    requires i < |pending|
    ensures Names(Resolve(pending, [HASH] + pending[i].id), pending, i)
  {
    BareHash(pending[i].id);
    assert IdsOf(pending)[i] == pending[i].id;
    NamesById(Resolve(pending, [HASH] + pending[i].id), pending, i);
  }

  /** Among any pending items that include the one at `i`, the tail names it exactly when it is its whole id or no
      other pending id ends so. */
  lemma ResolvesAmong<T>(pending: seq<Item<T>>, i: nat, tail: Id)
    requires i < |pending| && EndsWith(pending[i].id, tail) && tail != []
    ensures Names(Resolve(pending, [HASH] + tail), pending, i) <==>
              tail == pending[i].id || Alone(IdsOf(pending), i, tail)
  {
    var ids, id := IdsOf(pending), pending[i].id;
    BareHash(tail);
    if tail == id {
      WholeIdNames(pending, i);
    } else {
      var exact := First(pending, tail);
      if exact.Some? {
        var j :| 0 <= j < |ids| && ids[j] == tail;
        EndsWithItself(tail);
      } else {
        EndingItemsAre(pending, tail);
        OneEnds(ids, i, tail);
        var hits := EndingItems(pending, tail);
        if |hits| == 1 {
          assert IdsOf(hits)[0] == id;
          assert hits[0] in pending;
          NamesById(Ok(hits[0]), pending, i);
        }
      }
    }
  }

  /** The tail listed for a pending approval, computed over the pending and the decided ones, names the same approval
      among the pending ones. */
  lemma ListedTailNamesItsItem<T>(pending: seq<Item<T>>, decided: seq<Item<T>>, i: nat)
    requires i < |pending|
    ensures Names(Resolve(pending, [HASH] + Tails(IdsOf(pending + decided))[i]), pending, i)
  {
    var all := IdsOf(pending + decided);
    var tail := Tails(all)[i];
    assert all[i] == pending[i].id;
    TailIsShortest(all, i);
    if tail == [] {
      WholeIdNames(pending, i);
    } else {
      forall j | 0 <= j < |pending| && j != i && Alone(all, i, tail) ensures !EndsWith(IdsOf(pending)[j], tail) {
        assert all[j] == IdsOf(pending)[j];
      }
      ResolvesAmong(pending, i, tail);
    }
  }

  /** A decision reads the pending items of every workspace, so a tail listed for one workspace can name nothing: the
      listed item is still the one named exactly when no pending id beyond the list ends so, or it is the whole id. */
  lemma TailOfOneWorkspace<T>(listed: seq<Item<T>>, decided: seq<Item<T>>, others: seq<Item<T>>, i: nat)
    requires i < |listed|
    ensures var tail := Tails(IdsOf(listed + decided))[i];
            Names(Resolve(listed + others, [HASH] + tail), listed + others, i) <==>
              tail == listed[i].id || forall o | o in others :: !EndsWith(o.id, tail)
  {
    var all := IdsOf(listed + decided);
    var pending := listed + others;
    var tail := Tails(all)[i];
    assert all[i] == listed[i].id && pending[i] == listed[i];
    TailIsShortest(all, i);
    if tail == [] {
      WholeIdNames(pending, i);
    } else {
      ResolvesAmong(pending, i, tail);
      if tail != listed[i].id {
        IdsOfBoth(listed, decided);
        IdsOfBoth(listed, others);
        AloneInBoth(IdsOf(listed), IdsOf(decided), IdsOf(others), i, tail);
        IdsEnd(others, tail);
      }
    }
  }

  lemma IdsOfBoth<T>(a: seq<Item<T>>, b: seq<Item<T>>)
    ensures IdsOf(a + b) == IdsOf(a) + IdsOf(b)
  {
  }

  lemma IdsEnd<T>(items: seq<Item<T>>, tail: Id)
    ensures (forall id | id in IdsOf(items) :: !EndsWith(id, tail)) <==>
            (forall o | o in items :: !EndsWith(o.id, tail))
  {
    forall o | o in items ensures o.id in IdsOf(items) {
      var k :| 0 <= k < |items| && items[k] == o;
      assert IdsOf(items)[k] == o.id;
    }
  }

  lemma AloneInBoth(listed: seq<Id>, decided: seq<Id>, others: seq<Id>, i: nat, tail: Id)
    requires i < |listed| && Alone(listed + decided, i, tail)
    ensures Alone(listed + others, i, tail) <==> forall id | id in others :: !EndsWith(id, tail)
  {
    forall j | 0 <= j < |listed| ensures (listed + decided)[j] == (listed + others)[j] == listed[j] {
    }
    forall id | id in others && Alone(listed + others, i, tail) ensures !EndsWith(id, tail) {
      var k :| 0 <= k < |others| && others[k] == id;
      assert (listed + others)[|listed| + k] == id;
    }
  }
}
