/** What short tails are and what they name, said of the bytes themselves. */
module TailLaws {
  import opened Wrappers
  import opened IdTails

  ghost predicate Ends(id: Id, tail: Id) {
    exists front: Id :: id == front + tail
  }

  lemma EndsIs(id: Id, tail: Id)
    ensures Ends(id, tail) <==> EndsWith(id, tail)
  {
    if EndsWith(id, tail) {
      assert id == id[..|id| - |tail|] + tail;
    }
    forall front: Id | id == front + tail ensures EndsWith(id, tail) {
      assert id[|front|..] == tail;
    }
  }

  lemma EndsAre(tail: Id)
    ensures forall id :: Ends(id, tail) <==> EndsWith(id, tail)
  {
    forall id ensures Ends(id, tail) <==> EndsWith(id, tail) {
      EndsIs(id, tail);
    }
  }

  /** The last bytes of the id at `i`, from the start of a character on, that no other id ends with. */
  ghost predicate StandsFor(ids: seq<Id>, i: nat, tail: Id)
    requires i < |ids|
  {
    && |tail| >= 4 && Ends(ids[i], tail)
    && (tail == ids[i] || tail[0] < 0x80 || tail[0] >= 0xC0)
    && forall j | 0 <= j < |ids| && j != i :: !Ends(ids[j], tail)
  }

  lemma StandsForIs(ids: seq<Id>, i: nat, tail: Id)
    requires i < |ids|
    ensures StandsFor(ids, i, tail) <==> EndsWith(ids[i], tail) && WouldDo(ids, i, |tail|)
  {
    EndsAre(tail);
    if EndsWith(ids[i], tail) {
      var at := |ids[i]| - |tail|;
      assert ids[i][at..] == tail;
      assert tail != [] ==> ids[i][at] == tail[0];
      assert at == 0 <==> tail == ids[i];
    }
  }

  /** A tail shown stands for its id and no shorter one would; or it is the id, when none would. */
  lemma TailStandsFor(ids: seq<Id>, i: nat, other: Id)
    requires i < |ids|
    ensures var tail := Tails(ids)[i];
            && (StandsFor(ids, i, tail) || tail == ids[i])
            && (StandsFor(ids, i, other) ==> StandsFor(ids, i, tail) && |tail| <= |other|)
  {
    var tail := Tails(ids)[i];
    TailFromIs(ids, ids[i], 4);
    TellsIs(ids, i, tail);
    if StandsFor(ids, i, other) {
      EndsIs(ids[i], other);
      TellsIs(ids, i, other);
      NoShorter(ids, ids[i], tail, |other|);
    }
  }

  lemma NoShorter(ids: seq<Id>, id: Id, tail: Id, n: nat)
    requires IsShortest(ids, id, tail) && Tells(ids, id, n)
    ensures Tells(ids, id, |tail|) && |tail| <= n
  {
  }

  lemma TellsIs(ids: seq<Id>, i: nat, tail: Id)
    requires i < |ids| && EndsWith(ids[i], tail)
    ensures Tells(ids, ids[i], |tail|) <==> StandsFor(ids, i, tail)
  {
    StandsForIs(ids, i, tail);
    OneEnds(ids, i, tail);
  }

  // ---- What is asked for ----

  /** What is asked for, without one `#` in front. */
  function Asked(wanted: Id): Id {
    if wanted != [] && wanted[0] == 0x23 then wanted[1..] else wanted
  }

  lemma {:induction false} EndingIs(ids: seq<Id>, tail: Id)
    ensures forall id :: id in Ending(ids, tail) <==> id in ids && Ends(id, tail)
    ensures Ending(ids, tail) == [] <==> forall id | id in ids :: !Ends(id, tail)
  {
    EndsAre(tail);
    if ids != [] {
      EndingIs(ids[1..], tail);
      assert ids == [ids[0]] + ids[1..];
    }
  }

  /** Some id at one place, and no other, ends so. */
  ghost predicate OnlyOneEnds(ids: seq<Id>, i: nat, tail: Id) {
    i < |ids| && Ends(ids[i], tail) && forall j | 0 <= j < |ids| && j != i :: !Ends(ids[j], tail)
  }

  lemma OnlyOneEndsIs(ids: seq<Id>, i: nat, tail: Id)
    requires i < |ids| && Ends(ids[i], tail)
    ensures OnlyOneEnds(ids, i, tail) <==> |Ending(ids, tail)| == 1
    ensures OnlyOneEnds(ids, i, tail) ==> Ending(ids, tail) == [ids[i]]
    ensures Ending(ids, tail) != []
  {
    EndsAre(tail);
    OneEnds(ids, i, tail);
  }

  /** A captured entry: the id itself; else the only one that ends so; none, or all that do, are told. */
  lemma EntryAnswers(ids: seq<Id>, wanted: Id)
    ensures var tail, r := Asked(wanted), EntryId(ids, wanted);
            if tail in ids then r == Ok(tail)
            else if forall id | id in ids :: !Ends(id, tail) then r == Err(NotFound)
            else if exists i: nat :: OnlyOneEnds(ids, i, tail) then
              exists i: nat :: OnlyOneEnds(ids, i, tail) && r == Ok(ids[i])
            else r.Err? && r.error.Ambiguous? && |r.error.hits| > 1
                 && forall id :: id in r.error.hits <==> id in ids && Ends(id, tail)
  {
    var tail := Asked(wanted);
    EndingIs(ids, tail);
    if tail !in ids {
      if exists id :: id in ids && Ends(id, tail) {
        var i :| 0 <= i < |ids| && Ends(ids[i], tail);
        OnlyOneEndsIs(ids, i, tail);
        forall k: nat | OnlyOneEnds(ids, k, tail) ensures k == i {
        }
      }
    }
  }

  lemma {:induction false} FirstIs<T>(items: seq<Item<T>>, id: Id, i: nat)
    requires i < |items| && items[i].id == id && forall j | 0 <= j < i :: items[j].id != id
    ensures First(items, id) == Some(items[i])
  {
    if i > 0 {
      FirstIs(items[1..], id, i - 1);
    }
  }

  lemma {:induction false} NothingEndsIn<T>(items: seq<Item<T>>)
    ensures EndingItems(items, []) == []
  {
    if items != [] {
      NothingEndsIn(items[1..]);
    }
  }

  /** A pending approval: the first with that id. */
  lemma WholeIdAnswers<T>(pending: seq<Item<T>>, wanted: Id, i: nat)
    requires i < |pending| && pending[i].id == Asked(wanted)
    requires forall j | 0 <= j < i :: pending[j].id != Asked(wanted)
    ensures Resolve(pending, wanted) == Ok(pending[i])
  {
    FirstIs(pending, Asked(wanted), i);
  }

  /** Else the only one whose id ends so; none, or the ids of all that do, are told. Nothing at all after the `#` names
      nothing. */
  lemma ApprovalAnswers<T>(pending: seq<Item<T>>, wanted: Id)
    requires forall i | 0 <= i < |pending| :: pending[i].id != Asked(wanted)
    ensures var ids, tail, r := IdsOf(pending), Asked(wanted), Resolve(pending, wanted);
            if tail == [] || forall id | id in ids :: !Ends(id, tail) then r == Err(NotFound)
            else if exists i: nat :: OnlyOneEnds(ids, i, tail) then
              exists i: nat :: OnlyOneEnds(ids, i, tail) && r.Ok? && r.value in pending && r.value.id == ids[i]
            else r.Err? && r.error.Ambiguous? && |r.error.hits| > 1
                 && forall id :: id in r.error.hits <==> id in ids && Ends(id, tail)
  {
    var ids, tail := IdsOf(pending), Asked(wanted);
    assert First(pending, tail) == None;
    if tail == [] {
      NothingEndsIn(pending);
    } else {
      EndingItemsAre(pending, tail);
      EndingIs(ids, tail);
      var hits := EndingItems(pending, tail);
      if exists id :: id in ids && Ends(id, tail) {
        var i :| 0 <= i < |ids| && Ends(ids[i], tail);
        OnlyOneEndsIs(ids, i, tail);
        forall k: nat | OnlyOneEnds(ids, k, tail) ensures k == i {
        }
        if |hits| == 1 {
          assert IdsOf(hits) == [ids[i]] && IdsOf(hits)[0] == hits[0].id && hits[0] in hits;
        }
      }
    }
  }
}
