/** The app's writes: one chain at a time, each one ends, and a list of files is put back file by file. */
module Publishing {
  import opened Wrappers
  import opened AppState
  import opened RefreshProtocol
  import opened StepEffects
  import opened RefreshConvergence
  import opened RefreshTheorems

  /** Whichever entry point is called while a chain is outstanding, no other write starts. */
  lemma NoSecondChain(s: System, steps: seq<Step>, ui: Ui)
    requires Init(s) && CanRun(s, steps) && Run(s, steps).writes != []
    ensures After(Run(s, steps), Ask(ui)).writes == Run(s, steps).writes
    ensures After(Run(s, steps), Ask(ui)).app.publishing
  {
    OneAtATime(s, steps);
    var t := Run(s, steps);
    AfterIs(t, Ask(ui));
    assert t.app.publishing && Started(t.app, ui).None?;
    var r := Remember(t, ui);
    assert r == t;
    PrimitivesKeepChain(r);
    OneOfEachIsKept(t, Ask(ui));
  }

  /** Every completion, good or bad, clears the flag, except a file that has another after it. */
  lemma CompletionClears(s: System, steps: seq<Step>, failure: Option<string>)
    requires Init(s) && CanRun(s, steps) && Run(s, steps).writes != []
    ensures var t := Run(s, steps);
            var w, u := t.writes[0], After(t, ReplyWrite(0, failure));
            if w.Discard? && w.todo != [] then u.app.publishing && |u.writes| == 1 && u.writes[0].Discard?
            else !u.app.publishing && u.writes == []
  {
    OneAtATime(s, steps);
    AnswerClears(Run(s, steps), failure);
  }

  lemma AnswerClears(t: System, failure: Option<string>)
    requires OneOfEach(t) && t.writes != []
    ensures var w, u := t.writes[0], After(t, ReplyWrite(0, failure));
            if w.Discard? && w.todo != [] then u.app.publishing && |u.writes| == 1 && u.writes[0].Discard?
            else !u.app.publishing && u.writes == []
  {
    AfterIs(t, ReplyWrite(0, failure));
    OneOfEachIsKept(t, ReplyWrite(0, failure));
    var w, r := t.writes[0], Answering(t, 0, failure);
    assert r.writes == [];
    if w.Discard? && w.todo != [] {
      NextFile(r, w, failure);
    } else {
      LastFile(r, w, failure);
    }
  }

  /** What the user is told. */
  function Notes(sent: seq<Effect>): seq<Note> {
    if sent == [] then []
    else (if sent[0].Tell? then [sent[0].note] else []) + Notes(sent[1..])
  }

  lemma EndOfDiscards(a: App, first: Option<string>)
    requires a.sent == []
    ensures Notes(DiscardNext(a, [], first).sent) == if first.Some? then [WriteFailed(first.value)] else []
  {
    var b := a.(publishing := false);
    match first
    case Some(failure) =>
      RefreshSends(b.Send(Tell(WriteFailed(failure))));
      NotesThen(WriteFailed(failure), if a.refreshing then [] else [GetConfig]);
    case None => RefreshSends(b);
  }

  lemma RefreshSends(a: App)
    ensures Refresh(a).sent == a.sent + if a.refreshing then [] else [GetConfig]
  {
  }

  lemma NotesThen(note: Note, rest: seq<Effect>)
    ensures Notes([Tell(note)] + rest) == [note] + Notes(rest)
  {
    assert ([Tell(note)] + rest)[1..] == rest;
  }

  /** When the last call of a `revert_paths` answers, every path of the list has been tried exactly once, the last
      one first, and the user is told the failure of the first one tried that failed, if any did. */
  lemma RevertPathsTriesEachOnce(s: System, steps: seq<Step>, failure: Option<string>)
    requires Init(s) && CanRun(s, steps)
    requires var t := Run(s, steps); t.writes != [] && t.writes[0].Discard? && t.writes[0].todo == []
    ensures var t := Run(s, steps);
            var u := After(t, ReplyWrite(0, failure));
            && PathsOf(u.tried) == Reversed(u.asked) && u.asked == t.asked
            && Notes(WriteReplied(t.app, t.writes[0], failure).sent)
               == if FirstFailure(u.tried).Some? then [WriteFailed(FirstFailure(u.tried).value)] else []
  {
    InitInv(s);
    InvOverRuns(s, steps);
    LastOfTheList(Run(s, steps), failure);
  }

  lemma LastOfTheList(t: System, failure: Option<string>)
    requires OneOfEach(t) && ChainInv(t) && t.writes != [] && t.writes[0].Discard? && t.writes[0].todo == []
    ensures var u := After(t, ReplyWrite(0, failure));
            && PathsOf(u.tried) == Reversed(u.asked) && u.asked == t.asked
            && Notes(WriteReplied(t.app, t.writes[0], failure).sent)
               == if FirstFailure(u.tried).Some? then [WriteFailed(FirstFailure(u.tried).value)] else []
  {
    LastTried(t, failure);
    var w := t.writes[0];
    EndOfDiscards(t.app, if w.firstFailure.Some? then w.firstFailure else failure);
  }

  lemma LastTried(t: System, failure: Option<string>)
    requires OneOfEach(t) && ChainInv(t) && t.writes != [] && t.writes[0].Discard? && t.writes[0].todo == []
    ensures var w, u := t.writes[0], After(t, ReplyWrite(0, failure));
            && PathsOf(u.tried) == Reversed(u.asked) && u.asked == t.asked
            && FirstFailure(u.tried) == if w.firstFailure.Some? then w.firstFailure else failure
  {
    var w, r := t.writes[0], Answering(t, 0, failure);
    AfterIs(t, ReplyWrite(0, failure));
    LastFile(r, w, failure);
    assert Linked(w, t.asked, t.tried);
    TriedOneMore(t.tried, w.path, failure);
    ReversedTwice(PathsOf(t.tried + [(w.path, failure)]));
  }

  lemma {:induction false} ReversedTwice(s: seq<string>)
    ensures Reversed(Reversed(s)) == s
  {
    if s == [] {
    } else {
      ReversedSnoc(Reversed(s[1..]), s[0]);
      ReversedTwice(s[1..]);
    }
  }
}
