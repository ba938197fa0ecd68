/** What holds over whole runs of the model against an engine. */
module RefreshTheorems {
  import opened Wrappers
  import opened AppState
  import opened RefreshProtocol
  import opened RefreshHistory
  import opened StepEffects
  import opened RefreshConvergence

  // ---- Putting files back, one call after the other ----

  function Reversed(s: seq<string>): (r: seq<string>) {
    if s == [] then [] else Reversed(s[1..]) + [s[0]]
  }

  function PathsOf(tried: seq<(string, Option<string>)>): seq<string> {
    if tried == [] then [] else PathsOf(tried[..|tried| - 1]) + [tried[|tried| - 1].0]
  }

  /** The failure of the first call that failed. */
  function FirstFailure(tried: seq<(string, Option<string>)>): Option<string> {
    if tried == [] then None
    else
      var earlier := FirstFailure(tried[..|tried| - 1]);
      if earlier.Some? then earlier else tried[|tried| - 1].1
  }

  lemma {:induction false} ReversedSnoc(s: seq<string>, x: string)
    ensures Reversed(s + [x]) == [x] + Reversed(s)
  {
    if s == [] {
    } else {
      assert (s + [x])[1..] == s[1..] + [x];
      ReversedSnoc(s[1..], x);
      assert [x] + Reversed(s[1..]) + [s[0]] == [x] + (Reversed(s[1..]) + [s[0]]);
    }
  }

  /** A call of the chain knows what is left, what was tried (from the end of the list), and how the first
      failure read. */
  predicate Linked(w: Write, asked: seq<string>, tried: seq<(string, Option<string>)>)
    requires w.Discard?
  {
    asked == w.todo + [w.path] + Reversed(PathsOf(tried)) && w.firstFailure == FirstFailure(tried)
  }

  predicate ChainInv(s: System) {
    forall i | 0 <= i < |s.writes| && s.writes[i].Discard? :: Linked(s.writes[i], s.asked, s.tried)
  }

  lemma TriedOneMore(tried: seq<(string, Option<string>)>, path: string, failure: Option<string>)
    ensures Reversed(PathsOf(tried + [(path, failure)])) == [path] + Reversed(PathsOf(tried))
    ensures FirstFailure(tried + [(path, failure)])
         == if FirstFailure(tried).Some? then FirstFailure(tried) else failure
  {
    var more := tried + [(path, failure)];
    assert more[..|more| - 1] == tried;
    ReversedSnoc(PathsOf(tried), path);
  }

  predicate SameChain(s: System, t: System) {
    t.writes == s.writes && t.asked == s.asked && t.tried == s.tried
  }

  lemma PrimitivesKeepChain(s: System)
    ensures SameChain(s, SysRefresh(s)) && SameChain(s, SysRefreshSoon(s)) && SameChain(s, SysRefreshGit(s))
  {
    if s.app.refreshing {
      assert SysRefresh(s) == s.(app := s.app.(refreshAgain := true));
    } else {
      assert SysRefresh(s) == s.(app := s.app.(refreshing := true), fetches := s.fetches + [Asked]);
    }
    if !s.app.refreshScheduled {
      assert SysRefreshSoon(s) == s.(app := s.app.(refreshScheduled := true), timers := s.timers + 1);
    }
    RefreshGitKeepsChain(s);
  }

  lemma RefreshGitKeepsChain(s: System)
    ensures SameChain(s, SysRefreshGit(s))
  {
    var ws := s.app.config.head.ws;
    if ws == "" {
    } else if s.app.gitRefreshing {
      assert SysRefreshGit(s) == s.(app := s.app.(gitAgain := true));
    } else {
      assert SysRefreshGit(s) == s.(app := s.app.(gitRefreshing := true), gitFetches := s.gitFetches + [GitAsked(ws)]);
    }
  }

  lemma FollowUpsKeepChain(s: System)
    ensures SameChain(s, FollowUp(s)) && SameChain(s, GitFollowUp(s))
  {
    if s.app.refreshAgain {
      PrimitivesKeepChain(s.(app := s.app.(refreshAgain := false)));
    }
    if s.app.gitAgain {
      PrimitivesKeepChain(s.(app := s.app.(gitAgain := false)));
    }
  }

  lemma HandledKeepsChain(s: System, e: Event, patched: bool)
    ensures SameChain(s, Handled(s, e, patched))
  {
    if patched && e.EntityChanged? {
    } else {
      PrimitivesKeepChain(s);
    }
  }

  lemma SameChainKeeps(s: System, t: System)
    requires ChainInv(s) && t.writes == s.writes && (s.writes == [] || SameChain(s, t))
    ensures ChainInv(t)
  {
  }

  lemma StartKeepsChain(s: System, ui: Ui)
    requires OneOfEach(s) && Started(s.app, ui).Some?
    ensures ChainInv(NextAsk(s, ui))
  {
    var r, w := Remember(s, ui), Started(s.app, ui).value;
    assert SysStart(r, w).writes == [w] by { assert s.writes == []; }
    assert NextAsk(s, ui) == SysStart(r, w);
    if w.Discard? {
      DiscardStarts(s.app, ui);
      assert r == s.(asked := ui.paths, tried := []);
      LinkedFirst(w, ui.paths);
    }
  }

  /** The first call of a chain is for the last path of the list. */
  lemma DiscardStarts(a: App, ui: Ui)
    requires Started(a, ui).Some? && Started(a, ui).value.Discard?
    ensures var w := Started(a, ui).value;
            ui.UiRevertPaths? && ui.paths == w.todo + [w.path] && w.firstFailure == None
  {
  }

  lemma LinkedFirst(w: Write, asked: seq<string>)
    requires w.Discard? && w.firstFailure == None && asked == w.todo + [w.path]
    ensures Linked(w, asked, [])
  {
    assert asked + [] == asked;
  }

  lemma AskKeepsChain(s: System, ui: Ui)
    requires OneOfEach(s) && ChainInv(s)
    ensures ChainInv(NextAsk(s, ui))
  {
    if Started(s.app, ui).Some? {
      StartKeepsChain(s, ui);
    } else {
      var r := Remember(s, ui);
      PrimitivesKeepChain(r);
      assert NextAsk(s, ui).writes == s.writes;
      SameChainKeeps(s, NextAsk(s, ui));
    }
  }

  /** One file done: the next call carries the list without its path, and the first failure so far. */
  lemma NextFile(r: System, w: Write, failure: Option<string>)
    requires w.Discard? && w.todo != [] && r.writes == []
    ensures var first := if w.firstFailure.Some? then w.firstFailure else failure;
            var t := Continued(r, w, failure);
            t.writes == [Discard(w.todo[|w.todo| - 1], w.todo[..|w.todo| - 1], first)]
            && t.asked == r.asked && t.tried == r.tried
  {
  }

  lemma LinkedNext(w: Write, asked: seq<string>, tried: seq<(string, Option<string>)>, failure: Option<string>)
    requires w.Discard? && w.todo != [] && Linked(w, asked, tried)
    ensures var first := if w.firstFailure.Some? then w.firstFailure else failure;
            Linked(Discard(w.todo[|w.todo| - 1], w.todo[..|w.todo| - 1], first), asked, tried + [(w.path, failure)])
  {
    TriedOneMore(tried, w.path, failure);
    var last := |w.todo| - 1;
    assert w.todo == w.todo[..last] + [w.todo[last]];
  }

  lemma ReplyKeepsChain(s: System, i: nat, failure: Option<string>)
    requires OneOfEach(s) && ChainInv(s) && i < |s.writes|
    ensures ChainInv(Next(s, ReplyWrite(i, failure)))
  {
    var w, r := s.writes[i], Answering(s, i, failure);
    assert r.writes == [];
    if w.Discard? && w.todo != [] {
      NextFile(r, w, failure);
      assert Linked(w, s.asked, s.tried);
      LinkedNext(w, s.asked, s.tried, failure);
    } else {
      LastFile(r, w, failure);
    }
  }

  /** The last answer of a chain leaves none. */
  lemma LastFile(r: System, w: Write, failure: Option<string>)
    requires !(w.Discard? && w.todo != []) && r.writes == []
    ensures var t := Continued(r, w, failure); t.writes == [] && t.asked == r.asked && t.tried == r.tried
  {
    PrimitivesKeepChain(r.(app := r.app.(publishing := false)));
  }

  lemma ChainInvIsKept(s: System, step: Step)
    requires OneOfEach(s) && ChainInv(s) && Enabled(s, step)
    ensures ChainInv(After(s, step))
  {
    if Simple(step) {
      SimpleStepKeepsChain(s, step);
    } else {
      AfterIs(s, step);
      HandlerKeepsChain(s, step);
    }
  }

  lemma SimpleStepKeepsChain(s: System, step: Step)
    requires Enabled(s, step) && Simple(step)
    ensures SameChain(s, After(s, step))
  {
  }

  lemma HandlerKeepsChain(s: System, step: Step)
    requires OneOfEach(s) && ChainInv(s) && Enabled(s, step) && !Simple(step)
    ensures ChainInv(Next(s, step))
  {
    match step
    case Ask(ui) => AskKeepsChain(s, ui);
    case Deliver(patched) => HandledKeepsChain(Delivered(s), s.queue[0], patched);
    case Fire => PrimitivesKeepChain(Timed(s));
    case ReplyConfig(i) =>
      PrimitivesKeepChain(TakenConfig(s, i));
      FollowUpsKeepChain(SysRefreshGit(TakenConfig(s, i)));
    case FailConfig(i, error) => FollowUpsKeepChain(NoConfig(s, i, error));
    case ReplyGit(i) => FollowUpsKeepChain(TakenGit(s, i));
    case FailGit(i) => FollowUpsKeepChain(NoGit(s, i));
    case ReplyWrite(i, failure) => ReplyKeepsChain(s, i, failure);
    case ReplyCommand(i, ok) => PrimitivesKeepChain(Forgotten(s, i));
  }

  // ---- Every reachable state ----

  ghost predicate Inv(s: System) {
    OneOfEach(s) && SnapshotInv(s) && GitInv(s) && ChainInv(s)
  }

  lemma InitInv(s: System)
    requires Init(s)
    ensures Inv(s)
  {
    assert s.fetches[0].Asked?;
  }

  lemma {:induction false} InvOverRuns(s: System, steps: seq<Step>)
    requires Inv(s) && CanRun(s, steps)
    ensures Inv(Run(s, steps))
    decreases |steps|
  {
    if steps == [] {
    } else {
      OneOfEachIsKept(s, steps[0]);
      SnapshotInvIsKept(s, steps[0]);
      GitInvIsKept(s, steps[0]);
      ChainInvIsKept(s, steps[0]);
      InvOverRuns(After(s, steps[0]), steps[1..]);
    }
  }

  /** Coalescing and mutual exclusion over every run: at most one `config.get`, one burst timer, one status read
      and one write chain, each exactly while its flag is up. */
  lemma OneAtATime(s: System, steps: seq<Step>)
    requires Init(s) && CanRun(s, steps)
    ensures OneOfEach(Run(s, steps))
  {
    InitInv(s);
    InvOverRuns(s, steps);
  }

  // ---- Convergence ----

  /** At every moment of every run, unless a read has failed or a change went unheard since the last read was
      served: each entity agrees with the engine, or has its latest change queued, or will be read again. */
  lemma EveryEntityIsCovered(s: System, steps: seq<Step>)
    requires Init(s) && CanRun(s, steps) && !Run(s, steps).lost
    ensures Covered(Run(s, steps))
  {
    InitInv(s);
    InvOverRuns(s, steps);
  }

  lemma SameLookups(a: map<string, string>, b: map<string, string>)
    requires forall id :: Lookup(a, id) == Lookup(b, id)
    ensures a == b
  {
    forall id ensures id in a <==> id in b {
      assert Lookup(a, id) == Lookup(b, id);
    }
    forall id | id in a ensures a[id] == b[id] {
      assert Lookup(a, id) == Lookup(b, id);
    }
  }

  /** Covered, with nothing to read and nothing queued: the upcoming snapshot is the engine's. */
  lemma CoveredAndStill(s: System)
    requires Covered(s) && !WillRead(s) && s.queue == []
    ensures Upcoming(s) == Snapshot(s.engine)
  {
    forall id ensures Lookup(Upcoming(s).entries, id) == Lookup(Snapshot(s.engine).entries, id) {
      assert ChangeQueued(s.queue, s.engine.head.ws, id) || Agrees(s, id);
    }
    SameLookups(Upcoming(s).entries, Snapshot(s.engine).entries);
  }

  /** Once nothing is on its way, the app shows the engine's snapshot, unless the last thing that befell it was a read
      that failed, or a change announced before the subscription, with no read served since; and the engine's git
      status, likewise. */
  lemma Converges(s: System, steps: seq<Step>)
    requires Init(s) && CanRun(s, steps) && Quiescent(Run(s, steps))
    ensures var t := Run(s, steps);
            && (t.lost <==> EndsRaised(Lost, steps)) && (t.gitLost <==> EndsRaised(GitLost, steps))
            && (!t.lost ==> t.app.config == Snapshot(t.engine))
            && (!t.gitLost && t.app.config.head.ws != "" ==> t.app.git == Status(t.engine, t.app.config.head.ws))
  {
    InitInv(s);
    InvOverRuns(s, steps);
    HistoryIs(Lost, s, steps);
    HistoryIs(GitLost, s, steps);
    AtRest(Run(s, steps));
  }

  lemma AtRest(t: System)
    requires Inv(t) && Quiescent(t)
    ensures !t.lost ==> t.app.config == Snapshot(t.engine)
    ensures !t.gitLost && t.app.config.head.ws != "" ==> t.app.git == Status(t.engine, t.app.config.head.ws)
  {
    if !t.lost {
      CoveredAndStill(t);
    }
  }

  /** A run in which no read of the snapshot fails, and one is served after the subscription, rests on the engine's
      snapshot. */
  lemma ConvergesOnceSubscribed(s: System, steps: seq<Step>, i: nat, j: nat)
    requires Init(s) && CanRun(s, steps) && Quiescent(Run(s, steps))
    requires forall k | 0 <= k < |steps| :: !steps[k].FailConfig?
    requires i < j < |steps| && steps[i] == Subscribed && steps[j].ServeConfig?
    ensures Run(s, steps).app.config == Snapshot(Run(s, steps).engine)
  {
    ServedAfterSubscribing(steps, i, j);
    Converges(s, steps);
  }

  /** An answer in flight that is not the engine's snapshot any more will not be the last word. */
  lemma StaleReplyIsFollowedUp(s: System, steps: seq<Step>, stale: Config)
    requires Init(s) && CanRun(s, steps) && !Run(s, steps).lost
    requires Run(s, steps).fetches == [Answered(stale)] && stale != Snapshot(Run(s, steps).engine)
    ensures var t := Run(s, steps);
            t.app.refreshAgain || t.app.refreshScheduled || t.queue != [] || CommandOwes(t.commands)
  {
    InitInv(s);
    InvOverRuns(s, steps);
    var t := Run(s, steps);
    if t.queue == [] && !WillRead(t) {
      CoveredAndStill(t);
    }
  }

  /** The status shown belongs to the workspace in front whenever no read of it is under way and the last one did
      not fail; an answer for another workspace is never taken. */
  lemma StatusBelongsToTheWorkspaceInFront(s: System, steps: seq<Step>)
    requires Init(s) && CanRun(s, steps)
    ensures var t := Run(s, steps);
            && (t.gitFailed <==> EndsRaised(GitFailed, steps))
            && (t.gitFetches == [] && !t.gitFailed && t.app.config.head.ws != "" ==>
                  t.gitReadFor == t.app.config.head.ws)
            && forall i | 0 <= i < |t.gitFetches| && t.gitFetches[i].GitAnswered? ::
                 (t.gitFetches[i].ws != t.app.config.head.ws ==>
                   After(t, ReplyGit(i)).app.git == t.app.git && After(t, ReplyGit(i)).gitReadFor == t.gitReadFor)
  {
    InitInv(s);
    InvOverRuns(s, steps);
    HistoryIs(GitFailed, s, steps);
    var t := Run(s, steps);
    forall i | 0 <= i < |t.gitFetches| && t.gitFetches[i].GitAnswered? && t.gitFetches[i].ws != t.app.config.head.ws
      ensures After(t, ReplyGit(i)).app.git == t.app.git && After(t, ReplyGit(i)).gitReadFor == t.gitReadFor
    {
      AfterIs(t, ReplyGit(i));
      var r := TakenGit(t, i);
      if r.app.gitAgain {
        RefreshGitFrame(r.(app := r.app.(gitAgain := false)));
      }
    }
  }

  /** A failed read of the snapshot keeps the one there is, and the follow-up it owes is asked for. */
  lemma FailedReadKeepsSnapshot(s: System, i: nat, error: string)
    requires Inv(s) && Enabled(s, FailConfig(i, error))
    ensures var t := After(s, FailConfig(i, error));
            t.app.config == s.app.config && t.fetches == if s.app.refreshAgain then [Asked] else []
  {
    AfterIs(s, FailConfig(i, error));
    var r := NoConfig(s, i, error);
    assert r.fetches == [] && !r.app.refreshing;
    FollowsUp(r);
  }

  // ---- Coalescing ----

  /** `n` more requests to read the snapshot. */
  function Requests(n: nat): seq<Step> {
    if n == 0 then [] else [Ask(UiRefresh)] + Requests(n - 1)
  }

  lemma {:induction false} RequestsCollapse(s: System, n: nat)
    requires OneOfEach(s) && s.app.refreshing && s.app.refreshAgain
    ensures CanRun(s, Requests(n)) && Run(s, Requests(n)) == s
  {
    if n == 0 {
    } else {
      AfterIs(s, Ask(UiRefresh));
      assert After(s, Ask(UiRefresh)) == s;
      assert Requests(n)[1..] == Requests(n - 1);
      RequestsCollapse(s, n - 1);
    }
  }

  /** However often the snapshot is asked for while a read is in flight, its reply is followed by one more read,
      and that one by none. */
  lemma ManyRequestsOneFollowUp(s: System, n: nat, config: Config)
    requires OneOfEach(s) && s.fetches == [Answered(config)] && n > 0
    ensures CanRun(s, Requests(n)) && Run(s, Requests(n)).fetches == s.fetches
    ensures var t := After(Run(s, Requests(n)), ReplyConfig(0));
            OneOfEach(t) && t.fetches == [Asked] && !t.app.refreshAgain
  {
    RequestsAre(s, n);
    var t := s.(app := s.app.(refreshAgain := true));
    OneFollowUp(t, true);
    OneOfEachIsKept(t, ReplyConfig(0));
  }

  lemma RequestsAre(s: System, n: nat)
    requires OneOfEach(s) && s.app.refreshing && n > 0
    ensures CanRun(s, Requests(n)) && Run(s, Requests(n)) == s.(app := s.app.(refreshAgain := true))
  {
    AfterIs(s, Ask(UiRefresh));
    var t := s.(app := s.app.(refreshAgain := true));
    assert After(s, Ask(UiRefresh)) == t;
    assert Requests(n)[0] == Ask(UiRefresh) && Requests(n)[1..] == Requests(n - 1);
    RequestsCollapse(t, n - 1);
  }

  lemma OneFollowUp(s: System, again: bool)
    requires OneOfEach(s) && s.fetches != [] && s.fetches[0].Answered? && s.app.refreshAgain == again
    ensures var t := After(s, ReplyConfig(0));
            t.fetches == (if again then [Asked] else []) && !t.app.refreshAgain
  {
    AfterIs(s, ReplyConfig(0));
    var r := TakenConfig(s, 0);
    assert r.fetches == [] && !r.app.refreshing;
    RefreshGitFrame(r);
    FollowsUp(SysRefreshGit(r));
  }

  /** Where no read is under way, the follow-up that was asked for is. */
  lemma FollowsUp(g: System)
    requires g.fetches == [] && !g.app.refreshing
    ensures FollowUp(g).fetches == (if g.app.refreshAgain then [Asked] else [])
    ensures !FollowUp(g).app.refreshAgain && FollowUp(g).app.config == g.app.config
  {
    if g.app.refreshAgain {
      var h := g.(app := g.app.(refreshAgain := false));
      assert SysRefresh(h) == h.(app := h.app.(refreshing := true), fetches := h.fetches + [Asked]);
    }
  }
}
