/** Once nothing comes from outside, every run comes to rest. */
module RefreshTermination {
  import opened Wrappers
  import opened AppState
  import opened RefreshProtocol
  import opened RefreshHistory
  import opened StepEffects
  import opened RefreshConvergence
  import opened RefreshTheorems

  function Weight(b: bool, w: nat): nat {
    if b then w else 0
  }

  function FetchWeight(fetches: seq<Fetch>): nat {
    if fetches == [] then 0 else if fetches[0].Asked? then 5 else 4
  }

  function GitWeight(gitFetches: seq<GitFetch>): nat {
    if gitFetches == [] then 0 else if gitFetches[0].GitAsked? then 2 else 1
  }

  function WriteWeight(writes: seq<Write>): nat {
    if writes == [] then 0 else if writes[0].Discard? then 10 + |writes[0].todo| else 10
  }

  /** What is on its way, each thing heavier than all it can bring about. */
  function Measure(s: System): nat {
    8 * |s.queue| + 7 * s.timers + 7 * |s.commands| + WriteWeight(s.writes)
    + Weight(s.app.refreshAgain, 6) + FetchWeight(s.fetches) + Weight(s.app.gitAgain, 3) + GitWeight(s.gitFetches)
  }

  lemma RefreshWeighs(s: System)
    requires Counted(s)
    ensures Measure(SysRefresh(s)) <= Measure(s) + 6
    ensures !s.app.refreshing ==> Measure(SysRefresh(s)) == Measure(s) + 5
  {
    if s.app.refreshing {
      assert SysRefresh(s) == s.(app := s.app.(refreshAgain := true));
    } else {
      assert SysRefresh(s) == s.(app := s.app.(refreshing := true), fetches := s.fetches + [Asked]);
      assert SysRefresh(s).fetches == [Asked];
    }
  }

  lemma RefreshSoonWeighs(s: System)
    ensures Measure(SysRefreshSoon(s)) <= Measure(s) + 7
  {
    if !s.app.refreshScheduled {
      assert SysRefreshSoon(s) == s.(app := s.app.(refreshScheduled := true), timers := s.timers + 1);
    }
  }

  lemma RefreshGitWeighs(s: System)
    requires Counted(s)
    ensures Measure(SysRefreshGit(s)) <= Measure(s) + 3
    ensures !s.app.gitRefreshing ==> Measure(SysRefreshGit(s)) <= Measure(s) + 2
  {
    if s.app.config.head.ws == "" {
    } else if s.app.gitRefreshing {
      assert SysRefreshGit(s) == s.(app := s.app.(gitAgain := true));
    } else {
      NewGitReadWeighs(s);
    }
  }

  lemma NewGitReadWeighs(s: System)
    requires Counted(s) && s.app.config.head.ws != "" && !s.app.gitRefreshing
    ensures Measure(SysRefreshGit(s)) == Measure(s) + 2
  {
    var read := [GitAsked(s.app.config.head.ws)];
    assert s.gitFetches + read == read;
    assert SysRefreshGit(s) == s.(app := s.app.(gitRefreshing := true), gitFetches := read);
  }

  lemma FollowUpWeighs(s: System)
    requires Counted(s) && !s.app.refreshing
    ensures Measure(FollowUp(s)) <= Measure(s)
  {
    if s.app.refreshAgain {
      RefreshWeighs(s.(app := s.app.(refreshAgain := false)));
    }
  }

  lemma GitFollowUpWeighs(s: System)
    requires Counted(s) && !s.app.gitRefreshing
    ensures Measure(GitFollowUp(s)) <= Measure(s)
  {
    if s.app.gitAgain {
      RefreshGitWeighs(s.(app := s.app.(gitAgain := false)));
    }
  }

  lemma DeliverDecreases(s: System, patched: bool)
    requires OneOfEach(s) && Enabled(s, Deliver(patched))
    ensures Measure(Next(s, Deliver(patched))) < Measure(s)
  {
    var e, r := s.queue[0], Delivered(s);
    var t := Handled(r, e, patched);
    assert Measure(r) == Measure(s) - 8;
    if patched {
      assert t == r.(app := r.app.(config := Patch(r.app.config, e.id, e.entry),
                                   refreshAgain := r.app.refreshAgain || r.app.refreshing));
    } else if e.AccountChanged? {
      RefreshWeighs(r);
    } else if e.VaultChanged? || e.SyncStatus? || (e.EntityStatus? && Quietly(r.app, e)) {
      RefreshGitWeighs(r);
    } else {
      RefreshSoonWeighs(r);
    }
  }

  lemma ReplyConfigDecreases(s: System, i: nat)
    requires OneOfEach(s) && Enabled(s, ReplyConfig(i))
    ensures Measure(Next(s, ReplyConfig(i))) < Measure(s)
  {
    var r := TakenConfig(s, i);
    assert r.fetches == [] && Measure(r) == Measure(s) - 4;
    RefreshGitWeighs(r);
    RefreshGitCounts(r);
    FollowUpWeighs(SysRefreshGit(r));
  }

  lemma FailConfigDecreases(s: System, i: nat, error: string)
    requires OneOfEach(s) && Enabled(s, FailConfig(i, error))
    ensures Measure(Next(s, FailConfig(i, error))) < Measure(s)
  {
    var r := NoConfig(s, i, error);
    assert r.fetches == [] && Measure(r) < Measure(s);
    FollowUpWeighs(r);
  }

  lemma ReplyGitDecreases(s: System, i: nat)
    requires OneOfEach(s) && Enabled(s, ReplyGit(i))
    ensures Measure(Next(s, ReplyGit(i))) < Measure(s)
  {
    var r := TakenGit(s, i);
    assert r.gitFetches == [] && Counted(r) && Measure(r) < Measure(s);
    GitFollowUpWeighs(r);
  }

  lemma FailGitDecreases(s: System, i: nat)
    requires OneOfEach(s) && Enabled(s, FailGit(i))
    ensures Measure(Next(s, FailGit(i))) < Measure(s)
  {
    var r := NoGit(s, i);
    assert r.gitFetches == [] && Counted(r) && Measure(r) < Measure(s);
    GitFollowUpWeighs(r);
  }

  lemma AnsweringWeighs(s: System, i: nat, failure: Option<string>)
    requires OneOfEach(s) && i < |s.writes|
    ensures var r := Answering(s, i, failure);
            r.writes == [] && r.app == s.app && Measure(r) + WriteWeight(s.writes) == Measure(s)
            && r.fetches == s.fetches && r.gitFetches == s.gitFetches && r.timers == s.timers
  {
  }

  lemma NextFileWeighs(r: System, w: Write, failure: Option<string>)
    requires w.Discard? && w.todo != [] && r.writes == []
    ensures Measure(Continued(r, w, failure)) == Measure(r) + 9 + |w.todo|
  {
    NextFile(r, w, failure);
  }

  lemma LastAnswerWeighs(r: System, w: Write, failure: Option<string>)
    requires Counted(r.(writes := [w])) && r.writes == [] && !(w.Discard? && w.todo != [])
    ensures Measure(Continued(r, w, failure)) <= Measure(r) + 6
  {
    var h := r.(app := r.app.(publishing := false));
    assert Counted(h) && Measure(h) == Measure(r);
    if w.Publish? {
      assert Continued(r, w, failure) == SysRefreshGit(h);
      RefreshGitWeighs(h);
    } else {
      assert Continued(r, w, failure) == SysRefresh(h);
      RefreshWeighs(h);
    }
  }

  lemma ReplyWriteDecreases(s: System, i: nat, failure: Option<string>)
    requires OneOfEach(s) && i < |s.writes|
    ensures Measure(Next(s, ReplyWrite(i, failure))) < Measure(s)
  {
    AnsweringWeighs(s, i, failure);
    AnsweringCounts(s, i, failure);
    ContinuedWeighs(Answering(s, i, failure), s.writes[i], failure);
  }

  lemma AnsweringCounts(s: System, i: nat, failure: Option<string>)
    requires OneOfEach(s) && i < |s.writes|
    ensures s.writes == [s.writes[i]] && Counted(Answering(s, i, failure).(writes := [s.writes[i]]))
  {
  }

  lemma ContinuedWeighs(r: System, w: Write, failure: Option<string>)
    requires Counted(r.(writes := [w])) && r.writes == []
    ensures Measure(Continued(r, w, failure)) < Measure(r) + WriteWeight([w])
  {
    if w.Discard? && w.todo != [] {
      NextFileWeighs(r, w, failure);
    } else {
      LastAnswerWeighs(r, w, failure);
    }
  }

  lemma ServeDecreases(s: System, step: Step)
    requires OneOfEach(s) && Enabled(s, step) && (step.ServeConfig? || step.ServeGit?)
    ensures Measure(After(s, step)) == Measure(s) - 1
  {
  }

  lemma FireDecreases(s: System)
    requires OneOfEach(s) && s.timers > 0
    ensures Measure(Next(s, Fire)) < Measure(s)
  {
    TimedWeighs(s);
    RefreshWeighs(Timed(s));
  }

  lemma TimedWeighs(s: System)
    requires OneOfEach(s) && s.timers > 0
    ensures Counted(Timed(s)) && Measure(Timed(s)) == Measure(s) - 7
  {
  }

  lemma ReplyCommandDecreases(s: System, i: nat, ok: bool)
    requires OneOfEach(s) && Enabled(s, ReplyCommand(i, ok))
    ensures Measure(Next(s, ReplyCommand(i, ok))) < Measure(s)
  {
    RefreshWeighs(Forgotten(s, i));
  }

  lemma InternalStepsDecrease(s: System, step: Step)
    requires OneOfEach(s) && Enabled(s, step) && Internal(step)
    ensures Measure(After(s, step)) < Measure(s)
  {
    AfterIs(s, step);
    match step
    case Deliver(patched) => DeliverDecreases(s, patched);
    case Fire => FireDecreases(s);
    case ServeConfig(_) => ServeDecreases(s, step);
    case ReplyConfig(i) => ReplyConfigDecreases(s, i);
    case FailConfig(i, error) => FailConfigDecreases(s, i, error);
    case ServeGit(_) => ServeDecreases(s, step);
    case ReplyGit(i) => ReplyGitDecreases(s, i);
    case FailGit(i) => FailGitDecreases(s, i);
    case ReplyWrite(i, failure) => ReplyWriteDecreases(s, i, failure);
    case ReplyCommand(i, ok) => ReplyCommandDecreases(s, i, ok);
  }

  predicate AllInternal(steps: seq<Step>) {
    forall i | 0 <= i < |steps| :: Internal(steps[i])
  }

  /** No run without outside steps is longer than the measure of what is on its way. */
  lemma {:induction false} RunsAreBounded(s: System, steps: seq<Step>)
    requires OneOfEach(s) && CanRun(s, steps) && AllInternal(steps)
    ensures |steps| + Measure(Run(s, steps)) <= Measure(s)
    decreases |steps|
  {
    if steps == [] {
    } else {
      InternalStepsDecrease(s, steps[0]);
      OneOfEachIsKept(s, steps[0]);
      RunsAreBounded(After(s, steps[0]), steps[1..]);
    }
  }

  /** Whatever is on its way can take its next step. */
  lemma NeverStuck(s: System) returns (step: Step)
    requires !Quiescent(s)
    ensures Enabled(s, step) && Internal(step)
  {
    step :=
      if s.queue != [] then Deliver(false)
      else if s.timers > 0 then Fire
      else if s.fetches != [] then (if s.fetches[0].Asked? then ServeConfig(0) else ReplyConfig(0))
      else if s.gitFetches != [] then (if s.gitFetches[0].GitAsked? then ServeGit(0) else ReplyGit(0))
      else if s.writes != [] then ReplyWrite(0, None)
      else ReplyCommand(0, true);
  }

  /** Every reachable state comes to rest by itself, and then, unless a read failed after the last one served, the
      app shows what the engine holds. */
  lemma EveryRunSettles(s: System) returns (steps: seq<Step>)
    requires Inv(s)
    ensures CanRun(s, steps) && AllInternal(steps) && Quiescent(Run(s, steps))
    ensures !Run(s, steps).lost ==> Run(s, steps).app.config == Snapshot(Run(s, steps).engine)
    decreases Measure(s)
  {
    if Quiescent(s) {
      steps := [];
      if !s.lost {
        CoveredAndStill(s);
      }
    } else {
      var step := NeverStuck(s);
      InternalStepsDecrease(s, step);
      InvIsKept(s, step);
      var rest := EveryRunSettles(After(s, step));
      steps := [step] + rest;
      assert steps[1..] == rest;
    }
  }

  lemma InvIsKept(s: System, step: Step)
    requires Inv(s) && Enabled(s, step)
    ensures Inv(After(s, step))
  {
    OneOfEachIsKept(s, step);
    SnapshotInvIsKept(s, step);
    GitInvIsKept(s, step);
    ChainInvIsKept(s, step);
  }

  // ---- What the history flag `lost` is for ----

  lemma RunCons(s: System, step: Step, rest: seq<Step>)
    requires Enabled(s, step) && CanRun(After(s, step), rest)
    ensures CanRun(s, [step] + rest) && Run(s, [step] + rest) == Run(After(s, step), rest)
  {
    assert ([step] + rest)[1..] == rest;
  }

  /** No read, write or command fails. */
  predicate NothingFails(steps: seq<Step>) {
    forall i | 0 <= i < |steps| ::
      && !steps[i].FailConfig? && !steps[i].FailGit?
      && (steps[i].ReplyWrite? ==> steps[i].failure.None?) && (steps[i].ReplyCommand? ==> steps[i].ok)
  }

  /** The status of the workspace in front, asked for, comes back and is shown. */
  lemma StatusReadEnds(g: System, ws: string) returns (steps: seq<Step>)
    requires OneOfEach(g) && g.gitFetches == [GitAsked(ws)] && !g.app.gitAgain && g.fetches == []
    requires g.queue == [] && g.timers == 0 && g.writes == [] && g.commands == []
    ensures CanRun(g, steps) && NothingFails(steps)
    ensures var t := Run(g, steps);
            Quiescent(t) && t.subscribed == g.subscribed && t.app.config == g.app.config && t.engine == g.engine
  {
    var h := After(g, ServeGit(0));
    AfterIs(h, ReplyGit(0));
    var t := TakenGit(h, 0);
    assert t.gitFetches == [] && GitFollowUp(t) == t;
    RunCons(h, ReplyGit(0), []);
    RunCons(g, ServeGit(0), [ReplyGit(0)] + []);
    steps := [ServeGit(0)] + ([ReplyGit(0)] + []);
  }

  /** The snapshot of the workspace in front, read, shown and followed by a read of the status, all answered. */
  lemma FirstReadEnds(s: System, c: Config) returns (steps: seq<Step>)
    requires OneOfEach(s) && s.fetches == [Answered(c)] && c.head.ws != "" && !s.app.refreshAgain
    requires s.queue == [] && s.gitFetches == [] && s.timers == 0 && s.writes == [] && s.commands == []
    ensures CanRun(s, steps) && NothingFails(steps)
    ensures var t := Run(s, steps);
            Quiescent(t) && t.subscribed == s.subscribed && t.app.config == c && t.engine == s.engine
  {
    AfterIs(s, ReplyConfig(0));
    var r := TakenConfig(s, 0);
    var g := r.(app := r.app.(gitRefreshing := true), gitFetches := [GitAsked(c.head.ws)]);
    assert r.fetches == [] && SysRefreshGit(r) == g && FollowUp(g) == g;
    var rest := StatusReadEnds(g, c.head.ws);
    RunCons(s, ReplyConfig(0), rest);
    steps := [ReplyConfig(0)] + rest;
  }

  /** Whatever the engine holds, and whatever entity of the workspace in front changes to something else: made after
      the first read is served and before the subscription is in place, the change comes back by no event, and without
      any failure the run comes to rest on another snapshot than the engine's. */
  lemma ChangesBeforeTheSubscriptionCanBeMissed(s: System, id: string, entry: Option<string>, git: Git)
      returns (steps: seq<Step>)
    requires Init(s) && s.engine.head.ws != "" && Lookup(Entities(s.engine, s.engine.head.ws), id) != entry
    ensures CanRun(s, steps) && NothingFails(steps) && EndsRaised(Lost, steps)
    ensures var t := Run(s, steps);
            && Quiescent(t) && t.subscribed && t.app.config == Snapshot(s.engine) != Snapshot(t.engine)
            && t.engine == WriteEntity(s.engine, s.engine.head.ws, id, entry, git)
  {
    ServedIs(s);
    UnheardIs(s, id, entry, git);
    var rest := FirstReadEnds(Unheard(s, id, entry, git), Snapshot(s.engine));
    var write := EntityWrite(s.engine.head.ws, id, entry, git);
    ThreeThen(s, ServeConfig(0), write, Subscribed, rest);
    steps := [ServeConfig(0)] + ([write] + ([Subscribed] + rest));
    ThreeMore(ServeConfig(0), write, Subscribed, rest);
    WrittenDiffers(s.engine, s.engine.head.ws, id, entry, git);
    MissedInHistory(s, steps);
  }

  lemma ThreeMore(a: Step, b: Step, c: Step, rest: seq<Step>)
    requires NothingFails(rest) && a.ServeConfig? && b.EntityWrite? && c.Subscribed?
    ensures NothingFails([a] + ([b] + ([c] + rest)))
  {
  }

  lemma ThreeThen(s: System, a: Step, b: Step, c: Step, rest: seq<Step>)
    requires Enabled(s, a) && Enabled(After(s, a), b) && Enabled(After(After(s, a), b), c)
    requires CanRun(After(After(After(s, a), b), c), rest)
    ensures CanRun(s, [a] + ([b] + ([c] + rest)))
    ensures Run(s, [a] + ([b] + ([c] + rest))) == Run(After(After(After(s, a), b), c), rest)
  {
    RunCons(After(After(s, a), b), c, rest);
    RunCons(After(s, a), b, [c] + rest);
    RunCons(s, a, [b] + ([c] + rest));
  }

  /** A fresh app whose first read is served. */
  function Served(s: System): System {
    s.(fetches := [Answered(Snapshot(s.engine))], lost := false)
  }

  lemma ServedIs(s: System)
    requires Init(s)
    ensures After(s, ServeConfig(0)) == Served(s)
  {
  }

  /** And then an entity is written, and the subscription comes too late for it. */
  function Unheard(s: System, id: string, entry: Option<string>, git: Git): System {
    Served(s).(engine := WriteEntity(s.engine, s.engine.head.ws, id, entry, git), lost := true, gitLost := true,
               subscribed := true)
  }

  lemma UnheardIs(s: System, id: string, entry: Option<string>, git: Git)
    requires Init(s)
    ensures After(After(Served(s), EntityWrite(s.engine.head.ws, id, entry, git)), Subscribed)
         == Unheard(s, id, entry, git)
  {
    var s1 := Served(s);
    assert After(s1, EntityWrite(s.engine.head.ws, id, entry, git))
        == s1.(engine := WriteEntity(s.engine, s.engine.head.ws, id, entry, git), lost := true, gitLost := true);
  }

  /** A write of something else changes what `config.get` answers. */
  lemma WrittenDiffers(e: Engine, ws: string, id: string, entry: Option<string>, git: Git)
    requires e.head.ws == ws && Lookup(Entities(e, ws), id) != entry
    ensures Snapshot(WriteEntity(e, ws, id, entry, git)) != Snapshot(e)
  {
    var after := WriteEntity(e, ws, id, entry, git);
    assert Lookup(Entities(after, ws), id) == entry;
  }

  lemma MissedInHistory(s: System, steps: seq<Step>)
    requires Init(s) && CanRun(s, steps) && Quiescent(Run(s, steps))
    requires Run(s, steps).app.config != Snapshot(Run(s, steps).engine)
    ensures EndsRaised(Lost, steps)
  {
    Converges(s, steps);
  }

  /** A failed read can be the last word: with no other step, a fresh app rests on the empty snapshot it began with. */
  lemma FailedReadCanBeTheLast(s: System, error: string)
    requires Init(s) && s.app.config != Snapshot(s.engine)
    ensures var step := FailConfig(0, error);
            && CanRun(s, [step]) && Quiescent(Run(s, [step])) && EndsRaised(Lost, [step])
            && Run(s, [step]).app.config == s.app.config != Snapshot(Run(s, [step]).engine)
  {
    var step := FailConfig(0, error);
    AfterIs(s, step);
    var r := NoConfig(s, 0, error);
    assert r.fetches == [] && FollowUp(r) == r;
    RunCons(s, step, []);
    assert [step] + [] == [step];
    assert RaisedLast(Lost, false, [step], 0);
  }
}
