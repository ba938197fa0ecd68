/** What every step of the running system keeps, and what follows when nothing is on its way any more. */
module RefreshConvergence {
  import opened Wrappers
  import opened AppState
  import opened RefreshProtocol
  import opened StepEffects

  // ---- One of each at a time ----

  function One(b: bool): nat {
    if b then 1 else 0
  }

  /** At most one `config.get`, one burst timer, one status read and one write chain are under way: exactly when
      the model's flag for it is up. A follow-up is only noted while a read is in flight. */
  predicate OneOfEach(s: System) {
    && s.app.sent == []
    && |s.fetches| == One(s.app.refreshing)
    && s.timers == One(s.app.refreshScheduled)
    && |s.gitFetches| == One(s.app.gitRefreshing)
    && |s.writes| == One(s.app.publishing)
    && (s.app.refreshAgain ==> s.app.refreshing)
    && (s.app.gitAgain ==> s.app.gitRefreshing)
  }

  /** `OneOfEach` while a continuation of a read runs: the follow-ups are not looked at yet. */
  predicate Counted(s: System) {
    && s.app.sent == []
    && |s.fetches| == One(s.app.refreshing)
    && s.timers == One(s.app.refreshScheduled)
    && |s.gitFetches| == One(s.app.gitRefreshing)
    && |s.writes| == One(s.app.publishing)
  }

  lemma RefreshCounts(s: System)
    requires Counted(s)
    ensures Counted(SysRefresh(s)) && SysRefresh(s).app.refreshing
    ensures SysRefresh(s).app.gitAgain == s.app.gitAgain && SysRefresh(s).app.gitRefreshing == s.app.gitRefreshing
  {
    if s.app.refreshing {
      assert SysRefresh(s) == s.(app := s.app.(refreshAgain := true));
    } else {
      assert SysRefresh(s) == s.(app := s.app.(refreshing := true), fetches := s.fetches + [Asked]);
    }
  }

  lemma RefreshSoonCounts(s: System)
    requires OneOfEach(s)
    ensures OneOfEach(SysRefreshSoon(s))
  {
    if !s.app.refreshScheduled {
      assert SysRefreshSoon(s) == s.(app := s.app.(refreshScheduled := true), timers := s.timers + 1);
    }
  }

  lemma RefreshGitCounts(s: System)
    requires Counted(s) && (s.app.gitAgain ==> s.app.gitRefreshing)
    ensures Counted(SysRefreshGit(s)) && (SysRefreshGit(s).app.gitAgain ==> SysRefreshGit(s).app.gitRefreshing)
    ensures SysRefreshGit(s).app.refreshing == s.app.refreshing
    ensures SysRefreshGit(s).app.refreshAgain == s.app.refreshAgain
  {
    var ws := s.app.config.head.ws;
    if ws == "" {
    } else if s.app.gitRefreshing {
      assert SysRefreshGit(s) == s.(app := s.app.(gitAgain := true));
    } else {
      assert SysRefreshGit(s) == s.(app := s.app.(gitRefreshing := true), gitFetches := s.gitFetches + [GitAsked(ws)]);
    }
  }

  lemma StartCounts(s: System, w: Write)
    requires OneOfEach(s) && !s.app.publishing
    ensures OneOfEach(SysStart(s, w))
  {
  }

  lemma FollowUpCounts(s: System)
    requires Counted(s) && (s.app.gitAgain ==> s.app.gitRefreshing)
    ensures OneOfEach(FollowUp(s))
  {
    if s.app.refreshAgain {
      RefreshCounts(s.(app := s.app.(refreshAgain := false)));
    }
  }

  lemma GitFollowUpCounts(s: System)
    requires Counted(s) && (s.app.refreshAgain ==> s.app.refreshing)
    ensures OneOfEach(GitFollowUp(s))
  {
    if s.app.gitAgain {
      RefreshGitCounts(s.(app := s.app.(gitAgain := false)));
    }
  }

  lemma HandledCounts(s: System, e: Event, patched: bool)
    requires OneOfEach(s)
    ensures OneOfEach(Handled(s, e, patched))
  {
    if patched && e.EntityChanged? {
    } else if e.AccountChanged? {
      RefreshCounts(s);
    } else if e.VaultChanged? || e.SyncStatus? || (e.EntityStatus? && Quietly(s.app, e)) {
      RefreshGitCounts(s);
    } else {
      RefreshSoonCounts(s);
    }
  }

  lemma ContinuedCounts(s: System, w: Write, failure: Option<string>)
    requires Counted(s.(writes := [w])) && s.writes == []
    requires (s.app.refreshAgain ==> s.app.refreshing) && (s.app.gitAgain ==> s.app.gitRefreshing)
    ensures OneOfEach(Continued(s, w, failure))
  {
    if w.Discard? && w.todo != [] {
      NextFileCounts(s, w, failure);
    } else {
      EndedCounts(s, w, failure);
    }
  }

  lemma NextFileCounts(s: System, w: Write, failure: Option<string>)
    requires Counted(s.(writes := [w])) && s.writes == [] && w.Discard? && w.todo != []
    requires (s.app.refreshAgain ==> s.app.refreshing) && (s.app.gitAgain ==> s.app.gitRefreshing)
    ensures OneOfEach(Continued(s, w, failure))
  {
    var first := if w.firstFailure.Some? then w.firstFailure else failure;
    var next := Discard(w.todo[|w.todo| - 1], w.todo[..|w.todo| - 1], first);
    assert Continued(s, w, failure) == s.(writes := s.writes + [next]);
  }

  lemma EndedCounts(s: System, w: Write, failure: Option<string>)
    requires Counted(s.(writes := [w])) && s.writes == [] && !(w.Discard? && w.todo != [])
    requires (s.app.refreshAgain ==> s.app.refreshing) && (s.app.gitAgain ==> s.app.gitRefreshing)
    ensures OneOfEach(Continued(s, w, failure))
  {
    var r := s.(app := s.app.(publishing := false));
    assert Counted(r);
    if w.Publish? {
      assert Continued(s, w, failure) == SysRefreshGit(r);
      RefreshGitCounts(r);
    } else {
      assert Continued(s, w, failure) == SysRefresh(r);
      RefreshCounts(r);
    }
  }

  lemma AskCounts(s: System, ui: Ui)
    requires OneOfEach(s)
    ensures OneOfEach(NextAsk(s, ui))
  {
    var r := Remember(s, ui);
    assert OneOfEach(r);
    if ui.UiRefresh? {
      assert NextAsk(s, ui) == SysRefresh(r);
      RefreshCounts(r);
    } else if ui.UiRefreshGit? {
      RefreshGitCounts(r);
    } else if Started(s.app, ui).Some? {
      StartCounts(r, Started(s.app, ui).value);
    }
  }

  lemma ReplyConfigCounts(s: System, i: nat)
    requires OneOfEach(s) && Enabled(s, ReplyConfig(i))
    ensures OneOfEach(Next(s, ReplyConfig(i)))
  {
    var r := TakenConfig(s, i);
    RefreshGitCounts(r);
    FollowUpCounts(SysRefreshGit(r));
  }

  lemma FailConfigCounts(s: System, i: nat, error: string)
    requires OneOfEach(s) && Enabled(s, FailConfig(i, error))
    ensures OneOfEach(Next(s, FailConfig(i, error)))
  {
    FollowUpCounts(NoConfig(s, i, error));
  }

  lemma ReplyGitCounts(s: System, i: nat)
    requires OneOfEach(s) && Enabled(s, ReplyGit(i))
    ensures OneOfEach(Next(s, ReplyGit(i)))
  {
    var r := TakenGit(s, i);
    assert Next(s, ReplyGit(i)) == GitFollowUp(r);
    assert Counted(r) && r.app.refreshAgain == s.app.refreshAgain && r.app.refreshing == s.app.refreshing;
    GitFollowUpCounts(r);
  }

  lemma FailGitCounts(s: System, i: nat)
    requires OneOfEach(s) && Enabled(s, FailGit(i))
    ensures OneOfEach(Next(s, FailGit(i)))
  {
    GitFollowUpCounts(NoGit(s, i));
  }

  predicate Simple(step: Step) {
    step.EntityWrite? || step.Announced? || step.GitMoved? || step.Subscribed? || step.AskCommand?
    || step.CommandActs? || step.WriteActs? || step.ServeConfig? || step.ServeGit?
  }

  predicate SameCounts(s: System, t: System) {
    t.app == s.app && |t.fetches| == |s.fetches| && |t.gitFetches| == |s.gitFetches|
    && t.timers == s.timers && t.writes == s.writes
  }

  lemma PublishesCounts(s: System, event: Event)
    ensures SameCounts(s, Publishes(s, event))
  {
  }

  lemma EngineStepIs(s: System, step: Step)
    requires Enabled(s, step) && (step.EntityWrite? || step.Announced? || step.GitMoved?)
    ensures SameCounts(s, After(s, step))
  {
    match step
    case EntityWrite(ws, id, entry, git) =>
      var r := s.(engine := WriteEntity(s.engine, ws, id, entry, git));
      PublishesCounts(r, EntityChanged(ws, id, entry));
      PublishesCounts(Publishes(r, EntityChanged(ws, id, entry)), EntityStatus(ws, Some(false)));
    case Announced(after, event) => PublishesCounts(s.(engine := after), event);
    case GitMoved(gitAfter, event) => PublishesCounts(s.(engine := s.engine.(git := gitAfter)), event);
  }

  lemma ServeStepIs(s: System, step: Step)
    requires Enabled(s, step) && (step.ServeConfig? || step.ServeGit?)
    ensures SameCounts(s, After(s, step))
  {
  }

  lemma CommandStepIs(s: System, step: Step)
    requires Enabled(s, step) && (step.AskCommand? || step.CommandActs? || step.WriteActs? || step.Subscribed?)
    ensures SameCounts(s, After(s, step))
  {
  }

  /** A step that runs no handler leaves the model as it is. */
  lemma SimpleStepIs(s: System, step: Step)
    requires Enabled(s, step) && Simple(step)
    ensures SameCounts(s, After(s, step))
  {
    if step.EntityWrite? || step.Announced? || step.GitMoved? {
      EngineStepIs(s, step);
    } else if step.ServeConfig? || step.ServeGit? {
      ServeStepIs(s, step);
    } else {
      CommandStepIs(s, step);
    }
  }

  lemma FireCounts(s: System)
    requires OneOfEach(s) && s.timers > 0
    ensures OneOfEach(Next(s, Fire))
  {
    RefreshCounts(Timed(s));
  }

  lemma ReplyCommandCounts(s: System, i: nat, ok: bool)
    requires OneOfEach(s) && Enabled(s, ReplyCommand(i, ok))
    ensures OneOfEach(Next(s, ReplyCommand(i, ok)))
  {
    RefreshKeeps(Forgotten(s, i));
  }

  lemma RefreshKeeps(r: System)
    requires OneOfEach(r)
    ensures OneOfEach(SysRefresh(r))
  {
    RefreshCounts(r);
  }

  lemma OneOfEachIsKept(s: System, step: Step)
    requires OneOfEach(s) && Enabled(s, step)
    ensures OneOfEach(After(s, step))
  {
    if Simple(step) {
      SimpleStepIs(s, step);
    } else {
      AfterIs(s, step);
      OneOfEachNext(s, step);
    }
  }

  lemma OneOfEachNext(s: System, step: Step)
    requires OneOfEach(s) && Enabled(s, step) && !Simple(step)
    ensures OneOfEach(Next(s, step))
  {
    match step
    case Ask(ui) => AskCounts(s, ui);
    case Deliver(patched) => HandledCounts(s.(queue := s.queue[1..]), s.queue[0], patched);
    case Fire => FireCounts(s);
    case ReplyConfig(i) => ReplyConfigCounts(s, i);
    case FailConfig(i, error) => FailConfigCounts(s, i, error);
    case ReplyGit(i) => ReplyGitCounts(s, i);
    case FailGit(i) => FailGitCounts(s, i);
    case ReplyWrite(i, failure) => ContinuedCounts(Answering(s, i, failure), s.writes[i], failure);
    case ReplyCommand(i, ok) => ReplyCommandCounts(s, i, ok);
  }

  // ---- The snapshot ----

  /** A later event of the queue replaces what event `i` says: another change of the same entity, or one that
      has everything read again. */
  predicate Superseded(q: seq<Event>, i: nat)
    requires i < |q| && q[i].EntityChanged?
  {
    exists j :: i < j < |q| && Replaces(q[j], q[i])
  }

  predicate Replaces(later: Event, e: Event)
    requires e.EntityChanged?
  {
    Coarse(later) || (later.EntityChanged? && later.ws == e.ws && later.id == e.id)
  }

  /** Every queued change of an entity says what the engine holds, or is replaced by a later event. */
  ghost predicate QueueIsCurrent(s: System) {
    && (!s.subscribed ==> s.queue == [])
    && forall i | 0 <= i < |s.queue| && s.queue[i].EntityChanged? ::
      Superseded(s.queue, i) || s.queue[i].entry == Lookup(Entities(s.engine, s.queue[i].ws), s.queue[i].id)
  }

  predicate CoarseQueued(q: seq<Event>) {
    exists i :: 0 <= i < |q| && Coarse(q[i])
  }

  predicate CommandOwes(cs: seq<Command>) {
    exists i :: 0 <= i < |cs| && (cs[i].always || cs[i].acted)
  }

  predicate AskedFor(fetches: seq<Fetch>) {
    exists i :: 0 <= i < |fetches| && fetches[i].Asked?
  }

  /** A snapshot will be read from the engine's state as it is now or later. */
  predicate WillRead(s: System) {
    s.app.refreshScheduled || s.app.refreshAgain || AskedFor(s.fetches) || CoarseQueued(s.queue)
    || CommandOwes(s.commands)
  }

  /** The snapshot once the answer in flight, if any, is in place. */
  function Upcoming(s: System): Config {
    if s.fetches != [] && s.fetches[0].Answered? then s.fetches[0].config else s.app.config
  }

  predicate ChangeQueued(q: seq<Event>, ws: string, id: string) {
    exists i :: 0 <= i < |q| && q[i].EntityChanged? && q[i].ws == ws && q[i].id == id
  }

  predicate Agrees(s: System, id: string) {
    Lookup(Upcoming(s).entries, id) == Lookup(Entities(s.engine, s.engine.head.ws), id)
  }

  /** Each entity agrees with the engine, or has its latest change queued, or will be read again. */
  ghost predicate Covered(s: System) {
    WillRead(s)
    || (Upcoming(s).head == s.engine.head
        && forall id :: ChangeQueued(s.queue, s.engine.head.ws, id) || Agrees(s, id))
  }

  ghost predicate SnapshotInv(s: System) {
    QueueIsCurrent(s) && (s.lost || Covered(s))
  }

  // ---- What the queue says stays true ----

  /** What the handlers never touch: the engine, the queue, the commands and the history. */
  predicate SameWorld(s: System, t: System) {
    && t.engine == s.engine && t.queue == s.queue && t.commands == s.commands && t.subscribed == s.subscribed
    && t.lost == s.lost && t.gitLost == s.gitLost && t.gitFailed == s.gitFailed && t.gitReadFor == s.gitReadFor
  }

  lemma RefreshFrame(s: System)
    ensures SameWorld(s, SysRefresh(s)) && SysRefresh(s).gitFetches == s.gitFetches
    ensures SysRefresh(s).app.config == s.app.config && SysRefresh(s).app.git == s.app.git
    ensures SysRefresh(s).app.gitAgain == s.app.gitAgain
  {
    if s.app.refreshing {
      assert SysRefresh(s) == s.(app := s.app.(refreshAgain := true));
    } else {
      assert SysRefresh(s) == s.(app := s.app.(refreshing := true), fetches := s.fetches + [Asked]);
    }
  }

  lemma RefreshSoonFrame(s: System)
    ensures SameWorld(s, SysRefreshSoon(s)) && SysRefreshSoon(s).gitFetches == s.gitFetches
    ensures SysRefreshSoon(s).fetches == s.fetches && SysRefreshSoon(s).app.config == s.app.config
    ensures SysRefreshSoon(s).app.git == s.app.git && SysRefreshSoon(s).app.gitAgain == s.app.gitAgain
  {
    if !s.app.refreshScheduled {
      assert SysRefreshSoon(s) == s.(app := s.app.(refreshScheduled := true), timers := s.timers + 1);
    }
  }

  lemma RefreshGitFrame(s: System)
    ensures var t := SysRefreshGit(s);
            SameWorld(s, t) && t.fetches == s.fetches && t.app.config == s.app.config && t.app.git == s.app.git
            && t.app.refreshAgain == s.app.refreshAgain && t.app.refreshScheduled == s.app.refreshScheduled
            && t.app.refreshing == s.app.refreshing && t.writes == s.writes && t.timers == s.timers
  {
    var ws := s.app.config.head.ws;
    if ws == "" {
    } else if s.app.gitRefreshing {
      assert SysRefreshGit(s) == s.(app := s.app.(gitAgain := true));
    } else {
      assert SysRefreshGit(s) == s.(app := s.app.(gitRefreshing := true), gitFetches := s.gitFetches + [GitAsked(ws)]);
    }
  }

  lemma HandledFrame(s: System, e: Event, patched: bool)
    ensures SameWorld(s, Handled(s, e, patched))
  {
    if patched && e.EntityChanged? {
    } else if e.AccountChanged? {
      RefreshFrame(s);
    } else if e.VaultChanged? || e.SyncStatus? || (e.EntityStatus? && Quietly(s.app, e)) {
      RefreshGitFrame(s);
    } else {
      RefreshSoonFrame(s);
    }
  }

  /** A current queue stays current when its first event is taken. */
  lemma TailIsCurrent(s: System, t: System)
    requires QueueIsCurrent(s) && s.queue != []
    requires t.queue == s.queue[1..] && t.engine.store == s.engine.store && t.subscribed == s.subscribed
    ensures QueueIsCurrent(t)
  {
    forall i | 0 <= i < |t.queue| && t.queue[i].EntityChanged?
      ensures Superseded(t.queue, i) || t.queue[i].entry == Lookup(Entities(t.engine, t.queue[i].ws), t.queue[i].id)
    {
      if Superseded(s.queue, i + 1) {
        var j :| i + 1 < j < |s.queue| && Replaces(s.queue[j], s.queue[i + 1]);
        assert Replaces(t.queue[j - 1], t.queue[i]);
      }
    }
  }

  /** An event that replaces what was queued, appended with the change it announces, keeps the queue current. */
  lemma AppendIsCurrent(s: System, t: System, event: Event)
    requires QueueIsCurrent(s) && t.queue == s.queue + [event] && t.subscribed
    requires forall i | 0 <= i < |s.queue| && s.queue[i].EntityChanged? ::
               Replaces(event, s.queue[i])
               || Lookup(Entities(t.engine, s.queue[i].ws), s.queue[i].id)
                  == Lookup(Entities(s.engine, s.queue[i].ws), s.queue[i].id)
    requires event.EntityChanged? ==> event.entry == Lookup(Entities(t.engine, event.ws), event.id)
    ensures QueueIsCurrent(t)
  {
    forall i | 0 <= i < |t.queue| && t.queue[i].EntityChanged?
      ensures Superseded(t.queue, i) || t.queue[i].entry == Lookup(Entities(t.engine, t.queue[i].ws), t.queue[i].id)
    {
      if i < |s.queue| {
        if Superseded(s.queue, i) {
          var j :| i < j < |s.queue| && Replaces(s.queue[j], s.queue[i]);
          assert Replaces(t.queue[j], t.queue[i]);
        } else if Replaces(event, s.queue[i]) {
          assert Replaces(t.queue[|s.queue|], t.queue[i]);
        }
      }
    }
  }

  // ---- The snapshot stays covered ----

  /** Nothing the snapshot's cover speaks of has changed. */
  predicate SameCover(s: System, t: System) {
    && t.engine.head == s.engine.head && t.engine.store == s.engine.store && t.queue == s.queue
    && t.subscribed == s.subscribed && t.commands == s.commands && t.lost == s.lost && t.fetches == s.fetches
    && t.app.config == s.app.config && t.app.refreshScheduled == s.app.refreshScheduled
    && t.app.refreshAgain == s.app.refreshAgain
  }

  lemma SameCoverKeeps(s: System, t: System)
    requires SnapshotInv(s) && SameCover(s, t)
    ensures SnapshotInv(t)
  {
    if !s.lost && !WillRead(s) {
      forall id ensures ChangeQueued(t.queue, t.engine.head.ws, id) || Agrees(t, id) {
        assert ChangeQueued(s.queue, s.engine.head.ws, id) || Agrees(s, id);
      }
    }
  }

  lemma RefreshReads(s: System)
    ensures WillRead(SysRefresh(s))
  {
    if s.app.refreshing {
      assert SysRefresh(s) == s.(app := s.app.(refreshAgain := true));
    } else {
      assert SysRefresh(s).fetches[|s.fetches|] == Asked;
    }
  }

  lemma RefreshSoonReads(s: System)
    requires OneOfEach(s)
    ensures WillRead(SysRefreshSoon(s))
  {
    if !s.app.refreshScheduled {
      assert SysRefreshSoon(s) == s.(app := s.app.(refreshScheduled := true), timers := s.timers + 1);
    }
  }

  lemma RefreshGitSameCover(s: System)
    ensures SameCover(s, SysRefreshGit(s))
  {
    RefreshGitFrame(s);
  }

  /** A change of one entity with the status event after it. */
  lemma WrittenIsCurrent(s: System, step: Step)
    requires QueueIsCurrent(s) && step.EntityWrite? && s.subscribed
    ensures QueueIsCurrent(After(s, step))
  {
    var t := After(s, step);
    var changed := EntityChanged(step.ws, step.id, step.entry);
    var u := s.(engine := t.engine, queue := s.queue + [changed]);
    AppendIsCurrent(s, u, changed);
    assert t.queue == u.queue + [EntityStatus(step.ws, Some(false))];
    AppendIsCurrent(u, t, EntityStatus(step.ws, Some(false)));
  }

  lemma WrittenIsCovered(s: System, step: Step)
    requires SnapshotInv(s) && step.EntityWrite? && s.subscribed
    ensures SnapshotInv(After(s, step))
  {
    WrittenIsCurrent(s, step);
    var t := After(s, step);
    var n := |s.queue|;
    assert t.queue == s.queue + [EntityChanged(step.ws, step.id, step.entry), EntityStatus(step.ws, Some(false))];
    if s.lost {
    } else if WillRead(s) {
      if CoarseQueued(s.queue) {
        var i :| 0 <= i < n && Coarse(s.queue[i]);
        assert Coarse(t.queue[i]);
      }
    } else {
      forall id ensures ChangeQueued(t.queue, t.engine.head.ws, id) || Agrees(t, id) {
        if ChangeQueued(s.queue, s.engine.head.ws, id) {
          var i :| 0 <= i < n && s.queue[i].EntityChanged? && s.queue[i].ws == s.engine.head.ws && s.queue[i].id == id;
          assert t.queue[i] == s.queue[i];
        } else if step.ws == s.engine.head.ws && step.id == id {
          assert t.queue[n].EntityChanged?;
        } else {
          assert Agrees(s, id);
        }
      }
    }
  }

  lemma AnnouncedIsCovered(s: System, step: Step)
    requires SnapshotInv(s) && Enabled(s, step) && step.Announced? && s.subscribed
    ensures SnapshotInv(After(s, step))
  {
    var t := After(s, step);
    AppendIsCurrent(s, t, step.event);
    assert Coarse(t.queue[|s.queue|]);
  }

  lemma GitMovedIsCovered(s: System, step: Step)
    requires SnapshotInv(s) && Enabled(s, step) && step.GitMoved? && s.subscribed
    ensures SnapshotInv(After(s, step))
  {
    var t := After(s, step);
    AppendIsCurrent(s, t, step.event);
    LongerQueueCovers(s, t, [step.event]);
  }

  lemma LongerQueueCovers(s: System, t: System, more: seq<Event>)
    requires SnapshotInv(s) && QueueIsCurrent(t) && t.queue == s.queue + more
    requires SameCover(s, t.(queue := s.queue))
    ensures SnapshotInv(t)
  {
    if s.lost {
    } else if WillRead(s) {
      if CoarseQueued(s.queue) {
        var i :| 0 <= i < |s.queue| && Coarse(s.queue[i]);
        assert Coarse(t.queue[i]);
      }
    } else {
      forall id ensures ChangeQueued(t.queue, t.engine.head.ws, id) || Agrees(t, id) {
        if ChangeQueued(s.queue, s.engine.head.ws, id) {
          var i :| 0 <= i < |s.queue| && s.queue[i].EntityChanged? && s.queue[i].ws == s.engine.head.ws
                   && s.queue[i].id == id;
          assert t.queue[i] == s.queue[i];
        } else {
          assert Agrees(s, id);
        }
      }
    }
  }

  /** Taking an event that neither has everything read nor changes an entity leaves the cover as it is. */
  lemma ShorterQueueCovers(s: System, t: System)
    requires SnapshotInv(s) && s.queue != [] && !Coarse(s.queue[0]) && !s.queue[0].EntityChanged?
    requires t == s.(queue := s.queue[1..])
    ensures SnapshotInv(t)
  {
    TailIsCurrent(s, t);
    if s.lost {
    } else if WillRead(s) {
      if CoarseQueued(s.queue) {
        var i :| 0 <= i < |s.queue| && Coarse(s.queue[i]);
        assert Coarse(t.queue[i - 1]);
      }
    } else {
      forall id ensures ChangeQueued(t.queue, t.engine.head.ws, id) || Agrees(t, id) {
        if ChangeQueued(s.queue, s.engine.head.ws, id) {
          var i :| 0 <= i < |s.queue| && s.queue[i].EntityChanged? && s.queue[i].ws == s.engine.head.ws
                   && s.queue[i].id == id;
          assert t.queue[i - 1] == s.queue[i];
        } else {
          assert Agrees(s, id);
        }
      }
    }
  }

  /** A change patched in place: a read in flight is followed up, and without one the entry is the latest or a
      later event of the queue speaks of it. */
  lemma PatchedIsCovered(s: System, t: System)
    requires OneOfEach(s) && SnapshotInv(s) && Enabled(s, Deliver(true))
    requires t == Handled(s.(queue := s.queue[1..]), s.queue[0], true)
    ensures SnapshotInv(t)
  {
    var e := s.queue[0];
    assert t == s.(queue := s.queue[1..],
                   app := s.app.(config := Patch(s.app.config, e.id, e.entry),
                                 refreshAgain := s.app.refreshAgain || s.app.refreshing));
    TailIsCurrent(s, t);
    if s.lost || s.app.refreshing {
    } else if WillRead(s) {
      if CoarseQueued(s.queue) {
        var i :| 0 <= i < |s.queue| && Coarse(s.queue[i]);
        assert Coarse(t.queue[i - 1]);
      }
    } else {
      forall id ensures ChangeQueued(t.queue, t.engine.head.ws, id) || Agrees(t, id) {
        assert !CoarseQueued(s.queue);
        PatchedEntity(s, t, id);
      }
    }
  }

  lemma PatchedEntity(s: System, t: System, id: string)
    requires OneOfEach(s) && QueueIsCurrent(s) && Enabled(s, Deliver(true)) && !s.app.refreshing
    requires var e := s.queue[0];
             t == s.(queue := s.queue[1..],
                     app := s.app.(config := Patch(s.app.config, e.id, e.entry),
                                   refreshAgain := s.app.refreshAgain || s.app.refreshing))
    requires s.app.config.head == s.engine.head
    requires ChangeQueued(s.queue, s.engine.head.ws, id) || Agrees(s, id)
    requires !CoarseQueued(s.queue)
    ensures ChangeQueued(t.queue, t.engine.head.ws, id) || Agrees(t, id)
  {
    var e := s.queue[0];
    if id != e.id && ChangeQueued(s.queue, s.engine.head.ws, id) {
      StillQueued(s.queue, s.engine.head.ws, id);
    } else if id == e.id && Superseded(s.queue, 0) {
      SupersededIsQueued(s.queue);
    } else if id == e.id {
      assert Agrees(t, id);
    } else {
      assert Agrees(s, id);
    }
  }

  /** A change of another entity than the first event's stays queued without it. */
  lemma StillQueued(q: seq<Event>, ws: string, id: string)
    requires q != [] && q[0].EntityChanged? && q[0].id != id && ChangeQueued(q, ws, id)
    ensures ChangeQueued(q[1..], ws, id)
  {
    var i :| 0 <= i < |q| && q[i].EntityChanged? && q[i].ws == ws && q[i].id == id;
    assert q[1..][i - 1] == q[i];
  }

  /** Where no event has everything read again, what supersedes a change is one of the same entity. */
  lemma SupersededIsQueued(q: seq<Event>)
    requires q != [] && q[0].EntityChanged? && Superseded(q, 0) && !CoarseQueued(q)
    ensures ChangeQueued(q[1..], q[0].ws, q[0].id)
  {
    var j :| 0 < j < |q| && Replaces(q[j], q[0]);
    assert q[1..][j - 1] == q[j];
  }

  lemma DeliveredIsCovered(s: System, patched: bool)
    requires OneOfEach(s) && SnapshotInv(s) && Enabled(s, Deliver(patched))
    ensures SnapshotInv(Next(s, Deliver(patched)))
  {
    var e, r := s.queue[0], s.(queue := s.queue[1..]);
    var t := Handled(r, e, patched);
    HandledFrame(r, e, patched);
    TailIsCurrent(s, t);
    if patched {
      PatchedIsCovered(s, t);
    } else if e.AccountChanged? {
      RefreshReads(r);
    } else if e.VaultChanged? || e.SyncStatus? || (e.EntityStatus? && Quietly(r.app, e)) {
      ShorterQueueCovers(s, r);
      RefreshGitSameCover(r);
      SameCoverKeeps(r, t);
    } else {
      RefreshSoonReads(r);
    }
  }

  lemma ServedIsCovered(s: System, i: nat)
    requires OneOfEach(s) && SnapshotInv(s) && Enabled(s, ServeConfig(i))
    ensures SnapshotInv(After(s, ServeConfig(i)))
  {
    var t := After(s, ServeConfig(i));
    assert t.fetches[0] == Answered(Snapshot(s.engine));
    assert t.queue == s.queue && t.engine == s.engine && t.subscribed == s.subscribed;
    forall id ensures Agrees(t, id) {
    }
  }

  lemma RepliedIsCovered(s: System, i: nat)
    requires OneOfEach(s) && SnapshotInv(s) && Enabled(s, ReplyConfig(i))
    ensures SnapshotInv(Next(s, ReplyConfig(i)))
  {
    var r := TakenConfig(s, i);
    assert s.fetches == [s.fetches[i]] && r.fetches == [];
    var g := SysRefreshGit(r);
    RefreshGitFrame(r);
    if s.app.refreshAgain {
      var h := g.(app := g.app.(refreshAgain := false));
      assert FollowUp(g) == SysRefresh(h);
      RefreshReads(h);
      RefreshFrame(h);
    } else {
      assert FollowUp(g) == g;
      if !s.lost && !WillRead(s) {
        forall id ensures ChangeQueued(g.queue, g.engine.head.ws, id) || Agrees(g, id) {
          assert ChangeQueued(s.queue, s.engine.head.ws, id) || Agrees(s, id);
        }
      }
    }
  }

  lemma FailedIsCovered(s: System, i: nat, error: string)
    requires OneOfEach(s) && SnapshotInv(s) && Enabled(s, FailConfig(i, error))
    ensures SnapshotInv(Next(s, FailConfig(i, error)))
  {
    var r := NoConfig(s, i, error);
    if s.app.refreshAgain {
      RefreshFrame(r.(app := r.app.(refreshAgain := false)));
    }
  }

  lemma GitRepliedIsCovered(s: System, r: System)
    requires SnapshotInv(s) && SameCover(s, r)
    ensures SnapshotInv(GitFollowUp(r))
  {
    if r.app.gitAgain {
      var h := r.(app := r.app.(gitAgain := false));
      RefreshGitSameCover(h);
      SameCoverKeeps(s, SysRefreshGit(h));
    } else {
      SameCoverKeeps(s, r);
    }
  }

  /** A read asked for now covers everything. */
  lemma RefreshedIsCovered(r: System)
    requires QueueIsCurrent(r)
    ensures SnapshotInv(SysRefresh(r))
  {
    RefreshReads(r);
    RefreshFrame(r);
  }

  lemma ContinuedIsCovered(s: System, r: System, w: Write, failure: Option<string>)
    requires SnapshotInv(s) && SameCover(s, r)
    ensures SnapshotInv(Continued(r, w, failure))
  {
    if w.Discard? && w.todo != [] {
      SameCoverKeeps(s, Continued(r, w, failure));
    } else {
      var h := r.(app := r.app.(publishing := false));
      if w.Publish? {
        RefreshGitSameCover(h);
        SameCoverKeeps(s, SysRefreshGit(h));
      } else {
        RefreshedIsCovered(h);
      }
    }
  }

  lemma AskedIsCovered(s: System, ui: Ui)
    requires SnapshotInv(s)
    ensures SnapshotInv(NextAsk(s, ui))
  {
    var r := Remember(s, ui);
    assert SameCover(s, r);
    if ui.UiRefresh? {
      RefreshedIsCovered(r);
    } else if ui.UiRefreshGit? {
      RefreshGitSameCover(r);
      SameCoverKeeps(s, SysRefreshGit(r));
    } else {
      assert SameCover(s, NextAsk(s, ui));
      SameCoverKeeps(s, NextAsk(s, ui));
    }
  }

  lemma CommandRepliedIsCovered(s: System, i: nat, ok: bool)
    requires SnapshotInv(s) && Enabled(s, ReplyCommand(i, ok))
    ensures SnapshotInv(Next(s, ReplyCommand(i, ok)))
  {
    var r := Forgotten(s, i);
    if s.commands[i].always || ok {
      assert QueueIsCurrent(r);
      RefreshedIsCovered(r);
    } else {
      if CommandOwes(s.commands) {
        var j :| 0 <= j < |s.commands| && (s.commands[j].always || s.commands[j].acted);
        assert j != i;
        assert r.commands[if j < i then j else j - 1] == s.commands[j];
      }
      if !s.lost && !WillRead(s) {
        forall id ensures ChangeQueued(r.queue, r.engine.head.ws, id) || Agrees(r, id) {
          assert ChangeQueued(s.queue, s.engine.head.ws, id) || Agrees(s, id);
        }
      }
    }
  }

  lemma CommandStepIsCovered(s: System, step: Step)
    requires SnapshotInv(s) && Enabled(s, step) && (step.AskCommand? || step.CommandActs?)
    ensures SnapshotInv(After(s, step))
  {
    var t := After(s, step);
    if step.CommandActs? {
      assert t.commands[step.i].acted;
      assert QueueIsCurrent(t);
    } else {
      if CommandOwes(s.commands) {
        var j :| 0 <= j < |s.commands| && (s.commands[j].always || s.commands[j].acted);
        assert t.commands[j] == s.commands[j];
      }
      if !s.lost && !WillRead(s) {
        forall id ensures ChangeQueued(t.queue, t.engine.head.ws, id) || Agrees(t, id) {
          assert ChangeQueued(s.queue, s.engine.head.ws, id) || Agrees(s, id);
        }
      }
    }
  }

  lemma SimpleStepIsCovered(s: System, step: Step)
    requires OneOfEach(s) && SnapshotInv(s) && Enabled(s, step) && Simple(step)
    ensures SnapshotInv(After(s, step))
  {
    var t := After(s, step);
    match step
    case EntityWrite(_, _, _, _) => if s.subscribed { WrittenIsCovered(s, step); }
    case Announced(_, _) => if s.subscribed { AnnouncedIsCovered(s, step); }
    case GitMoved(_, _) => if s.subscribed { GitMovedIsCovered(s, step); }
    case ServeConfig(i) => ServedIsCovered(s, i);
    case AskCommand(_) => CommandStepIsCovered(s, step);
    case CommandActs(_, _) => CommandStepIsCovered(s, step);
    case Subscribed => SubscribedIsCovered(s);
    case WriteActs(_) => SameCoverKeeps(s, t);
    case ServeGit(_) => SameCoverKeeps(s, t);
  }

  lemma SubscribedIsCovered(s: System)
    requires SnapshotInv(s)
    ensures SnapshotInv(After(s, Subscribed))
  {
    var t := s.(subscribed := true);
    if !s.lost && !WillRead(s) {
      forall id ensures ChangeQueued(t.queue, t.engine.head.ws, id) || Agrees(t, id) {
        assert ChangeQueued(s.queue, s.engine.head.ws, id) || Agrees(s, id);
      }
    }
  }

  lemma SnapshotInvIsKept(s: System, step: Step)
    requires OneOfEach(s) && SnapshotInv(s) && Enabled(s, step)
    ensures SnapshotInv(After(s, step))
  {
    if Simple(step) {
      SimpleStepIsCovered(s, step);
    } else {
      AfterIs(s, step);
      if step.ReplyConfig? || step.FailConfig? || step.ReplyGit? || step.FailGit? {
        AnswerKeepsSnapshotInv(s, step);
      } else {
        HandlerKeepsSnapshotInv(s, step);
      }
    }
  }

  lemma HandlerKeepsSnapshotInv(s: System, step: Step)
    requires OneOfEach(s) && SnapshotInv(s) && Enabled(s, step)
    requires step.Ask? || step.Deliver? || step.Fire? || step.ReplyWrite? || step.ReplyCommand?
    ensures SnapshotInv(Next(s, step))
  {
    match step
    case Ask(ui) => AskedIsCovered(s, ui);
    case Deliver(patched) => DeliveredIsCovered(s, patched);
    case Fire => RefreshedIsCovered(Timed(s));
    case ReplyWrite(i, failure) => ContinuedIsCovered(s, Answering(s, i, failure), s.writes[i], failure);
    case ReplyCommand(i, ok) => CommandRepliedIsCovered(s, i, ok);
  }

  lemma AnswerKeepsSnapshotInv(s: System, step: Step)
    requires OneOfEach(s) && SnapshotInv(s) && Enabled(s, step)
    requires step.ReplyConfig? || step.FailConfig? || step.ReplyGit? || step.FailGit?
    ensures SnapshotInv(Next(s, step))
  {
    match step
    case ReplyConfig(i) => RepliedIsCovered(s, i);
    case FailConfig(i, error) => FailedIsCovered(s, i, error);
    case ReplyGit(i) => GitRepliedIsCovered(s, TakenGit(s, i));
    case FailGit(i) => GitRepliedIsCovered(s, NoGit(s, i));
  }

  // ---- The git status ----

  predicate GitAskedFor(gitFetches: seq<GitFetch>, ws: string) {
    exists i :: 0 <= i < |gitFetches| && gitFetches[i] == GitAsked(ws)
  }

  predicate GitQueued(q: seq<Event>) {
    exists i :: 0 <= i < |q| && GitEvent(q[i])
  }

  /** The status of the workspace in front will be read from the engine's state as it is now or later. */
  predicate GitWillRead(s: System) {
    s.app.refreshScheduled || s.fetches != [] || s.app.gitAgain || GitAskedFor(s.gitFetches, s.app.config.head.ws)
    || s.writes != [] || CommandOwes(s.commands) || GitQueued(s.queue)
  }

  predicate GitCovered(s: System) {
    var ws := s.app.config.head.ws;
    ws == "" || GitWillRead(s)
    || (s.gitFetches == [] && s.app.git == Status(s.engine, ws))
    || s.gitFetches == [GitAnswered(ws, Status(s.engine, ws))]
  }

  /** The status shown, or on its way, is the workspace's in front, unless the last read of it failed. */
  predicate GitIsOurs(s: System) {
    var ws := s.app.config.head.ws;
    ws == ""
    || (if s.gitFetches == [] then s.gitFailed || s.gitReadFor == ws
        else s.gitFetches[0].ws == ws || s.app.gitAgain)
  }

  predicate GitInv(s: System) {
    (s.gitLost || GitCovered(s)) && GitIsOurs(s)
  }

  /** Nothing the status's cover speaks of has changed, but what will have it read may have grown. */
  predicate SameGitCover(s: System, t: System) {
    && t.engine.git == s.engine.git && t.app.config.head.ws == s.app.config.head.ws && t.app.git == s.app.git
    && t.gitFetches == s.gitFetches && t.gitReadFor == s.gitReadFor && t.gitFailed == s.gitFailed
    && (s.gitLost ==> t.gitLost) && (s.app.gitAgain ==> t.app.gitAgain)
  }

  lemma SameGitCoverKeeps(s: System, t: System)
    requires GitInv(s) && SameGitCover(s, t)
    requires t.gitLost || (GitWillRead(s) ==> GitWillRead(t))
    ensures GitInv(t)
  {
  }

  /** A read of the snapshot brings one of the status with it. */
  lemma RefreshCoversGit(s: System, r: System)
    requires GitInv(s) && SameGitCover(s, r) && Counted(r)
    ensures GitInv(SysRefresh(r))
  {
    RefreshFrame(r);
    RefreshCounts(r);
    assert |SysRefresh(r).fetches| == 1;
  }

  lemma RefreshSoonCoversGit(s: System, r: System)
    requires GitInv(s) && SameGitCover(s, r)
    ensures GitInv(SysRefreshSoon(r))
  {
    RefreshSoonFrame(r);
    if !r.app.refreshScheduled {
      assert SysRefreshSoon(r) == r.(app := r.app.(refreshScheduled := true), timers := r.timers + 1);
    }
  }

  /** A read of the status, asked for when `r` counts right. */
  lemma RefreshGitCovers(r: System)
    requires Counted(r) && (r.app.gitAgain ==> r.app.gitRefreshing)
    ensures GitInv(SysRefreshGit(r))
    ensures r.app.config.head.ws != "" ==>
      SysRefreshGit(r).app.gitAgain || SysRefreshGit(r).gitFetches == [GitAsked(r.app.config.head.ws)]
  {
    var t, ws := SysRefreshGit(r), r.app.config.head.ws;
    if ws == "" {
    } else if r.app.gitRefreshing {
      assert t == r.(app := r.app.(gitAgain := true));
    } else {
      assert t == r.(app := r.app.(gitRefreshing := true), gitFetches := r.gitFetches + [GitAsked(ws)]);
      assert t.gitFetches == [GitAsked(ws)];
    }
  }

  lemma WrittenCoversGit(s: System, step: Step)
    requires QueueIsCurrent(s) && GitInv(s) && Enabled(s, step)
    requires step.EntityWrite? || step.Announced? || step.GitMoved?
    ensures GitInv(After(s, step))
  {
    var t := After(s, step);
    if s.subscribed {
      assert GitEvent(t.queue[|t.queue| - 1]);
    }
  }

  lemma HandledCoversGit(s: System, patched: bool)
    requires OneOfEach(s) && GitInv(s) && Enabled(s, Deliver(patched))
    ensures GitInv(Next(s, Deliver(patched)))
  {
    var e, r := s.queue[0], s.(queue := s.queue[1..]);
    if patched {
      var t := Handled(r, e, patched);
      assert t == r.(app := r.app.(config := Patch(r.app.config, e.id, e.entry),
                                   refreshAgain := r.app.refreshAgain || r.app.refreshing));
      if GitQueued(s.queue) {
        var i :| 0 <= i < |s.queue| && GitEvent(s.queue[i]);
        assert GitEvent(t.queue[i - 1]);
      }
      SameGitCoverKeeps(s, t);
    } else if e.AccountChanged? {
      RefreshCoversGit(s, r);
    } else if e.VaultChanged? || e.SyncStatus? || (e.EntityStatus? && Quietly(r.app, e)) {
      RefreshGitCovers(r);
    } else {
      RefreshSoonCoversGit(s, r);
    }
  }

  lemma ReplyConfigCoversGit(s: System, i: nat)
    requires OneOfEach(s) && Enabled(s, ReplyConfig(i))
    ensures GitInv(Next(s, ReplyConfig(i)))
  {
    var r := TakenConfig(s, i);
    RefreshGitCovers(r);
    RefreshGitCounts(r);
    FollowUpCoversGit(SysRefreshGit(r));
  }

  lemma FailConfigCoversGit(s: System, i: nat, error: string)
    requires OneOfEach(s) && GitInv(s) && Enabled(s, FailConfig(i, error))
    ensures GitInv(Next(s, FailConfig(i, error)))
  {
    var r := NoConfig(s, i, error);
    assert GitInv(r);
    FollowUpCoversGit(r);
  }

  lemma FollowUpCoversGit(r: System)
    requires GitInv(r) && Counted(r)
    ensures GitInv(FollowUp(r))
  {
    if r.app.refreshAgain {
      RefreshCoversGit(r, r.(app := r.app.(refreshAgain := false)));
    }
  }

  lemma ServeConfigCoversGit(s: System, i: nat)
    requires GitInv(s) && Enabled(s, ServeConfig(i))
    ensures GitInv(After(s, ServeConfig(i)))
  {
    var t := After(s, ServeConfig(i));
    assert |t.fetches| == |s.fetches|;
    SameGitCoverKeeps(s, t);
  }

  lemma ServeGitCovers(s: System, i: nat)
    requires OneOfEach(s) && GitInv(s) && Enabled(s, ServeGit(i))
    ensures GitInv(After(s, ServeGit(i)))
  {
    var t := After(s, ServeGit(i));
    assert t.gitFetches == [GitAnswered(s.gitFetches[i].ws, Status(s.engine, s.gitFetches[i].ws))];
  }

  lemma GitFollowUpCovers(r: System)
    requires Counted(r) && r.gitFetches == []
    requires !r.app.gitAgain ==> GitInv(r)
    ensures GitInv(GitFollowUp(r))
  {
    if r.app.gitAgain {
      RefreshGitCovers(r.(app := r.app.(gitAgain := false)));
    }
  }

  lemma ReplyGitCovers(s: System, i: nat)
    requires OneOfEach(s) && GitInv(s) && Enabled(s, ReplyGit(i))
    ensures GitInv(Next(s, ReplyGit(i)))
  {
    var r := TakenGit(s, i);
    assert s.gitFetches == [s.gitFetches[i]] && r.gitFetches == [];
    assert Next(s, ReplyGit(i)) == GitFollowUp(r);
    assert Counted(r);
    if !s.app.gitAgain && !s.gitLost && s.app.config.head.ws != "" {
      assert GitWillRead(s) ==> GitWillRead(r);
      assert GitInv(r);
    }
    GitFollowUpCovers(r);
  }

  lemma FailGitCovers(s: System, i: nat)
    requires OneOfEach(s) && GitInv(s) && Enabled(s, FailGit(i))
    ensures GitInv(Next(s, FailGit(i)))
  {
    var r := NoGit(s, i);
    assert r.gitFetches == [];
    GitFollowUpCovers(r);
  }

  lemma ContinuedCoversGit(s: System, r: System, w: Write, failure: Option<string>)
    requires GitInv(s) && SameGitCover(s, r) && r.writes == []
    requires Counted(r.(writes := [w])) && (r.app.gitAgain ==> r.app.gitRefreshing)
    ensures GitInv(Continued(r, w, failure))
  {
    if w.Discard? && w.todo != [] {
      assert |Continued(r, w, failure).writes| == 1;
    } else {
      var h := r.(app := r.app.(publishing := false));
      if w.Publish? {
        RefreshGitCovers(h);
      } else {
        RefreshCoversGit(s, h);
      }
    }
  }

  lemma RememberFrame(s: System, ui: Ui)
    requires OneOfEach(s) && GitInv(s)
    ensures SameGitCover(s, Remember(s, ui)) && OneOfEach(Remember(s, ui)) && GitInv(Remember(s, ui))
  {
    if ui.UiRevertPaths? && !s.app.publishing {
      assert Remember(s, ui) == s.(asked := ui.paths, tried := []);
    } else {
      assert Remember(s, ui) == s;
    }
  }

  lemma AskedCoversGit(s: System, ui: Ui)
    requires OneOfEach(s) && GitInv(s)
    ensures GitInv(NextAsk(s, ui))
  {
    var r := Remember(s, ui);
    RememberFrame(s, ui);
    if ui.UiRefresh? {
      assert NextAsk(s, ui) == SysRefresh(r);
      RefreshCoversGit(s, r);
    } else if ui.UiRefreshGit? {
      assert NextAsk(s, ui) == SysRefreshGit(r);
      RefreshGitCovers(r);
    } else if Started(s.app, ui).Some? {
      var w := Started(s.app, ui).value;
      assert NextAsk(s, ui) == SysStart(r, w);
      assert |SysStart(r, w).writes| == |r.writes| + 1;
    } else {
      assert NextAsk(s, ui) == r;
    }
  }

  lemma CommandRepliedCoversGit(s: System, i: nat, ok: bool)
    requires OneOfEach(s) && GitInv(s) && Enabled(s, ReplyCommand(i, ok))
    ensures GitInv(Next(s, ReplyCommand(i, ok)))
  {
    var r := Forgotten(s, i);
    if s.commands[i].always || ok {
      RefreshCoversGit(s, r);
    } else {
      if CommandOwes(s.commands) {
        var j :| 0 <= j < |s.commands| && (s.commands[j].always || s.commands[j].acted);
        assert j != i;
        assert r.commands[if j < i then j else j - 1] == s.commands[j];
      }
      SameGitCoverKeeps(s, r);
    }
  }

  lemma CommandStepCoversGit(s: System, step: Step)
    requires GitInv(s) && Enabled(s, step) && (step.AskCommand? || step.CommandActs?)
    ensures GitInv(After(s, step))
  {
    var t := After(s, step);
    if step.CommandActs? {
      assert t.commands[step.i].acted;
    } else if CommandOwes(s.commands) {
      var j :| 0 <= j < |s.commands| && (s.commands[j].always || s.commands[j].acted);
      assert t.commands[j] == s.commands[j];
    }
    SameGitCoverKeeps(s, t);
  }

  lemma SimpleStepCoversGit(s: System, step: Step)
    requires OneOfEach(s) && QueueIsCurrent(s) && GitInv(s) && Enabled(s, step) && Simple(step)
    ensures GitInv(After(s, step))
  {
    match step
    case EntityWrite(_, _, _, _) => WrittenCoversGit(s, step);
    case Announced(_, _) => WrittenCoversGit(s, step);
    case GitMoved(_, _) => WrittenCoversGit(s, step);
    case AskCommand(_) => CommandStepCoversGit(s, step);
    case CommandActs(_, _) => CommandStepCoversGit(s, step);
    case Subscribed => SameGitCoverKeeps(s, s.(subscribed := true));
    case WriteActs(git) => assert GitWillRead(s.(engine := s.engine.(git := git)));
    case ServeConfig(i) => ServeConfigCoversGit(s, i);
    case ServeGit(i) => ServeGitCovers(s, i);
  }

  lemma GitInvIsKept(s: System, step: Step)
    requires OneOfEach(s) && QueueIsCurrent(s) && GitInv(s) && Enabled(s, step)
    ensures GitInv(After(s, step))
  {
    if Simple(step) {
      SimpleStepCoversGit(s, step);
    } else {
      AfterIs(s, step);
      if step.ReplyConfig? || step.FailConfig? || step.ReplyGit? || step.FailGit? {
        AnswerKeepsGitInv(s, step);
      } else {
        HandlerKeepsGitInv(s, step);
      }
    }
  }

  lemma AnswerKeepsGitInv(s: System, step: Step)
    requires OneOfEach(s) && QueueIsCurrent(s) && GitInv(s) && Enabled(s, step)
    requires step.ReplyConfig? || step.FailConfig? || step.ReplyGit? || step.FailGit?
    ensures GitInv(Next(s, step))
  {
    match step
    case ReplyConfig(i) => ReplyConfigCoversGit(s, i);
    case FailConfig(i, error) => FailConfigCoversGit(s, i, error);
    case ReplyGit(i) => ReplyGitCovers(s, i);
    case FailGit(i) => FailGitCovers(s, i);
  }

  lemma HandlerKeepsGitInv(s: System, step: Step)
    requires OneOfEach(s) && QueueIsCurrent(s) && GitInv(s) && Enabled(s, step)
    requires step.Ask? || step.Deliver? || step.Fire? || step.ReplyWrite? || step.ReplyCommand?
    ensures GitInv(Next(s, step))
  {
    match step
    case Ask(ui) => AskedCoversGit(s, ui);
    case Deliver(patched) => HandledCoversGit(s, patched);
    case Fire => RefreshCoversGit(s, Timed(s));
    case ReplyWrite(i, failure) => ContinuedCoversGit(s, Answering(s, i, failure), s.writes[i], failure);
    case ReplyCommand(i, ok) => CommandRepliedCoversGit(s, i, ok);
  }
}
