/** What each step does to the whole system, with the effects of its handler launched one by one. */
module StepEffects {
  import opened Wrappers
  import opened AppState
  import opened RefreshProtocol

  // ---- What a handler does to the system, without its list of effects ----

  function SysRefresh(s: System): System {
    if s.app.refreshing then s.(app := s.app.(refreshAgain := true))
    else s.(app := s.app.(refreshing := true), fetches := s.fetches + [Asked])
  }

  function SysRefreshSoon(s: System): System {
    if s.app.refreshScheduled then s
    else s.(app := s.app.(refreshScheduled := true), timers := s.timers + 1)
  }

  function SysRefreshGit(s: System): System {
    if s.app.config.head.ws == "" then s
    else if s.app.gitRefreshing then s.(app := s.app.(gitAgain := true))
    else s.(app := s.app.(gitRefreshing := true), gitFetches := s.gitFetches + [GitAsked(s.app.config.head.ws)])
  }

  function SysStart(s: System, w: Write): System {
    s.(app := s.app.(publishing := true), writes := s.writes + [w])
  }

  lemma LaunchOneKeepsApp(s: System, a: App, e: Effect)
    ensures Launch(s.(app := a), e) == Launch(s, e).(app := a)
  {
  }

  lemma {:induction false} LaunchKeepsApp(s: System, a: App, sent: seq<Effect>)
    ensures LaunchAll(s.(app := a), sent) == LaunchAll(s, sent).(app := a)
    decreases |sent|
  {
    if sent != [] {
      LaunchKeepsApp(s, a, sent[..|sent| - 1]);
      LaunchOneKeepsApp(LaunchAll(s, sent[..|sent| - 1]), a, sent[|sent| - 1]);
    }
  }

  lemma PerformIs(s: System, a: App)
    ensures Perform(s, a) == LaunchAll(s, a.sent).(app := a.(sent := []))
  {
    LaunchKeepsApp(s, a.(sent := []), a.sent);
  }

  lemma PerformSend(s: System, a: App, e: Effect)
    ensures Perform(s, a.Send(e)) == Launch(Perform(s, a), e)
  {
    var b := a.Send(e);
    assert b.sent[..|b.sent| - 1] == a.sent;
    PerformIs(s, a);
    PerformIs(s, b);
  }

  lemma PerformRefresh(s: System, a: App)
    ensures Perform(s, Refresh(a)) == SysRefresh(Perform(s, a))
  {
    PerformIs(s, a);
    if a.refreshing {
      assert Refresh(a) == a.(refreshAgain := true);
      PerformIs(s, a.(refreshAgain := true));
    } else {
      assert Refresh(a) == a.(refreshing := true).Send(GetConfig);
      PerformIs(s, a.(refreshing := true));
      PerformSend(s, a.(refreshing := true), GetConfig);
    }
  }

  lemma PerformRefreshSoon(s: System, a: App)
    ensures Perform(s, RefreshSoon(a)) == SysRefreshSoon(Perform(s, a))
  {
    PerformIs(s, a);
    PerformIs(s, a.(refreshScheduled := true));
    PerformSend(s, a.(refreshScheduled := true), StartTimer);
  }

  lemma PerformRefreshGit(s: System, a: App)
    ensures Perform(s, RefreshGit(a)) == SysRefreshGit(Perform(s, a))
  {
    PerformIs(s, a);
    PerformIs(s, a.(gitAgain := true));
    PerformIs(s, a.(gitRefreshing := true));
    PerformSend(s, a.(gitRefreshing := true), GetGit(a.config.head.ws));
  }

  lemma PerformTell(s: System, a: App, note: Note)
    ensures Perform(s, a.Send(Tell(note))) == Perform(s, a)
  {
    PerformSend(s, a, Tell(note));
  }

  lemma PerformStart(s: System, a: App, w: Write)
    ensures Perform(s, StartWrite(a, w)) == SysStart(Perform(s, a), w)
  {
    PerformIs(s, a);
    PerformIs(s, a.(publishing := true));
    PerformSend(s, a.(publishing := true), Start(w));
  }

  // ---- The state after each step, in those terms ----

  /** The write `ui` starts at `a`, if it starts one. */
  function Started(a: App, ui: Ui): Option<Write> {
    var refused := a.publishing || a.config.head.readOnly;
    match ui
    case UiRefresh => None
    case UiRefreshGit => None
    case UiPublish(paths) => if !refused && paths == [] then Some(Publish(paths, None)) else None
    case UiSyncWithMessage(Paths(paths), message) => if !refused then Some(Publish(paths, message)) else None
    case UiSyncWithMessage(All, message) => if !refused then Some(SyncEverything(message)) else None
    case UiSyncAll => if !refused && a.git.changed == {} then Some(SyncEverything(None)) else None
    case UiSyncEntity(_) => None
    case UiRevertEntity(id) =>
      if !a.publishing && id in a.git.paths then Some(RevertEntity(id, a.git.paths[id])) else None
    case UiResolveDelete(target, revert) =>
      if !a.publishing && (revert || !refused) then Some(ResolveDelete(target, revert)) else None
    case UiRevertPaths(paths) =>
      if !a.publishing && paths != [] then Some(Discard(paths[|paths| - 1], paths[..|paths| - 1], None)) else None
  }

  function NextAsk(s: System, ui: Ui): System {
    var r := Remember(s, ui);
    if ui.UiRefresh? then SysRefresh(r)
    else if ui.UiRefreshGit? then SysRefreshGit(r)
    else if Started(s.app, ui).Some? then SysStart(r, Started(s.app, ui).value)
    else r
  }

  /** The write behind the event was told whole by `entity.changed`, and it was made in the workspace in front. */
  predicate Quietly(a: App, e: Event)
    requires e.EntityStatus?
  {
    e.ws == a.config.head.ws && e.configChanged == Some(false)
  }

  function Handled(r: System, e: Event, patched: bool): System {
    if patched && e.EntityChanged? then
      r.(app := r.app.(config := Patch(r.app.config, e.id, e.entry),
                       refreshAgain := r.app.refreshAgain || r.app.refreshing))
    else if e.AccountChanged? then SysRefresh(r)
    else if e.VaultChanged? || e.SyncStatus? || (e.EntityStatus? && Quietly(r.app, e)) then SysRefreshGit(r)
    else SysRefreshSoon(r)
  }

  function FollowUp(s: System): System {
    if s.app.refreshAgain then SysRefresh(s.(app := s.app.(refreshAgain := false))) else s
  }

  function GitFollowUp(s: System): System {
    if s.app.gitAgain then SysRefreshGit(s.(app := s.app.(gitAgain := false))) else s
  }

  /** The continuation of `w`, run in `r`, which no longer holds `w`. */
  function Continued(r: System, w: Write, failure: Option<string>): System {
    if w.Discard? && w.todo != [] then
      var last := |w.todo| - 1;
      r.(writes := r.writes + [Discard(w.todo[last], w.todo[..last],
                                       if w.firstFailure.Some? then w.firstFailure else failure)])
    else if w.Publish? then SysRefreshGit(r.(app := r.app.(publishing := false)))
    else SysRefresh(r.(app := r.app.(publishing := false)))
  }

  function Answering(s: System, i: nat, failure: Option<string>): System
    requires i < |s.writes|
  {
    var w := s.writes[i];
    s.(writes := Without(s.writes, i), tried := if w.Discard? then s.tried + [(w.path, failure)] else s.tried)
  }

  // ---- The system a continuation finds, before its follow-up ----

  function Timed(s: System): System
    requires s.timers > 0
  {
    s.(timers := s.timers - 1, app := s.app.(refreshScheduled := false))
  }

  function Delivered(s: System): System
    requires s.queue != []
  {
    s.(queue := s.queue[1..])
  }

  function TakenConfig(s: System, i: nat): System
    requires i < |s.fetches| && s.fetches[i].Answered?
  {
    s.(fetches := Without(s.fetches, i),
       app := s.app.(refreshing := false, config := s.fetches[i].config, load := Ready))
  }

  function NoConfig(s: System, i: nat, error: string): System
    requires i < |s.fetches|
  {
    s.(fetches := Without(s.fetches, i), lost := true, gitLost := true,
       app := s.app.(refreshing := false, load := if s.app.load.Loading? then Failed(error) else s.app.load))
  }

  function TakenGit(s: System, i: nat): System
    requires i < |s.gitFetches| && s.gitFetches[i].GitAnswered?
  {
    var read := s.gitFetches[i];
    var ours := read.ws == s.app.config.head.ws;
    s.(gitFetches := Without(s.gitFetches, i), gitReadFor := if ours then read.ws else s.gitReadFor,
       app := s.app.(gitRefreshing := false, git := if ours then read.git else s.app.git))
  }

  function NoGit(s: System, i: nat): System
    requires i < |s.gitFetches|
  {
    s.(gitFetches := Without(s.gitFetches, i), gitLost := true, gitFailed := true,
       app := s.app.(gitRefreshing := false))
  }

  function Forgotten(s: System, i: nat): System
    requires i < |s.commands|
  {
    s.(commands := Without(s.commands, i))
  }

  /** `After` for the steps that run a handler. */
  function Next(s: System, step: Step): System
    requires Enabled(s, step)
  {
    match step
    case Ask(ui) => NextAsk(s, ui)
    case Deliver(patched) => Handled(Delivered(s), s.queue[0], patched)
    case Fire => SysRefresh(Timed(s))
    case ReplyConfig(i) => FollowUp(SysRefreshGit(TakenConfig(s, i)))
    case FailConfig(i, error) => FollowUp(NoConfig(s, i, error))
    case ReplyGit(i) => GitFollowUp(TakenGit(s, i))
    case FailGit(i) => GitFollowUp(NoGit(s, i))
    case ReplyWrite(i, failure) => Continued(Answering(s, i, failure), s.writes[i], failure)
    case ReplyCommand(i, ok) => if s.commands[i].always || ok then SysRefresh(Forgotten(s, i)) else Forgotten(s, i)
    case _ => After(s, step)
  }

  lemma PerformQuiet(s: System, a: App)
    requires a.sent == []
    ensures Perform(s, a) == s.(app := a)
  {
  }

  lemma RefreshQuiet(r: System, b: App)
    requires b.sent == []
    ensures Perform(r, Refresh(b)) == SysRefresh(r.(app := b))
  {
    PerformQuiet(r, b);
    PerformRefresh(r, b);
  }

  lemma RefreshTold(r: System, b: App, note: Note)
    requires b.sent == []
    ensures Perform(r, Refresh(b.Send(Tell(note)))) == SysRefresh(r.(app := b))
  {
    PerformQuiet(r, b);
    PerformTell(r, b, note);
    PerformRefresh(r, b.Send(Tell(note)));
  }

  lemma RefreshGitQuiet(r: System, b: App)
    requires b.sent == []
    ensures Perform(r, RefreshGit(b)) == SysRefreshGit(r.(app := b))
  {
    PerformQuiet(r, b);
    PerformRefreshGit(r, b);
  }

  lemma RefreshGitTold(r: System, b: App, note: Note)
    requires b.sent == []
    ensures Perform(r, RefreshGit(b.Send(Tell(note)))) == SysRefreshGit(r.(app := b))
  {
    PerformQuiet(r, b);
    PerformTell(r, b, note);
    PerformRefreshGit(r, b.Send(Tell(note)));
  }

  lemma StartQuiet(r: System, b: App, w: Write)
    requires b.sent == []
    ensures Perform(r, b.Send(Start(w))) == r.(app := b, writes := r.writes + [w])
  {
    PerformQuiet(r, b);
    PerformSend(r, b, Start(w));
  }

  lemma AskRefreshIs(s: System, ui: Ui)
    requires s.app.sent == [] && (ui.UiRefresh? || ui.UiRefreshGit? || ui.UiRevertPaths?)
    ensures After(s, Ask(ui)) == NextAsk(s, ui)
  {
    match ui
    case UiRefresh => AskUiRefreshIs(s);
    case UiRefreshGit => AskUiRefreshGitIs(s);
    case UiRevertPaths(paths) => AskUiRevertPathsIs(s, paths);
  }

  lemma AskUiRefreshIs(s: System)
    requires s.app.sent == []
    ensures After(s, Ask(UiRefresh)) == NextAsk(s, UiRefresh)
  {
    RefreshQuiet(s, s.app);
    assert Remember(s, UiRefresh) == s.(app := s.app);
  }

  lemma AskUiRefreshGitIs(s: System)
    requires s.app.sent == []
    ensures After(s, Ask(UiRefreshGit)) == NextAsk(s, UiRefreshGit)
  {
    RefreshGitQuiet(s, s.app);
    assert Remember(s, UiRefreshGit) == s.(app := s.app);
  }

  lemma AskUiRevertPathsIs(s: System, paths: seq<string>)
    requires s.app.sent == []
    ensures After(s, Ask(UiRevertPaths(paths))) == NextAsk(s, UiRevertPaths(paths))
  {
    AskRevertPathsIs(Remember(s, UiRevertPaths(paths)), s.app, paths);
  }

  lemma AskRevertPathsIs(r: System, a: App, paths: seq<string>)
    requires a.sent == [] && r.app == a
    ensures Perform(r, DoRevertPaths(a, paths)) ==
            if a.publishing || paths == [] then r
            else SysStart(r, Discard(paths[|paths| - 1], paths[..|paths| - 1], None))
  {
    if a.publishing || paths == [] {
      PerformQuiet(r, a);
    } else {
      StartQuiet(r, a.(publishing := true), Discard(paths[|paths| - 1], paths[..|paths| - 1], None));
    }
  }

  /** What an entry point of a single write comes to: one notice, or the write, or nothing. */
  lemma AskWriteIs(s: System, ui: Ui)
    requires s.app.sent == [] && !(ui.UiRefresh? || ui.UiRefreshGit? || ui.UiRevertPaths?)
    ensures match Started(s.app, ui)
            case Some(w) => Enter(s.app, ui) == StartWrite(s.app, w)
            case None => Enter(s.app, ui) == s.app || exists note :: Enter(s.app, ui) == s.app.Send(Tell(note))
  {
    var a := s.app;
    if Started(a, ui).None? && Enter(a, ui) != a {
      var note := if ui.UiSyncEntity? && ui.id !in a.git.paths then NoFile
                  else if ui.UiRevertEntity? then NoFile
                  else if a.config.head.readOnly then ReadOnly
                  else if ui.UiPublish? then AskMessage(Paths(ui.paths))
                  else if ui.UiSyncEntity? then AskMessage(Paths([a.git.paths[ui.id]]))
                  else AskMessage(All);
      assert Enter(a, ui) == a.Send(Tell(note));
    }
  }

  lemma AskIs(s: System, ui: Ui)
    requires s.app.sent == []
    ensures After(s, Ask(ui)) == NextAsk(s, ui)
  {
    if ui.UiRefresh? || ui.UiRefreshGit? || ui.UiRevertPaths? {
      AskRefreshIs(s, ui);
    } else {
      AskWriteIs(s, ui);
      var a := Enter(s.app, ui);
      assert Remember(s, ui) == s && After(s, Ask(ui)) == Perform(s, a);
      PerformQuiet(s, s.app);
      if Started(s.app, ui).Some? {
        var w := Started(s.app, ui).value;
        assert NextAsk(s, ui) == SysStart(s, w);
        PerformStart(s, s.app, w);
      } else {
        assert NextAsk(s, ui) == s;
        if a != s.app {
          var note :| a == s.app.Send(Tell(note));
          PerformTell(s, s.app, note);
        }
      }
    }
  }

  lemma HandledIs(r: System, a: App, e: Event, patched: bool)
    requires a.sent == [] && r.app == a
    ensures Perform(r, OnIncoming(a, e, patched)) == Handled(r, e, patched)
  {
    if patched && e.EntityChanged? {
      PerformQuiet(r, OnIncoming(a, e, patched));
    } else if e.AccountChanged? {
      PerformQuiet(r, a);
      PerformRefresh(r, a);
    } else if e.VaultChanged? || e.SyncStatus? || (e.EntityStatus? && Quietly(a, e)) {
      PerformQuiet(r, a);
      PerformRefreshGit(r, a);
    } else {
      PerformQuiet(r, a);
      PerformRefreshSoon(r, a);
    }
  }

  lemma ReplyConfigIs(r: System, a: App, config: Config)
    requires a.sent == []
    ensures Perform(r, ApplyConfig(a, Ok(config)))
         == FollowUp(SysRefreshGit(r.(app := a.(refreshing := false, config := config, load := Ready))))
  {
    var b := a.(refreshing := false, config := config, load := Ready);
    RefreshGitQuiet(r, b);
    FollowUpIs(r, RefreshGit(b));
  }

  /** The last lines of a read's continuation: the follow-up, if one was asked for. */
  lemma FollowUpIs(r: System, c: App)
    ensures Perform(r, if c.refreshAgain then Refresh(c.(refreshAgain := false)) else c) == FollowUp(Perform(r, c))
  {
    PerformIs(r, c);
    PerformIs(r, c.(refreshAgain := false));
    PerformRefresh(r, c.(refreshAgain := false));
  }

  lemma FailConfigIs(r: System, a: App, error: string)
    requires a.sent == []
    ensures Perform(r, ApplyConfig(a, Err(error)))
         == FollowUp(r.(app := a.(refreshing := false, load := if a.load.Loading? then Failed(error) else a.load)))
  {
    var b := a.(refreshing := false, load := if a.load.Loading? then Failed(error) else a.load);
    PerformQuiet(r, b);
    PerformTell(r, b, ReadFailed(error));
    FollowUpIs(r, b.Send(Tell(ReadFailed(error))));
  }

  lemma GitRepliedIs(r: System, a: App, ws: string, outcome: Option<Git>)
    requires a.sent == []
    ensures Perform(r, GitReplied(a, ws, outcome)) == GitFollowUp(r.(app := GitTaken(a, ws, outcome)))
  {
    GitFollowUpIs(r, GitTaken(a, ws, outcome));
  }

  /** The app with the answer taken, if it is for the workspace in front. */
  function GitTaken(a: App, ws: string, outcome: Option<Git>): App {
    a.(gitRefreshing := false, git := if outcome.Some? && a.config.head.ws == ws then outcome.value else a.git)
  }

  lemma GitFollowUpIs(r: System, b: App)
    requires b.sent == []
    ensures Perform(r, if b.gitAgain then RefreshGit(b.(gitAgain := false)) else b) == GitFollowUp(r.(app := b))
  {
    if b.gitAgain {
      RefreshGitQuiet(r, b.(gitAgain := false));
    } else {
      PerformQuiet(r, b);
    }
  }

  lemma DiscardNextIs(r: System, a: App, todo: seq<string>, first: Option<string>)
    requires a.sent == []
    ensures Perform(r, DiscardNext(a, todo, first)) ==
            if todo == [] then SysRefresh(r.(app := a.(publishing := false)))
            else r.(app := a, writes := r.writes + [Discard(todo[|todo| - 1], todo[..|todo| - 1], first)])
  {
    var b := a.(publishing := false);
    if todo == [] {
      if first.Some? {
        RefreshTold(r, b, WriteFailed(first.value));
      } else {
        RefreshQuiet(r, b);
      }
    } else {
      StartQuiet(r, a, Discard(todo[|todo| - 1], todo[..|todo| - 1], first));
    }
  }

  lemma WriteRepliedIs(r: System, a: App, w: Write, failure: Option<string>)
    requires a.sent == [] && !w.Discard?
    ensures Perform(r, WriteReplied(a, w, failure)) ==
            var done := r.(app := a.(publishing := false));
            if w.Publish? then SysRefreshGit(done) else SysRefresh(done)
  {
    var b := a.(publishing := false);
    match Told(w, failure)
    case Some(note) =>
      if w.Publish? {
        RefreshGitTold(r, b, note);
      } else {
        RefreshTold(r, b, note);
      }
    case None =>
      if w.Publish? {
        RefreshGitQuiet(r, b);
      } else {
        RefreshQuiet(r, b);
      }
  }

  lemma ContinuedIs(r: System, a: App, w: Write, failure: Option<string>)
    requires a.sent == [] && r.app == a
    ensures Perform(r, WriteReplied(a, w, failure)) == Continued(r, w, failure)
  {
    if w.Discard? {
      DiscardNextIs(r, a, w.todo, if w.firstFailure.Some? then w.firstFailure else failure);
    } else {
      WriteRepliedIs(r, a, w, failure);
    }
  }

  /** One reply to a read of the git status, or its failure. */
  lemma GitStepIs(s: System, step: Step)
    requires s.app.sent == [] && Enabled(s, step) && (step.ReplyGit? || step.FailGit?)
    ensures After(s, step) == Next(s, step)
  {
    if step.ReplyGit? {
      ReplyGitIs(s, step.i);
    } else {
      FailGitIs(s, step.i);
    }
  }

  lemma ReplyGitIs(s: System, i: nat)
    requires s.app.sent == [] && Enabled(s, ReplyGit(i))
    ensures After(s, ReplyGit(i)) == Next(s, ReplyGit(i))
  {
    var read := s.gitFetches[i];
    GitRepliedIs(s.(gitFetches := Without(s.gitFetches, i),
                    gitReadFor := if read.ws == s.app.config.head.ws then read.ws else s.gitReadFor),
                 s.app, read.ws, Some(read.git));
  }

  lemma FailGitIs(s: System, i: nat)
    requires s.app.sent == [] && Enabled(s, FailGit(i))
    ensures After(s, FailGit(i)) == Next(s, FailGit(i))
  {
    GitRepliedIs(s.(gitFetches := Without(s.gitFetches, i), gitLost := true, gitFailed := true),
                 s.app, s.gitFetches[i].ws, None);
  }

  lemma FireIs(s: System)
    requires s.app.sent == [] && s.timers > 0
    ensures After(s, Fire) == Next(s, Fire)
  {
    var r, b := s.(timers := s.timers - 1), s.app.(refreshScheduled := false);
    PerformQuiet(r, b);
    PerformRefresh(r, b);
  }

  lemma ReplyCommandIs(s: System, i: nat, ok: bool)
    requires s.app.sent == [] && Enabled(s, ReplyCommand(i, ok))
    ensures After(s, ReplyCommand(i, ok)) == Next(s, ReplyCommand(i, ok))
  {
    var r := s.(commands := Without(s.commands, i));
    PerformQuiet(r, s.app);
    PerformRefresh(r, s.app);
  }

  /** A step's effects, launched one by one, come to `Next`. */
  lemma AfterIs(s: System, step: Step)
    requires s.app.sent == [] && Enabled(s, step)
    ensures After(s, step) == Next(s, step)
  {
    match step
    case Ask(ui) => AskIs(s, ui);
    case Deliver(patched) => HandledIs(Delivered(s), s.app, s.queue[0], patched);
    case Fire => FireIs(s);
    case ReplyConfig(i) => ReplyConfigIs(s.(fetches := Without(s.fetches, i)), s.app, s.fetches[i].config);
    case FailConfig(i, error) =>
      FailConfigIs(s.(fetches := Without(s.fetches, i), lost := true, gitLost := true), s.app, error);
    case ReplyGit(i) => GitStepIs(s, step);
    case FailGit(i) => GitStepIs(s, step);
    case ReplyWrite(i, failure) => ContinuedIs(Answering(s, i, failure), s.app, s.writes[i], failure);
    case ReplyCommand(i, ok) => ReplyCommandIs(s, i, ok);
    case _ =>
  }
}
