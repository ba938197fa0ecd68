/** What the model sends, starts and tells, said of its fields: per entry point, per event, and as each answer comes. */
module AppLaws {
  import opened Wrappers
  import opened AppState
  import opened RefreshProtocol
  import opened Publishing
  import AppRun

  // ---- What the user is told ----

  lemma NotesOfRefresh(a: App)
    ensures Notes(Refresh(a).sent) == Notes(a.sent) && Notes(RefreshGit(a).sent) == Notes(a.sent)
  {
    NoNoteMore(a.sent, GetConfig);
    NoNoteMore(a.sent, GetGit(a.config.head.ws));
  }

  lemma {:induction false} NoNoteMore(sent: seq<Effect>, e: Effect)
    requires !e.Tell?
    ensures Notes(sent + [e]) == Notes(sent)
  {
    if sent == [] {
      assert sent + [e] == [e] && [e][1..] == [];
    } else {
      assert (sent + [e])[1..] == sent[1..] + [e];
      NoNoteMore(sent[1..], e);
    }
  }

  lemma OneNote(note: Note)
    ensures Notes([Tell(note)]) == [note]
  {
    assert [Tell(note)][1..] == [];
  }

  lemma NotesOfEnded(a: App, w: Write, failure: Option<string>)
    requires a.sent == []
    ensures Notes(Ended(a, w, failure).sent) == if Told(w, failure).Some? then [Told(w, failure).value] else []
  {
    if Told(w, failure).Some? {
      OneNote(Told(w, failure).value);
      assert [] + [Tell(Told(w, failure).value)] == [Tell(Told(w, failure).value)];
    }
  }

  lemma NotesOfReply(a: App, w: Write, failure: Option<string>)
    requires a.sent == [] && !w.Discard?
    ensures Notes(WriteReplied(a, w, failure).sent)
         == if Told(w, failure).Some? then [Told(w, failure).value] else []
  {
    NotesOfRefresh(Ended(a, w, failure));
    NotesOfEnded(a, w, failure);
  }

  /** Whatever single write fails, its failure is told, and nothing else. */
  lemma FailureIsTold(a: App, w: Write, error: string)
    requires a.sent == [] && !w.Discard?
    ensures Notes(WriteReplied(a, w, Some(error)).sent) == [WriteFailed(error)]
  {
    NotesOfReply(a, w, Some(error));
  }

  /** What a single write that ends well tells: a publish and a confirmed deletion nothing, the others what they did. */
  lemma SuccessIsTold(a: App, w: Write)
    requires a.sent == [] && !w.Discard?
    ensures Notes(WriteReplied(a, w, None).sent) ==
            match w
            case Publish(_, _) => []
            case SyncEverything(_) => [Synced]
            case RevertEntity(id, _) => [Reverted(id)]
            case ResolveDelete(target, revert) => if revert then [Reverted(target.id)] else []
            case Discard(_, _, _) => []
  {
    NotesOfReply(a, w, None);
  }

  lemma RefreshReads(a: App)
    ensures Refresh(a).refreshing && (a.refreshing ==> Refresh(a).refreshAgain) && Refresh(a).publishing == a.publishing
    ensures Refresh(a).load == a.load && Refresh(a).config == a.config && Refresh(a).git == a.git
  {
  }

  lemma RefreshGitReads(a: App)
    ensures a.config.head.ws != "" ==>
      RefreshGit(a).gitRefreshing && if a.gitRefreshing then RefreshGit(a).gitAgain else |RefreshGit(a).sent| > |a.sent|
    ensures RefreshGit(a).publishing == a.publishing
    ensures RefreshGit(a).load == a.load && RefreshGit(a).config == a.config && RefreshGit(a).git == a.git
  {
  }

  /** Every single write that ends clears `publishing`; a publish has the status read again, the others the snapshot. */
  lemma EndedWriteReads(a: App, w: Write, failure: Option<string>)
    requires !w.Discard?
    ensures var b := WriteReplied(a, w, failure);
            && !b.publishing
            && (if w.Publish? then
                  a.config.head.ws != "" ==> b.gitRefreshing && (a.gitRefreshing ==> b.gitAgain)
                else b.refreshing && (a.refreshing ==> b.refreshAgain))
  {
    var b := Ended(a, w, failure);
    assert !b.publishing && b.refreshing == a.refreshing && b.gitRefreshing == a.gitRefreshing && b.config == a.config;
    RefreshReads(b);
    RefreshGitReads(b);
  }

  /** A read of the snapshot that fails is told, one that is answered is not. */
  lemma FailedReadIsTold(a: App, outcome: Result<Config, string>)
    requires a.sent == []
    ensures Notes(ApplyConfig(a, outcome).sent) == if outcome.Err? then [ReadFailed(outcome.error)] else []
  {
    var b := TakeConfig(a, outcome);
    NotesOfRefresh(b.(refreshAgain := false));
    match outcome
    case Ok(config) => NotesOfRefresh(a.(refreshing := false, config := config, load := Ready));
    case Err(error) =>
      assert [] + [Tell(ReadFailed(error))] == [Tell(ReadFailed(error))];
      OneNote(ReadFailed(error));
  }

  // ---- Entry points ----

  /** What asking for `ui` sends: one write, one notice, or nothing. */
  function Asks(a: App, ui: Ui): seq<Effect> {
    var busy, refused := a.publishing, a.config.head.readOnly;
    match ui
    case UiRefresh => if a.refreshing then [] else [GetConfig]
    case UiRefreshGit => if a.config.head.ws == "" || a.gitRefreshing then [] else [GetGit(a.config.head.ws)]
    case UiPublish(paths) =>
      if busy then []
      else if refused then [Tell(ReadOnly)]
      else if |paths| == 0 then [Start(Publish([], None))]
      else [Tell(AskMessage(Paths(paths)))]
    case UiSyncWithMessage(scope, message) =>
      if busy then []
      else if refused then [Tell(ReadOnly)]
      else if scope.All? then [Start(SyncEverything(message))]
      else [Start(Publish(scope.paths, message))]
    case UiSyncAll =>
      if busy then []
      else if refused then [Tell(ReadOnly)]
      else if |a.git.changed| == 0 then [Start(SyncEverything(None))]
      else [Tell(AskMessage(All))]
    case UiSyncEntity(id) =>
      if id !in a.git.paths then [Tell(NoFile)]
      else if busy then []
      else if refused then [Tell(ReadOnly)]
      else [Tell(AskMessage(Paths([a.git.paths[id]])))]
    case UiRevertEntity(id) =>
      if busy then []
      else if id !in a.git.paths then [Tell(NoFile)]
      else [Start(RevertEntity(id, a.git.paths[id]))]
    case UiResolveDelete(target, revert) =>
      if busy then []
      else if refused && !revert then [Tell(ReadOnly)]
      else [Start(ResolveDelete(target, revert))]
    case UiRevertPaths(paths) =>
      if busy || |paths| == 0 then []
      else [Start(Discard(paths[|paths| - 1], paths[..|paths| - 1], None))]
  }

  /** Just that is sent; the app is publishing from then on exactly when it was or a write was started; what is shown
      stays as it is. */
  predicate HasAsked(a: App, b: App, sent: seq<Effect>) {
    && b.sent == sent
    && b.publishing == (a.publishing || (|sent| == 1 && sent[0].Start?))
    && b.config == a.config && b.git == a.git && b.load == a.load
  }

  lemma StartHasAsked(a: App, w: Write)
    requires a.sent == []
    ensures HasAsked(a, StartWrite(a, w), [Start(w)])
  {
    assert [] + [Start(w)] == [Start(w)];
  }

  lemma TellHasAsked(a: App, note: Note)
    requires a.sent == []
    ensures HasAsked(a, a.Send(Tell(note)), [Tell(note)]) && HasAsked(a, a, [])
  {
    assert [] + [Tell(note)] == [Tell(note)];
  }

  lemma PublishAsks(a: App, paths: seq<string>)
    requires a.sent == []
    ensures HasAsked(a, DoPublish(a, paths), Asks(a, UiPublish(paths)))
  {
    TellHasAsked(a, ReadOnly);
    TellHasAsked(a, AskMessage(Paths(paths)));
    StartHasAsked(a, Publish(paths, None));
  }

  lemma SyncWithMessageAsks(a: App, scope: Scope, message: Option<string>)
    requires a.sent == []
    ensures HasAsked(a, DoSyncWithMessage(a, scope, message), Asks(a, UiSyncWithMessage(scope, message)))
  {
    TellHasAsked(a, ReadOnly);
    StartHasAsked(a, SyncEverything(message));
    if scope.Paths? {
      StartHasAsked(a, Publish(scope.paths, message));
    }
  }

  lemma SyncAllAsks(a: App)
    requires a.sent == []
    ensures HasAsked(a, DoSyncAll(a), Asks(a, UiSyncAll))
  {
    TellHasAsked(a, ReadOnly);
    TellHasAsked(a, AskMessage(All));
    StartHasAsked(a, SyncEverything(None));
  }

  lemma SyncEntityAsks(a: App, id: string)
    requires a.sent == []
    ensures HasAsked(a, DoSyncEntity(a, id), Asks(a, UiSyncEntity(id)))
  {
    TellHasAsked(a, NoFile);
    if id in a.git.paths {
      PublishAsks(a, [a.git.paths[id]]);
    }
  }

  lemma RevertEntityAsks(a: App, id: string)
    requires a.sent == []
    ensures HasAsked(a, DoRevertEntity(a, id), Asks(a, UiRevertEntity(id)))
  {
    TellHasAsked(a, NoFile);
    if id in a.git.paths {
      StartHasAsked(a, RevertEntity(id, a.git.paths[id]));
    }
  }

  lemma ResolveDeleteAsks(a: App, target: Deleted, revert: bool)
    requires a.sent == []
    ensures HasAsked(a, DoResolveDelete(a, target, revert), Asks(a, UiResolveDelete(target, revert)))
  {
    TellHasAsked(a, ReadOnly);
    StartHasAsked(a, ResolveDelete(target, revert));
  }

  lemma RevertPathsAsks(a: App, paths: seq<string>)
    requires a.sent == []
    ensures HasAsked(a, DoRevertPaths(a, paths), Asks(a, UiRevertPaths(paths)))
  {
    TellHasAsked(a, NoFile);
    if paths != [] {
      StartHasAsked(a, Discard(paths[|paths| - 1], paths[..|paths| - 1], None));
    }
  }

  lemma RefreshAsks(a: App)
    requires a.sent == []
    ensures HasAsked(a, Refresh(a), Asks(a, UiRefresh)) && HasAsked(a, RefreshGit(a), Asks(a, UiRefreshGit))
  {
  }

  /** What every entry point comes to. */
  lemma EntryPointsAsk(a: App, ui: Ui)
    requires a.sent == []
    ensures HasAsked(a, Enter(a, ui), Asks(a, ui))
  {
    match ui
    case UiRefresh => RefreshAsks(a);
    case UiRefreshGit => RefreshAsks(a);
    case UiPublish(paths) => PublishAsks(a, paths);
    case UiSyncWithMessage(scope, message) => SyncWithMessageAsks(a, scope, message);
    case UiSyncAll => SyncAllAsks(a);
    case UiSyncEntity(id) => SyncEntityAsks(a, id);
    case UiRevertEntity(id) => RevertEntityAsks(a, id);
    case UiResolveDelete(target, revert) => ResolveDeleteAsks(a, target, revert);
    case UiRevertPaths(paths) => RevertPathsAsks(a, paths);
  }

  /** In a read-only workspace nothing is synced, whatever is asked: only files and deletions are taken back. */
  lemma NothingIsSyncedReadOnly(a: App, ui: Ui)
    requires a.sent == [] && a.config.head.readOnly
    ensures forall w :: Start(w) in Enter(a, ui).sent ==>
              w.RevertEntity? || w.Discard? || (w.ResolveDelete? && w.revert)
  {
    EntryPointsAsk(a, ui);
  }

  // ---- Events ----

  /** The event has the snapshot read again in a moment: a change that could not be put in place, a sync that may have
      changed more than told, new settings. */
  predicate ReadsSoon(a: App, e: Event, patched: bool) {
    match e
    case EntityChanged(_, _, _) => !patched
    case EntityStatus(ws, changed) => !(ws == a.config.head.ws && changed.Some? && !changed.value)
    case SettingsChanged => true
    case AccountChanged => false
    case VaultChanged => false
    case SyncStatus => false
  }

  /** What each event does: nothing is sent for a change put in place, and a read under way is followed up; the burst
      timer is started, unless it runs; an account change reads the snapshot at once; the others read the status. */
  lemma EventsDo(a: App, e: Event, patched: bool)
    requires a.sent == []
    ensures var b := OnIncoming(a, e, patched);
            if ReadsSoon(a, e, patched) then
              b.refreshScheduled && b.sent == if a.refreshScheduled then [] else [StartTimer]
            else if e.EntityChanged? then
              && b.sent == [] && (b.refreshAgain <==> a.refreshAgain || a.refreshing) && b.config.head == a.config.head
              && (e.id in b.config.entries <==> e.entry.Some?)
              && (e.entry.Some? ==> b.config.entries[e.id] == e.entry.value)
              && forall id | id != e.id ::
                   && (id in b.config.entries <==> id in a.config.entries)
                   && (id in a.config.entries ==> b.config.entries[id] == a.config.entries[id])
            else if e.AccountChanged? then
              && b.refreshing && b.sent == (if a.refreshing then [] else [GetConfig])
              && (a.refreshing ==> b.refreshAgain)
            else
              && b.sent == (if a.config.head.ws == "" || a.gitRefreshing then [] else [GetGit(a.config.head.ws)])
              && (a.config.head.ws != "" && a.gitRefreshing ==> b.gitAgain)
  {
  }

  // ---- Whether there is anything to show ----

  lemma {:induction false} LaunchKeepsTheApp(s: System, sent: seq<Effect>)
    ensures LaunchAll(s, sent).app == s.app
    decreases |sent|
  {
    if sent != [] {
      LaunchKeepsTheApp(s, sent[..|sent| - 1]);
    }
  }

  lemma PerformedApp(s: System, a: App)
    ensures Perform(s, a).app == a.(sent := [])
  {
    LaunchKeepsTheApp(s.(app := a.(sent := [])), a.sent);
  }

  lemma EventsKeepLoad(a: App, e: Event, patched: bool)
    ensures OnIncoming(a, e, patched).load == a.load && TimerFired(a).load == a.load
  {
    RefreshReads(a);
    RefreshGitReads(a);
    RefreshReads(a.(refreshScheduled := false));
  }

  lemma GitRepliedKeepsLoad(a: App, ws: string, outcome: Option<Git>)
    ensures GitReplied(a, ws, outcome).load == a.load
  {
    var git := if outcome.Some? && a.config.head.ws == ws then outcome.value else a.git;
    RefreshGitReads(a.(gitRefreshing := false, git := git, gitAgain := false));
  }

  lemma WriteRepliedKeepsLoad(a: App, w: Write, failure: Option<string>)
    ensures WriteReplied(a, w, failure).load == a.load
  {
    if w.Discard? {
      DiscardKeepsLoad(a, w.todo, if w.firstFailure.Some? then w.firstFailure else failure);
    } else {
      RefreshReads(Ended(a, w, failure));
      RefreshGitReads(Ended(a, w, failure));
    }
  }

  lemma DiscardKeepsLoad(a: App, paths: seq<string>, first: Option<string>)
    ensures DiscardNext(a, paths, first).load == a.load
  {
    var b := a.(publishing := false);
    RefreshReads(if first.Some? then b.Send(Tell(WriteFailed(first.value))) else b);
  }

  lemma AnswerLoads(a: App, outcome: Result<Config, string>)
    ensures ApplyConfig(a, outcome).load ==
            match outcome
            case Ok(_) => Ready
            case Err(error) => if a.load == Loading then Failed(error) else a.load
  {
    var b := TakeConfig(a, outcome);
    RefreshReads(b.(refreshAgain := false));
    if outcome.Ok? {
      RefreshGitReads(a.(refreshing := false, config := outcome.value, load := Ready));
    }
  }

  /** How far loading has come after one more step. */
  lemma StepLoads(s: System, step: Step)
    requires s.app.sent == [] && Enabled(s, step)
    ensures After(s, step).app.sent == []
    ensures After(s, step).app.load ==
            if step.ReplyConfig? then Ready
            else if step.FailConfig? && s.app.load == Loading then Failed(step.error)
            else s.app.load
  {
    if step.ReplyConfig? {
      AnswerLoads(s.app, Ok(s.fetches[step.i].config));
      PerformedApp(s.(fetches := Without(s.fetches, step.i)), ApplyConfig(s.app, Ok(s.fetches[step.i].config)));
    } else if step.FailConfig? {
      AnswerLoads(s.app, Err(step.error));
      PerformedApp(s.(fetches := Without(s.fetches, step.i), lost := true, gitLost := true),
                   ApplyConfig(s.app, Err(step.error)));
    } else if AppRun.Handles(step) {
      HandlerKeepsLoad(s, step);
    } else {
      AppRun.OtherStepsLeaveTheApp(s, step);
    }
  }

  lemma HandlerKeepsLoad(s: System, step: Step)
    requires s.app.sent == [] && Enabled(s, step)
    requires AppRun.Handles(step) && !step.ReplyConfig? && !step.FailConfig?
    ensures After(s, step).app.load == s.app.load && After(s, step).app.sent == []
  {
    AppRun.AfterPerforms(s, step);
    PerformedApp(AppRun.Taken(s, step), AppRun.Handled(s, step));
    match step
    case Ask(ui) => EntryPointsAsk(s.app, ui);
    case Deliver(patched) => EventsKeepLoad(s.app, s.queue[0], patched);
    case Fire => EventsKeepLoad(s.app, SettingsChanged, false);
    case ReplyGit(i) => GitRepliedKeepsLoad(s.app, s.gitFetches[i].ws, Some(s.gitFetches[i].git));
    case FailGit(i) => GitRepliedKeepsLoad(s.app, s.gitFetches[i].ws, None);
    case ReplyWrite(i, failure) => WriteRepliedKeepsLoad(s.app, s.writes[i], failure);
    case ReplyCommand(_, _) => RefreshReads(s.app);
  }

  /** How far loading has come after any run: once a read is answered the app is ready, for good; before that it shows
      the failure of the first read that failed, if any did. */
  lemma {:induction false} LoadIs(s: System, steps: seq<Step>)
    requires s.app.sent == [] && CanRun(s, steps)
    ensures (exists i :: 0 <= i < |steps| && steps[i].ReplyConfig?) ==> Run(s, steps).app.load == Ready
    ensures (forall i | 0 <= i < |steps| :: !steps[i].ReplyConfig?) ==>
      && (s.app.load != Loading ==> Run(s, steps).app.load == s.app.load)
      && ((forall i | 0 <= i < |steps| :: !steps[i].FailConfig?) ==> Run(s, steps).app.load == s.app.load)
      && forall i | 0 <= i < |steps| && steps[i].FailConfig? && s.app.load == Loading
           && (forall j | 0 <= j < i :: !steps[j].FailConfig?) ::
           Run(s, steps).app.load == Failed(steps[i].error)
    ensures s.app.load == Ready ==> Run(s, steps).app.load == Ready
    decreases |steps|
  {
    if steps != [] {
      var rest := steps[1..];
      StepLoads(s, steps[0]);
      LoadIs(After(s, steps[0]), rest);
      assert forall i | 0 < i < |steps| :: steps[i] == rest[i - 1];
      assert forall i | 0 <= i < |rest| :: rest[i] == steps[i + 1];
    }
  }

  // ---- What is shown ----

  predicate SameShown(a: App, b: App) {
    a.config == b.config && a.git == b.git
  }

  /** The snapshot with one entity listed so, or not at all; everything else as it was. */
  ghost predicate IsPatched(a: Config, b: Config, id: string, entry: Option<string>) {
    && a.head == b.head
    && (forall other | other != id :: other in a.entries <==> other in b.entries)
    && (forall other | other != id && other in a.entries :: a.entries[other] == b.entries[other])
    && (id in b.entries <==> entry.Some?) && (entry.Some? ==> b.entries[id] == entry.value)
  }

  lemma ReadsShow(a: App)
    ensures SameShown(a, Refresh(a)) && SameShown(a, RefreshGit(a)) && SameShown(a, RefreshSoon(a))
  {
  }

  lemma PatchShows(a: Config, id: string, entry: Option<string>)
    ensures IsPatched(a, Patch(a, id, entry), id, entry)
  {
  }

  lemma TimerShows(a: App)
    ensures SameShown(a, TimerFired(a))
  {
    ReadsShow(a.(refreshScheduled := false));
  }

  lemma EventsShow(a: App, e: Event, patched: bool)
    ensures var b := OnIncoming(a, e, patched);
            && b.git == a.git
            && if e.EntityChanged? && patched then IsPatched(a.config, b.config, e.id, e.entry)
               else b.config == a.config
  {
    ReadsShow(a);
    if e.EntityChanged? {
      PatchShows(a.config, e.id, e.entry);
    }
  }

  lemma StatusShows(a: App, ws: string, outcome: Option<Git>)
    ensures var b := GitReplied(a, ws, outcome);
            && b.config == a.config
            && b.git == if outcome.Some? && ws == a.config.head.ws then outcome.value else a.git
  {
    var git := if outcome.Some? && a.config.head.ws == ws then outcome.value else a.git;
    RefreshGitReads(a.(gitRefreshing := false, git := git, gitAgain := false));
  }

  lemma AnswerShows(a: App, outcome: Result<Config, string>)
    ensures var b := ApplyConfig(a, outcome);
            b.git == a.git && b.config == if outcome.Ok? then outcome.value else a.config
  {
    var b := TakeConfig(a, outcome);
    RefreshReads(b.(refreshAgain := false));
    if outcome.Ok? {
      RefreshGitReads(a.(refreshing := false, config := outcome.value, load := Ready));
    }
  }

  lemma EndedShows(a: App, w: Write, failure: Option<string>)
    ensures SameShown(a, Ended(a, w, failure))
  {
  }

  lemma DiscardShows(a: App, paths: seq<string>, first: Option<string>)
    ensures SameShown(a, DiscardNext(a, paths, first))
  {
    var b := a.(publishing := false);
    ReadsShow(if first.Some? then b.Send(Tell(WriteFailed(first.value))) else b);
  }

  lemma WritesShow(a: App, w: Write, failure: Option<string>)
    ensures SameShown(a, WriteReplied(a, w, failure))
  {
    if w.Discard? {
      DiscardShows(a, w.todo, if w.firstFailure.Some? then w.firstFailure else failure);
    } else {
      EndedShows(a, w, failure);
      ReadsShow(Ended(a, w, failure));
    }
  }

  /** What moves the snapshot and the status, of everything that can happen: an answered read of the snapshot, a change
      put in place, and an answered read of the status for the workspace in front. */
  lemma ShownMoves(s: System, step: Step)
    requires s.app.sent == [] && Enabled(s, step)
    ensures After(s, step).app.git ==
            if step.ReplyGit? && s.gitFetches[step.i].ws == s.app.config.head.ws then s.gitFetches[step.i].git
            else s.app.git
    ensures var before, after := s.app.config, After(s, step).app.config;
            if step.ReplyConfig? then after == s.fetches[step.i].config
            else if step.Deliver? && step.patched && s.queue[0].EntityChanged? then
              IsPatched(before, after, s.queue[0].id, s.queue[0].entry)
            else after == before
  {
    if AppRun.Handles(step) {
      AppRun.AfterPerforms(s, step);
      PerformedApp(AppRun.Taken(s, step), AppRun.Handled(s, step));
      HandledShows(s, step);
    } else {
      AppRun.OtherStepsLeaveTheApp(s, step);
    }
  }

  lemma HandledShows(s: System, step: Step)
    requires s.app.sent == [] && Enabled(s, step) && AppRun.Handles(step)
    ensures AppRun.Handled(s, step).git ==
            if step.ReplyGit? && s.gitFetches[step.i].ws == s.app.config.head.ws then s.gitFetches[step.i].git
            else s.app.git
    ensures var before, after := s.app.config, AppRun.Handled(s, step).config;
            if step.ReplyConfig? then after == s.fetches[step.i].config
            else if step.Deliver? && step.patched && s.queue[0].EntityChanged? then
              IsPatched(before, after, s.queue[0].id, s.queue[0].entry)
            else after == before
  {
    match step
    case Ask(ui) => EntryPointsAsk(s.app, ui);
    case Deliver(patched) => EventsShow(s.app, s.queue[0], patched);
    case Fire => TimerShows(s.app);
    case ReplyConfig(i) => AnswerShows(s.app, Ok(s.fetches[i].config));
    case FailConfig(_, error) => AnswerShows(s.app, Err(error));
    case ReplyGit(i) => StatusShows(s.app, s.gitFetches[i].ws, Some(s.gitFetches[i].git));
    case FailGit(i) => StatusShows(s.app, s.gitFetches[i].ws, None);
    case ReplyWrite(i, failure) => WritesShow(s.app, s.writes[i], failure);
    case ReplyCommand(_, _) => RefreshReads(s.app);
  }
}
