/** The workspace model of the desktop app: one object whose methods change its fields step by step. */
module AppModel {
  import opened Wrappers
  import opened AppState

  /** The model itself: every method changes the fields step by step, and its contract says the whole new state. */
  class Model {
    var config: Config
    var git: Git
    var load: Load
    var refreshing: bool
    var refreshAgain: bool
    var refreshScheduled: bool
    var gitRefreshing: bool
    var gitAgain: bool
    var publishing: bool
    var sent: seq<Effect>

    ghost function View(): App
      reads this
    {
      App(config, git, load, refreshing, refreshAgain, refreshScheduled, gitRefreshing, gitAgain, publishing, sent)
    }

    constructor ()
      ensures View() == Fresh()
    {
      config, git, load := Config(Head("", false, ""), map[]), Git({}, map[]), Loading;
      refreshing, refreshAgain, refreshScheduled := true, false, false;
      gitRefreshing, gitAgain, publishing := false, false, false;
      sent := [GetConfig];
    }

    method Refresh()
      modifies this
      ensures View() == AppState.Refresh(old(View()))
    {
      if refreshing {
        refreshAgain := true;
        return;
      }
      refreshing := true;
      sent := sent + [GetConfig];
    }

    method RefreshSoon()
      modifies this
      ensures View() == AppState.RefreshSoon(old(View()))
    {
      var was := refreshScheduled;
      refreshScheduled := true;
      if was {
        return;
      }
      sent := sent + [StartTimer];
    }

    method TimerFired()
      modifies this
      ensures View() == AppState.TimerFired(old(View()))
    {
      refreshScheduled := false;
      Refresh();
    }

    method RefreshGit()
      modifies this
      ensures View() == AppState.RefreshGit(old(View()))
    {
      if config.head.ws == "" {
        return;
      }
      var was := gitRefreshing;
      gitRefreshing := true;
      if was {
        gitAgain := true;
        return;
      }
      sent := sent + [GetGit(config.head.ws)];
    }

    method ApplyConfig(outcome: Result<Config, string>)
      modifies this
      ensures View() == AppState.ApplyConfig(old(View()), outcome)
    {
      refreshing := false;
      match outcome {
        case Ok(snapshot) =>
          config := snapshot;
          load := Ready;
          RefreshGit();
        case Err(error) =>
          if load == Loading {
            load := Failed(error);
          }
          sent := sent + [Tell(ReadFailed(error))];
      }
      assert View() == AppState.TakeConfig(old(View()), outcome);
      var again := refreshAgain;
      refreshAgain := false;
      if again {
        Refresh();
      }
    }

    method GitReplied(ws: string, outcome: Option<Git>)
      modifies this
      ensures View() == AppState.GitReplied(old(View()), ws, outcome)
    {
      gitRefreshing := false;
      if outcome.Some? && config.head.ws == ws {
        git := outcome.value;
      }
      var again := gitAgain;
      gitAgain := false;
      if again {
        RefreshGit();
      }
    }

    method OnIncoming(event: Event, patched: bool)
      modifies this
      ensures View() == AppState.OnIncoming(old(View()), event, patched)
    {
      match event {
        case EntityChanged(_, id, entry) =>
          if patched {
            config := Patch(config, id, entry);
            refreshAgain := refreshAgain || refreshing;
          } else {
            RefreshSoon();
          }
        case EntityStatus(ws, configChanged) =>
          if ws == config.head.ws && configChanged == Some(false) {
            RefreshGit();
          } else {
            RefreshSoon();
          }
        case SettingsChanged =>
          RefreshSoon();
        case AccountChanged =>
          Refresh();
        case VaultChanged =>
          RefreshGit();
        case SyncStatus =>
          RefreshGit();
      }
    }

    /** Whether the workspace is read-only, which the user is told. */
    method RefuseReadOnly() returns (refused: bool)
      modifies this`sent
      ensures refused == config.head.readOnly
      ensures View() == if refused then old(View()).Send(Tell(ReadOnly)) else old(View())
    {
      if config.head.readOnly {
        sent := sent + [Tell(ReadOnly)];
      }
      return config.head.readOnly;
    }

    method StartWrite(write: Write)
      modifies this
      ensures View() == AppState.StartWrite(old(View()), write)
    {
      publishing := true;
      sent := sent + [Start(write)];
    }

    method Publish(paths: seq<string>)
      modifies this
      ensures View() == DoPublish(old(View()), paths)
    {
      if publishing {
        return;
      }
      var refused := RefuseReadOnly();
      if refused {
        return;
      }
      if paths == [] {
        StartWrite(Write.Publish(paths, None));
      } else {
        sent := sent + [Tell(AskMessage(Paths(paths)))];
      }
    }

    method SyncWithMessage(scope: Scope, message: Option<string>)
      modifies this
      ensures View() == DoSyncWithMessage(old(View()), scope, message)
    {
      if publishing {
        return;
      }
      var refused := RefuseReadOnly();
      if refused {
        return;
      }
      match scope {
        case Paths(paths) => StartWrite(Write.Publish(paths, message));
        case All => StartWrite(SyncEverything(message));
      }
    }

    method SyncAll()
      modifies this
      ensures View() == DoSyncAll(old(View()))
    {
      if publishing {
        return;
      }
      var refused := RefuseReadOnly();
      if refused {
        return;
      }
      if git.changed == {} {
        StartWrite(SyncEverything(None));
      } else {
        sent := sent + [Tell(AskMessage(All))];
      }
    }

    method SyncEntity(id: string)
      modifies this
      ensures View() == DoSyncEntity(old(View()), id)
    {
      if id in git.paths {
        Publish([git.paths[id]]);
      } else {
        sent := sent + [Tell(NoFile)];
      }
    }

    method RevertEntity(id: string)
      modifies this
      ensures View() == DoRevertEntity(old(View()), id)
    {
      if publishing {
        return;
      }
      if id !in git.paths {
        sent := sent + [Tell(NoFile)];
        return;
      }
      StartWrite(Write.RevertEntity(id, git.paths[id]));
    }

    method ResolveDelete(target: Deleted, revert: bool)
      modifies this
      ensures View() == DoResolveDelete(old(View()), target, revert)
    {
      if publishing {
        return;
      }
      if !revert {
        var refused := RefuseReadOnly();
        if refused {
          return;
        }
      }
      StartWrite(Write.ResolveDelete(target, revert));
    }

    method RevertPaths(paths: seq<string>)
      modifies this
      ensures View() == DoRevertPaths(old(View()), paths)
    {
      if publishing || paths == [] {
        return;
      }
      publishing := true;
      DiscardNext(paths, None);
    }

    method DiscardNext(paths: seq<string>, firstFailure: Option<string>)
      modifies this
      ensures View() == AppState.DiscardNext(old(View()), paths, firstFailure)
    {
      if paths == [] {
        publishing := false;
        if firstFailure.Some? {
          sent := sent + [Tell(WriteFailed(firstFailure.value))];
        }
        Refresh();
        return;
      }
      var last := |paths| - 1;
      sent := sent + [Start(Discard(paths[last], paths[..last], firstFailure))];
    }

    method WriteReplied(write: Write, failure: Option<string>)
      modifies this
      ensures View() == AppState.WriteReplied(old(View()), write, failure)
    {
      if write.Discard? {
        DiscardNext(write.todo, if write.firstFailure.Some? then write.firstFailure else failure);
        return;
      }
      Ended(write, failure);
      if write.Publish? {
        RefreshGit();
      } else {
        Refresh();
      }
    }

    /** A single write has ended, and the user is told what there is to tell. */
    method Ended(write: Write, failure: Option<string>)
      requires !write.Discard?
      modifies this
      ensures View() == AppState.Ended(old(View()), write, failure)
    {
      publishing := false;
      if failure.Some? {
        sent := sent + [Tell(WriteFailed(failure.value))];
      } else {
        match write {
          case Publish(_, _) =>
          case SyncEverything(_) =>
            sent := sent + [Tell(Synced)];
          case RevertEntity(id, _) =>
            sent := sent + [Tell(Reverted(id))];
          case ResolveDelete(target, revert) =>
            if revert {
              sent := sent + [Tell(Reverted(target.id))];
            }
        }
      }
    }
  }
}
