/** The workspace model of the desktop app as a value: what its fields hold and what each entry point and each
    continuation does to them. `AppModel` does the same in place; `RefreshProtocol` runs it against an engine. */
module AppState {
  import opened Wrappers

  /** Everything in a snapshot but the entities: the workspace in front (empty before the first load), whether
      it is read-only, and the settings, folders and environments as one opaque text. */
  datatype Head = Head(ws: string, readOnly: bool, rest: string)

  datatype Config = Config(head: Head, entries: map<string, string>)

  /** The changed files of a workspace, and the file of each entity. */
  datatype Git = Git(changed: set<string>, paths: map<string, string>)

  datatype Load = Loading | Ready | Failed(message: string)

  /** The engine's events that move the snapshot or the git status. `entity.changed` carries the new listing of
      one entity (`None`: deleted); `sync.entityStatus` may say whether the configuration changed. */
  datatype Event =
    | EntityChanged(ws: string, id: string, entry: Option<string>)
    | EntityStatus(ws: string, configChanged: Option<bool>)
    | SettingsChanged
    | AccountChanged
    | VaultChanged
    | SyncStatus

  datatype Scope = Paths(paths: seq<string>) | All

  datatype Deleted = Entity(kind: string, id: string) | Folder(kind: string, id: string)

  /** A write the app waits for, with what its continuation has captured. `Discard` is one file of
      `revert_paths`: the files still to do and the first failure so far. */
  datatype Write =
    | Publish(paths: seq<string>, message: Option<string>)
    | SyncEverything(message: Option<string>)
    | RevertEntity(id: string, path: string)
    | ResolveDelete(target: Deleted, revert: bool)
    | Discard(path: string, todo: seq<string>, firstFailure: Option<string>)

  /** What the app hands to the outside: calls, the burst timer, and messages to the user. */
  datatype Effect =
    | GetConfig
    | GetGit(ws: string)
    | StartTimer
    | Start(write: Write)
    | Tell(note: Note)

  datatype Note =
    | ReadFailed(error: string)
    | ReadOnly
    | AskMessage(scope: Scope)
    | NoFile
    | Reverted(id: string)
    | WriteFailed(error: string)
    | Synced

  /** The fields of the model, and what it has sent since the caller last looked. */
  datatype App = App(
    config: Config,
    git: Git,
    load: Load,
    refreshing: bool,
    refreshAgain: bool,
    refreshScheduled: bool,
    gitRefreshing: bool,
    gitAgain: bool,
    publishing: bool,
    sent: seq<Effect>)
  {
    function Send(e: Effect): App {
      this.(sent := sent + [e])
    }
  }

  /** The snapshot with one entity's listing replaced or removed. */
  function Patch(config: Config, id: string, entry: Option<string>): Config {
    config.(entries := if entry.Some? then config.entries[id := entry.value] else config.entries - {id})
  }

  function Refresh(a: App): App {
    if a.refreshing then a.(refreshAgain := true) else a.(refreshing := true).Send(GetConfig)
  }

  function RefreshSoon(a: App): App {
    if a.refreshScheduled then a else a.(refreshScheduled := true).Send(StartTimer)
  }

  function TimerFired(a: App): App {
    Refresh(a.(refreshScheduled := false))
  }

  function RefreshGit(a: App): App {
    if a.config.head.ws == "" then a
    else if a.gitRefreshing then a.(gitAgain := true)
    else a.(gitRefreshing := true).Send(GetGit(a.config.head.ws))
  }

  /** What `apply_config` leaves before it looks at `refresh_again`. */
  function TakeConfig(a: App, outcome: Result<Config, string>): App {
    match outcome
    case Ok(config) => RefreshGit(a.(refreshing := false, config := config, load := Ready))
    case Err(error) =>
      a.(refreshing := false, load := if a.load.Loading? then Failed(error) else a.load).Send(Tell(ReadFailed(error)))
  }

  function ApplyConfig(a: App, outcome: Result<Config, string>): App {
    var b := TakeConfig(a, outcome);
    if b.refreshAgain then Refresh(b.(refreshAgain := false)) else b
  }

  /** The answer to a status read asked for workspace `ws`. */
  function GitReplied(a: App, ws: string, outcome: Option<Git>): App {
    var git := if outcome.Some? && a.config.head.ws == ws then outcome.value else a.git;
    var b := a.(gitRefreshing := false, git := git);
    if b.gitAgain then RefreshGit(b.(gitAgain := false)) else b
  }

  /** One event. `patched` is what `ConfigSnapshot::apply_change` answered. */
  function OnIncoming(a: App, e: Event, patched: bool): App {
    match e
    case EntityChanged(_, id, entry) =>
      if patched then a.(config := Patch(a.config, id, entry), refreshAgain := a.refreshAgain || a.refreshing)
      else RefreshSoon(a)
    case EntityStatus(ws, configChanged) =>
      if ws == a.config.head.ws && configChanged == Some(false) then RefreshGit(a) else RefreshSoon(a)
    case SettingsChanged => RefreshSoon(a)
    case AccountChanged => Refresh(a)
    case VaultChanged => RefreshGit(a)
    case SyncStatus => RefreshGit(a)
  }

  function StartWrite(a: App, w: Write): App {
    a.(publishing := true).Send(Start(w))
  }

  /** `publishing || refuse_read_only()`: whether a sync is refused, and the notice of a read-only workspace. */
  function Refused(a: App): (r: (bool, App)) {
    if a.publishing then (true, a)
    else if a.config.head.readOnly then (true, a.Send(Tell(ReadOnly)))
    else (false, a)
  }

  function DoPublish(a: App, paths: seq<string>): App {
    var (refused, b) := Refused(a);
    if refused then b
    else if paths == [] then StartWrite(a, Publish(paths, None))
    else a.Send(Tell(AskMessage(Paths(paths))))
  }

  function DoSyncWithMessage(a: App, scope: Scope, message: Option<string>): App {
    var (refused, b) := Refused(a);
    if refused then b
    else match scope
      case Paths(paths) => StartWrite(a, Publish(paths, message))
      case All => StartWrite(a, SyncEverything(message))
  }

  function DoSyncAll(a: App): App {
    var (refused, b) := Refused(a);
    if refused then b
    else if a.git.changed == {} then StartWrite(a, SyncEverything(None))
    else a.Send(Tell(AskMessage(All)))
  }

  function DoSyncEntity(a: App, id: string): App {
    if id in a.git.paths then DoPublish(a, [a.git.paths[id]]) else a.Send(Tell(NoFile))
  }

  function DoRevertEntity(a: App, id: string): App {
    if a.publishing then a
    else if id !in a.git.paths then a.Send(Tell(NoFile))
    else StartWrite(a, RevertEntity(id, a.git.paths[id]))
  }

  function DoResolveDelete(a: App, target: Deleted, revert: bool): App {
    var (refused, b) := Refused(a);
    if a.publishing || (!revert && refused) then b else StartWrite(a, ResolveDelete(target, revert))
  }

  function DoRevertPaths(a: App, paths: seq<string>): App {
    if a.publishing || paths == [] then a else DiscardNext(a.(publishing := true), paths, None)
  }

  /** The last path goes first; with none left the chain is over and its first failure is told. */
  function DiscardNext(a: App, paths: seq<string>, firstFailure: Option<string>): App {
    if paths == [] then
      var b := a.(publishing := false);
      Refresh(if firstFailure.Some? then b.Send(Tell(WriteFailed(firstFailure.value))) else b)
    else
      a.Send(Start(Discard(paths[|paths| - 1], paths[..|paths| - 1], firstFailure)))
  }

  /** What the continuation of a single write tells the user, if anything. */
  function Told(w: Write, failure: Option<string>): Option<Note> {
    if failure.Some? then Some(WriteFailed(failure.value))
    else
      match w
      case SyncEverything(_) => Some(Synced)
      case RevertEntity(id, _) => Some(Reverted(id))
      case ResolveDelete(target, true) => Some(Reverted(target.id))
      case _ => None
  }

  /** A single write has ended, and the user is told what there is to tell. */
  function Ended(a: App, w: Write, failure: Option<string>): App {
    var b := a.(publishing := false);
    match Told(w, failure)
    case Some(note) => b.Send(Tell(note))
    case None => b
  }

  /** The continuation of write `w`, which ended with `failure` or well. */
  function WriteReplied(a: App, w: Write, failure: Option<string>): App {
    match w
    case Discard(_, todo, firstFailure) => DiscardNext(a, todo, if firstFailure.Some? then firstFailure else failure)
    case Publish(_, _) => RefreshGit(Ended(a, w, failure))
    case _ => Refresh(Ended(a, w, failure))
  }

  /** The model as it is made: nothing loaded, and the first read on its way. */
  function Fresh(): App {
    App(Config(Head("", false, ""), map[]), Git({}, map[]), Loading,
        true, false, false, false, false, false, [GetConfig])
  }
}
