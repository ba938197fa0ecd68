/** The workspace model running against an engine: writes, events, the burst timer, reads that are answered
    with the state at some moment, replies, write chains and commands, in any order. */
module RefreshProtocol {
  import opened Wrappers
  import opened AppState

  /** What the engine holds: the head of the workspace in front, and per workspace its entities and git status. */
  datatype Engine = Engine(head: Head, store: map<string, map<string, string>>, git: map<string, Git>)

  function Entities(e: Engine, ws: string): map<string, string> {
    if ws in e.store then e.store[ws] else map[]
  }

  function Lookup(entries: map<string, string>, id: string): Option<string> {
    if id in entries then Some(entries[id]) else None
  }

  /** What `config.get` answers. */
  function Snapshot(e: Engine): Config {
    Config(e.head, Entities(e, e.head.ws))
  }

  /** What `sync.getEntityStatus` answers for a workspace. */
  function Status(e: Engine, ws: string): Git {
    if ws in e.git then e.git[ws] else Git({}, map[])
  }

  datatype Fetch = Asked | Answered(config: Config)

  datatype GitFetch = GitAsked(ws: string) | GitAnswered(ws: string, git: Git)

  /** A command of this app that changes the head without an event (`workspace.setActive`, `env.setActive`, ...).
      `always`: the snapshot is read again whatever the outcome; otherwise only after success. */
  datatype Command = Command(always: bool, acted: bool)

  /** The model, the engine, and everything on its way between them. The last fields are history: `lost` and
      `gitLost` say that the snapshot (the status) may miss something no event will bring (a read failed, or a
      change was made before the events were subscribed to) and no read has been served since; `gitFailed` that
      the last status read failed; `gitReadFor` which workspace the status shown was read for; `asked` and
      `tried` what the running `revert_paths` was given and what its calls came to. */
  datatype System = System(
    engine: Engine,
    subscribed: bool,
    queue: seq<Event>,
    app: App,
    fetches: seq<Fetch>,
    gitFetches: seq<GitFetch>,
    timers: nat,
    writes: seq<Write>,
    commands: seq<Command>,
    lost: bool,
    gitLost: bool,
    gitFailed: bool,
    gitReadFor: string,
    asked: seq<string>,
    tried: seq<(string, Option<string>)>)

  /** What a person can ask of the model. */
  datatype Ui =
    | UiRefresh
    | UiRefreshGit
    | UiPublish(paths: seq<string>)
    | UiSyncWithMessage(scope: Scope, message: Option<string>)
    | UiSyncAll
    | UiSyncEntity(id: string)
    | UiRevertEntity(id: string)
    | UiResolveDelete(target: Deleted, revert: bool)
    | UiRevertPaths(paths: seq<string>)

  function Enter(a: App, u: Ui): App {
    match u
    case UiRefresh => Refresh(a)
    case UiRefreshGit => RefreshGit(a)
    case UiPublish(paths) => DoPublish(a, paths)
    case UiSyncWithMessage(scope, message) => DoSyncWithMessage(a, scope, message)
    case UiSyncAll => DoSyncAll(a)
    case UiSyncEntity(id) => DoSyncEntity(a, id)
    case UiRevertEntity(id) => DoRevertEntity(a, id)
    case UiResolveDelete(target, revert) => DoResolveDelete(a, target, revert)
    case UiRevertPaths(paths) => DoRevertPaths(a, paths)
  }

  /** The first five kinds of step come from outside; the rest is what is already on its way. */
  datatype Step =
    | EntityWrite(ws: string, id: string, entry: Option<string>, git: Git)
    | Announced(after: Engine, event: Event)
    | GitMoved(gitAfter: map<string, Git>, event: Event)
    | Subscribed
    | Ask(ui: Ui)
    | AskCommand(always: bool)
    | CommandActs(i: nat, head: Head)
    | WriteActs(gitAfter: map<string, Git>)
    | Deliver(patched: bool)
    | Fire
    | ServeConfig(i: nat)
    | ReplyConfig(i: nat)
    | FailConfig(i: nat, error: string)
    | ServeGit(i: nat)
    | ReplyGit(i: nat)
    | FailGit(i: nat)
    | ReplyWrite(i: nat, failure: Option<string>)
    | ReplyCommand(i: nat, ok: bool)

  predicate Internal(step: Step) {
    step.Deliver? || step.Fire? || step.ServeConfig? || step.ReplyConfig? || step.FailConfig? || step.ServeGit?
    || step.ReplyGit? || step.FailGit? || step.ReplyWrite? || step.ReplyCommand?
  }

  /** An event after which the app reads the snapshot again, whatever its own state is. */
  predicate Coarse(e: Event) {
    e.SettingsChanged? || e.AccountChanged? || (e.EntityStatus? && e.configChanged != Some(false))
  }

  /** An event after which the app reads the git status again, at once or with the snapshot. */
  predicate GitEvent(e: Event) {
    !e.EntityChanged?
  }

  function Without<T>(s: seq<T>, i: nat): seq<T>
    requires i < |s|
  {
    s[..i] + s[i + 1..]
  }

  predicate Enabled(s: System, step: Step) {
    match step
    case EntityWrite(_, _, _, _) => true
    case Announced(_, event) => Coarse(event)
    case GitMoved(_, event) => GitEvent(event)
    case Subscribed => true
    case Ask(_) => true
    case AskCommand(_) => true
    case CommandActs(i, _) => i < |s.commands|
    case WriteActs(_) => s.writes != []
    // The oracle patches an entity only into a snapshot of its own workspace.
    case Deliver(patched) =>
      s.queue != [] && (patched ==> s.queue[0].EntityChanged? && s.queue[0].ws == s.app.config.head.ws)
    case Fire => s.timers > 0
    case ServeConfig(i) => i < |s.fetches| && s.fetches[i].Asked?
    case ReplyConfig(i) => i < |s.fetches| && s.fetches[i].Answered?
    case FailConfig(i, _) => i < |s.fetches|
    case ServeGit(i) => i < |s.gitFetches| && s.gitFetches[i].GitAsked?
    case ReplyGit(i) => i < |s.gitFetches| && s.gitFetches[i].GitAnswered?
    case FailGit(i) => i < |s.gitFetches|
    case ReplyWrite(i, _) => i < |s.writes|
    // A command the engine acted on is answered with success, unless its refresh does not ask.
    case ReplyCommand(i, ok) => i < |s.commands| && (s.commands[i].acted && !s.commands[i].always ==> ok)
  }

  /** One thing the model sent, under way. */
  function Launch(s: System, e: Effect): System {
    match e
    case GetConfig => s.(fetches := s.fetches + [Asked])
    case GetGit(ws) => s.(gitFetches := s.gitFetches + [GitAsked(ws)])
    case StartTimer => s.(timers := s.timers + 1)
    case Start(write) => s.(writes := s.writes + [write])
    case Tell(_) => s
  }

  function LaunchAll(s: System, sent: seq<Effect>): System {
    if sent == [] then s else Launch(LaunchAll(s, sent[..|sent| - 1]), sent[|sent| - 1])
  }

  /** The system once the model is `a`: what `a` has sent is under way. */
  function Perform(s: System, a: App): System {
    LaunchAll(s.(app := a.(sent := [])), a.sent)
  }

  /** An event the engine publishes: it is lost until the subscription is in place. */
  function Publishes(s: System, event: Event): System {
    if s.subscribed then s.(queue := s.queue + [event]) else s.(lost := true, gitLost := true)
  }

  /** The engine writes one entity: `entity.changed`, then `sync.entityStatus` saying that this was all. */
  function WriteEntity(e: Engine, ws: string, id: string, entry: Option<string>, git: Git): Engine {
    var entities := Entities(e, ws);
    e.(store := e.store[ws := if entry.Some? then entities[id := entry.value] else entities - {id}],
       git := e.git[ws := git])
  }

  /** Where `revert_paths` starts a chain, its history starts. */
  function Remember(s: System, ui: Ui): System {
    if ui.UiRevertPaths? && !s.app.publishing then s.(asked := ui.paths, tried := []) else s
  }

  function After(s: System, step: Step): System
    requires Enabled(s, step)
  {
    match step
    case EntityWrite(ws, id, entry, git) =>
      Publishes(Publishes(s.(engine := WriteEntity(s.engine, ws, id, entry, git)), EntityChanged(ws, id, entry)),
                EntityStatus(ws, Some(false)))
    case Announced(after, event) => Publishes(s.(engine := after), event)
    case GitMoved(gitAfter, event) => Publishes(s.(engine := s.engine.(git := gitAfter)), event)
    case Subscribed => s.(subscribed := true)
    case Ask(ui) => Perform(Remember(s, ui), Enter(s.app, ui))
    case AskCommand(always) => s.(commands := s.commands + [Command(always, false)])
    case CommandActs(i, head) =>
      s.(engine := s.engine.(head := head), commands := s.commands[i := s.commands[i].(acted := true)])
    case WriteActs(gitAfter) => s.(engine := s.engine.(git := gitAfter))
    case Deliver(patched) => Perform(s.(queue := s.queue[1..]), OnIncoming(s.app, s.queue[0], patched))
    case Fire => Perform(s.(timers := s.timers - 1), TimerFired(s.app))
    case ServeConfig(i) => s.(fetches := s.fetches[i := Answered(Snapshot(s.engine))], lost := false)
    case ReplyConfig(i) =>
      Perform(s.(fetches := Without(s.fetches, i)), ApplyConfig(s.app, Ok(s.fetches[i].config)))
    case FailConfig(i, error) =>
      Perform(s.(fetches := Without(s.fetches, i), lost := true, gitLost := true), ApplyConfig(s.app, Err(error)))
    case ServeGit(i) =>
      var ws := s.gitFetches[i].ws;
      s.(gitFetches := s.gitFetches[i := GitAnswered(ws, Status(s.engine, ws))], gitLost := false, gitFailed := false)
    case ReplyGit(i) =>
      var read := s.gitFetches[i];
      Perform(s.(gitFetches := Without(s.gitFetches, i),
                 gitReadFor := if read.ws == s.app.config.head.ws then read.ws else s.gitReadFor),
              GitReplied(s.app, read.ws, Some(read.git)))
    case FailGit(i) =>
      Perform(s.(gitFetches := Without(s.gitFetches, i), gitLost := true, gitFailed := true),
              GitReplied(s.app, s.gitFetches[i].ws, None))
    case ReplyWrite(i, failure) =>
      var w := s.writes[i];
      Perform(s.(writes := Without(s.writes, i),
                 tried := if w.Discard? then s.tried + [(w.path, failure)] else s.tried),
              WriteReplied(s.app, w, failure))
    case ReplyCommand(i, ok) =>
      var c := s.commands[i];
      Perform(s.(commands := Without(s.commands, i)), if c.always || ok then Refresh(s.app) else s.app)
  }

  /** The app has just been made, against any engine. */
  predicate Init(s: System) {
    && !s.subscribed && s.queue == [] && s.app == Fresh().(sent := [])
    && s.fetches == [Asked] && s.gitFetches == [] && s.timers == 0 && s.writes == [] && s.commands == []
    && !s.lost && !s.gitLost && !s.gitFailed && s.gitReadFor == "" && s.asked == [] && s.tried == []
  }

  /** Whether `steps` can be taken one after the other from `s`. */
  predicate CanRun(s: System, steps: seq<Step>)
    decreases |steps|
  {
    steps != [] ==> Enabled(s, steps[0]) && CanRun(After(s, steps[0]), steps[1..])
  }

  function Run(s: System, steps: seq<Step>): System
    requires CanRun(s, steps)
    decreases |steps|
  {
    if steps == [] then s else Run(After(s, steps[0]), steps[1..])
  }

  /** Nothing is on its way. */
  predicate Quiescent(s: System) {
    s.queue == [] && s.fetches == [] && s.gitFetches == [] && s.timers == 0 && s.writes == [] && s.commands == []
  }
}
