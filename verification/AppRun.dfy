/** The model object, driven along a run of the system: its fields are always those of the system's app. */
module AppRun {
  import opened Wrappers
  import opened AppState
  import opened RefreshProtocol
  import opened StepEffects
  import opened RefreshHistory
  import opened RefreshTheorems
  import AppModel

  /** The steps that run one of the model's methods. */
  predicate Handles(step: Step) {
    step.Ask? || step.Deliver? || step.Fire? || step.ReplyConfig? || step.FailConfig? || step.ReplyGit? || step.FailGit?
    || step.ReplyWrite? || step.ReplyCommand?
  }

  /** The system as such a step leaves it to the method: what it answers is no longer on its way. */
  function Taken(s: System, step: Step): System
    requires Enabled(s, step)
  {
    match step
    case Ask(ui) => Remember(s, ui)
    case Deliver(_) => s.(queue := s.queue[1..])
    case Fire => s.(timers := s.timers - 1)
    case ReplyConfig(i) => s.(fetches := Without(s.fetches, i))
    case FailConfig(i, _) => s.(fetches := Without(s.fetches, i), lost := true, gitLost := true)
    case ReplyGit(i) =>
      var read := s.gitFetches[i];
      s.(gitFetches := Without(s.gitFetches, i),
         gitReadFor := if read.ws == s.app.config.head.ws then read.ws else s.gitReadFor)
    case FailGit(i) => s.(gitFetches := Without(s.gitFetches, i), gitLost := true, gitFailed := true)
    case ReplyWrite(i, failure) =>
      var w := s.writes[i];
      s.(writes := Without(s.writes, i), tried := if w.Discard? then s.tried + [(w.path, failure)] else s.tried)
    case ReplyCommand(i, _) => s.(commands := Without(s.commands, i))
    case _ => s
  }

  /** What a person asks for, as the method that does it. */
  method Enter(m: AppModel.Model, ui: Ui)
    modifies m
    ensures m.View() == RefreshProtocol.Enter(old(m.View()), ui)
  {
    match ui {
      case UiRefresh => m.Refresh();
      case UiRefreshGit => m.RefreshGit();
      case UiPublish(paths) => m.Publish(paths);
      case UiSyncWithMessage(scope, message) => m.SyncWithMessage(scope, message);
      case UiSyncAll => m.SyncAll();
      case UiSyncEntity(id) => m.SyncEntity(id);
      case UiRevertEntity(id) => m.RevertEntity(id);
      case UiResolveDelete(target, revert) => m.ResolveDelete(target, revert);
      case UiRevertPaths(paths) => m.RevertPaths(paths);
    }
  }

  /** The app a method leaves behind, with what it has sent. */
  function Handled(s: System, step: Step): App
    requires Enabled(s, step)
  {
    match step
    case Ask(ui) => RefreshProtocol.Enter(s.app, ui)
    case Deliver(patched) => OnIncoming(s.app, s.queue[0], patched)
    case Fire => TimerFired(s.app)
    case ReplyConfig(i) => ApplyConfig(s.app, Ok(s.fetches[i].config))
    case FailConfig(_, error) => ApplyConfig(s.app, Err(error))
    case ReplyGit(i) => GitReplied(s.app, s.gitFetches[i].ws, Some(s.gitFetches[i].git))
    case FailGit(i) => GitReplied(s.app, s.gitFetches[i].ws, None)
    case ReplyWrite(i, failure) => WriteReplied(s.app, s.writes[i], failure)
    case ReplyCommand(i, ok) => if s.commands[i].always || ok then Refresh(s.app) else s.app
    case _ => s.app
  }

  lemma AfterPerforms(s: System, step: Step)
    requires Enabled(s, step) && Handles(step)
    ensures After(s, step) == Perform(Taken(s, step), Handled(s, step))
  {
  }

  method Handle(m: AppModel.Model, s: System, step: Step)
    requires Enabled(s, step) && m.View() == s.app
    modifies m
    ensures m.View() == Handled(s, step)
  {
    match step {
      case Ask(ui) => Enter(m, ui);
      case Deliver(patched) => m.OnIncoming(s.queue[0], patched);
      case Fire => m.TimerFired();
      case ReplyConfig(i) => m.ApplyConfig(Ok(s.fetches[i].config));
      case FailConfig(_, error) => m.ApplyConfig(Err(error));
      case ReplyGit(i) => m.GitReplied(s.gitFetches[i].ws, Some(s.gitFetches[i].git));
      case FailGit(i) => m.GitReplied(s.gitFetches[i].ws, None);
      case ReplyWrite(i, failure) => m.WriteReplied(s.writes[i], failure);
      case ReplyCommand(i, ok) =>
        if s.commands[i].always || ok {
          m.Refresh();
        }
      case _ =>
    }
  }

  lemma OtherStepsLeaveTheApp(s: System, step: Step)
    requires Enabled(s, step) && !Handles(step)
    ensures After(s, step).app == s.app && Handled(s, step) == s.app
  {
  }

  /** One step of the system, done by the object: the method runs, what it sends is handed over, and the object is the
      system's app; launching what was handed over gives the rest of the system. */
  method Step(m: AppModel.Model, s: System, step: RefreshProtocol.Step) returns (sent: seq<Effect>)
    requires Enabled(s, step) && m.View() == s.app && s.app.sent == []
    modifies m
    ensures m.View() == After(s, step).app && m.sent == []
    ensures Handles(step) ==> After(s, step) == LaunchAll(Taken(s, step), sent).(app := m.View())
    ensures !Handles(step) ==> sent == []
  {
    Handle(m, s, step);
    sent := m.sent;
    m.sent := [];
    if Handles(step) {
      AfterLaunches(s, step);
    } else {
      OtherStepsLeaveTheApp(s, step);
    }
  }

  lemma AfterLaunches(s: System, step: RefreshProtocol.Step)
    requires Enabled(s, step) && Handles(step)
    ensures var a := Handled(s, step);
            && After(s, step).app == a.(sent := [])
            && After(s, step) == LaunchAll(Taken(s, step), a.sent).(app := a.(sent := []))
  {
    AfterPerforms(s, step);
    PerformIs(Taken(s, step), Handled(s, step));
  }

  /** A fresh object, driven along any run: at its end its fields are those of the system's app. */
  method Drive(s: System, steps: seq<RefreshProtocol.Step>) returns (m: AppModel.Model)
    requires Init(s) && CanRun(s, steps)
    ensures fresh(m) && m.View() == Run(s, steps).app
    ensures Quiescent(Run(s, steps)) && !EndsRaised(Lost, steps) ==> m.config == Snapshot(Run(s, steps).engine)
  {
    m := new AppModel.Model();
    m.sent := [];
    var t, i := s, 0;
    while i < |steps|
      invariant 0 <= i <= |steps| && fresh(m)
      invariant CanRun(t, steps[i..]) && Run(t, steps[i..]) == Run(s, steps)
      invariant m.View() == t.app && t.app.sent == []
    {
      var rest := steps[i..];
      assert rest[0] == steps[i] && rest[1..] == steps[i + 1..];
      var _ := Step(m, t, steps[i]);
      t, i := After(t, steps[i]), i + 1;
    }
    assert steps[i..] == [];
    if Quiescent(t) {
      Converges(s, steps);
    }
  }
}
