/** What the history flags of the system say of the steps of a run. */
module RefreshHistory {
  import opened Wrappers
  import opened AppState
  import opened RefreshProtocol

  datatype Flag = Lost | GitLost | GitFailed

  function Value(flag: Flag, s: System): bool {
    match flag
    case Lost => s.lost
    case GitLost => s.gitLost
    case GitFailed => s.gitFailed
  }

  /** A change the engine announces. */
  predicate Announces(step: Step) {
    step.EntityWrite? || step.Announced? || step.GitMoved?
  }

  /** The step raises the flag: a read fails, or a change goes unheard. */
  predicate Raises(flag: Flag, step: Step, subscribed: bool) {
    match flag
    case Lost => step.FailConfig? || (Announces(step) && !subscribed)
    case GitLost => step.FailConfig? || step.FailGit? || (Announces(step) && !subscribed)
    case GitFailed => step.FailGit?
  }

  /** The step lowers the flag: a read is served. */
  predicate Lowers(flag: Flag, step: Step) {
    if flag.Lost? then step.ServeConfig? else step.ServeGit?
  }

  predicate SubscribedBy(subscribed: bool, steps: seq<Step>) {
    subscribed || Subscribed in steps
  }

  /** The flag is raised at `i`, and at no step after that lowered. */
  predicate RaisedLast(flag: Flag, subscribed: bool, steps: seq<Step>, i: nat)
    requires i < |steps|
  {
    && Raises(flag, steps[i], SubscribedBy(subscribed, steps[..i]))
    && forall j | i < j < |steps| :: !Lowers(flag, steps[j])
  }

  /** Of a run of a fresh app: the flag is up at its end. */
  ghost predicate EndsRaised(flag: Flag, steps: seq<Step>) {
    exists i: nat :: i < |steps| && RaisedLast(flag, false, steps, i)
  }

  // ---- One step ----

  predicate SameHistory(s: System, t: System) {
    t.lost == s.lost && t.gitLost == s.gitLost && t.gitFailed == s.gitFailed && t.subscribed == s.subscribed
  }

  lemma {:induction false} LaunchKeepsHistory(s: System, sent: seq<Effect>)
    ensures SameHistory(s, LaunchAll(s, sent))
    decreases |sent|
  {
    if sent != [] {
      LaunchKeepsHistory(s, sent[..|sent| - 1]);
    }
  }

  lemma PerformKeepsHistory(s: System, a: App)
    ensures SameHistory(s, Perform(s, a))
  {
    LaunchKeepsHistory(s.(app := a.(sent := [])), a.sent);
  }

  lemma OwnStepKeepsHistory(s: System, step: Step)
    requires Enabled(s, step) && (step.Ask? || step.Deliver? || step.Fire? || step.ReplyConfig?)
    ensures SameHistory(s, After(s, step))
  {
    match step
    case Ask(ui) => PerformKeepsHistory(Remember(s, ui), Enter(s.app, ui));
    case Deliver(patched) => PerformKeepsHistory(s.(queue := s.queue[1..]), OnIncoming(s.app, s.queue[0], patched));
    case Fire => PerformKeepsHistory(s.(timers := s.timers - 1), TimerFired(s.app));
    case ReplyConfig(i) =>
      PerformKeepsHistory(s.(fetches := Without(s.fetches, i)), ApplyConfig(s.app, Ok(s.fetches[i].config)));
  }

  lemma AnswerKeepsHistory(s: System, step: Step)
    requires Enabled(s, step) && (step.ReplyGit? || step.ReplyWrite? || step.ReplyCommand?)
    ensures SameHistory(s, After(s, step))
  {
    match step
    case ReplyGit(i) =>
      var read := s.gitFetches[i];
      PerformKeepsHistory(s.(gitFetches := Without(s.gitFetches, i),
                             gitReadFor := if read.ws == s.app.config.head.ws then read.ws else s.gitReadFor),
                          GitReplied(s.app, read.ws, Some(read.git)));
    case ReplyWrite(i, failure) =>
      var w := s.writes[i];
      PerformKeepsHistory(s.(writes := Without(s.writes, i),
                             tried := if w.Discard? then s.tried + [(w.path, failure)] else s.tried),
                          WriteReplied(s.app, w, failure));
    case ReplyCommand(i, ok) =>
      PerformKeepsHistory(s.(commands := Without(s.commands, i)),
                          if s.commands[i].always || ok then Refresh(s.app) else s.app);
  }

  lemma FailureInHistory(s: System, step: Step)
    requires Enabled(s, step) && (step.FailConfig? || step.FailGit?)
    ensures var t := After(s, step);
            && t.subscribed == s.subscribed && t.gitLost
            && (if step.FailConfig? then t.lost && t.gitFailed == s.gitFailed else t.lost == s.lost && t.gitFailed)
  {
    match step
    case FailConfig(i, error) =>
      PerformKeepsHistory(s.(fetches := Without(s.fetches, i), lost := true, gitLost := true),
                          ApplyConfig(s.app, Err(error)));
    case FailGit(i) =>
      PerformKeepsHistory(s.(gitFetches := Without(s.gitFetches, i), gitLost := true, gitFailed := true),
                          GitReplied(s.app, s.gitFetches[i].ws, None));
  }

  lemma StepInHistory(flag: Flag, s: System, step: Step)
    requires Enabled(s, step)
    ensures After(s, step).subscribed == (s.subscribed || step == Subscribed)
    ensures Value(flag, After(s, step))
         == (Raises(flag, step, s.subscribed) || (Value(flag, s) && !Lowers(flag, step)))
  {
    if step.FailConfig? || step.FailGit? {
      FailureInHistory(s, step);
    } else if step.Ask? || step.Deliver? || step.Fire? || step.ReplyConfig? {
      OwnStepKeepsHistory(s, step);
    } else if step.ReplyGit? || step.ReplyWrite? || step.ReplyCommand? {
      AnswerKeepsHistory(s, step);
    } else if Announces(step) {
      AnnouncementInHistory(s, step);
    }
  }

  lemma AnnouncementInHistory(s: System, step: Step)
    requires Enabled(s, step) && Announces(step)
    ensures var t := After(s, step);
            && t.subscribed == s.subscribed && t.gitFailed == s.gitFailed
            && t.lost == (s.lost || !s.subscribed) && t.gitLost == (s.gitLost || !s.subscribed)
  {
  }

  // ---- A run ----

  /** After any run, the flag is up exactly when it was and no step lowered it, or some step raised it and none after
      that lowered it. */
  lemma {:induction false} FlagIs(flag: Flag, s: System, steps: seq<Step>)
    requires CanRun(s, steps)
    ensures Run(s, steps).subscribed == SubscribedBy(s.subscribed, steps)
    ensures Value(flag, Run(s, steps)) <==>
            || (Value(flag, s) && forall j | 0 <= j < |steps| :: !Lowers(flag, steps[j]))
            || exists i: nat :: i < |steps| && RaisedLast(flag, s.subscribed, steps, i)
    decreases |steps|
  {
    if steps != [] {
      var t, rest := After(s, steps[0]), steps[1..];
      StepInHistory(flag, s, steps[0]);
      FlagIs(flag, t, rest);
      assert steps == [steps[0]] + rest;
      forall i: nat | i < |rest|
        ensures RaisedLast(flag, t.subscribed, rest, i) <==> RaisedLast(flag, s.subscribed, steps, i + 1)
      {
        ShiftRaised(flag, s.subscribed, steps, i);
      }
      FirstOrLater(flag, s.subscribed, t.subscribed, steps);
    }
  }

  lemma ShiftRaised(flag: Flag, subscribed: bool, steps: seq<Step>, i: nat)
    requires steps != [] && i < |steps| - 1
    ensures RaisedLast(flag, subscribed || steps[0] == Subscribed, steps[1..], i)
        <==> RaisedLast(flag, subscribed, steps, i + 1)
  {
    var rest := steps[1..];
    assert steps[..i + 1] == [steps[0]] + rest[..i];
    assert forall j | i < j < |rest| :: rest[j] == steps[j + 1];
    assert forall j | i + 1 < j < |steps| :: steps[j] == rest[j - 1];
  }

  /** The step that raised the flag last is the first, or one of the rest. */
  lemma FirstOrLater(flag: Flag, subscribed: bool, after: bool, steps: seq<Step>)
    requires steps != []
    requires forall i: nat | i < |steps[1..]| ::
      RaisedLast(flag, after, steps[1..], i) <==> RaisedLast(flag, subscribed, steps, i + 1)
    ensures (exists i: nat :: i < |steps| && RaisedLast(flag, subscribed, steps, i)) <==>
            || (Raises(flag, steps[0], subscribed) && forall j | 0 <= j < |steps[1..]| :: !Lowers(flag, steps[1..][j]))
            || exists i: nat :: i < |steps[1..]| && RaisedLast(flag, after, steps[1..], i)
  {
    var rest := steps[1..];
    assert steps[..0] == [];
    assert forall j | 0 <= j < |rest| :: rest[j] == steps[j + 1];
    assert RaisedLast(flag, subscribed, steps, 0) <==>
      Raises(flag, steps[0], subscribed) && forall j | 0 <= j < |rest| :: !Lowers(flag, rest[j]);
    if i: nat :| i < |steps| && RaisedLast(flag, subscribed, steps, i) {
      if i > 0 {
        assert RaisedLast(flag, after, rest, i - 1);
      }
    }
  }

  /** In every run of a fresh app the flag is up at the end exactly when a step raises it that no lowering follows:
      `lost` when a `config.get` fails, or a change is announced before the subscription, and no read of the snapshot is
      served after that. */
  lemma HistoryIs(flag: Flag, s: System, steps: seq<Step>)
    requires Init(s) && CanRun(s, steps)
    ensures Value(flag, Run(s, steps)) <==> EndsRaised(flag, steps)
    ensures Run(s, steps).subscribed <==> Subscribed in steps
  {
    FlagIs(flag, s, steps);
  }

  /** A run without a failed `config.get`, in which one is served after the subscription, ends with nothing lost. */
  lemma ServedAfterSubscribing(steps: seq<Step>, i: nat, j: nat)
    requires forall k | 0 <= k < |steps| :: !steps[k].FailConfig?
    requires i < j < |steps| && steps[i] == Subscribed && steps[j].ServeConfig?
    ensures !EndsRaised(Lost, steps)
  {
    forall k: nat | k < |steps| ensures !RaisedLast(Lost, false, steps, k) {
      if i < k {
        assert steps[..k][i] == Subscribed;
      } else {
        assert Lowers(Lost, steps[j]);
      }
    }
  }
}
