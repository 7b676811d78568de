/** In every interleaving a logout cuts off the token exchanges begun before it; what each still may write, exactly. */
module AuthSafety {
  import opened Options
  import opened LogoutBarrier
  import opened AuthProtocol
  import opened AuthRuns
  import opened AuthFlags

  // ---- A logout cuts off the token exchanges begun before it ----

  /** No logout has begun since the event. */
  ghost predicate NoLogoutSince(log: seq<Event>, e: Event) {
    forall i, j | 0 <= i < j < |log| && log[i] == e :: !log[j].LogoutBegan?
  }

  /** The event at c is the run's check, and no logout had begun between the run's start and it. */
  ghost predicate CheckedAt(log: seq<Event>, c: int, run: nat) {
    0 <= c < |log| && log[c] == ApiChecked(run)
    && forall i, j | 0 <= i < j < c && log[i] == ApiStarted(run) :: !log[j].LogoutBegan?
  }

  /** Among the first n events is such a check. */
  ghost predicate CheckedInTime(log: seq<Event>, n: nat, run: nat) {
    exists c | 0 <= c < n :: CheckedAt(log, c, run)
  }

  /** Writes by init's exchanges never follow a logout begun after the exchange started. */
  ghost predicate EnsureWritesCutOff(log: seq<Event>) {
    forall i, j, k | 0 <= i < j < k < |log| && log[j].LogoutBegan? && log[i].EnsureStarted?
      :: log[k] != EnsureWrote(log[i].run)
  }

  /** An API exchange writes only after a check made before any logout that followed its start. */
  ghost predicate ApiWritesChecked(log: seq<Event>) {
    forall k | 0 <= k < |log| && log[k].ApiWrote? :: CheckedInTime(log, k, log[k].run)
  }

  predicate InEnsure(c: Call) {
    c.Init? && (c.at.ProviderToken? || c.at.Exchange? || c.at.ExchangeBody?)
  }

  predicate InFetch(c: Call) {
    c.Api? && c.api.Fetch?
  }

  /** A run started in that epoch, which lasts exactly while no logout has begun since. */
  ghost predicate StartKnown(s: State, start: Event, epoch: nat)
    requires start.EnsureStarted? || start.ApiStarted?
  {
    && start in s.log && start.run < s.runs && epoch <= s.barrier.epoch
    && (epoch == s.barrier.epoch <==> NoLogoutSince(s.log, start))
  }

  ghost predicate CallKnowsEpoch(c: Call, s: State) {
    && (InEnsure(c) ==> StartKnown(s, EnsureStarted(c.at.run), c.at.epochAtStart))
    && (InFetch(c) ==> StartKnown(s, ApiStarted(c.api.run), c.api.epochAtStart))
    && (c.Api? ==> c.api.run < s.runs)
    && (c.Api? && c.api.FetchBody? ==> CheckedInTime(s.log, |s.log|, c.api.run))
  }

  ghost predicate RunsAreFresh(s: State) {
    forall i | 0 <= i < |s.log| ::
      (s.log[i].EnsureStarted? ==> s.log[i].run < s.runs) && (s.log[i].ApiStarted? ==> s.log[i].run < s.runs)
  }

  ghost predicate CutOff(s: State) {
    && (forall k | 0 <= k < |s.calls| :: CallKnowsEpoch(s.calls[k], s))
    && RunsAreFresh(s)
    && EnsureWritesCutOff(s.log)
    && ApiWritesChecked(s.log)
  }

  lemma CheckedInTimeGrows(log: seq<Event>, more: seq<Event>, n: nat, m: nat, run: nat)
    requires CheckedInTime(log, n, run) && n <= m
    ensures CheckedInTime(log + more, m, run)
  {
    var c :| 0 <= c < n && CheckedAt(log, c, run);
    assert CheckedAt(log + more, c, run);
  }

  /** One more event keeps every promise already made, given what that event itself must satisfy. */
  lemma LogGrows(s: State, t: State, e: Event)
    requires CutOff(s) && t.log == s.log + [e] && s.runs <= t.runs
    requires e.EnsureStarted? || e.ApiStarted? ==> e.run == s.runs < t.runs
    requires e.EnsureWrote? ==> NoLogoutSince(s.log, EnsureStarted(e.run))
    requires e.ApiWrote? ==> CheckedInTime(s.log, |s.log|, e.run)
    ensures RunsAreFresh(t) && EnsureWritesCutOff(t.log) && ApiWritesChecked(t.log)
  {
    forall k | 0 <= k < |t.log| && t.log[k].ApiWrote?
      ensures CheckedInTime(t.log, k, t.log[k].run)
    {
      CheckedInTimeGrows(s.log, [e], k, k, t.log[k].run);
    }
  }

  lemma StartStaysKnown(s: State, t: State, e: Event, start: Event, epoch: nat)
    requires start.EnsureStarted? || start.ApiStarted?
    requires StartKnown(s, start, epoch) && t.log == s.log + [e] && s.runs <= t.runs
    requires e != start
    requires if e.LogoutBegan? then t.barrier.epoch == s.barrier.epoch + 1 else t.barrier.epoch == s.barrier.epoch
    ensures StartKnown(t, start, epoch)
  {
    var i :| 0 <= i < |s.log| && s.log[i] == start;
    assert t.log[i] == start;
    if e.LogoutBegan? {
      assert t.log[|s.log|].LogoutBegan?;
    } else if !NoLogoutSince(s.log, start) {
      var j, k :| 0 <= j < k < |s.log| && s.log[j] == start && s.log[k].LogoutBegan?;
      assert t.log[j] == start && t.log[k].LogoutBegan?;
    }
  }

  lemma StartIsFresh(s: State, start: Event, epoch: nat)
    requires (start.EnsureStarted? || start.ApiStarted?) && StartKnown(s, start, epoch)
    ensures start.run < s.runs
  {
  }

  /** A waiting call still knows its epoch after one more event that is no start of an earlier run. */
  lemma CallKeepsEpoch(c: Call, s: State, t: State, e: Event)
    requires CallKnowsEpoch(c, s) && RunsAreFresh(s) && t.log == s.log + [e] && s.runs <= t.runs
    requires e.EnsureStarted? || e.ApiStarted? ==> e.run == s.runs
    requires if e.LogoutBegan? then t.barrier.epoch == s.barrier.epoch + 1 else t.barrier.epoch == s.barrier.epoch
    ensures CallKnowsEpoch(c, t)
  {
    hide NoLogoutSince, CheckedInTime, StartKnown, RunsAreFresh;
    if InEnsure(c) {
      StartIsFresh(s, EnsureStarted(c.at.run), c.at.epochAtStart);
      StartStaysKnown(s, t, e, EnsureStarted(c.at.run), c.at.epochAtStart);
    } else if InFetch(c) {
      StartIsFresh(s, ApiStarted(c.api.run), c.api.epochAtStart);
      StartStaysKnown(s, t, e, ApiStarted(c.api.run), c.api.epochAtStart);
    } else if c.Api? && c.api.FetchBody? {
      CheckedInTimeGrows(s.log, [e], |s.log|, |t.log|, c.api.run);
    }
  }

  lemma QuietStepKeepsCutOff(s: State, t: State)
    requires CutOff(s) && t.log == s.log && t.runs == s.runs && t.barrier.epoch == s.barrier.epoch
    requires forall k | 0 <= k < |t.calls| :: CallKnowsEpoch(t.calls[k], s)
    ensures CutOff(t)
  {
  }

  lemma LoudStepKeepsCutOff(s: State, t: State, e: Event)
    requires CutOff(s) && t.log == s.log + [e] && s.runs <= t.runs
    requires if e.LogoutBegan? then t.barrier.epoch == s.barrier.epoch + 1 else t.barrier.epoch == s.barrier.epoch
    requires e.EnsureStarted? || e.ApiStarted? ==> e.run == s.runs < t.runs
    requires e.EnsureWrote? ==> NoLogoutSince(s.log, EnsureStarted(e.run))
    requires e.ApiWrote? ==> CheckedInTime(s.log, |s.log|, e.run)
    requires forall k | 0 <= k < |t.calls| :: CallKnowsEpoch(t.calls[k], s) || CallKnowsEpoch(t.calls[k], t)
    ensures CutOff(t)
  {
    LogGrows(s, t, e);
    forall k | 0 <= k < |t.calls|
      ensures CallKnowsEpoch(t.calls[k], t)
    {
      if CallKnowsEpoch(t.calls[k], s) {
        CallKeepsEpoch(t.calls[k], s, t, e);
      }
    }
  }

  lemma BeginAttemptKeepsCutOff(s: State, k: nat, c: Call, storage: Storage)
    requires CutOff(s) && k < |s.calls| && c.Init?
    ensures CutOff(BeginAttempt(s, k, c, storage))
  {
    var t := BeginAttempt(s, k, c, storage);
    if t.log == s.log {
      QuietStepKeepsCutOff(s, t);
    } else {
      assert t.log[|s.log|] == EnsureStarted(s.runs) && NoLogoutSince(t.log, EnsureStarted(s.runs));
      LoudStepKeepsCutOff(s, t, EnsureStarted(s.runs));
    }
  }

  lemma ResumeEnsureKeepsCutOff(s: State, k: nat, reply: Reply, storage: Storage)
    requires CutOff(s) && k < |s.calls| && InEnsure(s.calls[k])
    ensures CutOff(ResumeEnsure(s, k, s.calls[k], reply, storage))
  {
    var t := ResumeEnsure(s, k, s.calls[k], reply, storage);
    if t.log == s.log {
      QuietStepKeepsCutOff(s, t);
    } else {
      LoudStepKeepsCutOff(s, t, EnsureWrote(s.calls[k].at.run));
    }
  }

  lemma ResumeMeKeepsCutOff(s: State, k: nat, reply: Reply, storage: Storage)
    requires CutOff(s) && k < |s.calls| && s.calls[k].Init?
    requires s.calls[k].at.AfterEnsure? || s.calls[k].at.Me? || s.calls[k].at.MeBody?
    ensures CutOff(ResumeMe(s, k, s.calls[k], reply, storage))
  {
    var t := ResumeMe(s, k, s.calls[k], reply, storage);
    if t.log == s.log {
      QuietStepKeepsCutOff(s, t);
    } else {
      LoudStepKeepsCutOff(s, t, MeWrote(k));
    }
  }

  lemma SettleInitKeepsCutOff(s: State, k: nat, storage: Storage)
    requires CutOff(s) && k < |s.calls| && s.calls[k].Init? && s.calls[k].at.Settled?
    ensures CutOff(SettleInit(s, k, s.calls[k], storage))
  {
    var t := SettleInit(s, k, s.calls[k], storage);
    if t.log == s.log {
      QuietStepKeepsCutOff(s, t);
    } else {
      LoudStepKeepsCutOff(s, t, BecameAuthenticated);
    }
  }

  lemma ResumeInitKeepsCutOff(s: State, k: nat, reply: Reply, storage: Storage)
    requires CutOff(s) && k < |s.calls| && s.calls[k].Init?
    ensures CutOff(ResumeInit(s, k, s.calls[k], reply, storage))
  {
    var c := s.calls[k];
    if InEnsure(c) {
      ResumeEnsureKeepsCutOff(s, k, reply, storage);
    } else if c.at.Backoff? {
      BeginAttemptKeepsCutOff(s, k, c.(attempt := c.attempt + 1), storage);
    } else if c.at.Settled? {
      SettleInitKeepsCutOff(s, k, storage);
    } else if c.at.Caught? {
      QuietStepKeepsCutOff(s, CatchInit(s, k, c, storage));
    } else if !c.at.Over? {
      ResumeMeKeepsCutOff(s, k, reply, storage);
    }
  }

  lemma ResumeApiKeepsCutOff(s: State, k: nat, reply: Reply, storage: Storage)
    requires CutOff(s) && k < |s.calls| && s.calls[k].Api?
    ensures CutOff(ResumeApi(s, k, s.calls[k], reply, storage))
  {
    var c := s.calls[k];
    var t := ResumeApi(s, k, c, reply, storage);
    if t.log == s.log {
      QuietStepKeepsCutOff(s, t);
    } else if c.api.Fetch? {
      assert CheckedAt(t.log, |s.log|, c.api.run);
      LoudStepKeepsCutOff(s, t, ApiChecked(c.api.run));
    } else {
      LoudStepKeepsCutOff(s, t, ApiWrote(c.api.run));
    }
  }

  lemma NoRunNothingToKnow(c: Call, s: State)
    requires !InEnsure(c) && !c.Api?
    ensures CallKnowsEpoch(c, s)
  {
  }

  /** A step of a call that carries no exchange, before or after, and logs nothing that speaks of one. */
  lemma PlainStepKeepsCutOff(s: State, t: State, k: nat)
    requires CutOff(s) && k < |s.calls| == |t.calls| && t.calls == s.calls[k := t.calls[k]]
    requires !InEnsure(t.calls[k]) && !t.calls[k].Api? && t.runs == s.runs && t.barrier.epoch == s.barrier.epoch
    requires t.log == s.log || t.log == s.log + [LoginSucceeded] || t.log == s.log + [BecameAuthenticated]
    ensures CutOff(t)
  {
    hide EnsureWritesCutOff, ApiWritesChecked, RunsAreFresh, CallKnowsEpoch, NoLogoutSince, CheckedInTime;
    NoRunNothingToKnow(t.calls[k], s);
    assert forall i | 0 <= i < |t.calls| :: CallKnowsEpoch(t.calls[i], s);
    if t.log == s.log {
      QuietStepKeepsCutOff(s, t);
    } else {
      LoudStepKeepsCutOff(s, t, t.log[|s.log|]);
    }
  }

  lemma ResumeLoginKeepsCutOff(s: State, k: nat, reply: Reply, storage: Storage)
    requires CutOff(s) && k < |s.calls| && s.calls[k].Login?
    ensures CutOff(ResumeLogin(s, k, s.calls[k], reply, storage))
  {
    hide CutOff, InEnsure;
    var t := ResumeLogin(s, k, s.calls[k], reply, storage);
    LoginLeavesPlainCall(s, k, reply, storage);
    PlainStepKeepsCutOff(s, t, k);
  }

  lemma LoginLeavesPlainCall(s: State, k: nat, reply: Reply, storage: Storage)
    requires k < |s.calls| && s.calls[k].Login?
    ensures var t := ResumeLogin(s, k, s.calls[k], reply, storage);
            |t.calls| == |s.calls| && t.calls == s.calls[k := t.calls[k]] && !InEnsure(t.calls[k]) && !t.calls[k].Api?
  {
    hide ResumeLogin;
    LoginStaysLogin(s, k, reply, storage);
    if PastSuccess(s.calls[k]) {
      LateLoginTouchesOne(s, k, reply, storage);
    } else if s.calls[k].login.Accepted? {
      AcceptedTouchesOne(s, k, reply, storage);
    } else {
      EarlyLoginTouchesOne(s, k, reply, storage);
    }
  }

  lemma LoginStaysLogin(s: State, k: nat, reply: Reply, storage: Storage)
    requires k < |s.calls| && s.calls[k].Login?
    ensures var t := ResumeLogin(s, k, s.calls[k], reply, storage);
            k < |t.calls| && (t.calls[k].Login? || t.calls[k].Done?)
  {
  }

  lemma StartApiKeepsCutOff(s: State, storage: Storage)
    requires CutOff(s)
    ensures CutOff(Step(s, StartApi(storage)))
  {
    var t := Step(s, StartApi(storage));
    if t.log != s.log {
      assert t.log[|s.log|] == ApiStarted(s.runs) && NoLogoutSince(t.log, ApiStarted(s.runs));
      LoudStepKeepsCutOff(s, t, ApiStarted(s.runs));
    }
  }

  lemma StepKeepsCutOff(s: State, a: Action)
    requires CutOff(s)
    ensures CutOff(Step(s, a))
  {
    match a
    case StartInit(storage) =>
      LoudStepKeepsCutOff(s, NewInit(s), InitStarted(|s.calls|));
      BeginAttemptKeepsCutOff(NewInit(s), |s.calls|, Init(0, false, Over), storage);
    case Unmount(_) => QuietStepKeepsCutOff(s, Step(s, a));
    case StartApi(storage) => StartApiKeepsCutOff(s, storage);
    case StartLogin(_) => QuietStepKeepsCutOff(s, Step(s, a));
    case StartLogout(_) => LoudStepKeepsCutOff(s, Step(s, a), LogoutBegan);
    case Resume(k, reply, storage) =>
      if k < |s.calls| {
        match s.calls[k]
        case Init(_, _, _) => ResumeInitKeepsCutOff(s, k, reply, storage);
        case Api(_) => ResumeApiKeepsCutOff(s, k, reply, storage);
        case Login(_, _) => ResumeLoginKeepsCutOff(s, k, reply, storage);
        case Logout(_) => QuietStepKeepsCutOff(s, Step(s, a));
        case _ =>
      }
  }

  lemma {:induction false} RunsAreCutOff(actions: seq<Action>)
    ensures CutOff(Run(actions))
  {
    if actions == [] {
    } else {
      hide Step, CutOff;
      RunsAreCutOff(actions[..|actions| - 1]);
      StepKeepsCutOff(Run(actions[..|actions| - 1]), actions[|actions| - 1]);
    }
  }

  /**
    In every run, an exchange that init began before a logout never writes a bearer after that logout
    began, whatever storage does and whether or not a login follows.
  */
  lemma EnsureNeverWritesPastLogout(actions: seq<Action>, i: nat, j: nat, k: nat)
    requires i < j < k < |Run(actions).log|
    requires Run(actions).log[i].EnsureStarted? && Run(actions).log[j].LogoutBegan?
    ensures Run(actions).log[k] != EnsureWrote(Run(actions).log[i].run)
  {
    RunsAreCutOff(actions);
  }

  /** The run passed its check before the event at j. */
  ghost predicate CheckedBefore(log: seq<Event>, j: int, run: nat) {
    exists c | 0 <= c < j && c < |log| :: log[c] == ApiChecked(run)
  }

  ghost predicate LateWritesWereChecked(log: seq<Event>) {
    forall i, j, k | 0 <= i < j < k < |log| && log[i].ApiStarted? && log[j].LogoutBegan?
                         && log[k] == ApiWrote(log[i].run)
      :: CheckedBefore(log, j, log[i].run)
  }

  /**
    The API exchange is weaker: it can write a bearer after a logout began, but only when it had
    passed its own check before that logout.
  */
  lemma ApiWritesPastLogoutOnlyIfChecked(actions: seq<Action>)
    ensures LateWritesWereChecked(Run(actions).log)
  {
    hide Run, Step;
    RunsAreCutOff(actions);
    var log := Run(actions).log;
    forall i, j, k | 0 <= i < j < k < |log| && log[i].ApiStarted? && log[j].LogoutBegan?
                         && log[k] == ApiWrote(log[i].run)
      ensures CheckedBefore(log, j, log[i].run)
    {
      assert CheckedInTime(log, k, log[i].run);
      var c :| 0 <= c < k && CheckedAt(log, c, log[i].run);
    }
  }

  /** A call still carries the run: an exchange of init, or of an API request. */
  predicate Carries(c: Call, start: Event, epoch: nat) {
    (InEnsure(c) && start == EnsureStarted(c.at.run) && epoch == c.at.epochAtStart)
    || (InFetch(c) && start == ApiStarted(c.api.run) && epoch == c.api.epochAtStart)
  }

  ghost predicate LogoutSince(log: seq<Event>, start: Event) {
    exists i, j | 0 <= i < j < |log| :: log[i] == start && log[j].LogoutBegan?
  }

  /** In every run, a waiting exchange's epoch is stale exactly when a logout has begun since the exchange did. */
  lemma StaleExactlyAfterLogout(actions: seq<Action>, k: nat, start: Event, epoch: nat)
    requires k < |Run(actions).calls| && Carries(Run(actions).calls[k], start, epoch)
    ensures Run(actions).barrier.IsStale(epoch) <==> LogoutSince(Run(actions).log, start)
  {
    hide Run, Step;
    RunsAreCutOff(actions);
    var s := Run(actions);
    assert CallKnowsEpoch(s.calls[k], s);
    assert NoLogoutSince(s.log, start) <==> !LogoutSince(s.log, start);
  }

  // ---- Which API exchanges can still write ----

  /** The API exchange of that run will not write any more, whatever happens. */
  ghost predicate CannotWrite(s: State, run: nat) {
    && run < s.runs
    && forall k | 0 <= k < |s.calls| && s.calls[k].Api? ::
         (s.calls[k].api.FetchBody? ==> s.calls[k].api.run != run)
         && (s.calls[k].api.Fetch? && s.calls[k].api.run == run ==> s.calls[k].api.epochAtStart < s.barrier.epoch)
  }

  /** A step in which each call is as before, is new and no API call, or was none and is none. */
  lemma OtherStepCannotWrite(s: State, t: State, run: nat)
    requires CannotWrite(s, run) && s.runs <= t.runs && s.barrier.epoch <= t.barrier.epoch
    requires forall k | 0 <= k < |t.calls| && t.calls[k].Api? :: k < |s.calls| && t.calls[k] == s.calls[k]
    ensures CannotWrite(t, run)
  {
  }

  lemma ApiStepCannotWrite(s: State, k: nat, reply: Reply, storage: Storage, run: nat)
    requires CannotWrite(s, run) && k < |s.calls| && s.calls[k].Api?
    ensures var t := ResumeApi(s, k, s.calls[k], reply, storage);
            CannotWrite(t, run) && ApiWrote(run) !in Added(s, t)
  {
  }

  lemma StartApiCannotWrite(s: State, storage: Storage, run: nat)
    requires CannotWrite(s, run)
    ensures CannotWrite(Step(s, StartApi(storage)), run)
  {
    var t := Step(s, StartApi(storage));
    assert forall k | 0 <= k < |s.calls| :: t.calls[k] == s.calls[k];
  }

  lemma ResumeCannotWrite(s: State, k: nat, reply: Reply, storage: Storage, run: nat)
    requires CannotWrite(s, run) && k < |s.calls| && !s.calls[k].Api?
    ensures CannotWrite(Step(s, Resume(k, reply, storage)), run)
  {
    hide CannotWrite, ResumeInit, ResumeApi, ResumeLogin;
    var t := Step(s, Resume(k, reply, storage));
    if !s.calls[k].Logout? {
      ResumeTouchesOne(s, k, reply, storage);
    }
    assert forall i | 0 <= i < |s.calls| && i != k :: t.calls[i] == s.calls[i];
    OtherStepCannotWrite(s, t, run);
  }

  lemma StartOrUnmountCannotWrite(s: State, a: Action, run: nat)
    requires CannotWrite(s, run) && !a.StartApi? && !a.Resume?
    ensures CannotWrite(Step(s, a), run)
  {
    hide CannotWrite;
    OtherStepCannotWrite(s, Step(s, a), run);
  }

  lemma OnlyApiStepsWrite(s: State, a: Action, run: nat)
    requires a.Resume? && a.call < |s.calls| ==> !s.calls[a.call].Api?
    ensures ApiWrote(run) !in Added(s, Step(s, a))
  {
    hide ResumeInit, ResumeApi, ResumeLogin, BeginAttempt, BeginLogoutCall;
    if !a.Resume? {
      StartAddsToLog(s, a);
    } else if a.call < |s.calls| && !s.calls[a.call].Logout? {
      ResumeTouchesOne(s, a.call, a.reply, a.storage);
    }
  }

  lemma StepCannotWrite(s: State, a: Action, run: nat)
    requires CannotWrite(s, run)
    ensures CannotWrite(Step(s, a), run) && ApiWrote(run) !in Added(s, Step(s, a))
  {
    hide CannotWrite, Added, ResumeInit, ResumeLogin, ResumeApi, ResumeLogout, BeginLogoutCall, BeginAttempt;
    if a.Resume? && a.call < |s.calls| && s.calls[a.call].Api? {
      ApiStepCannotWrite(s, a.call, a.reply, a.storage, run);
    } else {
      OnlyApiStepsWrite(s, a, run);
      match a
      case StartApi(storage) => StartApiCannotWrite(s, storage, run);
      case Resume(k, reply, storage) => if k < |s.calls| { ResumeCannotWrite(s, k, reply, storage, run); }
      case _ => StartOrUnmountCannotWrite(s, a, run);
    }
  }

  lemma {:induction false} RunCannotWrite(s: State, more: seq<Action>, run: nat)
    requires CannotWrite(s, run)
    ensures CannotWrite(RunFrom(s, more), run) && ApiWrote(run) !in Added(s, RunFrom(s, more))
    decreases |more|
  {
    hide Step, CannotWrite;
    if more == [] {
    } else {
      var n := |more| - 1;
      var t := RunFrom(s, more[..n]);
      RunCannotWrite(s, more[..n], run);
      StepCannotWrite(t, more[n], run);
      RunAddsToLog(s, more[..n]);
      StepAddsToLog(t, more[n]);
      AddedOn(s, t, Step(t, more[n]));
    }
  }

  ghost predicate MayWrite(s: State, run: nat) {
    exists more :: ApiWrote(run) in Added(s, RunFrom(s, more))
  }

  /** Whatever has happened since its check, a finished logout included. */
  lemma BodyCanBeWritten(s: State, k: nat)
    requires k < |s.calls| && s.calls[k].Api? && s.calls[k].api.FetchBody?
    ensures MayWrite(s, s.calls[k].api.run) && Step(s, Resume(k, OK, WORKING)).bearer
  {
    var a := Resume(k, OK, WORKING);
    RunOne(s, a);
    var t := Step(s, a);
    assert t.log[|s.log|] == ApiWrote(s.calls[k].api.run);
    assert ApiWrote(s.calls[k].api.run) in Added(s, RunFrom(s, [a]));
  }

  /**
    In every reachable state in which a logout begins, whatever storage does: an API exchange in flight
    can still write its bearer after that exactly when it has passed its check and waits for the body.
  */
  lemma ApiWritesPastLogoutExactly(past: seq<Action>, k: nat, storage: Storage)
    requires k < |Run(past).calls| && Run(past).calls[k].Api?
    ensures var s := Run(past);
            MayWrite(Step(s, StartLogout(storage)), s.calls[k].api.run) <==> s.calls[k].api.FetchBody?
  {
    hide Run, CannotWrite, NewestLogoutHoldsFlag;
    var s := Run(past);
    var t := Step(s, StartLogout(storage));
    RunsKeepFlag(past);
    RunsAreCutOff(past);
    assert CallKnowsEpoch(s.calls[k], s);
    if s.calls[k].api.FetchBody? {
      assert t.calls[k] == s.calls[k];
      BodyCanBeWritten(t, k);
    } else {
      UncheckedCannotWrite(s, k, storage);
      forall more
        ensures ApiWrote(s.calls[k].api.run) !in Added(t, RunFrom(t, more))
      {
        RunCannotWrite(t, more, s.calls[k].api.run);
      }
    }
  }

  lemma UncheckedCannotWrite(s: State, k: nat, storage: Storage)
    requires OneSharedExchange(s) && k < |s.calls| && CallKnowsEpoch(s.calls[k], s)
    requires s.calls[k].Api? && !s.calls[k].api.FetchBody?
    ensures CannotWrite(Step(s, StartLogout(storage)), s.calls[k].api.run)
  {
    var t := Step(s, StartLogout(storage));
    assert forall i | 0 <= i < |t.calls| && t.calls[i].Api? :: i == k && t.calls[i] == s.calls[i];
  }
}
