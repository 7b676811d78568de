/** Runs of the sign-in protocol: putting them together, what they add to the log, and the calls they touch. */
module AuthRuns {
  import opened Options
  import opened LogoutBarrier
  import opened AuthProtocol

  const WORKING := Storage(true, true, true)
  const NO_WRITES := Storage(true, false, true)
  const OK := Good(true, true, false)

  function StorageOf(a: Action): Option<Storage> {
    match a
    case StartInit(storage) => Some(storage)
    case StartApi(storage) => Some(storage)
    case StartLogout(storage) => Some(storage)
    case Resume(_, _, storage) => Some(storage)
    case _ => None
  }

  /** Session storage can be read in every step. */
  predicate Readable(actions: seq<Action>) {
    forall i | 0 <= i < |actions| :: StorageOf(actions[i]).Some? ==> StorageOf(actions[i]).value.readable
  }

  // ---- One step ----

  /** The flag is down and the sticky flag not stored. */
  predicate IsOpen(s: State) {
    !s.barrier.inProgress && !s.barrier.sticky
  }

  predicate IsLogout(c: Call) {
    c.Logout? || c.Stuck?
  }

  /** What a step does to the calls when no logout begins or ends. */
  ghost predicate TouchesOne(s: State, t: State, k: nat) {
    && k < |s.calls| == |t.calls| && t.calls == s.calls[k := t.calls[k]]
    && t.barrier.epoch == s.barrier.epoch && t.barrier.inProgress == s.barrier.inProgress
    && (IsLogout(s.calls[k]) || IsLogout(t.calls[k]) ==> t.calls[k] == s.calls[k])
    && (s.calls[k].Init? <==> t.calls[k].Init?)
    && s.runs <= t.runs && s.log <= t.log && (forall i | |s.log| <= i < |t.log| ::
          (t.log[i].MeWrote? ==> s.calls[k].Init? && t.log[i].call == k) && (t.log[i].ApiWrote? ==> s.calls[k].Api?))
    && (if s.calls[k].Api? && s.calls[k].api.Settling? then t.sharedExchange == None && t.calls[k] == Done
        else t.sharedExchange == s.sharedExchange && (t.calls[k].Api? <==> s.calls[k].Api?))
  }

  lemma EnsureTouchesOne(s: State, k: nat, reply: Reply, storage: Storage)
    requires k < |s.calls| && s.calls[k].Init?
    requires s.calls[k].at.ProviderToken? || s.calls[k].at.Exchange? || s.calls[k].at.ExchangeBody?
    ensures TouchesOne(s, ResumeEnsure(s, k, s.calls[k], reply, storage), k)
  {
  }

  lemma MeTouchesOne(s: State, k: nat, reply: Reply, storage: Storage)
    requires k < |s.calls| && s.calls[k].Init?
    requires s.calls[k].at.AfterEnsure? || s.calls[k].at.Me? || s.calls[k].at.MeBody?
    ensures TouchesOne(s, ResumeMe(s, k, s.calls[k], reply, storage), k)
  {
  }

  lemma AttemptTouchesOne(s: State, k: nat, c: Call, storage: Storage)
    requires k < |s.calls| && s.calls[k].Init? && c.Init?
    ensures TouchesOne(s, BeginAttempt(s, k, c, storage), k)
  {
  }

  lemma EndTouchesOne(s: State, k: nat, storage: Storage)
    requires k < |s.calls| && s.calls[k].Init?
    ensures s.calls[k].at.Settled? ==> TouchesOne(s, SettleInit(s, k, s.calls[k], storage), k)
    ensures s.calls[k].at.Caught? ==> TouchesOne(s, CatchInit(s, k, s.calls[k], storage), k)
  {
  }

  lemma InitTouchesOne(s: State, k: nat, reply: Reply, storage: Storage)
    requires k < |s.calls| && s.calls[k].Init?
    ensures TouchesOne(s, ResumeInit(s, k, s.calls[k], reply, storage), k)
  {
    hide TouchesOne, ResumeEnsure, ResumeMe, BeginAttempt, SettleInit, CatchInit;
    var c := s.calls[k];
    if c.at.ProviderToken? || c.at.Exchange? || c.at.ExchangeBody? {
      EnsureTouchesOne(s, k, reply, storage);
    } else if c.at.Backoff? {
      AttemptTouchesOne(s, k, c.(attempt := c.attempt + 1), storage);
    } else if c.at.Settled? || c.at.Caught? {
      EndTouchesOne(s, k, storage);
    } else if c.at.Over? {
      NothingTouched(s, k);
    } else {
      MeTouchesOne(s, k, reply, storage);
    }
  }

  lemma ApiTouchesOne(s: State, k: nat, reply: Reply, storage: Storage)
    requires k < |s.calls| && s.calls[k].Api?
    ensures TouchesOne(s, ResumeApi(s, k, s.calls[k], reply, storage), k)
  {
  }

  lemma EarlyLoginTouchesOne(s: State, k: nat, reply: Reply, storage: Storage)
    requires k < |s.calls| && s.calls[k].Login? && s.calls[k].login.Credentials?
    ensures TouchesOne(s, ResumeLogin(s, k, s.calls[k], reply, storage), k)
  {
  }

  lemma AcceptedTouchesOne(s: State, k: nat, reply: Reply, storage: Storage)
    requires k < |s.calls| && s.calls[k].Login? && s.calls[k].login.Accepted?
    ensures TouchesOne(s, ResumeLogin(s, k, s.calls[k], reply, storage), k)
  {
  }

  lemma LateLoginTouchesOne(s: State, k: nat, reply: Reply, storage: Storage)
    requires k < |s.calls| && PastSuccess(s.calls[k])
    ensures TouchesOne(s, ResumeLogin(s, k, s.calls[k], reply, storage), k)
  {
  }

  lemma ResumeTouchesOne(s: State, k: nat, reply: Reply, storage: Storage)
    requires k < |s.calls| && !s.calls[k].Logout?
    ensures TouchesOne(s, Step(s, Resume(k, reply, storage)), k)
  {
    hide TouchesOne, ResumeInit, ResumeApi, ResumeLogin;
    match s.calls[k]
    case Init(_, _, _) => InitTouchesOne(s, k, reply, storage);
    case Api(_) => ApiTouchesOne(s, k, reply, storage);
    case Login(_, _) =>
      if PastSuccess(s.calls[k]) {
        LateLoginTouchesOne(s, k, reply, storage);
      } else if s.calls[k].login.Accepted? {
        AcceptedTouchesOne(s, k, reply, storage);
      } else {
        EarlyLoginTouchesOne(s, k, reply, storage);
      }
    case _ => NothingTouched(s, k);
  }

  lemma NothingTouched(s: State, k: nat)
    requires k < |s.calls| && !s.calls[k].Api?
    ensures TouchesOne(s, s, k)
  {
  }

  lemma StartAddsToLog(s: State, a: Action)
    requires !a.Resume?
    ensures s.log <= Step(s, a).log
    ensures forall i | |s.log| <= i < |Step(s, a).log| :: !Step(s, a).log[i].MeWrote? && !Step(s, a).log[i].ApiWrote?
  {
  }

  lemma StepAddsToLog(s: State, a: Action)
    ensures s.log <= Step(s, a).log
  {
    hide ResumeInit, ResumeApi, ResumeLogin, BeginAttempt, BeginLogoutCall;
    if !a.Resume? {
      StartAddsToLog(s, a);
    } else if a.call < |s.calls| && !s.calls[a.call].Logout? {
      ResumeTouchesOne(s, a.call, a.reply, a.storage);
    }
  }

  // ---- Runs ----

  lemma RunOne(s: State, a: Action)
    ensures RunFrom(s, [a]) == Step(s, a)
  {
    assert [a][..0] == [];
  }

  lemma {:induction false} RunOn(s: State, first: seq<Action>, more: seq<Action>)
    ensures RunFrom(s, first + more) == RunFrom(RunFrom(s, first), more)
    decreases |more|
  {
    if more == [] {
      assert first + more == first;
    } else {
      var n := |more| - 1;
      RunOn(s, first, more[..n]);
      assert (first + more)[..|first + more| - 1] == first + more[..n];
    }
  }

  /** What a run from s adds to the log. */
  function Added(s: State, t: State): seq<Event> {
    if |s.log| <= |t.log| then t.log[|s.log|..] else []
  }

  lemma {:induction false} RunAddsToLog(s: State, more: seq<Action>)
    ensures s.log <= RunFrom(s, more).log
    decreases |more|
  {
    if more == [] {
    } else {
      RunAddsToLog(s, more[..|more| - 1]);
      StepAddsToLog(RunFrom(s, more[..|more| - 1]), more[|more| - 1]);
    }
  }

  lemma AddedOn(s: State, t: State, u: State)
    requires s.log <= t.log <= u.log
    ensures Added(s, u) == Added(s, t) + Added(t, u)
  {
  }

  /** One action first, then others: the state reached and what is logged. */
  lemma StepThenRun(s: State, a: Action, more: seq<Action>)
    ensures RunFrom(s, [a] + more) == RunFrom(Step(s, a), more)
    ensures Added(s, RunFrom(s, [a] + more)) == Added(s, Step(s, a)) + Added(Step(s, a), RunFrom(Step(s, a), more))
  {
    hide Step;
    RunOn(s, [a], more);
    RunOne(s, a);
    StepAddsToLog(s, a);
    RunAddsToLog(Step(s, a), more);
    AddedOn(s, Step(s, a), RunFrom(Step(s, a), more));
  }

  lemma RunThenRun(s: State, first: seq<Action>, more: seq<Action>)
    ensures RunFrom(s, first + more) == RunFrom(RunFrom(s, first), more)
    ensures Added(s, RunFrom(s, first + more))
            == Added(s, RunFrom(s, first)) + Added(RunFrom(s, first), RunFrom(s, first + more))
  {
    hide Step;
    RunOn(s, first, more);
    RunAddsToLog(s, first);
    RunAddsToLog(RunFrom(s, first), more);
    AddedOn(s, RunFrom(s, first), RunFrom(s, first + more));
  }
}
