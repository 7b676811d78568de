/**
  Sign-in, sign-out and token exchange as interleaved steps. Each async function is cut at its
  awaits: a step is the code that runs between two of them, and any number of calls of each function
  may be waiting at once. What a wait ends with, and whether reading, writing and removing in session
  storage work during a step, is up to the environment; the bearer's own reads, writes and removals
  throw when they fail.
*/
module AuthProtocol {
  import opened Options
  import opened LogoutBarrier

  /** How an awaited promise settles. */
  datatype Reply =
    | Rejected
    | NotOk(unauthorized: bool)
    | Good(token: bool, user: bool, twoFactor: bool)

  /** Where an `init` call waits, inside fetchMeWithRetry and ensureAicserBearerFromEeSession. */
  datatype InitPoint =
    | ProviderToken(run: nat, epochAtStart: nat)
    | Exchange(run: nat, epochAtStart: nat)
    | ExchangeBody(run: nat, epochAtStart: nat)
    | AfterEnsure
    | Me
    | MeBody
    | Backoff
    | Settled(user: bool)
    | Caught              // init's continuation threw
    | Over

  /** Where a token exchange made for an API request waits. */
  datatype ApiPoint =
    | Fetch(run: nat, epochAtStart: nat)
    | FetchBody(run: nat)
    | Settling(run: nat)

  datatype LoginPoint = Credentials | Accepted | LoginMe | LoginMeBody

  datatype Call =
    | Init(attempt: nat, cancelled: bool, at: InitPoint)
    | Api(api: ApiPoint)
    | Login(verified: bool, login: LoginPoint)
    | Logout(epoch: nat)
    | Stuck(epoch: nat)   // a logout that threw before it came to lower the flag
    | Done

  datatype Event =
    | InitStarted(call: nat)
    | EnsureStarted(run: nat)
    | EnsureWrote(run: nat)
    | MeWrote(call: nat)
    | ApiStarted(run: nat)
    | ApiChecked(run: nat)
    | ApiWrote(run: nat)
    | LogoutBegan
    | LoginSucceeded
    | BecameAuthenticated

  datatype State = State(
    barrier: Barrier,
    bearer: bool,
    authenticated: bool,
    activeInit: Option<nat>,
    sharedExchange: Option<nat>,
    runs: nat,
    calls: seq<Call>,
    log: seq<Event>)

  const START := State(OPEN, false, false, None, None, 0, [], [])

  datatype Action =
    | StartInit(storage: Storage)
    | Unmount(call: nat)
    | StartApi(storage: Storage)
    | StartLogin(verified: bool)
    | StartLogout(storage: Storage)
    | Resume(call: nat, reply: Reply, storage: Storage)

  const MAX_ATTEMPTS := 4

  // ---- Steps ----

  function Logged(s: State, e: Event): State {
    s.(log := s.log + [e])
  }

  function At(s: State, k: nat, c: Call): State
    requires k < |s.calls|
  {
    s.(calls := s.calls[k := c])
  }

  /** A login past its success: it will sign the user in without asking the barrier. */
  predicate PastSuccess(c: Call) {
    c.Login? && (c.login.LoginMe? || c.login.LoginMeBody?)
  }

  predicate Quiet(calls: seq<Call>) {
    forall k | 0 <= k < |calls| :: !PastSuccess(calls[k])
  }

  /** The head of fetchMeWithRetry's loop, and of ensureAicserBearerFromEeSession inside it. */
  function BeginAttempt(s: State, k: nat, c: Call, storage: Storage): State
    requires k < |s.calls| && c.Init?
  {
    if !s.barrier.Accepts(storage) then At(s, k, c.(at := Settled(false)))
    else if !storage.readable then At(s, k, Retry(c))
    else if s.bearer then At(s, k, c.(at := AfterEnsure))
    else
      Logged(At(s, k, c.(at := ProviderToken(s.runs, s.barrier.epoch))), EnsureStarted(s.runs)).(runs := s.runs + 1)
  }

  /** A throw inside the attempt: wait and try again, or give up. */
  function Retry(c: Call): Call
    requires c.Init?
  {
    c.(at := if c.attempt < MAX_ATTEMPTS - 1 then Backoff else Settled(false))
  }

  /** Inside ensureAicserBearerFromEeSession: every check is made again after each wait. */
  function ResumeEnsure(s: State, k: nat, c: Call, reply: Reply, storage: Storage): State
    requires k < |s.calls| && c.Init? && (c.at.ProviderToken? || c.at.Exchange? || c.at.ExchangeBody?)
  {
    var run, e := c.at.run, c.at.epochAtStart;
    var fits := s.barrier.Accepts(storage) && !s.barrier.IsStale(e);
    if c.at.ProviderToken? then
      At(s, k, c.(at := if reply.Good? && reply.token && fits then Exchange(run, e) else AfterEnsure))
    else if c.at.Exchange? then
      if reply.Rejected? then At(s, k, Retry(c))
      else At(s, k, c.(at := if reply.Good? && fits then ExchangeBody(run, e) else AfterEnsure))
    else if reply.Good? && !reply.twoFactor && reply.token && fits then
      if storage.writable then Logged(At(s, k, c.(at := AfterEnsure)), EnsureWrote(run)).(bearer := true)
      else At(s, k, Retry(c))
    else At(s, k, c.(at := AfterEnsure))
  }

  /** The request for the current user, after the exchange. */
  function ResumeMe(s: State, k: nat, c: Call, reply: Reply, storage: Storage): State
    requires k < |s.calls| && c.Init? && (c.at.AfterEnsure? || c.at.Me? || c.at.MeBody?)
  {
    var accepts := s.barrier.Accepts(storage);
    match c.at
    case AfterEnsure =>
      At(s, k, if !accepts then c.(at := Settled(false)) else if storage.readable then c.(at := Me) else Retry(c))
    case Me =>
      if reply.Rejected? then At(s, k, Retry(c))
      else if !accepts then At(s, k, c.(at := Settled(false)))
      else if reply.NotOk? then At(s, k, if reply.unauthorized then c.(at := Settled(false)) else Retry(c))
      else At(s, k, c.(at := MeBody))
    case MeBody =>
      if !reply.Good? then At(s, k, Retry(c))
      else if !accepts then At(s, k, c.(at := Settled(false)))
      else if !reply.token then At(s, k, c.(at := Settled(reply.user)))
      else if storage.writable then Logged(At(s, k, c.(at := Settled(reply.user))), MeWrote(k)).(bearer := true)
      else At(s, k, Retry(c))
  }

  /** The finished call. */
  function Finished(c: Call): Call
    requires c.Init?
  {
    c.(at := Over)
  }

  /** init's own continuation, once fetchMeWithRetry has answered; reading the bearer in it may throw. */
  function SettleInit(s: State, k: nat, c: Call, storage: Storage): State
    requires k < |s.calls| && c.Init? && c.at.Settled?
  {
    if c.cancelled || !s.barrier.Accepts(storage) then At(s, k, Finished(c))
    else if (c.at.user || s.authenticated) && !storage.readable then At(s, k, c.(at := Caught))
    else if c.at.user then Logged(At(s, k, Finished(c)), BecameAuthenticated).(authenticated := true)
    else At(s, k, Finished(c)).(authenticated := s.authenticated && s.bearer)
  }

  /** Its `catch`, in which reading the bearer may throw again. */
  function CatchInit(s: State, k: nat, c: Call, storage: Storage): State
    requires k < |s.calls| && c.Init?
  {
    if c.cancelled || !s.barrier.Accepts(storage) || !storage.readable then At(s, k, Finished(c))
    else At(s, k, Finished(c)).(authenticated := s.authenticated && s.bearer)
  }

  function ResumeInit(s: State, k: nat, c: Call, reply: Reply, storage: Storage): State
    requires k < |s.calls| && c.Init?
  {
    match c.at
    case Over => s
    case Caught => CatchInit(s, k, c, storage)
    case Settled(_) => SettleInit(s, k, c, storage)
    case Backoff => BeginAttempt(s, k, c.(attempt := c.attempt + 1), storage)
    case AfterEnsure => ResumeMe(s, k, c, reply, storage)
    case Me => ResumeMe(s, k, c, reply, storage)
    case MeBody => ResumeMe(s, k, c, reply, storage)
    case _ => ResumeEnsure(s, k, c, reply, storage)
  }

  function ResumeApi(s: State, k: nat, c: Call, reply: Reply, storage: Storage): State
    requires k < |s.calls| && c.Api?
  {
    match c.api
    case Fetch(run, e) =>
      if !reply.Good? || s.barrier.IsStale(e) || !s.barrier.Accepts(storage) then At(s, k, Api(Settling(run)))
      else Logged(At(s, k, Api(FetchBody(run))), ApiChecked(run))
    case FetchBody(run) =>
      if reply.Good? && reply.token && storage.writable
      then Logged(At(s, k, Api(Settling(run))), ApiWrote(run)).(bearer := true)
      else At(s, k, Api(Settling(run)))
    case Settling(_) => At(s, k, Done).(sharedExchange := None)
  }

  function ResumeLogin(s: State, k: nat, c: Call, reply: Reply, storage: Storage): State
    requires k < |s.calls| && c.Login?
  {
    match c.login
    case Credentials =>
      if !reply.Good? || reply.twoFactor || (reply.token && !storage.writable) then At(s, k, Done)
      else At(s, k, c.(login := Accepted)).(bearer := s.bearer || reply.token)
    case Accepted =>
      if !c.verified then At(s, k, Done)
      else
        var t := Logged(s, LoginSucceeded).(barrier := s.barrier.Cleared(storage));
        At(t, k, if storage.readable then c.(login := LoginMe) else Done)
    case LoginMe =>
      if reply.NotOk? && storage.readable then At(s, k, Done).(authenticated := false)
      else if reply.Good? then At(s, k, c.(login := LoginMeBody))
      else At(s, k, Done)
    case LoginMeBody =>
      if !reply.Good? || (reply.token && !storage.writable) then At(s, k, Done)
      else
        var t := At(s, k, Done).(bearer := s.bearer || reply.token);
        if !storage.readable then t
        else if reply.user then Logged(t, BecameAuthenticated).(authenticated := true)
        else t.(authenticated := false)
  }

  /** The calls once the active init, if any, is cancelled. */
  function CancelActive(s: State): seq<Call> {
    if s.activeInit.Some? && s.activeInit.value < |s.calls| && s.calls[s.activeInit.value].Init? then
      s.calls[s.activeInit.value := s.calls[s.activeInit.value].(cancelled := true)]
    else s.calls
  }

  /** logout up to the provider's answer; taking the bearer out of storage may throw. */
  function BeginLogoutCall(s: State, storage: Storage): State {
    var b := s.barrier.Begun(storage);
    var t := Logged(s, LogoutBegan).(barrier := b);
    if storage.removable then
      t.(bearer := false, authenticated := false, calls := CancelActive(s) + [Logout(b.epoch)])
    else t.(calls := CancelActive(s) + [Stuck(b.epoch)])
  }

  /** Its `finally`; taking the bearer out again may throw, and then the flag is not lowered. */
  function ResumeLogout(s: State, k: nat, epoch: nat, storage: Storage): State
    requires k < |s.calls|
  {
    if storage.removable then
      At(s, k, Done).(bearer := false, authenticated := false, barrier := s.barrier.Ended(Some(epoch)))
    else At(s, k, Stuck(epoch))
  }

  /** The state with one more init, not begun yet. */
  function NewInit(s: State): State {
    Logged(s, InitStarted(|s.calls|)).(calls := s.calls + [Init(0, false, Over)], activeInit := Some(|s.calls|))
  }

  /** One step; an action on a call that is over, or was never made, does nothing. */
  function Step(s: State, a: Action): State {
    match a
    case StartInit(storage) =>
      BeginAttempt(NewInit(s), |s.calls|, Init(0, false, Over), storage)
    case Unmount(k) =>
      if k < |s.calls| && s.calls[k].Init? then At(s, k, s.calls[k].(cancelled := true)).(activeInit := None) else s
    case StartApi(storage) =>
      if !s.barrier.Accepts(storage) || s.sharedExchange.Some? then s
      else
        Logged(s, ApiStarted(s.runs)).(
          calls := s.calls + [Api(Fetch(s.runs, s.barrier.epoch))],
          sharedExchange := Some(|s.calls|),
          runs := s.runs + 1)
    case StartLogin(verified) => s.(calls := s.calls + [Login(verified, Credentials)])
    case StartLogout(storage) => BeginLogoutCall(s, storage)
    case Resume(k, reply, storage) =>
      if k >= |s.calls| then s
      else
        match s.calls[k]
        case Init(_, _, _) => ResumeInit(s, k, s.calls[k], reply, storage)
        case Api(_) => ResumeApi(s, k, s.calls[k], reply, storage)
        case Login(_, _) => ResumeLogin(s, k, s.calls[k], reply, storage)
        case Logout(e) => ResumeLogout(s, k, e, storage)
        case Stuck(_) => s
        case Done => s
  }

  /** The state after the actions are taken from s. */
  function RunFrom(s: State, actions: seq<Action>): State {
    if actions == [] then s else Step(RunFrom(s, actions[..|actions| - 1]), actions[|actions| - 1])
  }

  /** The state after a run from the start. */
  function Run(actions: seq<Action>): State {
    RunFrom(START, actions)
  }
}
