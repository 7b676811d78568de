/**
  What one step changes, told by what was waited for, what it was answered with, and storage: exactly when
  the user is signed in and out, when a bearer comes and goes, and how the barrier moves.
*/
module AuthEffects {
  import opened Options
  import opened LogoutBarrier
  import opened AuthProtocol
  import opened AuthRuns

  /** No logout is in progress, and no sticky flag is seen. */
  predicate Open(s: State, storage: Storage) {
    !s.barrier.inProgress && !(storage.readable && s.barrier.sticky)
  }

  predicate IsResumed(s: State, a: Action) {
    a.Resume? && a.call < |s.calls|
  }

  /** The answer names a user, and its bearer, if it has one, can be stored. */
  predicate NamesUser(reply: Reply, storage: Storage) {
    reply.Good? && reply.user && (reply.token ==> storage.writable)
  }

  // ---- Signing in and out ----

  /** init has found a user and may say so; or a login's last answer names one. */
  predicate SignsIn(s: State, c: Call, reply: Reply, storage: Storage) {
    storage.readable
    && if c.Init? then c.at == Settled(true) && !c.cancelled && Open(s, storage)
       else c.Login? && c.login == LoginMeBody && NamesUser(reply, storage)
  }

  /** The user comes to be signed in, which is logged, or nothing about that changes in this step. */
  ghost predicate SignInIs(s: State, t: State, signsIn: bool) {
    (BecameAuthenticated in Added(s, t) <==> signsIn) && (!s.authenticated ==> (t.authenticated <==> signsIn))
  }

  lemma NothingSignsIn(s: State, t: State)
    requires s.log <= t.log && (t.authenticated ==> s.authenticated)
    requires t.log == s.log || (|t.log| == |s.log| + 1 && t.log[|s.log|] != BecameAuthenticated)
             || (|t.log| == |s.log| + 2 && BecameAuthenticated !in {t.log[|s.log|], t.log[|s.log| + 1]})
    ensures SignInIs(s, t, false)
  {
  }

  lemma StartSignsIn(s: State, a: Action)
    requires !IsResumed(s, a)
    ensures SignInIs(s, Step(s, a), false)
  {
    hide SignInIs;
    NothingSignsIn(s, Step(s, a));
  }

  lemma InitSignIn(s: State, k: nat, reply: Reply, storage: Storage)
    requires k < |s.calls| && s.calls[k].Init?
    ensures SignInIs(s, ResumeInit(s, k, s.calls[k], reply, storage), SignsIn(s, s.calls[k], reply, storage))
  {
    hide SignInIs;
    var t := ResumeInit(s, k, s.calls[k], reply, storage);
    if s.calls[k].at.Settled? {
      SettledSignIn(s, k, storage);
    } else {
      NothingSignsIn(s, t);
    }
  }

  lemma SettledSignIn(s: State, k: nat, storage: Storage)
    requires k < |s.calls| && s.calls[k].Init? && s.calls[k].at.Settled?
    ensures SignInIs(s, SettleInit(s, k, s.calls[k], storage), SignsIn(s, s.calls[k], OK, storage))
  {
  }

  lemma ApiSignIn(s: State, k: nat, reply: Reply, storage: Storage)
    requires k < |s.calls| && s.calls[k].Api?
    ensures SignInIs(s, ResumeApi(s, k, s.calls[k], reply, storage), false)
  {
    hide SignInIs;
    NothingSignsIn(s, ResumeApi(s, k, s.calls[k], reply, storage));
  }

  lemma LoginSignIn(s: State, k: nat, reply: Reply, storage: Storage)
    requires k < |s.calls| && s.calls[k].Login?
    ensures SignInIs(s, ResumeLogin(s, k, s.calls[k], reply, storage), SignsIn(s, s.calls[k], reply, storage))
  {
  }

  lemma SignInExactly(s: State, a: Action)
    ensures SignInIs(s, Step(s, a), IsResumed(s, a) && SignsIn(s, s.calls[a.call], a.reply, a.storage))
  {
    hide SignInIs, SignsIn, ResumeInit, ResumeApi, ResumeLogin;
    if !IsResumed(s, a) {
      StartSignsIn(s, a);
    } else {
      match s.calls[a.call]
      case Init(_, _, _) => InitSignIn(s, a.call, a.reply, a.storage);
      case Api(_) => ApiSignIn(s, a.call, a.reply, a.storage); NoOtherSignsIn(s, s.calls[a.call], a.reply, a.storage);
      case Login(_, _) => LoginSignIn(s, a.call, a.reply, a.storage);
      case _ => NothingSignsIn(s, Step(s, a)); NoOtherSignsIn(s, s.calls[a.call], a.reply, a.storage);
    }
  }

  lemma NoOtherSignsIn(s: State, c: Call, reply: Reply, storage: Storage)
    requires !c.Init? && !c.Login?
    ensures !SignsIn(s, c, reply, storage)
  {
  }

  /** init has found none and there is no bearer either; a login's check says no; or a logout ends. */
  predicate SignsOut(s: State, c: Call, reply: Reply, storage: Storage) {
    if c.Init? then
      (c.at == Settled(false) || c.at == Caught) && !c.cancelled && Open(s, storage) && storage.readable && !s.bearer
    else if c.Login? then
      storage.readable
      && ((c.login == LoginMe && reply.NotOk?)
          || (c.login == LoginMeBody && reply.Good? && !reply.user && (reply.token ==> storage.writable)))
    else c.Logout? && storage.removable
  }

  lemma SignOutExactly(s: State, a: Action)
    requires s.authenticated
    ensures !Step(s, a).authenticated
            <==> (a.StartLogout? && a.storage.removable)
                 || (IsResumed(s, a) && SignsOut(s, s.calls[a.call], a.reply, a.storage))
  {
  }

  // ---- The bearer ----

  /** A bearer was answered where one is looked for, by an exchange of init only if no logout has begun since. */
  predicate StoresBearer(s: State, c: Call, reply: Reply, storage: Storage) {
    reply.Good? && reply.token && storage.writable
    && match c
       case Init(_, _, at) =>
         Open(s, storage)
         && (at == MeBody || (at.ExchangeBody? && !reply.twoFactor && at.epochAtStart == s.barrier.epoch))
       case Api(api) => api.FetchBody?
       case Login(_, login) => login == LoginMeBody || (login == Credentials && !reply.twoFactor)
       case _ => false
  }

  lemma BearerStoredExactly(s: State, a: Action)
    requires !s.bearer
    ensures Step(s, a).bearer <==> IsResumed(s, a) && StoresBearer(s, s.calls[a.call], a.reply, a.storage)
  {
  }

  lemma BearerRemovedExactly(s: State, a: Action)
    requires s.bearer
    ensures !Step(s, a).bearer
            <==> (a.StartLogout? || (IsResumed(s, a) && s.calls[a.call].Logout?)) && a.storage.removable
  {
  }

  // ---- The barrier ----

  /** A login or a verified sign-up that has succeeded goes on. */
  predicate Succeeds(s: State, a: Action) {
    IsResumed(s, a) && s.calls[a.call] == Login(true, Accepted)
  }

  lemma LoginSucceededExactly(s: State, a: Action)
    ensures LoginSucceeded in Added(s, Step(s, a)) <==> Succeeds(s, a)
  {
    hide ResumeInit, ResumeApi, ResumeLogin, BeginAttempt, NoLoginSucceeds;
    if IsResumed(s, a) {
      match s.calls[a.call]
      case Init(_, _, _) => InitIsNoLogin(s, a.call, a.reply, a.storage);
      case Api(_) => ApiIsNoLogin(s, a.call, a.reply, a.storage);
      case Login(_, _) => LoginSucceedsHere(s, a.call, a.reply, a.storage);
      case _ => AddsNoLogin(s, Step(s, a));
    } else if a.StartInit? {
      InitBeginsNoLogin(s, a.storage);
    } else {
      AddsNoLogin(s, Step(s, a));
    }
    NoLoginMeans(s, Step(s, a));
  }

  ghost predicate NoLoginSucceeds(s: State, t: State) {
    LoginSucceeded !in Added(s, t)
  }

  lemma NoLoginMeans(s: State, t: State)
    ensures NoLoginSucceeds(s, t) <==> LoginSucceeded !in Added(s, t)
  {
  }

  lemma AddsNoLogin(s: State, t: State)
    requires t.log == s.log || (|t.log| == |s.log| + 1 && s.log <= t.log && t.log[|s.log|] != LoginSucceeded)
    ensures NoLoginSucceeds(s, t)
  {
  }

  lemma InitIsNoLogin(s: State, k: nat, reply: Reply, storage: Storage)
    requires k < |s.calls| && s.calls[k].Init?
    ensures NoLoginSucceeds(s, ResumeInit(s, k, s.calls[k], reply, storage))
  {
    hide NoLoginSucceeds;
    AddsNoLogin(s, ResumeInit(s, k, s.calls[k], reply, storage));
  }

  lemma ApiIsNoLogin(s: State, k: nat, reply: Reply, storage: Storage)
    requires k < |s.calls| && s.calls[k].Api?
    ensures NoLoginSucceeds(s, ResumeApi(s, k, s.calls[k], reply, storage))
  {
    hide NoLoginSucceeds;
    AddsNoLogin(s, ResumeApi(s, k, s.calls[k], reply, storage));
  }

  lemma LoginSucceedsHere(s: State, k: nat, reply: Reply, storage: Storage)
    requires k < |s.calls| && s.calls[k].Login?
    ensures NoLoginSucceeds(s, ResumeLogin(s, k, s.calls[k], reply, storage)) <==> s.calls[k] != Login(true, Accepted)
  {
    var t := ResumeLogin(s, k, s.calls[k], reply, storage);
    if s.calls[k] == Login(true, Accepted) {
      assert t.log[|s.log|] == LoginSucceeded;
    }
  }

  lemma InitBeginsNoLogin(s: State, storage: Storage)
    ensures NoLoginSucceeds(s, Step(s, StartInit(storage)))
  {
    var t := Step(s, StartInit(storage));
    assert Added(s, t) == [InitStarted(|s.calls|)] || Added(s, t) == [InitStarted(|s.calls|), EnsureStarted(s.runs)];
  }

  /** The flag goes up with each logout, and comes down as the newest one ends having removed the bearer. */
  lemma FlagMovesExactly(s: State, a: Action)
    ensures Step(s, a).barrier.epoch == s.barrier.epoch + (if a.StartLogout? then 1 else 0)
    ensures a.StartLogout? ==> Step(s, a).barrier.inProgress
    ensures !a.StartLogout? ==>
              (Step(s, a).barrier.inProgress
               <==> s.barrier.inProgress
                    && !(IsResumed(s, a) && s.calls[a.call] == Logout(s.barrier.epoch) && a.storage.removable))
  {
    hide ResumeInit, ResumeApi, ResumeLogin, TouchesOne;
    if IsResumed(s, a) && !s.calls[a.call].Logout? {
      ResumeTouchesOne(s, a.call, a.reply, a.storage);
      TouchedKeeps(s, Step(s, a), a.call);
    }
  }

  lemma TouchedKeeps(s: State, t: State, k: nat)
    requires TouchesOne(s, t, k)
    ensures t.barrier.epoch == s.barrier.epoch && t.barrier.inProgress == s.barrier.inProgress
    ensures t.sharedExchange == if s.calls[k].Api? && s.calls[k].api.Settling? then None else s.sharedExchange
  {
  }

  lemma OtherResumesKeepSticky(s: State, k: nat, reply: Reply, storage: Storage)
    requires k < |s.calls| && !s.calls[k].Login?
    ensures Step(s, Resume(k, reply, storage)).barrier.sticky == s.barrier.sticky
  {
    hide ResumeInit;
    if s.calls[k].Init? {
      InitKeepsBarrier(s, k, reply, storage);
    }
  }

  lemma InitKeepsBarrier(s: State, k: nat, reply: Reply, storage: Storage)
    requires k < |s.calls| && s.calls[k].Init?
    ensures ResumeInit(s, k, s.calls[k], reply, storage).barrier == s.barrier
  {
  }

  /** The sticky flag is stored with a logout, and goes with a login that succeeds, each if storage lets it. */
  lemma StickyMovesExactly(s: State, a: Action)
    ensures Step(s, a).barrier.sticky
            <==> (s.barrier.sticky || (a.StartLogout? && a.storage.writable))
                 && !(Succeeds(s, a) && a.storage.removable)
  {
    hide ResumeInit, ResumeApi, ResumeLogout;
    if IsResumed(s, a) && !s.calls[a.call].Login? {
      OtherResumesKeepSticky(s, a.call, a.reply, a.storage);
    }
  }

  // ---- Exchanges ----

  /** An attempt of init exchanges tokens exactly when it may go on and there is no bearer yet. */
  lemma ExchangeStartsExactly(s: State, a: Action)
    ensures (exists run :: EnsureStarted(run) in Added(s, Step(s, a)))
            <==> (a.StartInit? || (IsResumed(s, a) && s.calls[a.call].Init? && s.calls[a.call].at == Backoff))
                 && Open(s, a.storage) && a.storage.readable && !s.bearer
  {
    hide ResumeEnsure, ResumeMe, SettleInit, CatchInit, ResumeApi, ResumeLogin;
    var t := Step(s, a);
    if a.StartInit? {
      assert Added(s, t) == [InitStarted(|s.calls|)] || Added(s, t) == [InitStarted(|s.calls|), EnsureStarted(s.runs)];
    } else if IsResumed(s, a) && s.calls[a.call].Init? && s.calls[a.call].at == Backoff {
      assert Added(s, t) == [] || Added(s, t) == [EnsureStarted(s.runs)];
    } else if IsResumed(s, a) {
      OtherResumesStartNone(s, a.call, a.reply, a.storage);
    } else {
      assert |Added(s, t)| <= 1 && forall e | e in Added(s, t) :: !e.EnsureStarted?;
    }
  }

  ghost predicate StartsNone(s: State, t: State) {
    forall e | e in Added(s, t) :: !e.EnsureStarted? && !e.ApiStarted?
  }

  lemma AddsNoStart(s: State, t: State)
    requires t.log == s.log || (|t.log| == |s.log| + 1 && s.log <= t.log
                 && !t.log[|s.log|].EnsureStarted? && !t.log[|s.log|].ApiStarted?)
    ensures StartsNone(s, t)
  {
  }

  lemma InitStartsNone(s: State, k: nat, reply: Reply, storage: Storage)
    requires k < |s.calls| && s.calls[k].Init? && s.calls[k].at != Backoff
    ensures StartsNone(s, ResumeInit(s, k, s.calls[k], reply, storage))
  {
    hide StartsNone, BeginAttempt;
    AddsNoStart(s, ResumeInit(s, k, s.calls[k], reply, storage));
  }

  lemma OtherResumesStartNone(s: State, k: nat, reply: Reply, storage: Storage)
    requires k < |s.calls| && !(s.calls[k].Init? && s.calls[k].at == Backoff)
    ensures StartsNone(s, Step(s, Resume(k, reply, storage)))
  {
    hide StartsNone, ResumeInit, ResumeApi, ResumeLogin;
    match s.calls[k]
    case Init(_, _, _) => InitStartsNone(s, k, reply, storage);
    case Api(_) => ApiStartsNone(s, k, reply, storage);
    case Login(_, _) => LoginStartsNone(s, k, reply, storage);
    case _ => AddsNoStart(s, Step(s, Resume(k, reply, storage)));
  }

  lemma ApiStartsNone(s: State, k: nat, reply: Reply, storage: Storage)
    requires k < |s.calls| && s.calls[k].Api?
    ensures StartsNone(s, ResumeApi(s, k, s.calls[k], reply, storage))
  {
    hide StartsNone;
    AddsNoStart(s, ResumeApi(s, k, s.calls[k], reply, storage));
  }

  lemma LoginStartsNone(s: State, k: nat, reply: Reply, storage: Storage)
    requires k < |s.calls| && s.calls[k].Login?
    ensures StartsNone(s, ResumeLogin(s, k, s.calls[k], reply, storage))
  {
    hide StartsNone;
    AddsNoStart(s, ResumeLogin(s, k, s.calls[k], reply, storage));
  }

  /** A request starts an exchange exactly when it may and none is shared; it shares it until that is done. */
  lemma SharedExactly(s: State, a: Action)
    ensures ApiStarted(s.runs) in Added(s, Step(s, a))
            <==> a.StartApi? && Open(s, a.storage) && s.sharedExchange == None
    ensures Step(s, a).sharedExchange
            == if a.StartApi? && Open(s, a.storage) && s.sharedExchange == None then Some(|s.calls|)
               else if IsResumed(s, a) && s.calls[a.call].Api? && s.calls[a.call].api.Settling? then None
               else s.sharedExchange
  {
    hide ResumeInit, ResumeApi, ResumeLogin, BeginAttempt, TouchesOne, StartsNone;
    if IsResumed(s, a) {
      NoApiStart(s, a.call, a.reply, a.storage);
      if !s.calls[a.call].Logout? {
        ResumeTouchesOne(s, a.call, a.reply, a.storage);
        TouchedKeeps(s, Step(s, a), a.call);
      }
    } else if a.StartInit? {
      InitBeginsWithoutApi(s, a.storage);
    }
  }

  lemma InitBeginsWithoutApi(s: State, storage: Storage)
    ensures var t := Step(s, StartInit(storage));
            t.sharedExchange == s.sharedExchange && ApiStarted(s.runs) !in Added(s, t)
  {
    var t := Step(s, StartInit(storage));
    assert Added(s, t) == [InitStarted(|s.calls|)] || Added(s, t) == [InitStarted(|s.calls|), EnsureStarted(s.runs)];
  }

  lemma NoApiStart(s: State, k: nat, reply: Reply, storage: Storage)
    requires k < |s.calls|
    ensures ApiStarted(s.runs) !in Added(s, Step(s, Resume(k, reply, storage)))
  {
    hide ResumeEnsure, ResumeMe, SettleInit, CatchInit, ResumeApi, ResumeLogin;
    if s.calls[k].Init? && s.calls[k].at == Backoff {
      var t := Step(s, Resume(k, reply, storage));
      assert Added(s, t) == [] || Added(s, t) == [EnsureStarted(s.runs)];
    } else {
      OtherResumesStartNone(s, k, reply, storage);
    }
  }

  /** The exchange of a request goes on to its body exactly when it is answered well before any logout. */
  lemma ApiGoesOnExactly(s: State, k: nat, reply: Reply, storage: Storage)
    requires k < |s.calls| && s.calls[k].Api? && s.calls[k].api.Fetch?
    ensures Step(s, Resume(k, reply, storage)).calls[k]
            == if reply.Good? && s.calls[k].api.epochAtStart == s.barrier.epoch && Open(s, storage)
               then Api(FetchBody(s.calls[k].api.run)) else Api(Settling(s.calls[k].api.run))
  {
  }
}
