/**
  What a logout puts an end to until the next successful login, and, exactly, when it does not: sign-ins by
  init, and the bearers init writes.
*/
module AuthSignOut {
  import opened Options
  import opened LogoutBarrier
  import opened AuthProtocol
  import opened AuthRuns
  import opened AuthFlags

  // ---- Before the next successful login ----

  /** The event is among them, with no successful login before it. */
  ghost predicate Before(events: seq<Event>, e: Event) {
    exists k | 0 <= k < |events| :: events[k] == e && LoginSucceeded !in events[..k]
  }

  lemma BeforeFirst(first: seq<Event>, more: seq<Event>, e: Event)
    requires Before(first, e)
    ensures Before(first + more, e)
  {
    var k :| 0 <= k < |first| && first[k] == e && LoginSucceeded !in first[..k];
    assert (first + more)[k] == e && (first + more)[..k] == first[..k];
  }

  lemma BeforeSecond(first: seq<Event>, more: seq<Event>, e: Event)
    requires LoginSucceeded !in first && Before(more, e)
    ensures Before(first + more, e)
  {
    var k :| 0 <= k < |more| && more[k] == e && LoginSucceeded !in more[..k];
    assert (first + more)[|first| + k] == e && (first + more)[..|first| + k] == first + more[..k];
  }

  lemma BeforeEither(first: seq<Event>, more: seq<Event>, e: Event)
    requires Before(first + more, e)
    ensures Before(first, e) || (LoginSucceeded !in first && Before(more, e))
  {
    var all := first + more;
    var k :| 0 <= k < |all| && all[k] == e && LoginSucceeded !in all[..k];
    if k < |first| {
      assert first[k] == e && all[..k] == first[..k];
    } else {
      assert more[k - |first|] == e && all[..k] == first + more[..k - |first|];
    }
  }

  lemma BeforeOn(first: seq<Event>, more: seq<Event>, e: Event)
    ensures Before(first + more, e) <==> Before(first, e) || (LoginSucceeded !in first && Before(more, e))
  {
    hide Before;
    if Before(first + more, e) {
      BeforeEither(first, more, e);
    } else if Before(first, e) {
      BeforeFirst(first, more, e);
    } else if LoginSucceeded !in first && Before(more, e) {
      BeforeSecond(first, more, e);
    }
  }

  /** What the barrier keeps init from: writing a bearer, and, with no login past its success, signing in. */
  predicate Kept(e: Event, quiet: bool) {
    e.EnsureWrote? || e.MeWrote? || (quiet && e == BecameAuthenticated)
  }

  /** The flag is stored, and nothing is signed in or, if quiet, about to be. */
  ghost predicate Closed(s: State, quiet: bool, out: bool) {
    s.barrier.sticky && (quiet ==> Quiet(s.calls)) && (quiet && out ==> !s.authenticated)
  }

  /** A step that keeps the barrier closed and adds nothing that is kept from happening. */
  ghost predicate Harmless(s: State, t: State, quiet: bool, out: bool) {
    && s.log <= t.log
    && (forall e | Kept(e, quiet) :: e !in Added(s, t))
    && (LoginSucceeded in Added(s, t) || Closed(t, quiet, out))
  }

  /** A step that logs nothing. */
  lemma SilentStepHarmless(s: State, t: State, quiet: bool, out: bool)
    requires Closed(s, quiet, out) && t.log == s.log && t.barrier.sticky
    requires quiet ==> Quiet(t.calls) && (t.authenticated ==> s.authenticated)
    ensures Harmless(s, t, quiet, out)
  {
    assert Added(s, t) == [];
  }

  /** A step that logs one event. */
  lemma LoudStepHarmless(s: State, t: State, e: Event, quiet: bool, out: bool)
    requires Closed(s, quiet, out) && t.log == s.log + [e] && !Kept(e, quiet)
    requires e == LoginSucceeded
             || (t.barrier.sticky && (quiet ==> Quiet(t.calls) && (t.authenticated ==> s.authenticated)))
    ensures Harmless(s, t, quiet, out)
  {
    assert Added(s, t) == [e];
  }

  lemma QuietAt(calls: seq<Call>, k: nat, c: Call)
    requires Quiet(calls) && k < |calls| && !PastSuccess(c)
    ensures Quiet(calls[k := c])
  {
  }

  lemma QuietWith(calls: seq<Call>, c: Call)
    requires Quiet(calls) && !PastSuccess(c)
    ensures Quiet(calls + [c])
  {
  }

  lemma InitStepHarmless(s: State, k: nat, reply: Reply, storage: Storage, quiet: bool, out: bool)
    requires Closed(s, quiet, out) && storage.readable && k < |s.calls| && s.calls[k].Init?
    ensures Harmless(s, ResumeInit(s, k, s.calls[k], reply, storage), quiet, out)
  {
    hide Quiet, Harmless;
    var t := ResumeInit(s, k, s.calls[k], reply, storage);
    assert !s.barrier.Accepts(storage);
    assert t == s || t == At(s, k, t.calls[k]);
    if quiet && t != s {
      QuietAt(s.calls, k, t.calls[k]);
    }
    SilentStepHarmless(s, t, quiet, out);
  }

  lemma ApiStepHarmless(s: State, k: nat, reply: Reply, storage: Storage, quiet: bool, out: bool)
    requires Closed(s, quiet, out) && k < |s.calls| && s.calls[k].Api?
    ensures Harmless(s, ResumeApi(s, k, s.calls[k], reply, storage), quiet, out)
  {
    hide Quiet, Harmless;
    var t := ResumeApi(s, k, s.calls[k], reply, storage);
    if quiet {
      QuietAt(s.calls, k, t.calls[k]);
    }
    if t.log == s.log {
      SilentStepHarmless(s, t, quiet, out);
    } else {
      LoudStepHarmless(s, t, t.log[|s.log|], quiet, out);
    }
  }

  lemma LoginStepHarmless(s: State, k: nat, reply: Reply, storage: Storage, quiet: bool, out: bool)
    requires Closed(s, quiet, out) && k < |s.calls| && s.calls[k].Login?
    ensures Harmless(s, ResumeLogin(s, k, s.calls[k], reply, storage), quiet, out)
  {
    if PastSuccess(s.calls[k]) {
      LateLoginHarmless(s, k, reply, storage, quiet, out);
    } else {
      EarlyLoginHarmless(s, k, reply, storage, quiet, out);
    }
  }

  lemma LateLoginHarmless(s: State, k: nat, reply: Reply, storage: Storage, quiet: bool, out: bool)
    requires Closed(s, quiet, out) && k < |s.calls| && PastSuccess(s.calls[k])
    ensures Harmless(s, ResumeLogin(s, k, s.calls[k], reply, storage), quiet, out)
  {
    hide Harmless;
    assert !quiet;
    var t := ResumeLogin(s, k, s.calls[k], reply, storage);
    if t.log == s.log {
      SilentStepHarmless(s, t, quiet, out);
    } else {
      LoudStepHarmless(s, t, BecameAuthenticated, quiet, out);
    }
  }

  lemma EarlyLoginHarmless(s: State, k: nat, reply: Reply, storage: Storage, quiet: bool, out: bool)
    requires Closed(s, quiet, out) && k < |s.calls| && s.calls[k].Login? && !PastSuccess(s.calls[k])
    ensures Harmless(s, ResumeLogin(s, k, s.calls[k], reply, storage), quiet, out)
  {
    hide Harmless, Quiet;
    var t := ResumeLogin(s, k, s.calls[k], reply, storage);
    if t.log == s.log {
      if quiet {
        QuietAt(s.calls, k, t.calls[k]);
      }
      SilentStepHarmless(s, t, quiet, out);
    } else {
      LoudStepHarmless(s, t, LoginSucceeded, quiet, out);
    }
  }

  lemma LogoutStepHarmless(s: State, t: State, quiet: bool, out: bool)
    requires Closed(s, quiet, out) && t.barrier.sticky && (t.authenticated ==> s.authenticated)
    requires t.log == s.log || t.log == s.log + [LogoutBegan]
    requires |s.calls| <= |t.calls|
    requires forall k | 0 <= k < |t.calls| && PastSuccess(t.calls[k]) :: k < |s.calls| && t.calls[k] == s.calls[k]
    ensures Harmless(s, t, quiet, out)
  {
    hide Harmless;
    if t.log == s.log {
      SilentStepHarmless(s, t, quiet, out);
    } else {
      LoudStepHarmless(s, t, LogoutBegan, quiet, out);
    }
  }

  lemma ApiStartHarmless(s: State, storage: Storage, quiet: bool, out: bool)
    requires Closed(s, quiet, out) && storage.readable
    ensures Step(s, StartApi(storage)) == s && Harmless(s, s, quiet, out)
  {
    SilentStepHarmless(s, s, quiet, out);
  }

  lemma InitStartHarmless(s: State, storage: Storage, quiet: bool, out: bool)
    requires Closed(s, quiet, out) && storage.readable
    ensures Harmless(s, Step(s, StartInit(storage)), quiet, out)
  {
    hide Harmless, Quiet;
    var t := Step(s, StartInit(storage));
    assert t.calls == s.calls + [Init(0, false, Settled(false))];
    if quiet {
      QuietWith(s.calls, t.calls[|s.calls|]);
    }
    LoudStepHarmless(s, t, InitStarted(|s.calls|), quiet, out);
  }

  lemma StartHarmless(s: State, a: Action, quiet: bool, out: bool)
    requires Closed(s, quiet, out) && !a.Resume? && (StorageOf(a).Some? ==> StorageOf(a).value.readable)
    ensures Harmless(s, Step(s, a), quiet, out)
  {
    hide Harmless, Closed, BeginAttempt;
    match a
    case StartInit(storage) => InitStartHarmless(s, storage, quiet, out);
    case StartApi(storage) => ApiStartHarmless(s, storage, quiet, out);
    case _ => OtherStartHarmless(s, a, quiet, out);
  }

  lemma OtherStartHarmless(s: State, a: Action, quiet: bool, out: bool)
    requires Closed(s, quiet, out) && (a.Unmount? || a.StartLogin? || a.StartLogout?)
    ensures Harmless(s, Step(s, a), quiet, out)
  {
    hide Harmless;
    LogoutStepHarmless(s, Step(s, a), quiet, out);
  }

  lemma StepHarmless(s: State, a: Action, quiet: bool, out: bool)
    requires Closed(s, quiet, out) && Readable([a])
    ensures Harmless(s, Step(s, a), quiet, out)
  {
    hide Closed, Harmless, Step;
    assert StorageOf([a][0]) == StorageOf(a);
    if a.Resume? {
      ResumeHarmless(s, a.call, a.reply, a.storage, quiet, out);
    } else {
      StartHarmless(s, a, quiet, out);
    }
  }

  lemma ResumeHarmless(s: State, k: nat, reply: Reply, storage: Storage, quiet: bool, out: bool)
    requires Closed(s, quiet, out) && storage.readable
    ensures Harmless(s, Step(s, Resume(k, reply, storage)), quiet, out)
  {
    if k < |s.calls| {
      match s.calls[k]
      case Init(_, _, _) => InitStepHarmless(s, k, reply, storage, quiet, out);
      case Api(_) => ApiStepHarmless(s, k, reply, storage, quiet, out);
      case Login(_, _) => LoginStepHarmless(s, k, reply, storage, quiet, out);
      case _ =>
    }
  }

  /** From s on, nothing kept has happened before the next successful login, up to which the barrier is closed. */
  ghost predicate Barred(s: State, t: State, quiet: bool, out: bool) {
    && s.log <= t.log
    && (forall e | Kept(e, quiet) :: !Before(Added(s, t), e))
    && (LoginSucceeded in Added(s, t) || Closed(t, quiet, out))
  }

  lemma HarmlessKeepsBarred(s: State, t: State, u: State, quiet: bool, out: bool)
    requires Barred(s, t, quiet, out) && t.log <= u.log
    requires LoginSucceeded !in Added(s, t) ==> Harmless(t, u, quiet, out)
    ensures Barred(s, u, quiet, out)
  {
    AddedOn(s, t, u);
    forall e | Kept(e, quiet)
      ensures !Before(Added(s, u), e)
    {
      BeforeOn(Added(s, t), Added(t, u), e);
    }
  }

  lemma {:induction false} RunBarred(s: State, more: seq<Action>, quiet: bool, out: bool)
    requires Closed(s, quiet, out) && Readable(more)
    ensures Barred(s, RunFrom(s, more), quiet, out)
    decreases |more|
  {
    hide Closed, Step, Harmless;
    if more == [] {
      assert Added(s, s) == [];
    } else {
      hide Barred;
      var n := |more| - 1;
      var t := RunFrom(s, more[..n]);
      RunBarred(s, more[..n], quiet, out);
      StepAddsToLog(t, more[n]);
      BarredIsClosed(s, t, quiet, out);
      if LoginSucceeded !in Added(s, t) {
        LastReadable(more);
        StepHarmless(t, more[n], quiet, out);
      }
      HarmlessKeepsBarred(s, t, Step(t, more[n]), quiet, out);
    }
  }

  lemma BarredIsClosed(s: State, t: State, quiet: bool, out: bool)
    requires Barred(s, t, quiet, out)
    ensures LoginSucceeded in Added(s, t) || Closed(t, quiet, out)
  {
  }

  lemma LastReadable(more: seq<Action>)
    requires Readable(more) && more != []
    ensures Readable(more[..|more| - 1]) && Readable([more[|more| - 1]])
  {
  }

  /** The flag is up in session storage once that logout has begun. */
  predicate FlagStored(s: State, storage: Storage) {
    storage.writable || s.barrier.sticky
  }

  lemma LogoutCloses(s: State, storage: Storage)
    requires FlagStored(s, storage)
    ensures Closed(Step(s, StartLogout(storage)), Quiet(s.calls), storage.removable || !s.authenticated)
  {
    var t := Step(s, StartLogout(storage));
    assert forall k | 0 <= k < |s.calls| && !PastSuccess(s.calls[k]) :: !PastSuccess(t.calls[k]);
  }

  /**
    After a logout that stored its flag, while storage can be read: until a later login succeeds init writes
    no bearer and the barrier accepts nothing; and if no login was past its success then, nothing signs in,
    and the store says signed out unless the logout itself threw before it could say so.
  */
  lemma SignedOutUntilLogin(s: State, storage: Storage, more: seq<Action>)
    requires FlagStored(s, storage) && Readable(more)
    ensures var t := Step(s, StartLogout(storage));
            var u := RunFrom(t, more);
            && (forall e | Kept(e, Quiet(s.calls)) :: !Before(Added(t, u), e))
            && (LoginSucceeded !in Added(t, u) ==>
                  !u.barrier.Accepts(WORKING)
                  && (Quiet(s.calls) && u.authenticated ==> s.authenticated && !storage.removable))
  {
    hide Step, Before, Kept;
    LogoutCloses(s, storage);
    RunBarred(Step(s, StartLogout(storage)), more, Quiet(s.calls), storage.removable || !s.authenticated);
  }

  // ---- What can still happen ----

  /** While storage can be read, the event can still come before the next successful login. */
  ghost predicate CanStill(s: State, e: Event) {
    exists more :: Readable(more) && Before(Added(s, RunFrom(s, more)), e)
  }

  /** The event can still come at all, while storage can be read. */
  ghost predicate CanEver(s: State, e: Event) {
    exists more :: Readable(more) && e in Added(s, RunFrom(s, more))
  }

  /** init has not settled yet. */
  predicate Alive(c: Call) {
    c.Init? && !c.at.Settled? && !c.at.Caught? && !c.at.Over?
  }

  /** How many waits are between an init and its answer. */
  function Waits(at: InitPoint): nat {
    match at
    case Backoff => 4
    case ProviderToken(_, _) => 3
    case Exchange(_, _) => 3
    case ExchangeBody(_, _) => 3
    case AfterEnsure => 2
    case Me => 1
    case _ => 0
  }

  /** The action that brings an init one wait further. */
  function Onward(k: nat, at: InitPoint): Action {
    Resume(k, if at.ProviderToken? || at.Exchange? || at.ExchangeBody? then NotOk(false) else OK, WORKING)
  }

  lemma InitGoesOn(s: State, k: nat)
    requires IsOpen(s) && k < |s.calls| && Alive(s.calls[k]) && Waits(s.calls[k].at) > 0
    ensures var t := Step(s, Onward(k, s.calls[k].at));
            && IsOpen(t) && k < |t.calls| && Alive(t.calls[k]) && Waits(t.calls[k].at) < Waits(s.calls[k].at)
            && t.calls[k].cancelled == s.calls[k].cancelled && s.log <= t.log && LoginSucceeded !in Added(s, t)
  {
  }

  lemma InitWrites(s: State, k: nat)
    requires IsOpen(s) && k < |s.calls| && s.calls[k].Init? && s.calls[k].at.MeBody?
    ensures var t := Step(s, Resume(k, OK, WORKING));
            && IsOpen(t) && k < |t.calls| && t.calls[k] == s.calls[k].(at := Settled(true))
            && s.log <= t.log && Added(s, t) == [MeWrote(k)]
  {
  }

  lemma InitSignsIn(s: State, k: nat)
    requires IsOpen(s) && k < |s.calls| && s.calls[k].Init? && s.calls[k].at == Settled(true)
    ensures var t := Step(s, Resume(k, OK, WORKING));
            s.log <= t.log && Added(s, t) == if s.calls[k].cancelled then [] else [BecameAuthenticated]
  {
  }

  lemma ReadableOn(a: Action, more: seq<Action>)
    requires Readable([a]) && Readable(more)
    ensures Readable([a] + more)
  {
    var all := [a] + more;
    assert forall i | 0 < i < |all| :: all[i] == more[i - 1];
    assert all[0] == [a][0];
  }

  lemma ReadableBoth(first: seq<Action>, more: seq<Action>)
    requires Readable(first) && Readable(more)
    ensures Readable(first + more)
  {
  }

  /** With the barrier open an init that has not settled can write its bearer, and sign in unless it was cancelled. */
  lemma {:induction false} InitCanFinish(s: State, k: nat) returns (more: seq<Action>)
    requires IsOpen(s) && k < |s.calls| && Alive(s.calls[k])
    ensures Readable(more)
    ensures var added := Added(s, RunFrom(s, more));
            MeWrote(k) in added && LoginSucceeded !in added && (!s.calls[k].cancelled ==> BecameAuthenticated in added)
    decreases Waits(s.calls[k].at)
  {
    hide Step;
    if Waits(s.calls[k].at) == 0 {
      var a := Resume(k, OK, WORKING);
      var t := Step(s, a);
      InitWrites(s, k);
      InitSignsIn(t, k);
      RunOne(t, a);
      StepThenRun(s, a, [a]);
      more := [a] + [a];
    } else {
      var a := Onward(k, s.calls[k].at);
      InitGoesOn(s, k);
      var rest := InitCanFinish(Step(s, a), k);
      StepThenRun(s, a, rest);
      ReadableOn(a, rest);
      more := [a] + rest;
    }
  }

  lemma NewInitIsAlive(s: State)
    requires IsOpen(s)
    ensures var t := Step(s, StartInit(WORKING));
            && IsOpen(t) && |t.calls| == |s.calls| + 1 && Alive(t.calls[|s.calls|]) && !t.calls[|s.calls|].cancelled
            && s.log <= t.log && LoginSucceeded !in Added(s, t)
  {
  }

  /** With the barrier open a new init can sign in. */
  lemma FreshInitSignsIn(s: State) returns (more: seq<Action>)
    requires IsOpen(s)
    ensures Readable(more)
    ensures BecameAuthenticated in Added(s, RunFrom(s, more)) && LoginSucceeded !in Added(s, RunFrom(s, more))
  {
    hide Step;
    var a := StartInit(WORKING);
    NewInitIsAlive(s);
    var rest := InitCanFinish(Step(s, a), |s.calls|);
    StepThenRun(s, a, rest);
    ReadableOn(a, rest);
    more := [a] + rest;
  }

  /** The inits are where they were. */
  predicate SameInits(s: State, t: State) {
    |s.calls| <= |t.calls|
    && forall k | 0 <= k < |s.calls| && s.calls[k].Init? :: t.calls[k].Init? && t.calls[k].at == s.calls[k].at
  }

  lemma LogoutFinishes(s: State, k: nat)
    requires k < |s.calls| && s.calls[k].Logout? && s.calls[k].epoch == s.barrier.epoch
    ensures var t := Step(s, Resume(k, OK, NO_WRITES));
            && !t.barrier.inProgress && t.barrier.sticky == s.barrier.sticky && SameInits(s, t) && t.log == s.log
  {
  }

  lemma LogoutStarts(s: State)
    ensures var t := Step(s, StartLogout(NO_WRITES));
            && |t.calls| == |s.calls| + 1 && t.calls[|s.calls|] == Logout(t.barrier.epoch)
            && t.barrier.sticky == s.barrier.sticky && SameInits(s, t) && Added(s, t) == [LogoutBegan]
  {
  }

  /** The flag of a logout can always come down: at its own end, or, if it threw, at the end of another one. */
  lemma FlagComesDown(s: State) returns (more: seq<Action>)
    requires NewestLogoutHoldsFlag(s)
    ensures Readable(more)
    ensures var t := RunFrom(s, more);
            && !t.barrier.inProgress && t.barrier.sticky == s.barrier.sticky && SameInits(s, t)
            && s.log <= t.log && LoginSucceeded !in Added(s, t)
  {
    hide Step;
    more := [];
    if s.barrier.inProgress {
      if k: nat :| k < |s.calls| && s.calls[k] == Logout(s.barrier.epoch) {
        more := [Resume(k, OK, NO_WRITES)];
        RunOne(s, more[0]);
        LogoutFinishes(s, k);
      } else {
        var a, b := StartLogout(NO_WRITES), Resume(|s.calls|, OK, NO_WRITES);
        LogoutStarts(s);
        LogoutFinishes(Step(s, a), |s.calls|);
        RunOne(Step(s, a), b);
        StepThenRun(s, a, [b]);
        more := [a] + [b];
        RunAddsToLog(s, more);
      }
    }
  }

  lemma LoginClearsFlag(s: State) returns (more: seq<Action>)
    requires !s.barrier.inProgress
    ensures Readable(more) && IsOpen(RunFrom(s, more)) && SameInits(s, RunFrom(s, more))
  {
    var a, b := StartLogin(true), Resume(|s.calls|, OK, WORKING);
    RunOne(s, a);
    RunOn(s, [a], [b]);
    RunOne(Step(s, a), b);
    RunOn(s, [a] + [b], [b]);
    RunOne(Step(Step(s, a), b), b);
    more := [a] + [b] + [b];
  }

  lemma InBefore(events: seq<Event>, e: Event)
    requires e in events && LoginSucceeded !in events
    ensures Before(events, e)
  {
    var k :| 0 <= k < |events| && events[k] == e;
    assert LoginSucceeded !in events[..k];
  }

  lemma LastLoginStep(s: State, k: nat)
    requires k < |s.calls| && s.calls[k].Login? && s.calls[k].login.LoginMeBody?
    ensures var t := Step(s, Resume(k, OK, WORKING)); s.log <= t.log && Added(s, t) == [BecameAuthenticated]
  {
  }

  lemma LastButOneLoginStep(s: State, k: nat)
    requires k < |s.calls| && s.calls[k].Login? && s.calls[k].login.LoginMe?
    ensures var t := Step(s, Resume(k, OK, WORKING));
            t.log == s.log && k < |t.calls| && t.calls[k] == s.calls[k].(login := LoginMeBody)
  {
  }

  /** A login past its success signs in over whatever logout has begun since. */
  lemma LoginSignsInOverLogout(s: State, k: nat)
    requires k < |s.calls| && PastSuccess(s.calls[k])
    ensures CanStill(s, BecameAuthenticated)
  {
    hide Step, Before, RunFrom;
    var a := Resume(k, OK, WORKING);
    var more := [a];
    RunOne(s, a);
    if s.calls[k].login.LoginMeBody? {
      LastLoginStep(s, k);
    } else {
      var t := Step(s, a);
      LastButOneLoginStep(s, k);
      LastLoginStep(t, k);
      RunOne(t, a);
      StepThenRun(s, a, [a]);
      more := [a] + [a];
    }
    assert Added(s, RunFrom(s, more)) == [BecameAuthenticated];
    InBefore([BecameAuthenticated], BecameAuthenticated);
    assert Readable(more);
  }

  /** Without the sticky flag a new init can sign in after a logout, once the flag of that is down. */
  lemma LostFlagSignsIn(s: State)
    requires NewestLogoutHoldsFlag(s) && !s.barrier.sticky
    ensures CanStill(s, BecameAuthenticated)
  {
    hide Step, NewestLogoutHoldsFlag;
    var first := FlagComesDown(s);
    var t := RunFrom(s, first);
    var more := FreshInitSignsIn(t);
    RunThenRun(s, first, more);
    ReadableBoth(first, more);
    InBefore(Added(s, RunFrom(s, first + more)), BecameAuthenticated);
  }

  /**
    In every reachable state in which a logout begins: while storage can be read, the user can be signed in
    again without a later login succeeding exactly when a login was past its success, or the sticky flag is
    not stored.
  */
  lemma SignedInAgainExactly(past: seq<Action>, storage: Storage)
    ensures var s := Run(past);
            CanStill(Step(s, StartLogout(storage)), BecameAuthenticated)
            <==> !Quiet(s.calls) || !FlagStored(s, storage)
  {
    hide Run, NewestLogoutHoldsFlag, Before;
    var s := Run(past);
    var t := Step(s, StartLogout(storage));
    RunsKeepFlag(past);
    LogoutBeginsWithFlag(s, storage);
    if !FlagStored(s, storage) {
      LostFlagSignsIn(t);
    } else if !Quiet(s.calls) {
      var k: nat :| k < |s.calls| && PastSuccess(s.calls[k]);
      assert t.calls[k] == s.calls[k];
      LoginSignsInOverLogout(t, k);
    } else {
      forall more | Readable(more)
        ensures !Before(Added(t, RunFrom(t, more)), BecameAuthenticated)
      {
        SignedOutUntilLogin(s, storage, more);
      }
    }
  }

  // ---- Bearers that an init begun before a logout writes after it ----

  lemma SettledInitStays(s: State, k: nat, reply: Reply, storage: Storage)
    requires k < |s.calls| && s.calls[k].Init? && !Alive(s.calls[k])
    ensures var t := ResumeInit(s, k, s.calls[k], reply, storage);
            k < |t.calls| && !Alive(t.calls[k]) && MeWrote(k) !in Added(s, t)
  {
  }

  /** Only the init itself writes with its number, and nothing else becomes an init. */
  lemma OtherCallStays(s: State, j: nat, reply: Reply, storage: Storage, k: nat)
    requires j < |s.calls| && k < |s.calls| && (j != k || !s.calls[j].Init?)
    ensures var t := Step(s, Resume(j, reply, storage));
            && MeWrote(k) !in Added(s, t) && k < |t.calls|
            && (t.calls[k] == s.calls[k] || (!s.calls[k].Init? && !t.calls[k].Init?))
  {
    hide ResumeInit, ResumeApi, ResumeLogin;
    if !s.calls[j].Logout? {
      ResumeTouchesOne(s, j, reply, storage);
    }
  }

  lemma ResumeSettledStays(s: State, j: nat, reply: Reply, storage: Storage, k: nat)
    requires k < |s.calls| && !Alive(s.calls[k]) && j < |s.calls|
    ensures var t := Step(s, Resume(j, reply, storage));
            k < |t.calls| && !Alive(t.calls[k]) && MeWrote(k) !in Added(s, t)
  {
    hide Added, ResumeInit, ResumeApi, ResumeLogin, ResumeLogout;
    if j == k && s.calls[k].Init? {
      SettledInitStays(s, k, reply, storage);
    } else {
      OtherCallStays(s, j, reply, storage, k);
    }
  }

  lemma StartSettledStays(s: State, a: Action, k: nat)
    requires k < |s.calls| && !Alive(s.calls[k]) && !a.Resume?
    ensures var t := Step(s, a); k < |t.calls| && !Alive(t.calls[k]) && MeWrote(k) !in Added(s, t)
  {
    StartAddsToLog(s, a);
    StartKeepsSettled(s, a, k);
  }

  lemma StartKeepsSettled(s: State, a: Action, k: nat)
    requires k < |s.calls| && !Alive(s.calls[k]) && !a.Resume?
    ensures k < |Step(s, a).calls| && !Alive(Step(s, a).calls[k])
  {
  }

  /** An init that has settled, or what never was an init, writes no bearer. */
  lemma SettledStays(s: State, a: Action, k: nat)
    requires k < |s.calls| && !Alive(s.calls[k])
    ensures var t := Step(s, a); k < |t.calls| && !Alive(t.calls[k]) && MeWrote(k) !in Added(s, t)
  {
    hide Alive, Added, ResumeInit, ResumeApi, ResumeLogin, ResumeLogout, BeginAttempt, BeginLogoutCall;
    if !a.Resume? {
      StartSettledStays(s, a, k);
    } else if a.call < |s.calls| {
      ResumeSettledStays(s, a.call, a.reply, a.storage, k);
    } else {
      NothingAdded(s);
    }
  }

  lemma NothingAdded(s: State)
    ensures Added(s, s) == []
  {
  }

  lemma {:induction false} SettledWritesNothing(s: State, more: seq<Action>, k: nat)
    requires k < |s.calls| && !Alive(s.calls[k])
    ensures var t := RunFrom(s, more); k < |t.calls| && !Alive(t.calls[k]) && MeWrote(k) !in Added(s, t)
    decreases |more|
  {
    hide Step, Alive;
    if more == [] {
      assert Added(s, s) == [];
    } else {
      var n := |more| - 1;
      var t := RunFrom(s, more[..n]);
      SettledWritesNothing(s, more[..n], k);
      SettledStays(t, more[n], k);
      RunAddsToLog(s, more[..n]);
      StepAddsToLog(t, more[n]);
      AddedOn(s, t, Step(t, more[n]));
    }
  }

  /** With the flag down and not stored, an init that has not settled can write its bearer. */
  lemma OpenedInitWrites(s: State, k: nat)
    requires NewestLogoutHoldsFlag(s) && !s.barrier.sticky && k < |s.calls| && Alive(s.calls[k])
    ensures CanStill(s, MeWrote(k))
  {
    hide Step, NewestLogoutHoldsFlag;
    var first := FlagComesDown(s);
    var t := RunFrom(s, first);
    var more := InitCanFinish(t, k);
    RunThenRun(s, first, more);
    ReadableBoth(first, more);
    InBefore(Added(s, RunFrom(s, first + more)), MeWrote(k));
  }

  /** And so it can after a later login has cleared the sticky flag. */
  lemma LaterLoginLetsInitWrite(s: State, k: nat)
    requires NewestLogoutHoldsFlag(s) && k < |s.calls| && Alive(s.calls[k])
    ensures CanEver(s, MeWrote(k))
  {
    hide Step, NewestLogoutHoldsFlag;
    var first := FlagComesDown(s);
    var t := RunFrom(s, first);
    var second := LoginClearsFlag(t);
    var u := RunFrom(t, second);
    var more := InitCanFinish(u, k);
    RunThenRun(t, second, more);
    RunThenRun(s, first, second + more);
    ReadableBoth(second, more);
    ReadableBoth(first, second + more);
    assert MeWrote(k) in Added(s, RunFrom(s, first + (second + more)));
  }

  /**
    In every reachable state in which a logout begins, while storage can be read: an init begun before it
    can write a bearer after it exactly when the init has not settled; and before the next successful login
    exactly when, besides, the sticky flag is not stored.
  */
  lemma OlderInitWritesExactly(past: seq<Action>, storage: Storage, k: nat)
    requires k < |Run(past).calls|
    ensures var s := Run(past);
            var t := Step(s, StartLogout(storage));
            && (CanEver(t, MeWrote(k)) <==> Alive(s.calls[k]))
            && (CanStill(t, MeWrote(k)) <==> Alive(s.calls[k]) && !FlagStored(s, storage))
  {
    hide Run, NewestLogoutHoldsFlag, Before;
    var s := Run(past);
    var t := Step(s, StartLogout(storage));
    RunsKeepFlag(past);
    LogoutBeginsWithFlag(s, storage);
    assert Alive(t.calls[k]) <==> Alive(s.calls[k]);
    if Alive(s.calls[k]) {
      LaterLoginLetsInitWrite(t, k);
      if !FlagStored(s, storage) {
        OpenedInitWrites(t, k);
      } else {
        forall more | Readable(more)
          ensures !Before(Added(t, RunFrom(t, more)), MeWrote(k))
        {
          SignedOutUntilLogin(s, storage, more);
        }
      }
    } else {
      forall more
        ensures MeWrote(k) !in Added(t, RunFrom(t, more)) && !Before(Added(t, RunFrom(t, more)), MeWrote(k))
      {
        SettledWritesNothing(t, more, k);
        NotInNotBefore(Added(t, RunFrom(t, more)), MeWrote(k));
      }
    }
  }

  lemma NotInNotBefore(events: seq<Event>, e: Event)
    requires e !in events
    ensures !Before(events, e)
  {
  }
}
