/** The store, the API module and their shared variables, updated in place between awaits. */
module AuthStore {
  import opened Options
  import opened LogoutBarrier
  import opened AuthProtocol

  class Store {
    const gate: LogoutGate
    var bearer: bool
    var authenticated: bool
    var activeInit: Option<nat>
    var sharedExchange: Option<nat>
    var runs: nat
    var calls: seq<Call>
    ghost var log: seq<Event>

    ghost function View(): State
      reads this, gate
    {
      State(gate.View(), bearer, authenticated, activeInit, sharedExchange, runs, calls, log)
    }

    constructor (gate: LogoutGate)
      requires gate.View() == OPEN
      ensures View() == START && this.gate == gate
    {
      this.gate := gate;
      bearer, authenticated, activeInit, sharedExchange, runs, calls := false, false, None, None, 0, [];
      log := [];
    }

    // ---- The bearer in session storage ----

    /** Whether there is a bearer; None is the exception of a failing read. */
    method GetBearer(storage: Storage) returns (token: Option<bool>)
      ensures token == if storage.readable then Some(bearer) else None
    {
      token := if storage.readable then Some(bearer) else None;
    }

    /** Not ok is the exception of a failing write. */
    method SetBearer(storage: Storage) returns (ok: bool)
      modifies this`bearer
      ensures ok == storage.writable && bearer == (old(bearer) || ok)
    {
      ok := storage.writable;
      if ok {
        bearer := true;
      }
    }

    /** Not ok is the exception of a failing removal. */
    method ClearBearer(storage: Storage) returns (ok: bool)
      modifies this`bearer
      ensures ok == storage.removable && bearer == (old(bearer) && !ok)
    {
      ok := storage.removable;
      if ok {
        bearer := false;
      }
    }

    // ---- init ----

    method StartInit(storage: Storage)
      modifies this
      ensures View() == Step(old(View()), Action.StartInit(storage))
    {
      log := log + [InitStarted(|calls|)];
      activeInit := Some(|calls|);
      calls := calls + [Init(0, false, Over)];
      BeginAttempt(|calls| - 1, Init(0, false, Over), storage);
    }

    /** fetchMeWithRetry up to its first wait in an attempt. */
    method BeginAttempt(k: nat, c: Call, storage: Storage)
      requires k < |calls| && c.Init?
      modifies this
      ensures View() == AuthProtocol.BeginAttempt(old(View()), k, c, storage)
    {
      var accepts := gate.CanAcceptAuthSession(storage);
      if !accepts {
        calls := calls[k := c.(at := Settled(false))];
        return;
      }
      var token := GetBearer(storage);
      if token == None {
        calls := calls[k := Retry(c)];
        return;
      }
      if token.value {
        calls := calls[k := c.(at := AfterEnsure)];
        return;
      }
      calls := calls[k := c.(at := ProviderToken(runs, gate.logoutEpoch))];
      log := log + [EnsureStarted(runs)];
      runs := runs + 1;
    }

    /** ensureAicserBearerFromEeSession after one of its waits. */
    method ResumeEnsure(k: nat, reply: Reply, storage: Storage)
      requires k < |calls| && calls[k].Init?
               && (calls[k].at.ProviderToken? || calls[k].at.Exchange? || calls[k].at.ExchangeBody?)
      modifies this
      ensures View() == AuthProtocol.ResumeEnsure(old(View()), k, old(calls[k]), reply, storage)
    {
      var c := calls[k];
      var run, epochAtStart := c.at.run, c.at.epochAtStart;
      if c.at.Exchange? && reply.Rejected? {
        calls := calls[k := Retry(c)];
        return;
      }
      calls := calls[k := c.(at := AfterEnsure)];
      if !reply.Good? || (c.at.ProviderToken? && !reply.token) {
        return;
      }
      var accepts := gate.CanAcceptAuthSession(storage);
      var stale := gate.IsStaleLogoutEpoch(epochAtStart);
      if !accepts || stale {
        return;
      }
      if c.at.ProviderToken? {
        calls := calls[k := c.(at := Exchange(run, epochAtStart))];
      } else if c.at.Exchange? {
        calls := calls[k := c.(at := ExchangeBody(run, epochAtStart))];
      } else if !reply.twoFactor && reply.token {
        var ok := SetBearer(storage);
        if ok {
          log := log + [EnsureWrote(run)];
        } else {
          calls := calls[k := Retry(c)];
        }
      }
    }

    /** fetchMeWithRetry after the exchange, after the request, and after its body. */
    method ResumeMe(k: nat, reply: Reply, storage: Storage)
      requires k < |calls| && calls[k].Init? && (calls[k].at.AfterEnsure? || calls[k].at.Me? || calls[k].at.MeBody?)
      modifies this
      ensures View() == AuthProtocol.ResumeMe(old(View()), k, old(calls[k]), reply, storage)
    {
      var c := calls[k];
      if (c.at.Me? && reply.Rejected?) || (c.at.MeBody? && !reply.Good?) {
        calls := calls[k := Retry(c)];
        return;
      }
      var accepts := gate.CanAcceptAuthSession(storage);
      if !accepts {
        calls := calls[k := c.(at := Settled(false))];
        return;
      }
      if c.at.AfterEnsure? {
        var token := GetBearer(storage);
        calls := calls[k := if token.Some? then c.(at := Me) else Retry(c)];
      } else if c.at.Me? {
        if reply.NotOk? {
          calls := calls[k := if reply.unauthorized then c.(at := Settled(false)) else Retry(c)];
        } else {
          calls := calls[k := c.(at := MeBody)];
        }
      } else {
        if reply.token {
          var ok := SetBearer(storage);
          if !ok {
            calls := calls[k := Retry(c)];
            return;
          }
          log := log + [MeWrote(k)];
        }
        calls := calls[k := c.(at := Settled(reply.user))];
      }
    }

    /** init's continuation. */
    method SettleInit(k: nat, storage: Storage)
      requires k < |calls| && calls[k].Init? && calls[k].at.Settled?
      modifies this
      ensures View() == AuthProtocol.SettleInit(old(View()), k, old(calls[k]), storage)
    {
      var c := calls[k];
      calls := calls[k := Finished(c)];
      var accepts := gate.CanAcceptAuthSession(storage);
      if c.cancelled || !accepts {
        return;
      }
      if c.at.user || authenticated {
        var token := GetBearer(storage);
        if token == None {
          calls := calls[k := c.(at := Caught)];
        } else if c.at.user {
          authenticated := true;
          log := log + [BecameAuthenticated];
        } else if !token.value {
          authenticated := false;
        }
      }
    }

    /** Its `catch`. */
    method CatchInit(k: nat, storage: Storage)
      requires k < |calls| && calls[k].Init? && calls[k].at.Caught?
      modifies this
      ensures View() == AuthProtocol.CatchInit(old(View()), k, old(calls[k]), storage)
    {
      var c := calls[k];
      calls := calls[k := Finished(c)];
      var accepts := gate.CanAcceptAuthSession(storage);
      if c.cancelled || !accepts {
        return;
      }
      if authenticated {
        var token := GetBearer(storage);
        if token == Some(false) {
          authenticated := false;
        }
      }
    }

    /** The function init returns, called when its component goes away. */
    method Unmount(k: nat)
      modifies this
      ensures View() == Step(old(View()), Action.Unmount(k))
    {
      if k < |calls| && calls[k].Init? {
        calls := calls[k := calls[k].(cancelled := true)];
        activeInit := None;
      }
    }

    // ---- exchangeEeTokenForAicserBearer ----

    method StartApi(storage: Storage)
      modifies this
      ensures View() == Step(old(View()), Action.StartApi(storage))
    {
      var accepts := gate.CanAcceptAuthSession(storage);
      if !accepts || sharedExchange.Some? {
        return;
      }
      sharedExchange := Some(|calls|);
      calls := calls + [Api(Fetch(runs, gate.logoutEpoch))];
      log := log + [ApiStarted(runs)];
      runs := runs + 1;
    }

    method ResumeApi(k: nat, reply: Reply, storage: Storage)
      requires k < |calls| && calls[k].Api?
      modifies this
      ensures View() == AuthProtocol.ResumeApi(old(View()), k, old(calls[k]), reply, storage)
    {
      var at := calls[k].api;
      if at.Settling? {
        sharedExchange := None;
        calls := calls[k := Done];
        return;
      }
      calls := calls[k := Api(Settling(at.run))];
      if !reply.Good? {
        return;
      }
      if at.Fetch? {
        var stale := gate.IsStaleLogoutEpoch(at.epochAtStart);
        var accepts := gate.CanAcceptAuthSession(storage);
        if stale || !accepts {
          return;
        }
        calls := calls[k := Api(FetchBody(at.run))];
        log := log + [ApiChecked(at.run)];
      } else if reply.token {
        var ok := SetBearer(storage);
        if ok {
          log := log + [ApiWrote(at.run)];
        }
      }
    }

    // ---- login, signup, logout ----

    /** login and signup up to their success, and from there to the request for the current user. */
    method ResumeCredentials(k: nat, reply: Reply, storage: Storage)
      requires k < |calls| && calls[k].Login? && (calls[k].login.Credentials? || calls[k].login.Accepted?)
      modifies this, gate
      ensures View() == AuthProtocol.ResumeLogin(old(View()), k, old(calls[k]), reply, storage)
    {
      var c := calls[k];
      calls := calls[k := Done];
      if c.login.Credentials? {
        if !reply.Good? || reply.twoFactor {
          return;
        }
        var ok := true;
        if reply.token {
          ok := SetBearer(storage);
        }
        if ok {
          calls := calls[k := c.(login := Accepted)];
        }
      } else if c.verified {
        gate.ClearIntentionalLogout(storage);
        log := log + [LoginSucceeded];
        var token := GetBearer(storage);
        if token.Some? {
          calls := calls[k := c.(login := LoginMe)];
        }
      }
    }

    /** login and signup with the current user's answer. */
    method ResumeLoginMe(k: nat, reply: Reply, storage: Storage)
      requires k < |calls| && calls[k].Login? && (calls[k].login.LoginMe? || calls[k].login.LoginMeBody?)
      modifies this
      ensures View() == AuthProtocol.ResumeLogin(old(View()), k, old(calls[k]), reply, storage)
    {
      var c := calls[k];
      calls := calls[k := Done];
      if c.login.LoginMe? && reply.Good? {
        calls := calls[k := c.(login := LoginMeBody)];
        return;
      }
      if if c.login.LoginMe? then reply.Rejected? else !reply.Good? {
        return;
      }
      if c.login.LoginMeBody? && reply.token {
        var ok := SetBearer(storage);
        if !ok {
          return;
        }
      }
      var token := GetBearer(storage);
      if token == None {
        return;
      }
      authenticated := c.login.LoginMeBody? && reply.user;
      if authenticated {
        log := log + [BecameAuthenticated];
      }
    }

    method StartLogout(storage: Storage)
      modifies this, gate
      ensures View() == Step(old(View()), Action.StartLogout(storage))
    {
      log := log + [LogoutBegan];
      var epoch := gate.BeginLogout(storage);
      if activeInit.Some? && activeInit.value < |calls| && calls[activeInit.value].Init? {
        calls := calls[activeInit.value := calls[activeInit.value].(cancelled := true)];
      }
      var ok := ClearBearer(storage);
      if !ok {
        calls := calls + [Stuck(epoch)];
        return;
      }
      authenticated := false;
      calls := calls + [Logout(epoch)];
    }

    /** The `finally` of logout, once the provider has answered or failed. */
    method FinishLogout(k: nat, storage: Storage)
      requires k < |calls| && calls[k].Logout?
      modifies this, gate
      ensures View() == ResumeLogout(old(View()), k, old(calls[k].epoch), storage)
    {
      var epoch := calls[k].epoch;
      calls := calls[k := Stuck(epoch)];
      var ok := ClearBearer(storage);
      if !ok {
        return;
      }
      authenticated := false;
      gate.EndLogout(Some(epoch));
      calls := calls[k := Done];
    }

    // ---- One step of any of them ----

    method Resume(k: nat, reply: Reply, storage: Storage)
      requires k < |calls|
      modifies this, gate
      ensures View() == Step(old(View()), Action.Resume(k, reply, storage))
    {
      match calls[k]
      case Init(attempt, _, at) =>
        if at.Settled? {
          SettleInit(k, storage);
        } else if at.Caught? {
          CatchInit(k, storage);
        } else if at.Backoff? {
          BeginAttempt(k, calls[k].(attempt := attempt + 1), storage);
        } else if at.AfterEnsure? || at.Me? || at.MeBody? {
          ResumeMe(k, reply, storage);
        } else if !at.Over? {
          ResumeEnsure(k, reply, storage);
        }
      case Api(_) => ResumeApi(k, reply, storage);
      case Login(_, login) =>
        if login.Credentials? || login.Accepted? {
          ResumeCredentials(k, reply, storage);
        } else {
          ResumeLoginMe(k, reply, storage);
        }
      case Logout(_) => FinishLogout(k, storage);
      case _ =>
    }
  }
}
