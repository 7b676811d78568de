/** One attempt of init and the next: what its answers make of it, how often it tries, and how it is called off. */
module AuthAttempts {
  import opened Options
  import opened LogoutBarrier
  import opened AuthProtocol
  import opened AuthRuns
  import opened AuthEffects
  import opened AuthAnswers

  /** The state once call k has had these answers, one after the other, with storage working. */
  function Answered(s: State, k: nat, replies: seq<Reply>): State
    decreases |replies|
  {
    if replies == [] then s else Answered(Step(s, Resume(k, replies[0], WORKING)), k, replies[1..])
  }

  lemma {:induction false} AnsweredIsRun(s: State, k: nat, replies: seq<Reply>) returns (actions: seq<Action>)
    ensures Answered(s, k, replies) == RunFrom(s, actions)
    ensures |actions| == |replies| && forall i | 0 <= i < |actions| :: actions[i] == Resume(k, replies[i], WORKING)
    decreases |replies|
  {
    if replies == [] {
      actions := [];
    } else {
      var a := Resume(k, replies[0], WORKING);
      var more := AnsweredIsRun(Step(s, a), k, replies[1..]);
      StepThenRun(s, a, more);
      actions := [a] + more;
    }
  }

  lemma Answered1(s: State, k: nat, r: Reply)
    ensures Answered(s, k, [r]) == Step(s, Resume(k, r, WORKING))
  {
    hide Step;
    assert [r][1..] == [];
  }

  lemma AnsweredThen(s: State, k: nat, r: Reply, rest: seq<Reply>)
    ensures Answered(s, k, [r] + rest) == Answered(Step(s, Resume(k, r, WORKING)), k, rest)
  {
    hide Step;
    assert ([r] + rest)[1..] == rest;
  }

  lemma {:induction false} AnsweredBoth(s: State, k: nat, first: seq<Reply>, more: seq<Reply>)
    ensures Answered(s, k, first + more) == Answered(Answered(s, k, first), k, more)
    decreases |first|
  {
    hide Step;
    if first == [] {
      assert first + more == more;
    } else {
      assert (first + more)[1..] == first[1..] + more;
      AnsweredBoth(Step(s, Resume(k, first[0], WORKING)), k, first[1..], more);
    }
  }

  /** Call k is an init, in that attempt, waiting there. */
  predicate WaitsAt(s: State, k: nat, attempt: nat, at: InitPoint) {
    k < |s.calls| && s.calls[k].Init? && s.calls[k].attempt == attempt && s.calls[k].at == at
  }

  /** But for the log and the runs, only call k differs, and not in whether it is cancelled. */
  predicate OnlyMoves(s: State, t: State, k: nat) {
    && k < |s.calls| && s.calls[k].Init? && |t.calls| == |s.calls| && t.calls[k].Init?
    && t.calls[k].cancelled == s.calls[k].cancelled && t.barrier == s.barrier
  }

  // ---- The exchange ----

  lemma ProviderAnswers(s: State, k: nat, n: nat, run: nat, e: nat, r: Reply)
    requires IsOpen(s) && WaitsAt(s, k, n, ProviderToken(run, e)) && e == s.barrier.epoch
    ensures var t := Step(s, Resume(k, r, WORKING));
            && OnlyMoves(s, t, k) && t.bearer == s.bearer
            && WaitsAt(t, k, n, if r.Good? && r.token then Exchange(run, e) else AfterEnsure)
  {
  }

  lemma ExchangeAnswers(s: State, k: nat, n: nat, run: nat, e: nat, r: Reply)
    requires IsOpen(s) && WaitsAt(s, k, n, Exchange(run, e)) && e == s.barrier.epoch
    ensures var t := Step(s, Resume(k, r, WORKING));
            && OnlyMoves(s, t, k) && t.bearer == s.bearer
            && (r.Good? ==> WaitsAt(t, k, n, ExchangeBody(run, e)))
            && (r.NotOk? ==> WaitsAt(t, k, n, AfterEnsure))
            && (r.Rejected? ==> WaitsAt(t, k, n, if n < 3 then Backoff else Settled(false)))
  {
  }

  lemma BodyAnswers(s: State, k: nat, n: nat, run: nat, e: nat, r: Reply)
    requires IsOpen(s) && WaitsAt(s, k, n, ExchangeBody(run, e)) && e == s.barrier.epoch
    ensures var t := Step(s, Resume(k, r, WORKING));
            && OnlyMoves(s, t, k) && WaitsAt(t, k, n, AfterEnsure)
            && t.bearer == (s.bearer || (r.Good? && r.token && !r.twoFactor))
  {
  }

  /**
    With nothing in its way an exchange stores a bearer exactly when the provider has a token, the server
    takes it, and the body has one and asks for no second factor.
  */
  lemma ExchangeStoresExactly(s: State, k: nat, n: nat, run: nat, r1: Reply, r2: Reply, r3: Reply)
    requires IsOpen(s) && !s.bearer && WaitsAt(s, k, n, ProviderToken(run, s.barrier.epoch))
    requires r1.Good? && r1.token && r2.Good?
    ensures var t := Answered(s, k, [r1, r2, r3]);
            WaitsAt(t, k, n, AfterEnsure) && (t.bearer <==> r3.Good? && r3.token && !r3.twoFactor)
  {
    hide Step, IsOpen, WaitsAt;
    var e := s.barrier.epoch;
    var s1 := Step(s, Resume(k, r1, WORKING));
    var s2 := Step(s1, Resume(k, r2, WORKING));
    assert IsOpen(s1) && IsOpen(s2) && s2.barrier == s.barrier by {
      ProviderAnswers(s, k, n, run, e, r1);
      SameBarrier(s, s1);
      ExchangeAnswers(s1, k, n, run, e, r2);
      SameBarrier(s1, s2);
    }
    ProviderAnswers(s, k, n, run, e, r1);
    ExchangeAnswers(s1, k, n, run, e, r2);
    BodyAnswers(s2, k, n, run, e, r3);
    AnsweredThen(s, k, r1, [r2, r3]);
    AnsweredThen(s1, k, r2, [r3]);
    Answered1(s2, k, r3);
    assert [r1] + [r2, r3] == [r1, r2, r3] && [r2] + [r3] == [r2, r3];
  }

  lemma SameBarrier(s: State, t: State)
    requires IsOpen(s) && t.barrier == s.barrier
    ensures IsOpen(t)
  {
  }

  /**
    A provider without a token, or a server that refuses it, ends the exchange without a bearer, but not the
    attempt; a server that cannot be reached ends the attempt.
  */
  lemma RefusedExchangeGoesOn(s: State, k: nat, n: nat, run: nat, r1: Reply, r2: Reply)
    requires IsOpen(s) && WaitsAt(s, k, n, ProviderToken(run, s.barrier.epoch))
    ensures !(r1.Good? && r1.token) ==>
              var t := Answered(s, k, [r1]); WaitsAt(t, k, n, AfterEnsure) && t.bearer == s.bearer
    ensures r1.Good? && r1.token && r2.NotOk? ==>
              var t := Answered(s, k, [r1, r2]); WaitsAt(t, k, n, AfterEnsure) && t.bearer == s.bearer
    ensures r1.Good? && r1.token && r2.Rejected? ==>
              WaitsAt(Answered(s, k, [r1, r2]), k, n, if n < 3 then Backoff else Settled(false))
  {
    hide Step, IsOpen, WaitsAt;
    var e := s.barrier.epoch;
    var s1 := Step(s, Resume(k, r1, WORKING));
    ProviderAnswers(s, k, n, run, e, r1);
    SameBarrier(s, s1);
    Answered1(s, k, r1);
    if r1.Good? && r1.token {
      ExchangeAnswers(s1, k, n, run, e, r2);
    }
    AnsweredThen(s, k, r1, [r2]);
    Answered1(s1, k, r2);
    assert [r1] + [r2] == [r1, r2];
  }

  // ---- The request for the current user ----

  lemma EnsureOver(s: State, k: nat, n: nat, r: Reply)
    requires IsOpen(s) && WaitsAt(s, k, n, AfterEnsure)
    ensures var t := Step(s, Resume(k, r, WORKING));
            && OnlyMoves(s, t, k) && WaitsAt(t, k, n, Me) && t.bearer == s.bearer
            && t.log == s.log && t.authenticated == s.authenticated
  {
  }

  lemma MeAnswers(s: State, k: nat, n: nat, r: Reply)
    requires IsOpen(s) && WaitsAt(s, k, n, Me)
    ensures var t := Step(s, Resume(k, r, WORKING));
            && OnlyMoves(s, t, k) && t.bearer == s.bearer && t.log == s.log && t.authenticated == s.authenticated
            && WaitsAt(t, k, n, if r.Good? then MeBody
                                else if r == NotOk(true) || n >= 3 then Settled(false) else Backoff)
  {
  }

  lemma MeBodyAnswers(s: State, k: nat, n: nat, r: Reply)
    requires IsOpen(s) && WaitsAt(s, k, n, MeBody)
    ensures var t := Step(s, Resume(k, r, WORKING));
            && OnlyMoves(s, t, k) && t.bearer == (s.bearer || (r.Good? && r.token))
            && WaitsAt(t, k, n, if r.Good? then Settled(r.user) else if n >= 3 then Settled(false) else Backoff)
            && BecameAuthenticated !in Added(s, t) && t.authenticated == s.authenticated
  {
  }

  lemma SettledAnswers(s: State, k: nat, n: nat, user: bool, r: Reply)
    requires IsOpen(s) && WaitsAt(s, k, n, Settled(user))
    ensures var t := Step(s, Resume(k, r, WORKING));
            && WaitsAt(t, k, n, Over)
            && t.authenticated
               == (if s.calls[k].cancelled then s.authenticated else user || (s.authenticated && s.bearer))
            && (BecameAuthenticated in Added(s, t) <==> user && !s.calls[k].cancelled)
  {
  }

  /**
    With nothing in its way, and told that the current user can be asked for: an init not called off signs
    in with the body exactly when that names a user; else the store stays signed in exactly if it was and
    there is a bearer.
  */
  lemma InitSignsInExactly(s: State, k: nat, n: nat, r1: Reply, r2: Reply)
    requires IsOpen(s) && WaitsAt(s, k, n, AfterEnsure) && r1.Good? && r2.Good?
    ensures var t := Answered(s, k, [OK, r1, r2, OK]);
            && WaitsAt(t, k, n, Over)
            && t.authenticated
               == (if s.calls[k].cancelled then s.authenticated
                   else r2.user || (s.authenticated && (s.bearer || r2.token)))
  {
    hide Step, IsOpen, WaitsAt;
    var s1 := Step(s, Resume(k, OK, WORKING));
    var s2 := Step(s1, Resume(k, r1, WORKING));
    var s3 := Step(s2, Resume(k, r2, WORKING));
    EnsureOver(s, k, n, OK);
    SameBarrier(s, s1);
    MeAnswers(s1, k, n, r1);
    SameBarrier(s1, s2);
    MeBodyAnswers(s2, k, n, r2);
    SameBarrier(s2, s3);
    SettledAnswers(s3, k, n, r2.user, OK);
    AnsweredThen(s, k, OK, [r1, r2, OK]);
    AnsweredThen(s1, k, r1, [r2, OK]);
    AnsweredThen(s2, k, r2, [OK]);
    Answered1(s3, k, OK);
    assert [OK] + [r1, r2, OK] == [OK, r1, r2, OK] && [r1] + [r2, OK] == [r1, r2, OK] && [r2] + [OK] == [r2, OK];
  }

  // ---- Four attempts ----

  lemma BackedOff(s: State, k: nat, n: nat, r: Reply)
    requires IsOpen(s) && s.bearer && WaitsAt(s, k, n, Backoff)
    ensures var t := Step(s, Resume(k, r, WORKING));
            OnlyMoves(s, t, k) && WaitsAt(t, k, n + 1, AfterEnsure) && t.bearer
  {
  }

  /** The answers of attempts whose requests fail, with the waits between them. */
  function Rounds(fails: seq<Reply>): seq<Reply>
    decreases |fails|
  {
    if fails == [] then [] else if |fails| == 1 then [OK, fails[0]] else [OK, fails[0], OK] + Rounds(fails[1..])
  }

  lemma OneRound(s: State, k: nat, n: nat, fail: Reply)
    requires IsOpen(s) && s.bearer && WaitsAt(s, k, n, AfterEnsure) && !fail.Good? && fail != NotOk(true)
    ensures var t := Answered(s, k, [OK, fail]);
            IsOpen(t) && t.bearer && WaitsAt(t, k, n, if n >= 3 then Settled(false) else Backoff)
  {
    hide Step, IsOpen, WaitsAt;
    var s1 := Step(s, Resume(k, OK, WORKING));
    EnsureOver(s, k, n, OK);
    SameBarrier(s, s1);
    MeAnswers(s1, k, n, fail);
    SameBarrier(s1, Step(s1, Resume(k, fail, WORKING)));
    AnsweredThen(s, k, OK, [fail]);
    Answered1(s1, k, fail);
    assert [OK] + [fail] == [OK, fail];
  }

  /**
    Requests that fail without a 401 are made again, up to the fourth: after that many failures, and no
    fewer, init settles without a user.
  */
  lemma {:induction false} GivesUpAfterFour(s: State, k: nat, n: nat, fails: seq<Reply>)
    requires IsOpen(s) && s.bearer && WaitsAt(s, k, n, AfterEnsure) && fails != [] && n + |fails| <= 4
    requires forall i | 0 <= i < |fails| :: !fails[i].Good? && fails[i] != NotOk(true)
    ensures var t := Answered(s, k, Rounds(fails));
            WaitsAt(t, k, n + |fails| - 1, if n + |fails| == 4 then Settled(false) else Backoff)
    decreases |fails|
  {
    hide Step, IsOpen, WaitsAt, Answered;
    OneRound(s, k, n, fails[0]);
    if |fails| == 1 {
    } else {
      var t := Answered(s, k, [OK, fails[0]]);
      var u := Step(t, Resume(k, OK, WORKING));
      BackedOff(t, k, n, OK);
      SameBarrier(t, u);
      Answered1(t, k, OK);
      AnsweredBoth(s, k, [OK, fails[0]], [OK]);
      AnsweredBoth(s, k, [OK, fails[0], OK], Rounds(fails[1..]));
      assert [OK, fails[0]] + [OK] == [OK, fails[0], OK];
      GivesUpAfterFour(u, k, n + 1, fails[1..]);
    }
  }

  /** Requests of call k for the current user, all attempts together. */
  function Requests(actions: seq<Action>, k: nat): nat {
    if actions == [] then 0
    else
      var front := actions[..|actions| - 1];
      Requests(front, k) + if Asks(Run(front), Run(actions), k) then 1 else 0
  }

  predicate Asks(s: State, t: State, k: nat) {
    && k < |s.calls| && k < |t.calls| && s.calls[k].Init? && t.calls[k].Init?
    && s.calls[k].at == AfterEnsure && t.calls[k].at == Me
  }

  /** The attempt, or the one before while this one has not come to its request. */
  function Tried(c: Call): nat
    requires c.Init?
  {
    c.attempt + if c.at.ProviderToken? || c.at.Exchange? || c.at.ExchangeBody? || c.at.AfterEnsure? then 0 else 1
  }

  predicate InBounds(c: Call) {
    c.Init? && c.attempt <= 3 && (c.at == Backoff ==> c.attempt < 3)
  }

  lemma AttemptInBounds(s: State, k: nat, c: Call, storage: Storage)
    requires k < |s.calls| && c.Init? && c.attempt <= 3
    ensures var d := BeginAttempt(s, k, c, storage).calls[k]; InBounds(d) && c.attempt <= Tried(d) && d.at != Me
  {
  }

  lemma EnsureInBounds(s: State, k: nat, c: Call, reply: Reply, storage: Storage)
    requires k < |s.calls| && InBounds(c) && (c.at.ProviderToken? || c.at.Exchange? || c.at.ExchangeBody?)
    ensures var d := ResumeEnsure(s, k, c, reply, storage).calls[k]; InBounds(d) && Tried(c) <= Tried(d)
  {
  }

  lemma MeInBounds(s: State, k: nat, c: Call, reply: Reply, storage: Storage)
    requires k < |s.calls| && InBounds(c) && (c.at.AfterEnsure? || c.at.Me? || c.at.MeBody?)
    ensures var d := ResumeMe(s, k, c, reply, storage).calls[k];
            InBounds(d) && Tried(c) + (if c.at == AfterEnsure && d.at == Me then 1 else 0) <= Tried(d)
  {
  }

  lemma InitInBounds(s: State, k: nat, reply: Reply, storage: Storage)
    requires k < |s.calls| && InBounds(s.calls[k])
    ensures var t := Step(s, Resume(k, reply, storage));
            |t.calls| == |s.calls| && InBounds(t.calls[k])
            && Tried(s.calls[k]) + (if Asks(s, t, k) then 1 else 0) <= Tried(t.calls[k])
  {
    hide BeginAttempt, ResumeEnsure, ResumeMe;
    OwnAnswerKeepsKind(s, k, reply, storage);
    var c := s.calls[k];
    if c.at == Backoff {
      AttemptInBounds(s, k, c.(attempt := c.attempt + 1), storage);
    } else if c.at.ProviderToken? || c.at.Exchange? || c.at.ExchangeBody? {
      EnsureInBounds(s, k, c, reply, storage);
    } else if c.at.AfterEnsure? || c.at.Me? || c.at.MeBody? {
      MeInBounds(s, k, c, reply, storage);
    }
  }

  lemma NewCallInBounds(s: State, a: Action, k: nat)
    requires |s.calls| <= k < |Step(s, a).calls| && Step(s, a).calls[k].Init?
    ensures InBounds(Step(s, a).calls[k])
  {
    hide ResumeInit, ResumeApi, ResumeLogin;
    if IsResumed(s, a) {
      OwnAnswerKeepsKind(s, a.call, a.reply, a.storage);
    }
  }

  lemma {:induction false} RequestsAreTries(actions: seq<Action>, k: nat)
    ensures k < |Run(actions).calls| && Run(actions).calls[k].Init? ==>
              InBounds(Run(actions).calls[k]) && Requests(actions, k) <= Tried(Run(actions).calls[k])
    ensures !(k < |Run(actions).calls| && Run(actions).calls[k].Init?) ==> Requests(actions, k) == 0
  {
    hide Step, InBounds, Tried;
    if actions == [] {
      assert Run(actions) == START;
    } else {
      var front, a := actions[..|actions| - 1], actions[|actions| - 1];
      RequestsAreTries(front, k);
      RunStep(front, a);
      assert front + [a] == actions;
      OneMoreStep(Run(front), a, k);
    }
  }

  lemma OneMoreStep(s: State, a: Action, k: nat)
    ensures var t := Step(s, a);
            if k < |s.calls| && s.calls[k].Init? then
              k < |t.calls| && t.calls[k].Init?
              && (InBounds(s.calls[k]) ==>
                    InBounds(t.calls[k])
                    && Tried(s.calls[k]) + (if Asks(s, t, k) then 1 else 0) <= Tried(t.calls[k]))
            else !Asks(s, t, k) && (k < |t.calls| && t.calls[k].Init? ==> k >= |s.calls| && InBounds(t.calls[k]))
  {
    hide ResumeInit, ResumeApi, ResumeLogin, BeginAttempt, BeginLogoutCall;
    if k >= |s.calls| {
      if k < |Step(s, a).calls| && Step(s, a).calls[k].Init? {
        NewCallInBounds(s, a, k);
      }
    } else if a.Resume? && a.call == k {
      OwnAnswerKeepsKind(s, k, a.reply, a.storage);
      if InBounds(s.calls[k]) {
        InitInBounds(s, k, a.reply, a.storage);
      }
    } else {
      OtherActionsKeep(s, a, k);
    }
  }

  /** In every run an init asks for the current user four times at most, however its requests fail. */
  lemma AtMostFourRequests(actions: seq<Action>, k: nat)
    ensures Requests(actions, k) <= 4
  {
    hide Run;
    RequestsAreTries(actions, k);
  }

  /** A 401 ends it at once. */
  lemma UnauthorizedEnds(s: State, k: nat, n: nat)
    requires IsOpen(s) && WaitsAt(s, k, n, Me)
    ensures WaitsAt(Answered(s, k, [NotOk(true)]), k, n, Settled(false))
  {
    hide Step;
    MeAnswers(s, k, n, NotOk(true));
    Answered1(s, k, NotOk(true));
  }

  // ---- Throws and refusals ----

  /** The attempt throws: the network or the server fails, or storage does where the bearer is read or written. */
  predicate Throws(s: State, c: Call, reply: Reply, storage: Storage)
    requires c.Init?
  {
    match c.at
    case Exchange(_, _) => reply.Rejected?
    case ExchangeBody(_, e) =>
      reply.Good? && reply.token && !reply.twoFactor && e == s.barrier.epoch && Open(s, storage) && !storage.writable
    case AfterEnsure => Open(s, storage) && !storage.readable
    case Me => reply.Rejected? || (Open(s, storage) && reply == NotOk(false))
    case MeBody => !reply.Good? || (Open(s, storage) && reply.token && !storage.writable)
    case _ => false
  }

  /** The barrier is asked here, and refuses. */
  predicate Refuses(s: State, c: Call, reply: Reply, storage: Storage)
    requires c.Init?
  {
    !Open(s, storage) && (c.at == AfterEnsure || (c.at == Me && !reply.Rejected?) || (c.at == MeBody && reply.Good?))
  }

  /**
    Whatever storage does: an attempt is made again exactly when it throws and was not the fourth; a throw in
    the fourth, and a refusal by the barrier in any, settle init without a user.
  */
  lemma TriesAgainExactly(s: State, k: nat, reply: Reply, storage: Storage)
    requires k < |s.calls| && s.calls[k].Init? && s.calls[k].at != Backoff
    ensures var c, d := s.calls[k], Step(s, Resume(k, reply, storage)).calls[k];
            && d.Init? && (d.at == Backoff <==> Throws(s, c, reply, storage) && c.attempt < 3)
            && (Throws(s, c, reply, storage) && c.attempt >= 3 ==> d.at == Settled(false))
            && (Refuses(s, c, reply, storage) ==> d.at == Settled(false))
  {
    hide BeginAttempt;
    if s.calls[k].at.Settled? || s.calls[k].at.Caught? || s.calls[k].at.Over? {
      EndTriesNoMore(s, k, reply, storage);
    }
  }

  lemma EndTriesNoMore(s: State, k: nat, reply: Reply, storage: Storage)
    requires k < |s.calls| && s.calls[k].Init?
    requires s.calls[k].at.Settled? || s.calls[k].at.Caught? || s.calls[k].at.Over?
    ensures var d := Step(s, Resume(k, reply, storage)).calls[k]; d.Init? && (d.at.Caught? || d.at.Over?)
  {
  }

  /** A new attempt throws, is refused, asks for the user with the bearer there is, or exchanges tokens for one. */
  lemma AttemptBeginsExactly(s: State, k: nat, reply: Reply, storage: Storage)
    requires k < |s.calls| && s.calls[k].Init? && s.calls[k].at == Backoff && s.calls[k].attempt < 3
    ensures var n, d := s.calls[k].attempt + 1, Step(s, Resume(k, reply, storage)).calls[k];
            && d.Init? && d.attempt == n
            && d.at == (if !Open(s, storage) then Settled(false)
                        else if !storage.readable then (if n < 3 then Backoff else Settled(false))
                        else if s.bearer then AfterEnsure else ProviderToken(s.runs, s.barrier.epoch))
  {
  }

  // ---- Called off ----

  predicate CalledOff(s: State, k: nat) {
    k < |s.calls| && s.calls[k].Init? && s.calls[k].cancelled
  }

  lemma InitStaysCalledOff(s: State, k: nat, reply: Reply, storage: Storage)
    requires CalledOff(s, k)
    ensures CalledOff(ResumeInit(s, k, s.calls[k], reply, storage), k)
  {
  }

  lemma StepStaysCalledOff(s: State, a: Action, k: nat)
    requires CalledOff(s, k)
    ensures CalledOff(Step(s, a), k)
  {
    hide ResumeInit, ResumeApi, ResumeLogin;
    if a.Resume? && a.call == k {
      InitStaysCalledOff(s, k, a.reply, a.storage);
    } else {
      OtherActionsKeep(s, a, k);
    }
  }

  /** Whatever happens, an init that is called off never signs in, not even after a later login. */
  lemma {:induction false} CalledOffForGood(s: State, k: nat, more: seq<Action>, reply: Reply, storage: Storage)
    requires CalledOff(s, k)
    ensures var t := RunFrom(s, more);
            CalledOff(t, k) && BecameAuthenticated !in Added(t, Step(t, Resume(k, reply, storage)))
    decreases |more|
  {
    hide Step;
    if more == [] {
    } else {
      CalledOffForGood(s, k, more[..|more| - 1], reply, storage);
      StepStaysCalledOff(RunFrom(s, more[..|more| - 1]), more[|more| - 1], k);
    }
    SignInExactly(RunFrom(s, more), Resume(k, reply, storage));
  }

  /** Unmounting calls an init off. */
  lemma UnmountCallsOff(s: State, k: nat)
    requires k < |s.calls| && s.calls[k].Init?
    ensures CalledOff(Step(s, Unmount(k)), k) && Step(s, Unmount(k)).activeInit == None
  {
  }

  predicate IsLatest(s: State, k: nat) {
    k < |s.calls| && s.calls[k].Init? && s.activeInit == Some(k)
  }

  lemma OnlyInitsAndUnmountsMoveLatest(s: State, a: Action)
    requires !a.StartInit? && !a.Unmount?
    ensures Step(s, a).activeInit == s.activeInit
  {
  }

  lemma {:induction false} LatestStays(s: State, k: nat, more: seq<Action>)
    requires IsLatest(s, k) && forall i | 0 <= i < |more| :: !more[i].StartInit? && !more[i].Unmount?
    ensures IsLatest(RunFrom(s, more), k)
    decreases |more|
  {
    hide Step;
    if more == [] {
    } else {
      var front, a := more[..|more| - 1], more[|more| - 1];
      LatestStays(s, k, front);
      var t := RunFrom(s, front);
      OnlyInitsAndUnmountsMoveLatest(t, a);
      if a.Resume? && a.call == k {
        OwnAnswerKeepsKind(t, k, a.reply, a.storage);
      } else {
        OtherActionsKeep(t, a, k);
      }
    }
  }

  lemma StartIsLatest(s: State, storage: Storage)
    ensures IsLatest(Step(s, StartInit(storage)), |s.calls|)
  {
  }

  lemma LogoutCallsOff(s: State, k: nat, storage: Storage)
    requires IsLatest(s, k)
    ensures CalledOff(Step(s, StartLogout(storage)), k)
  {
  }

  /** A logout calls off the latest init, whatever has happened since that began but another init or an unmount. */
  lemma LogoutCallsOffLatestInit(s: State, first: Storage, more: seq<Action>, second: Storage)
    requires forall i | 0 <= i < |more| :: !more[i].StartInit? && !more[i].Unmount?
    ensures CalledOff(Step(RunFrom(Step(s, StartInit(first)), more), StartLogout(second)), |s.calls|)
  {
    hide Step;
    StartIsLatest(s, first);
    LatestStays(Step(s, StartInit(first)), |s.calls|, more);
    LogoutCallsOff(RunFrom(Step(s, StartInit(first)), more), |s.calls|, second);
  }
}
