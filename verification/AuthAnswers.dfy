/**
  What the answers decide: over all runs, that nothing but an answer naming a user signs one in; and for
  one call, exactly which answers lead where.
*/
module AuthAnswers {
  import opened Options
  import opened LogoutBarrier
  import opened AuthProtocol
  import opened AuthRuns
  import opened AuthEffects

  // ---- What a call has been answered ----

  datatype Answer = Answer(reply: Reply, storage: Storage)

  /** The answers call k has had in the run, with storage as it was then. */
  function Heard(actions: seq<Action>, k: nat): seq<Answer> {
    if actions == [] then []
    else
      var front, a := actions[..|actions| - 1], actions[|actions| - 1];
      Heard(front, k) + if IsResumed(Run(front), a) && a.call == k then [Answer(a.reply, a.storage)] else []
  }

  /** The action that began call k. */
  function BegunBy(actions: seq<Action>, k: nat): Option<Action> {
    if actions == [] then None
    else
      var front, a := actions[..|actions| - 1], actions[|actions| - 1];
      if k < |Run(front).calls| then BegunBy(front, k)
      else if k < |Run(actions).calls| then Some(a) else None
  }

  lemma RunStep(actions: seq<Action>, a: Action)
    ensures Run(actions + [a]) == Step(Run(actions), a)
    ensures IsResumed(Run(actions), a) ==>
              Heard(actions + [a], a.call) == Heard(actions, a.call) + [Answer(a.reply, a.storage)]
    ensures forall k: nat | !(IsResumed(Run(actions), a) && a.call == k) :: Heard(actions + [a], k) == Heard(actions, k)
  {
    assert (actions + [a])[..|actions + [a]| - 1] == actions;
  }

  /** Only its own answers move a call on, but for an init being cancelled. */
  lemma OtherActionsKeep(s: State, a: Action, k: nat)
    requires k < |s.calls| && !(a.Resume? && a.call == k)
    ensures |s.calls| <= |Step(s, a).calls|
    ensures Step(s, a).calls[k] == s.calls[k]
            || (s.calls[k].Init? && Step(s, a).calls[k] == s.calls[k].(cancelled := true))
  {
    hide ResumeInit, ResumeApi, ResumeLogin, TouchesOne;
    if IsResumed(s, a) && !s.calls[a.call].Logout? {
      ResumeTouchesOne(s, a.call, a.reply, a.storage);
      TouchedAtMostOne(s, Step(s, a), a.call, k);
    } else if !a.Resume? {
      StartKeeps(s, a, k);
    }
  }

  lemma TouchedAtMostOne(s: State, t: State, j: nat, k: nat)
    requires TouchesOne(s, t, j) && k < |s.calls| && k != j
    ensures |t.calls| == |s.calls| && t.calls[k] == s.calls[k]
  {
  }

  lemma StartKeeps(s: State, a: Action, k: nat)
    requires k < |s.calls| && !a.Resume?
    ensures |s.calls| <= |Step(s, a).calls|
    ensures Step(s, a).calls[k] == s.calls[k]
            || (s.calls[k].Init? && Step(s, a).calls[k] == s.calls[k].(cancelled := true))
  {
  }

  lemma OwnAnswerKeepsKind(s: State, k: nat, reply: Reply, storage: Storage)
    requires k < |s.calls|
    ensures |Step(s, Resume(k, reply, storage)).calls| == |s.calls|
    ensures s.calls[k].Init? <==> Step(s, Resume(k, reply, storage)).calls[k].Init?
  {
    hide ResumeInit, ResumeApi, ResumeLogin, TouchesOne;
    if !s.calls[k].Logout? {
      ResumeTouchesOne(s, k, reply, storage);
      TouchedKind(s, Step(s, Resume(k, reply, storage)), k);
    }
  }

  lemma TouchedKind(s: State, t: State, k: nat)
    requires TouchesOne(s, t, k)
    ensures |t.calls| == |s.calls| && (s.calls[k].Init? <==> t.calls[k].Init?)
  {
  }

  // ---- Only an answer with a user signs in ----

  predicate NamesSome(answers: seq<Answer>) {
    answers != [] && answers[|answers| - 1].reply.Good? && answers[|answers| - 1].reply.user
  }

  /** An init that has found a user was told so in its latest answer. */
  ghost predicate FoundIsTold(actions: seq<Action>) {
    forall k | 0 <= k < |Run(actions).calls| && Run(actions).calls[k].Init? ::
      Run(actions).calls[k].at == Settled(true) ==> NamesSome(Heard(actions, k))
  }

  lemma AttemptFindsNothing(s: State, k: nat, c: Call, storage: Storage)
    requires k < |s.calls| && c.Init?
    ensures BeginAttempt(s, k, c, storage).calls[k].Init? && BeginAttempt(s, k, c, storage).calls[k].at != Settled(true)
  {
  }

  lemma EnsureFindsNothing(s: State, k: nat, c: Call, reply: Reply, storage: Storage)
    requires k < |s.calls| && c.Init? && (c.at.ProviderToken? || c.at.Exchange? || c.at.ExchangeBody?)
    ensures var d := ResumeEnsure(s, k, c, reply, storage).calls[k]; d.Init? && d.at != Settled(true)
  {
  }

  lemma MeFinds(s: State, k: nat, c: Call, reply: Reply, storage: Storage)
    requires k < |s.calls| && c.Init? && (c.at.AfterEnsure? || c.at.Me? || c.at.MeBody?)
    ensures var d := ResumeMe(s, k, c, reply, storage).calls[k];
            d.Init? && (d.at == Settled(true) ==> reply.Good? && reply.user)
  {
  }

  lemma InitFinds(s: State, k: nat, reply: Reply, storage: Storage)
    requires k < |s.calls| && s.calls[k].Init?
    ensures var c := ResumeInit(s, k, s.calls[k], reply, storage).calls[k];
            c.Init? && (c.at == Settled(true) ==> reply.Good? && reply.user)
  {
    hide BeginAttempt, ResumeEnsure, ResumeMe;
    var c := s.calls[k];
    if c.at == Backoff {
      AttemptFindsNothing(s, k, c.(attempt := c.attempt + 1), storage);
    } else if c.at.ProviderToken? || c.at.Exchange? || c.at.ExchangeBody? {
      EnsureFindsNothing(s, k, c, reply, storage);
    } else if c.at.AfterEnsure? || c.at.Me? || c.at.MeBody? {
      MeFinds(s, k, c, reply, storage);
    }
  }

  lemma NewCallFindsNothing(s: State, a: Action)
    requires !a.Resume?
    ensures forall k | |s.calls| <= k < |Step(s, a).calls| && Step(s, a).calls[k].Init? ::
              Step(s, a).calls[k].at != Settled(true)
  {
  }

  lemma {:induction false} FoundWasTold(actions: seq<Action>)
    ensures FoundIsTold(actions)
  {
    hide Step, ResumeInit;
    if actions == [] {
      assert Run(actions) == START;
    } else {
      var front, a := actions[..|actions| - 1], actions[|actions| - 1];
      FoundWasTold(front);
      RunStep(front, a);
      assert front + [a] == actions;
      var s, t := Run(front), Run(actions);
      forall k | 0 <= k < |t.calls| && t.calls[k].Init? && t.calls[k].at == Settled(true)
        ensures NamesSome(Heard(actions, k))
      {
        FoundByThen(s, a, k);
        assert k < |s.calls|;
      }
    }
  }

  /** Found in this step by its answer, or before. */
  lemma FoundByThen(s: State, a: Action, k: nat)
    requires k < |Step(s, a).calls| && Step(s, a).calls[k].Init? && Step(s, a).calls[k].at == Settled(true)
    ensures k < |s.calls|
    ensures if a.Resume? && a.call == k then a.reply.Good? && a.reply.user
            else s.calls[k].Init? && s.calls[k].at == Settled(true)
  {
    hide ResumeInit, ResumeApi, ResumeLogin;
    if a.Resume? && a.call < |s.calls| {
      OwnAnswerKeepsKind(s, a.call, a.reply, a.storage);
    }
    if k >= |s.calls| {
      if !a.Resume? {
        NewCallFindsNothing(s, a);
      }
    } else if a.Resume? && a.call == k {
      InitFinds(s, k, a.reply, a.storage);
    } else {
      OtherActionsKeep(s, a, k);
    }
  }

  /** In every run: whoever signs the user in was last answered with a user, an init before, a login just now. */
  lemma SignInWasTold(actions: seq<Action>, a: Action)
    requires BecameAuthenticated in Added(Run(actions), Step(Run(actions), a))
    ensures IsResumed(Run(actions), a)
    ensures if Run(actions).calls[a.call].Init? then NamesSome(Heard(actions, a.call))
            else Run(actions).calls[a.call].Login? && a.reply.Good? && a.reply.user
  {
    hide Step, Run;
    SignInExactly(Run(actions), a);
    FoundWasTold(actions);
  }

  predicate NoUserAnswered(actions: seq<Action>) {
    forall i | 0 <= i < |actions| && actions[i].Resume? && actions[i].reply.Good? :: !actions[i].reply.user
  }

  lemma {:induction false} HeardIsAnswered(actions: seq<Action>, k: nat)
    requires NoUserAnswered(actions)
    ensures !NamesSome(Heard(actions, k))
  {
    hide Run;
    if actions == [] {
    } else {
      HeardIsAnswered(actions[..|actions| - 1], k);
    }
  }

  /** In every run without an answer that names a user, nobody is ever signed in. */
  lemma {:induction false} NobodyWithoutUser(actions: seq<Action>)
    requires NoUserAnswered(actions)
    ensures !Run(actions).authenticated && BecameAuthenticated !in Run(actions).log
  {
    hide Step;
    if actions == [] {
      assert Run(actions) == START;
    } else {
      var front, a := actions[..|actions| - 1], actions[|actions| - 1];
      NobodyWithoutUser(front);
      RunStep(front, a);
      assert front + [a] == actions;
      var s := Run(front);
      if BecameAuthenticated in Added(s, Step(s, a)) {
        SignInWasTold(front, a);
        HeardIsAnswered(front, a.call);
        assert false;
      }
      SignInExactly(s, a);
      StepAddsToLog(s, a);
      assert Step(s, a).log == s.log + Added(s, Step(s, a));
    }
  }

  /** In every run without an answer that carries a token, there is never a bearer. */
  lemma {:induction false} NoBearerWithoutToken(actions: seq<Action>)
    requires forall i | 0 <= i < |actions| && actions[i].Resume? && actions[i].reply.Good? :: !actions[i].reply.token
    ensures !Run(actions).bearer
  {
    hide Step;
    if actions == [] {
      assert Run(actions) == START;
    } else {
      var front, a := actions[..|actions| - 1], actions[|actions| - 1];
      NoBearerWithoutToken(front);
      RunStep(front, a);
      assert front + [a] == actions;
      BearerStoredExactly(Run(front), a);
    }
  }

  // ---- A login is what it was answered ----

  /** The credentials are taken: no second factor is asked for, and a token that came along could be stored. */
  predicate Takes(h: Answer) {
    h.reply.Good? && !h.reply.twoFactor && (h.reply.token ==> h.storage.writable)
  }

  /** A login or sign-up, by its answers alone. */
  function LoginAfter(verified: bool, h: seq<Answer>): Call {
    if |h| == 0 then Login(verified, Credentials)
    else if !Takes(h[0]) then Done
    else if |h| == 1 then Login(verified, Accepted)
    else if !verified || !h[1].storage.readable then Done
    else if |h| == 2 then Login(verified, LoginMe)
    else if !h[2].reply.Good? then Done
    else if |h| == 3 then Login(verified, LoginMeBody)
    else Done
  }

  lemma LoginGoesOn(s: State, k: nat, verified: bool, h: seq<Answer>, reply: Reply, storage: Storage)
    requires k < |s.calls| && s.calls[k] == LoginAfter(verified, h)
    ensures Step(s, Resume(k, reply, storage)).calls[k] == LoginAfter(verified, h + [Answer(reply, storage)])
  {
    assert forall i | 0 <= i < |h| :: (h + [Answer(reply, storage)])[i] == h[i];
  }

  lemma LoginBegins(s: State, a: Action, k: nat)
    requires |s.calls| <= k < |Step(s, a).calls|
    ensures a.StartLogin? ==> Step(s, a).calls[k] == Login(a.verified, Credentials)
  {
  }

  /** In every run a login or sign-up is where its answers have brought it, whatever else happens. */
  lemma {:induction false} LoginIsItsAnswers(actions: seq<Action>, k: nat, verified: bool)
    requires BegunBy(actions, k) == Some(StartLogin(verified))
    ensures k < |Run(actions).calls| && Run(actions).calls[k] == LoginAfter(verified, Heard(actions, k))
  {
    hide Step, LoginAfter;
    var front, a := actions[..|actions| - 1], actions[|actions| - 1];
    RunStep(front, a);
    assert front + [a] == actions;
    var s := Run(front);
    if k < |s.calls| {
      LoginIsItsAnswers(front, k, verified);
      if a.Resume? && a.call == k {
        LoginGoesOn(s, k, verified, Heard(front, k), a.reply, a.storage);
        OwnAnswerKeepsKind(s, k, a.reply, a.storage);
      } else {
        LoginIsNoInit(verified, Heard(front, k));
        OtherActionsKeep(s, a, k);
      }
    } else {
      LoginBegins(s, a, k);
      HeardFromNobody(front, k);
      NothingHeardYet(verified);
    }
  }

  lemma LoginIsNoInit(verified: bool, h: seq<Answer>)
    ensures !LoginAfter(verified, h).Init?
  {
  }

  lemma NothingHeardYet(verified: bool)
    ensures LoginAfter(verified, []) == Login(verified, Credentials)
  {
  }

  lemma {:induction false} HeardFromNobody(actions: seq<Action>, k: nat)
    requires k >= |Run(actions).calls|
    ensures Heard(actions, k) == []
  {
    hide Step;
    if actions == [] {
    } else {
      var front, a := actions[..|actions| - 1], actions[|actions| - 1];
      RunStep(front, a);
      assert front + [a] == actions;
      CallsGrow(Run(front), a);
      HeardFromNobody(front, k);
    }
  }

  lemma CallsGrow(s: State, a: Action)
    ensures |s.calls| <= |Step(s, a).calls|
  {
    hide ResumeInit, ResumeApi, ResumeLogin;
    if IsResumed(s, a) {
      OwnAnswerKeepsKind(s, a.call, a.reply, a.storage);
    }
  }

  /** A login succeeds exactly with its second step, if its credentials were taken and it is no unverified sign-up. */
  lemma LoginSucceedsExactly(actions: seq<Action>, k: nat, verified: bool, reply: Reply, storage: Storage)
    requires BegunBy(actions, k) == Some(StartLogin(verified))
    ensures var s, h := Run(actions), Heard(actions, k);
            LoginSucceeded in Added(s, Step(s, Resume(k, reply, storage)))
            <==> verified && |h| == 1 && Takes(h[0])
  {
    hide Step, Run;
    LoginIsItsAnswers(actions, k, verified);
    LoginSucceededExactly(Run(actions), Resume(k, reply, storage));
  }

  /**
    And it signs the user in exactly with its fourth, if besides it was told it is signed in and this
    answer names a user.
  */
  lemma LoginSignsInExactly(actions: seq<Action>, k: nat, verified: bool, reply: Reply, storage: Storage)
    requires BegunBy(actions, k) == Some(StartLogin(verified))
    ensures var s, h := Run(actions), Heard(actions, k);
            BecameAuthenticated in Added(s, Step(s, Resume(k, reply, storage)))
            <==> verified && |h| == 3 && Takes(h[0]) && h[1].storage.readable && h[2].reply.Good?
                 && NamesUser(reply, storage) && storage.readable
  {
    hide Step, Run;
    LoginIsItsAnswers(actions, k, verified);
    SignInExactly(Run(actions), Resume(k, reply, storage));
  }
}
