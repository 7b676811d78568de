/** Overlapping logouts and the flag they hold up; the API exchange all requests share. */
module AuthFlags {
  import opened Options
  import opened LogoutBarrier
  import opened AuthProtocol
  import opened AuthRuns

  /**
    Each logout has an epoch of its own, the newest the barrier's; the flag is up exactly while that one has
    not finished.
  */
  ghost predicate NewestLogoutHoldsFlag(s: State) {
    && (forall k | 0 <= k < |s.calls| && IsLogout(s.calls[k]) :: s.calls[k].epoch <= s.barrier.epoch)
    && (s.barrier.inProgress <==> exists k | 0 <= k < |s.calls| :: HoldsFlag(s, k))
    && (forall j, k | 0 <= j < k < |s.calls| && IsLogout(s.calls[j]) && IsLogout(s.calls[k]) ::
          s.calls[j].epoch != s.calls[k].epoch)
  }

  /** The call is the newest logout, not finished or stuck. */
  predicate HoldsFlag(s: State, k: nat)
    requires k < |s.calls|
  {
    IsLogout(s.calls[k]) && s.calls[k].epoch == s.barrier.epoch
  }

  /** The shared promise is set exactly while its exchange is in flight, so there is at most one. */
  ghost predicate OneSharedExchange(s: State) {
    && (s.sharedExchange.Some? ==> s.sharedExchange.value < |s.calls|)
    && forall k | 0 <= k < |s.calls| :: s.calls[k].Api? <==> s.sharedExchange == Some(k)
  }

  lemma TouchingOneKeepsFlag(s: State, t: State, k: nat)
    requires NewestLogoutHoldsFlag(s) && TouchesOne(s, t, k)
    ensures NewestLogoutHoldsFlag(t)
  {
    forall i | 0 <= i < |s.calls| && (IsLogout(s.calls[i]) || IsLogout(t.calls[i]))
      ensures t.calls[i] == s.calls[i]
    {
    }
    assert forall i | 0 <= i < |s.calls| :: HoldsFlag(t, i) <==> HoldsFlag(s, i);
  }

  lemma TouchingOneKeepsShared(s: State, t: State, k: nat)
    requires OneSharedExchange(s) && TouchesOne(s, t, k)
    ensures OneSharedExchange(t)
  {
    assert forall i | 0 <= i < |s.calls| && i != k :: t.calls[i] == s.calls[i];
  }

  lemma NewCallKeepsFlag(s: State, t: State)
    requires NewestLogoutHoldsFlag(s) && OneSharedExchange(s) && t.barrier == s.barrier
    requires |t.calls| == |s.calls| + 1 && t.calls[..|s.calls|] == s.calls && !IsLogout(t.calls[|s.calls|])
    requires if t.calls[|s.calls|].Api? then s.sharedExchange == None && t.sharedExchange == Some(|s.calls|)
             else t.sharedExchange == s.sharedExchange
    ensures NewestLogoutHoldsFlag(t) && OneSharedExchange(t)
  {
    assert forall i | 0 <= i < |s.calls| :: t.calls[i] == s.calls[i];
    assert forall i | 0 <= i < |s.calls| :: HoldsFlag(t, i) <==> HoldsFlag(s, i);
  }

  lemma LogoutBeginsWithFlag(s: State, storage: Storage)
    requires NewestLogoutHoldsFlag(s) && OneSharedExchange(s)
    ensures var t := BeginLogoutCall(s, storage); NewestLogoutHoldsFlag(t) && OneSharedExchange(t)
  {
    var t := BeginLogoutCall(s, storage);
    assert HoldsFlag(t, |s.calls|);
    assert forall i | 0 <= i < |s.calls| && (IsLogout(t.calls[i]) || t.calls[i].Api?) :: t.calls[i] == s.calls[i];
    assert forall i | 0 <= i < |s.calls| && s.calls[i].Api? :: t.calls[i] == s.calls[i];
  }

  lemma LogoutEndsWithFlag(s: State, k: nat, storage: Storage)
    requires NewestLogoutHoldsFlag(s) && k < |s.calls| && s.calls[k].Logout?
    ensures var t := ResumeLogout(s, k, s.calls[k].epoch, storage);
            NewestLogoutHoldsFlag(t)
            && if s.calls[k].epoch == s.barrier.epoch
               then s.barrier.inProgress && (t.barrier.inProgress <==> !storage.removable)
               else t.barrier == s.barrier
  {
    var t := ResumeLogout(s, k, s.calls[k].epoch, storage);
    assert HoldsFlag(s, k) <==> s.calls[k].epoch == s.barrier.epoch;
    assert forall i | 0 <= i < |s.calls| && i != k :: t.calls[i] == s.calls[i];
    assert forall i | 0 <= i < |s.calls| && i != k :: HoldsFlag(t, i) <==> HoldsFlag(s, i);
    assert HoldsFlag(t, k) <==> HoldsFlag(s, k) && !storage.removable;
  }

  lemma ResumeKeepsFlag(s: State, k: nat, reply: Reply, storage: Storage)
    requires NewestLogoutHoldsFlag(s) && OneSharedExchange(s) && k < |s.calls|
    ensures var t := Step(s, Resume(k, reply, storage)); NewestLogoutHoldsFlag(t) && OneSharedExchange(t)
  {
    hide NewestLogoutHoldsFlag;
    var t := Step(s, Resume(k, reply, storage));
    if s.calls[k].Logout? {
      LogoutEndsWithFlag(s, k, storage);
      assert forall i | 0 <= i < |s.calls| && i != k :: t.calls[i] == s.calls[i];
    } else {
      ResumeTouchesOne(s, k, reply, storage);
      TouchingOneKeepsFlag(s, t, k);
      TouchingOneKeepsShared(s, t, k);
    }
  }

  lemma StepKeepsFlag(s: State, a: Action)
    requires NewestLogoutHoldsFlag(s) && OneSharedExchange(s)
    ensures NewestLogoutHoldsFlag(Step(s, a)) && OneSharedExchange(Step(s, a))
  {
    hide NewestLogoutHoldsFlag, OneSharedExchange;
    var t := Step(s, a);
    match a
    case StartInit(storage) => InitStartsWithFlag(s, storage);
    case StartApi(storage) => ApiStartsWithFlag(s, storage);
    case StartLogin(_) => NewCallKeepsFlag(s, t);
    case StartLogout(storage) => LogoutBeginsWithFlag(s, storage);
    case Unmount(k) =>
      if k < |s.calls| && s.calls[k].Init? {
        TouchingOneKeepsFlag(s, t, k);
        TouchingOneKeepsShared(s, t, k);
      }
    case Resume(k, reply, storage) =>
      if k < |s.calls| { ResumeKeepsFlag(s, k, reply, storage); }
  }

  lemma InitStartsWithFlag(s: State, storage: Storage)
    requires NewestLogoutHoldsFlag(s) && OneSharedExchange(s)
    ensures var t := Step(s, StartInit(storage)); NewestLogoutHoldsFlag(t) && OneSharedExchange(t)
  {
    hide NewestLogoutHoldsFlag, OneSharedExchange;
    var t := Step(s, StartInit(storage));
    assert t.calls[..|s.calls|] == s.calls;
    NewCallKeepsFlag(s, t);
  }

  lemma ApiStartsWithFlag(s: State, storage: Storage)
    requires NewestLogoutHoldsFlag(s) && OneSharedExchange(s)
    ensures var t := Step(s, StartApi(storage)); NewestLogoutHoldsFlag(t) && OneSharedExchange(t)
  {
    hide NewestLogoutHoldsFlag, OneSharedExchange;
    var t := Step(s, StartApi(storage));
    if t != s {
      assert t.calls[..|s.calls|] == s.calls;
      NewCallKeepsFlag(s, t);
    }
  }

  lemma {:induction false} RunsKeepFlagFrom(s: State, more: seq<Action>)
    requires NewestLogoutHoldsFlag(s) && OneSharedExchange(s)
    ensures NewestLogoutHoldsFlag(RunFrom(s, more)) && OneSharedExchange(RunFrom(s, more))
    decreases |more|
  {
    hide NewestLogoutHoldsFlag, OneSharedExchange, Step;
    if more == [] {
    } else {
      RunsKeepFlagFrom(s, more[..|more| - 1]);
      StepKeepsFlag(RunFrom(s, more[..|more| - 1]), more[|more| - 1]);
    }
  }

  lemma RunsKeepFlag(actions: seq<Action>)
    ensures NewestLogoutHoldsFlag(Run(actions)) && OneSharedExchange(Run(actions))
  {
    RunsKeepFlagFrom(START, actions);
  }

  /**
    In every run, a finishing logout lowers the flag exactly when it is the newest and taking the bearer
    out of storage works; an older one leaves the newer one's barrier exactly as it was.
  */
  lemma OlderLogoutKeepsNewerBarrier(actions: seq<Action>, k: nat, reply: Reply, storage: Storage)
    requires k < |Run(actions).calls| && Run(actions).calls[k].Logout?
    ensures var s, t := Run(actions), Step(Run(actions), Resume(k, reply, storage));
            if s.calls[k].epoch == s.barrier.epoch
            then s.barrier.inProgress && (t.barrier.inProgress <==> !storage.removable)
            else t.barrier == s.barrier
  {
    hide NewestLogoutHoldsFlag, Run;
    RunsKeepFlag(actions);
    LogoutEndsWithFlag(Run(actions), k, storage);
  }

  // ---- When a logout lowers its flag ----

  /** Neither a newer logout nor the end of call k is among the actions. */
  predicate Leaves(actions: seq<Action>, k: nat) {
    forall i | 0 <= i < |actions| :: !actions[i].StartLogout? && (actions[i].Resume? ==> actions[i].call != k)
  }

  /** Call k is the newest logout, at the same point as before, and the flag is up. */
  ghost predicate StillThere(s: State, k: nat, c: Call) {
    k < |s.calls| && s.calls[k] == c && IsLogout(c) && HoldsFlag(s, k) && s.barrier.inProgress
    && NewestLogoutHoldsFlag(s) && OneSharedExchange(s)
  }

  lemma StepStillThere(s: State, k: nat, c: Call, a: Action)
    requires StillThere(s, k, c) && !a.StartLogout? && (a.Resume? ==> a.call != k)
    ensures StillThere(Step(s, a), k, c)
  {
    hide NewestLogoutHoldsFlag, OneSharedExchange;
    StepKeepsFlag(s, a);
    if a.Resume? && a.call < |s.calls| {
      if s.calls[a.call].Logout? {
        OtherLogoutIsOlder(s, k, a.call);
        LogoutEndsWithFlag(s, a.call, a.storage);
      } else {
        ResumeTouchesOne(s, a.call, a.reply, a.storage);
      }
    }
  }

  lemma OtherLogoutIsOlder(s: State, k: nat, j: nat)
    requires NewestLogoutHoldsFlag(s) && k < |s.calls| && HoldsFlag(s, k) && j < |s.calls| && j != k
             && s.calls[j].Logout?
    ensures s.calls[j].epoch != s.barrier.epoch
  {
  }

  lemma {:induction false} RunStillThere(s: State, k: nat, c: Call, more: seq<Action>)
    requires StillThere(s, k, c) && Leaves(more, k)
    ensures StillThere(RunFrom(s, more), k, c)
    decreases |more|
  {
    hide StillThere, Step;
    if more == [] {
    } else {
      RunStillThere(s, k, c, more[..|more| - 1]);
      StepStillThere(RunFrom(s, more[..|more| - 1]), k, c, more[|more| - 1]);
    }
  }

  /**
    A logout begun in any reachable state, with anything but another logout happening until it ends, has
    lowered the flag at its end exactly when the bearer could be taken out of storage both times. The store
    still says signed in once it has begun exactly when it did and the first of these failed.
  */
  lemma LogoutLowersFlagExactly(past: seq<Action>, first: Storage, more: seq<Action>, reply: Reply, second: Storage)
    requires Leaves(more, |Run(past).calls|)
    ensures var k := |Run(past).calls|;
            var t := RunFrom(Step(Run(past), StartLogout(first)), more);
            Step(t, Resume(k, reply, second)).barrier.inProgress <==> !(first.removable && second.removable)
    ensures Step(Run(past), StartLogout(first)).authenticated <==> Run(past).authenticated && !first.removable
  {
    hide NewestLogoutHoldsFlag, OneSharedExchange, Run;
    var s := Run(past);
    RunsKeepFlag(past);
    var k, t := |s.calls|, Step(s, StartLogout(first));
    LogoutBeginsWithFlag(s, first);
    RunStillThere(t, k, t.calls[k], more);
    if first.removable {
      LogoutEndsWithFlag(RunFrom(t, more), k, second);
    }
  }
}
