/**
  The notebook runner's slots: at most MAX_CONCURRENT jobs at a time, the others in line. A job that
  ends gives up its slot and wakes the first in line, but the woken job takes a slot only when its
  promise job runs (ECMA-262, section 9.5), and other requests may arrive in between.
*/
module SlotScheduler {

  const MAX_CONCURRENT: nat := 2

  /** Jobs are numbered in order of arrival. */
  datatype State = State(
    running: nat,
    waiting: seq<nat>,      // in line
    woken: seq<nat>,        // resolved, continuation not run yet
    executing: set<nat>,
    done: set<nat>,
    admitted: nat,
    queued: seq<nat>,       // every job that had to wait, in order of arrival
    started: seq<nat>)      // those of them that have started, in order of starting

  const IDLE := State(0, [], [], {}, {}, 0, [], [])

  datatype Action = Arrive | Resume | Finish(job: nat)

  predicate Enabled(s: State, a: Action) {
    match a
    case Arrive => true
    case Resume => s.woken != []
    case Finish(j) => j in s.executing && s.running > 0
  }

  function Step(s: State, a: Action): State
    requires Enabled(s, a)
  {
    match a
    case Arrive =>
      if s.running >= MAX_CONCURRENT then
        s.(waiting := s.waiting + [s.admitted], admitted := s.admitted + 1, queued := s.queued + [s.admitted])
      else
        s.(running := s.running + 1, executing := s.executing + {s.admitted}, admitted := s.admitted + 1)
    case Resume =>
      s.(running := s.running + 1, woken := s.woken[1..], executing := s.executing + {s.woken[0]},
         started := s.started + [s.woken[0]])
    case Finish(j) =>
      var t := s.(running := s.running - 1, executing := s.executing - {j}, done := s.done + {j});
      if t.waiting == [] then t else t.(waiting := t.waiting[1..], woken := t.woken + [t.waiting[0]])
  }

  /** The scheduler's own variables, updated in place by `slot`. */
  class Slots {
    var running: nat
    var waiting: seq<nat>
    var woken: seq<nat>
    var executing: set<nat>
    var done: set<nat>
    var admitted: nat
    ghost var queued: seq<nat>
    ghost var started: seq<nat>

    ghost function View(): State
      reads this
    {
      State(running, waiting, woken, executing, done, admitted, queued, started)
    }

    constructor ()
      ensures View() == IDLE
    {
      running, waiting, woken, executing, done, admitted := 0, [], [], {}, {}, 0;
      queued, started := [], [];
    }

    /** `slot` up to its first await: into a slot, or into the line. */
    method Enter() returns (waits: bool)
      modifies this
      ensures View() == Step(old(View()), Arrive)
      ensures waits <==> old(running) >= MAX_CONCURRENT
    {
      waits := running >= MAX_CONCURRENT;
      if waits {
        waiting := waiting + [admitted];
        queued := queued + [admitted];
      } else {
        running := running + 1;
        executing := executing + {admitted};
      }
      admitted := admitted + 1;
    }

    /** A woken job goes on after the await. */
    method Continue() returns (job: nat)
      requires woken != []
      modifies this
      ensures View() == Step(old(View()), Resume)
      ensures job == old(woken)[0]
    {
      job := woken[0];
      woken := woken[1..];
      running := running + 1;
      executing := executing + {job};
      started := started + [job];
    }

    /** The `finally` of `slot`. */
    method Leave(job: nat)
      requires job in executing && running > 0
      modifies this
      ensures View() == Step(old(View()), Finish(job))
    {
      executing := executing - {job};
      done := done + {job};
      running := running - 1;
      if waiting != [] {
        woken := woken + [waiting[0]];
        waiting := waiting[1..];
      }
    }
  }

  // ---- Runs ----

  /** The actions can be taken one after the other from s. */
  predicate Possible(s: State, actions: seq<Action>)
    decreases |actions|
  {
    actions == [] || (Enabled(s, actions[0]) && Possible(Step(s, actions[0]), actions[1..]))
  }

  function Run(s: State, actions: seq<Action>): State
    requires Possible(s, actions)
    decreases |actions|
  {
    if actions == [] then s else Run(Step(s, actions[0]), actions[1..])
  }

  function FirstJobs(n: nat): (jobs: set<nat>)
    ensures forall j: nat :: j in jobs <==> j < n
  {
    if n == 0 then {} else FirstJobs(n - 1) + {n - 1}
  }

  /** Every admitted job is in exactly one place. */
  ghost predicate EveryJobInOnePlace(s: State) {
    multiset(s.waiting) + multiset(s.woken) + multiset(s.executing) + multiset(s.done)
    == multiset(FirstJobs(s.admitted))
  }

  ghost predicate Inv(s: State) {
    && s.running == |s.executing|
    && EveryJobInOnePlace(s)
    && (s.waiting != [] ==> s.running + |s.woken| >= MAX_CONCURRENT)
    && s.queued == s.started + s.woken + s.waiting
  }

  lemma MultisetOfMore<T>(a: set<T>, x: T)
    requires x !in a
    ensures multiset(a + {x}) == multiset(a) + multiset{x}
  {
  }

  lemma MultisetOfLess<T>(a: set<T>, x: T)
    requires x in a
    ensures multiset(a - {x}) == multiset(a) - multiset{x}
  {
  }

  lemma AdmitOne(n: nat)
    ensures multiset(FirstJobs(n + 1)) == multiset(FirstJobs(n)) + multiset{n}
  {
    MultisetOfMore(FirstJobs(n), n);
  }

  /** A job is in at most one place, since each admitted number occurs once over all of them. */
  lemma JobPlace(s: State, j: nat)
    requires EveryJobInOnePlace(s)
    ensures multiset(s.waiting)[j] + multiset(s.woken)[j] + multiset(s.executing)[j] + multiset(s.done)[j]
            == if j < s.admitted then 1 else 0
  {
    assert multiset(FirstJobs(s.admitted))[j] == if j < s.admitted then 1 else 0;
  }

  lemma ArriveKeepsPlaces(s: State)
    requires EveryJobInOnePlace(s)
    ensures s.admitted !in s.executing && EveryJobInOnePlace(Step(s, Arrive))
  {
    AdmitOne(s.admitted);
    JobPlace(s, s.admitted);
    if s.running < MAX_CONCURRENT {
      MultisetOfMore(s.executing, s.admitted);
    } else {
      assert multiset(s.waiting + [s.admitted]) == multiset(s.waiting) + multiset{s.admitted};
    }
  }

  lemma ArriveKeepsInv(s: State)
    requires Inv(s)
    ensures Inv(Step(s, Arrive))
  {
    ArriveKeepsPlaces(s);
    var t := Step(s, Arrive);
    if s.running >= MAX_CONCURRENT {
      assert t.queued == t.started + t.woken + t.waiting;
    }
  }

  lemma ResumeKeepsPlaces(s: State)
    requires EveryJobInOnePlace(s) && s.woken != []
    ensures s.woken[0] !in s.executing && EveryJobInOnePlace(Step(s, Resume))
  {
    var j := s.woken[0];
    assert s.woken == [j] + s.woken[1..];
    assert multiset(s.woken) == multiset{j} + multiset(s.woken[1..]);
    JobPlace(s, j);
    MultisetOfMore(s.executing, j);
  }

  lemma ResumeKeepsInv(s: State)
    requires Inv(s) && s.woken != []
    ensures Inv(Step(s, Resume))
  {
    ResumeKeepsPlaces(s);
    var t := Step(s, Resume);
    assert s.woken == [s.woken[0]] + s.woken[1..];
    assert s.started + s.woken == t.started + t.woken;
  }

  lemma FinishKeepsInv(s: State, j: nat)
    requires Inv(s) && Enabled(s, Finish(j))
    ensures Inv(Step(s, Finish(j)))
  {
    JobPlace(s, j);
    MultisetOfLess(s.executing, j);
    MultisetOfMore(s.done, j);
    if s.waiting != [] {
      assert s.waiting == [s.waiting[0]] + s.waiting[1..];
    }
  }

  lemma StepKeepsInv(s: State, a: Action)
    requires Inv(s) && Enabled(s, a)
    ensures Inv(Step(s, a))
  {
    match a
    case Arrive => ArriveKeepsInv(s);
    case Resume => ResumeKeepsInv(s);
    case Finish(j) => FinishKeepsInv(s, j);
  }

  lemma {:induction false} RunsKeepInvFrom(s: State, actions: seq<Action>)
    requires Inv(s) && Possible(s, actions)
    ensures Inv(Run(s, actions))
    decreases |actions|
  {
    if actions == [] {
    } else {
      StepKeepsInv(s, actions[0]);
      RunsKeepInvFrom(Step(s, actions[0]), actions[1..]);
    }
  }

  /**
    In every reachable state: `running` counts the jobs that execute, each admitted job is in exactly
    one place, no wake-up is lost, and the jobs that had to wait start in order of arrival.
  */
  lemma ReachableStates(actions: seq<Action>)
    requires Possible(IDLE, actions)
    ensures var s := Run(IDLE, actions);
            && s.running == |s.executing|
            && EveryJobInOnePlace(s)
            && (s.waiting != [] ==> s.running + |s.woken| >= MAX_CONCURRENT)
            && s.started <= s.queued
  {
    RunsKeepInvFrom(IDLE, actions);
    var s := Run(IDLE, actions);
    assert s.queued == s.started + (s.woken + s.waiting);
  }

  /** In every reachable state an arrival is let in exactly while fewer than two jobs execute, and else waits last. */
  lemma ThirdWaits(actions: seq<Action>)
    requires Possible(IDLE, actions)
    ensures var s, t := Run(IDLE, actions), Step(Run(IDLE, actions), Arrive);
            if |s.executing| < 2 then t.executing == s.executing + {s.admitted} && t.waiting == s.waiting
            else t.executing == s.executing && t.waiting == s.waiting + [s.admitted]
  {
    ReachableStates(actions);
  }

  // ---- Progress ----

  /** How many steps the jobs already admitted still need. */
  function StepsLeft(s: State): nat {
    2 * |s.waiting| + 2 * |s.woken| + |s.executing|
  }

  predicate NoArrivals(actions: seq<Action>) {
    forall i | 0 <= i < |actions| :: actions[i] != Arrive
  }

  /** While a job is not done, some job can go on or end. */
  lemma SomeStepEnabled(s: State) returns (a: Action)
    requires Inv(s) && StepsLeft(s) > 0
    ensures a != Arrive && Enabled(s, a)
  {
    if s.woken != [] {
      a := Resume;
    } else {
      assert s.executing != {};
      var j :| j in s.executing;
      a := Finish(j);
    }
  }

  /** No job can go on or end. */
  ghost predicate Stuck(s: State) {
    forall a | a != Arrive :: !Enabled(s, a)
  }

  lemma NothingLeftMeansAllDone(s: State)
    requires Inv(s) && StepsLeft(s) == 0
    ensures s.done == FirstJobs(s.admitted)
  {
    assert s.waiting == [] && s.woken == [] && s.executing == {};
    forall j: nat
      ensures j in s.done <==> j in FirstJobs(s.admitted)
    {
      JobPlace(s, j);
    }
  }

  lemma StuckExactlyWhenNothingLeft(s: State)
    requires Inv(s)
    ensures Stuck(s) <==> StepsLeft(s) == 0
  {
    if StepsLeft(s) > 0 {
      var a := SomeStepEnabled(s);
    }
  }

  /** Without new arrivals every step brings the end one step closer. */
  lemma StepCounts(s: State, a: Action)
    requires Inv(s) && Enabled(s, a) && a != Arrive
    ensures StepsLeft(Step(s, a)) == StepsLeft(s) - 1
  {
    if a == Resume {
      JobPlace(s, s.woken[0]);
    }
  }

  /**
    Without new arrivals every run is finite, and a run that cannot go on has taken exactly
    StepsLeft(s) steps and finished every admitted job.
  */
  lemma {:induction false} EveryRunDrains(s: State, actions: seq<Action>)
    requires Inv(s) && Possible(s, actions) && NoArrivals(actions)
    ensures Inv(Run(s, actions)) && |actions| + StepsLeft(Run(s, actions)) == StepsLeft(s)
    ensures Stuck(Run(s, actions)) <==> |actions| == StepsLeft(s)
    ensures Stuck(Run(s, actions)) ==> Run(s, actions).done == FirstJobs(Run(s, actions).admitted)
    decreases |actions|
  {
    if actions != [] {
      StepKeepsInv(s, actions[0]);
      StepCounts(s, actions[0]);
      EveryRunDrains(Step(s, actions[0]), actions[1..]);
    } else {
      StuckExactlyWhenNothingLeft(s);
      if StepsLeft(s) == 0 {
        NothingLeftMeansAllDone(s);
      }
    }
  }

  // ---- The bound ----

  predicate WithinBound(s: State) {
    s.running + |s.woken| <= MAX_CONCURRENT
  }

  /** An arrival is let in while all free slots belong to woken jobs. */
  predicate Overtakes(s: State, a: Action) {
    a == Arrive && s.running < MAX_CONCURRENT == s.running + |s.woken|
  }

  /** Exactly one kind of step breaks the bound. */
  lemma BoundBrokenExactlyByOvertaking(s: State, a: Action)
    requires Inv(s) && Enabled(s, a) && WithinBound(s)
    ensures WithinBound(Step(s, a)) <==> !Overtakes(s, a)
  {
  }

  lemma {:induction false} PrefixPossible(s: State, actions: seq<Action>, k: nat)
    requires Possible(s, actions) && k <= |actions|
    ensures Possible(s, actions[..k])
    ensures k < |actions| ==> Enabled(Run(s, actions[..k]), actions[k])
    decreases |actions|
  {
    if k == 0 {
      assert actions[..k] == [];
    } else {
      PrefixPossible(Step(s, actions[0]), actions[1..], k - 1);
      assert actions[..k][1..] == actions[1..][..k - 1];
    }
  }

  /** Every state on the way is within the bound. */
  ghost predicate AlwaysWithinBound(s: State, actions: seq<Action>)
    requires Possible(s, actions)
  {
    forall k: nat | k <= |actions| :: Possible(s, actions[..k]) && WithinBound(Run(s, actions[..k]))
  }

  /** No arrival on the way takes a slot owed to a woken job. */
  ghost predicate NeverOvertakes(s: State, actions: seq<Action>)
    requires Possible(s, actions)
  {
    forall k: nat | k < |actions| :: Possible(s, actions[..k]) && !Overtakes(Run(s, actions[..k]), actions[k])
  }

  /** A run is within the bound all the way exactly when no arrival on the way takes a slot owed to a woken job. */
  lemma {:induction false} BoundKeptExactlyWithoutOvertaking(s: State, actions: seq<Action>)
    requires Inv(s) && WithinBound(s) && Possible(s, actions)
    ensures AlwaysWithinBound(s, actions) <==> NeverOvertakes(s, actions)
    decreases |actions|
  {
    if actions == [] {
      assert forall k: nat | k <= |actions| :: actions[..k] == [];
    } else {
      var a, rest := actions[0], actions[1..];
      StepKeepsInv(s, a);
      BoundBrokenExactlyByOvertaking(s, a);
      FirstThenRest(s, actions);
      if !Overtakes(s, a) {
        BoundKeptExactlyWithoutOvertaking(Step(s, a), rest);
      }
    }
  }

  /** Both speak of the first step and of the rest. */
  lemma FirstThenRest(s: State, actions: seq<Action>)
    requires Possible(s, actions) && actions != []
    ensures var t := Step(s, actions[0]);
            && (AlwaysWithinBound(s, actions) <==> WithinBound(s) && AlwaysWithinBound(t, actions[1..]))
            && (NeverOvertakes(s, actions) <==> !Overtakes(s, actions[0]) && NeverOvertakes(t, actions[1..]))
            && (AlwaysWithinBound(t, actions[1..]) ==> WithinBound(t))
  {
    var t, rest := Step(s, actions[0]), actions[1..];
    assert actions[..0] == [] && rest[..0] == [];
    forall k: nat | k <= |rest|
      ensures Possible(s, actions[..k + 1]) && Possible(t, rest[..k]) && Run(s, actions[..k + 1]) == Run(t, rest[..k])
    {
      PrefixPossible(t, rest, k);
      assert actions[..k + 1][1..] == rest[..k] && actions[..k + 1][0] == actions[0];
    }
    if AlwaysWithinBound(s, actions) {
      forall k: nat | k <= |rest|
        ensures WithinBound(Run(t, rest[..k]))
      {
        assert WithinBound(Run(s, actions[..k + 1]));
      }
    }
    if NeverOvertakes(s, actions) {
      forall k: nat | k < |rest| ensures !Overtakes(Run(t, rest[..k]), rest[k]) {
        assert !Overtakes(Run(s, actions[..k + 1]), actions[k + 1]);
      }
    }
    if WithinBound(s) && AlwaysWithinBound(t, rest) {
      forall k: nat | k <= |actions| ensures Possible(s, actions[..k]) && WithinBound(Run(s, actions[..k])) {
        if k > 0 { assert WithinBound(Run(t, rest[..k - 1])); }
      }
    }
    if !Overtakes(s, actions[0]) && NeverOvertakes(t, rest) {
      forall k: nat | k < |actions| ensures Possible(s, actions[..k]) && !Overtakes(Run(s, actions[..k]), actions[k]) {
        if k > 0 { assert !Overtakes(Run(t, rest[..k - 1]), rest[k - 1]); }
      }
    }
  }

  /** Woken jobs take their slots before anything new arrives. */
  predicate WokenGoFirst(s: State, actions: seq<Action>)
    requires Possible(s, actions)
    decreases |actions|
  {
    actions == [] || ((actions[0] == Arrive ==> s.woken == []) && WokenGoFirst(Step(s, actions[0]), actions[1..]))
  }

  lemma {:induction false} BoundKeptWhenWokenGoFirst(s: State, actions: seq<Action>)
    requires Inv(s) && WithinBound(s) && Possible(s, actions) && WokenGoFirst(s, actions)
    ensures WithinBound(Run(s, actions)) && |Run(s, actions).executing| <= MAX_CONCURRENT
    decreases |actions|
  {
    if actions == [] {
    } else {
      StepKeepsInv(s, actions[0]);
      BoundBrokenExactlyByOvertaking(s, actions[0]);
      BoundKeptWhenWokenGoFirst(Step(s, actions[0]), actions[1..]);
    }
  }

  lemma {:induction false} RunOn(s: State, first: seq<Action>, second: seq<Action>)
    requires Possible(s, first) && Possible(Run(s, first), second)
    ensures Possible(s, first + second) && Run(s, first + second) == Run(Run(s, first), second)
    decreases |first|
  {
    if first == [] {
      assert first + second == second;
    } else {
      assert (first + second)[1..] == first[1..] + second;
      RunOn(Step(s, first[0]), first[1..], second);
    }
  }

  /** k arrivals at a full runner. */
  lemma {:induction false} QueueUp(s: State, k: nat) returns (actions: seq<Action>)
    requires Inv(s) && s.running >= MAX_CONCURRENT
    ensures Possible(s, actions)
    ensures var t := Run(s, actions);
            Inv(t) && t.running == s.running && t.woken == s.woken && |t.waiting| == |s.waiting| + k
    decreases k
  {
    actions := [];
    if k > 0 {
      StepKeepsInv(s, Arrive);
      var rest := QueueUp(Step(s, Arrive), k - 1);
      actions := [Arrive] + rest;
      assert actions[1..] == rest;
    }
  }

  /** k jobs end, each waking one in line. */
  lemma {:induction false} EndSome(s: State, k: nat) returns (actions: seq<Action>)
    requires Inv(s) && k <= s.running && k <= |s.waiting|
    ensures Possible(s, actions)
    ensures var t := Run(s, actions);
            Inv(t) && t.running == s.running - k && |t.woken| == |s.woken| + k && |t.waiting| == |s.waiting| - k
    decreases k
  {
    actions := [];
    if k > 0 {
      assert s.executing != {};
      var j :| j in s.executing;
      StepKeepsInv(s, Finish(j));
      var rest := EndSome(Step(s, Finish(j)), k - 1);
      actions := [Finish(j)] + rest;
      assert actions[1..] == rest;
    }
  }

  /** Every woken job goes on. */
  lemma {:induction false} ContinueAll(s: State) returns (actions: seq<Action>)
    requires Inv(s)
    ensures Possible(s, actions)
    ensures var t := Run(s, actions); Inv(t) && t.running == s.running + |s.woken| && t.woken == []
    decreases |s.woken|
  {
    actions := [];
    if s.woken != [] {
      StepKeepsInv(s, Resume);
      var rest := ContinueAll(Step(s, Resume));
      actions := [Resume] + rest;
      assert actions[1..] == rest;
    }
  }

  /** All but one of the jobs end, a newcomer overtakes, and the woken jobs go on: one more than before. */
  lemma OneMore(s: State) returns (actions: seq<Action>)
    requires Inv(s) && s.woken == [] && s.running >= MAX_CONCURRENT
    ensures Possible(s, actions)
    ensures var t := Run(s, actions); Inv(t) && t.woken == [] && t.running == s.running + 1
  {
    var a1 := QueueUp(s, s.running);
    var s1 := Run(s, a1);
    var a2 := EndSome(s1, s1.running - 1);
    var s2 := Run(s1, a2);
    StepKeepsInv(s2, Arrive);
    var s3 := Step(s2, Arrive);
    assert Possible(s2, [Arrive]) && Run(s2, [Arrive]) == s3;
    var a3 := ContinueAll(s3);
    RunOn(s, a1, a2);
    RunOn(s, a1 + a2, [Arrive]);
    RunOn(s, a1 + a2 + [Arrive], a3);
    actions := a1 + a2 + [Arrive] + a3;
  }

  /** Without that order there is no bound at all: any number of jobs can come to run at once. */
  lemma {:induction false} AnyNumberCanRun(n: nat) returns (actions: seq<Action>)
    requires n >= MAX_CONCURRENT
    ensures Possible(IDLE, actions)
    ensures var t := Run(IDLE, actions); Inv(t) && t.woken == [] && |t.executing| == n
  {
    assert Inv(IDLE);
    if n == MAX_CONCURRENT {
      StepKeepsInv(IDLE, Arrive);
      StepKeepsInv(Step(IDLE, Arrive), Arrive);
      actions := [Arrive, Arrive];
      assert actions[1..] == [Arrive] && [Arrive][1..] == [];
      assert Run(IDLE, actions) == Step(Step(IDLE, Arrive), Arrive);
    } else {
      var first := AnyNumberCanRun(n - 1);
      var more := OneMore(Run(IDLE, first));
      RunOn(IDLE, first, more);
      actions := first + more;
    }
  }
}
