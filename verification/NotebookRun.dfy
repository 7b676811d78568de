/** One run of a notebook in its own worker: settled once, by whatever calls back first. */
module NotebookRun {
  import opened Options

  datatype Outcome = Sent(data: string) | Stopped(limit: real) | Broken(error: string)

  datatype Callback = Message(data: string) | Error(error: string) | Timer

  /** The timer's and the worker's state, and what the promise is settled with. */
  datatype State = State(timerSet: bool, workerAlive: bool, result: Option<Outcome>)

  /** A cleared or spent timer does not fire; a worker's callbacks may still be on their way when it is stopped. */
  predicate Enabled(s: State, c: Callback) {
    c.Timer? ==> s.timerSet
  }

  const LONGEST_ERROR := 2000

  function Shortened(error: string): string {
    if |error| > LONGEST_ERROR then error[..LONGEST_ERROR] else error
  }

  function OutcomeOf(c: Callback, limit: real): Outcome {
    match c
    case Message(data) => Sent(data)
    case Error(error) => Broken(Shortened(error))
    case Timer => Stopped(limit)
  }

  class WorkerRun {
    const limit: real
    var timerSet: bool
    var workerAlive: bool
    var result: Option<Outcome>

    ghost function View(): State
      reads this
    {
      State(timerSet, workerAlive, result)
    }

    constructor (limit: real)
      ensures View() == State(true, true, None) && this.limit == limit
    {
      this.limit := limit;
      timerSet, workerAlive, result := true, true, None;
    }

    /** A promise keeps what it is settled with first (ECMA-262, section 27.2.1.3.2). */
    method Resolve(outcome: Outcome)
      modifies this`result
      ensures result == if old(result) == None then Some(outcome) else old(result)
    {
      if result == None {
        result := Some(outcome);
      }
    }

    method OnTimer()
      requires Enabled(View(), Timer)
      modifies this
      ensures View() == Step(old(View()), Timer, limit)
      ensures !timerSet && !workerAlive && result == if old(result) == None then Some(Stopped(limit)) else old(result)
    {
      timerSet := false;
      workerAlive := false;
      Resolve(Stopped(limit));
    }

    method OnMessage(data: string)
      modifies this
      ensures View() == Step(old(View()), Message(data), limit)
      ensures !timerSet && !workerAlive && result == if old(result) == None then Some(Sent(data)) else old(result)
    {
      timerSet := false;
      workerAlive := false;
      Resolve(Sent(data));
    }

    method OnError(error: string)
      modifies this
      ensures View() == Step(old(View()), Error(error), limit)
    {
      timerSet := false;
      workerAlive := false;
      Resolve(Broken(if |error| > LONGEST_ERROR then error[..LONGEST_ERROR] else error));
    }
  }

  function Step(s: State, c: Callback, limit: real): State {
    State(false, false, if s.result == None then Some(OutcomeOf(c, limit)) else s.result)
  }

  function Run(callbacks: seq<Callback>, limit: real): State {
    if callbacks == [] then State(true, true, None)
    else Step(Run(callbacks[..|callbacks| - 1], limit), callbacks[|callbacks| - 1], limit)
  }

  /**
    Whatever calls back, and in whatever order: the first settles the run for good, the worker is stopped, the
    timer is done.
  */
  lemma {:induction false} FirstCallbackSettles(callbacks: seq<Callback>, limit: real)
    requires callbacks != []
    ensures Run(callbacks, limit) == State(false, false, Some(OutcomeOf(callbacks[0], limit)))
  {
    var front := callbacks[..|callbacks| - 1];
    if front == [] {
      assert Run(front, limit) == State(true, true, None);
    } else {
      FirstCallbackSettles(front, limit);
    }
  }

  /** What it is settled with: the worker's message whole, its error up to 2000 characters, or the limit. */
  lemma SettledWith(callbacks: seq<Callback>, limit: real)
    requires callbacks != []
    ensures Run(callbacks, limit).result.Some?
    ensures var r, first := Run(callbacks, limit).result.value, callbacks[0];
            && (first.Message? ==> r == Sent(first.data))
            && (first.Timer? ==> r == Stopped(limit))
            && (first.Error? ==>
                  r.Broken? && r.error <= first.error
                  && |r.error| == if |first.error| < 2000 then |first.error| else 2000)
  {
    FirstCallbackSettles(callbacks, limit);
  }

  /** Only a run nothing has called back in is unsettled; its worker is alive, and only its timer can still fire. */
  lemma {:induction false} SettledExactly(callbacks: seq<Callback>, limit: real)
    ensures Run(callbacks, limit).result == None <==> callbacks == []
    ensures Run(callbacks, limit).result == None <==> Run(callbacks, limit).workerAlive
    ensures Run(callbacks, limit).result == None <==> Enabled(Run(callbacks, limit), Timer)
  {
    if callbacks == [] {
    } else {
      FirstCallbackSettles(callbacks, limit);
    }
  }

  function Distance(x: real, y: real): real {
    if x <= y then y - x else x - y
  }

  /** The time limit for the seconds asked for; None stands for a text that is no number. */
  function TimeLimit(asked: Option<real>): (limit: real)
    ensures 10.0 <= limit <= 1800.0
    ensures asked.Some? && 10.0 <= asked.value <= 1800.0 <==> asked == Some(limit)
    ensures asked in {None, Some(0.0)} ==> limit == 600.0
    ensures asked !in {None, Some(0.0)} ==>
              forall x: real | 10.0 <= x <= 1800.0 :: Distance(limit, asked.value) <= Distance(x, asked.value)
  {
    var seconds := if asked == None || asked.value == 0.0 then 600.0 else asked.value;
    var capped := if seconds < 1800.0 then seconds else 1800.0;
    if capped > 10.0 then capped else 10.0
  }
}
