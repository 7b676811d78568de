/** The reader of an analysis stream: its result does not depend on how the text was cut into chunks. */
module AnalyzeStream {
  import opened Options
  import opened Strings
  import opened SseBuffer
  import opened AnalyzeEvents

  /** The progress calls for the events: messages that differ from the call before. */
  function ProgressCalls(events: seq<Json>): seq<string> {
    if events == [] then []
    else
      var calls, p := ProgressCalls(Front(events)), ProgressOf(Last(events));
      if p != "" && p != LastCall(calls) then calls + [p] else calls
  }

  function LastCall(calls: seq<string>): string {
    if calls == [] then "" else Last(calls)
  }

  /** The decision of the last event that makes one. */
  function LastDecision(events: seq<Json>): Option<AnalyzeResult> {
    if events == [] then None
    else if Decision(Last(events)).Some? then Decision(Last(events))
    else LastDecision(Front(events))
  }

  function ResultOf(events: seq<Json>): AnalyzeResult {
    if LastDecision(events).Some? then LastDecision(events).value
    else Message(if LastCall(ProgressCalls(events)) != "" then LastCall(ProgressCalls(events)) else "Done.")
  }

  function Joined(chunks: seq<string>): string {
    if chunks == [] then "" else Joined(Front(chunks)) + Last(chunks)
  }

  /** Every event of the whole text. */
  function AllEvents(json: JsonParse<Json>, text: string): seq<Json> {
    EventsIn(json, Split(text))
  }

  /** The events of the lines the text has ended. */
  function EndedEvents(json: JsonParse<Json>, text: string): seq<Json> {
    EventsIn(json, Front(Split(text)))
  }

  predicate NoAbortBefore(aborted: seq<bool>, k: nat)
    requires k <= |aborted|
  {
    forall j | 0 <= j < k :: !aborted[j]
  }

  predicate FirstAbort(aborted: seq<bool>, k: nat)
    requires k < |aborted|
  {
    aborted[k] && NoAbortBefore(aborted, k)
  }

  class Reader {
    const json: JsonParse<Json>
    var buffer: string
    var lastProgress: string
    var complete: Option<AnalyzeResult>
    var progressCalls: seq<string>    // what onProgress was called with
    ghost var events: seq<Json>      // what the handler was called with

    ghost predicate Valid()
      reads this
    {
      && progressCalls == ProgressCalls(events)
      && lastProgress == LastCall(progressCalls)
      && complete == LastDecision(events)
    }

    constructor (json: JsonParse<Json>)
      ensures Valid() && this.json == json && buffer == "" && events == []
    {
      this.json := json;
      buffer, lastProgress, complete, progressCalls := "", "", None, [];
      events := [];
    }

    /** `processAnalyzeStreamEvent`, and what its caller does with the outcome. */
    method HandleEvent(e: Json)
      requires Valid()
      modifies this
      ensures Valid() && events == old(events) + [e] && buffer == old(buffer)
    {
      events := events + [e];
      assert Front(events) == old(events);
      if !e.Obj? {
        return;
      }
      var progressMsg := AnalyzeProgressMessage(e.fields);
      if progressMsg != "" && progressMsg != lastProgress {
        lastProgress := progressMsg;
        progressCalls := progressCalls + [progressMsg];
      }
      var err := AnalyzeErrorFromEvent(e.fields);
      if err.Some? && err.value != "" {
        complete := Some(Failed(err.value));
      } else if IsAnalyzeCompleteEvent(e.fields) {
        complete := Some(AnalyzeCompleteFromEvent(e.fields));
      }
    }

    /** `drainSSEBuffer`: handles the ended lines of the text and gives back the rest. */
    method Drain(text: string) returns (remainder: string)
      requires Valid()
      modifies this
      ensures Valid() && buffer == old(buffer)
      ensures remainder == Last(Split(text))
      ensures events == old(events) + EndedEvents(json, text)
    {
      var parts := Split(text);
      var lines := Front(parts);
      remainder := Last(parts);
      for i := 0 to |lines|
        invariant Valid() && buffer == old(buffer)
        invariant events == old(events) + EventsIn(json, lines[..i])
      {
        OneMoreLine(json, lines, i, old(events));
        var data := ParseSSEDataLine(json, lines[i]);
        if data.Some? {
          HandleEvent(data.value);
        }
      }
      assert lines[..|lines|] == lines;
    }

    /**
      `consumeAnalyzeStream`, given the decoded chunks and what the abort signal said after each.
    */
    method Consume(chunks: seq<string>, aborted: seq<bool>) returns (r: AnalyzeResult)
      requires Valid() && events == [] && buffer == "" && |aborted| == |chunks|
      modifies this
      ensures Valid() && r == ResultOf(events)
      ensures NoAbortBefore(aborted, |chunks|) ==> events == AllEvents(json, Joined(chunks))
      ensures forall k | 0 <= k < |chunks| && FirstAbort(aborted, k) ::
              events == EndedEvents(json, Joined(chunks[..k + 1]))
    {
      hide Split, EventsIn, ProgressCalls, LastDecision, Trim;
      NothingHandled(json);
      var i := 0;
      var stopped := false;
      while i < |chunks| && !stopped
        invariant 0 <= i <= |chunks| && Valid()
        invariant events == EndedEvents(json, Joined(chunks[..i])) && buffer == Last(Split(Joined(chunks[..i])))
        invariant if stopped then i > 0 && FirstAbort(aborted, i - 1) else NoAbortBefore(aborted, i)
      {
        OneMoreChunk(json, chunks, i);
        buffer := Drain(buffer + chunks[i]);
        stopped := aborted[i];
        i := i + 1;
      }
      if !stopped {
        assert chunks[..|chunks|] == chunks;
        RemainderEvents(json, Joined(chunks));
        if Trim(buffer) != "" {
          var rest := Drain(buffer + "\n");
        }
      }
      r := if complete.Some? then complete.value else Message(if lastProgress != "" then lastProgress else "Done.");
    }
  }

  lemma EndedEventsAppend(json: JsonParse<Json>, a: string, b: string)
    ensures EndedEvents(json, a + b) == EndedEvents(json, a) + EndedEvents(json, Last(Split(a)) + b)
  {
    SplitAppend(a, b);
    var rest := Split(Last(Split(a)) + b);
    assert Front(Split(a + b)) == Front(Split(a)) + Front(rest);
    EventsInAppend(json, Front(Split(a)), Front(rest));
  }

  lemma NothingHandled(json: JsonParse<Json>)
    ensures EndedEvents(json, "") == [] && Last(Split("")) == ""
  {
  }

  lemma OneMoreLine(json: JsonParse<Json>, lines: seq<string>, i: nat, before: seq<Json>)
    requires i < |lines|
    ensures before + EventsIn(json, lines[..i + 1]) == before + EventsIn(json, lines[..i]) + EventOf(json, lines[i])
  {
    assert Front(lines[..i + 1]) == lines[..i] && Last(lines[..i + 1]) == lines[i];
    var y, z := EventsIn(json, lines[..i]), EventOf(json, lines[i]);
    assert (before + y) + z == before + (y + z);
  }

  lemma OneMoreChunk(json: JsonParse<Json>, chunks: seq<string>, i: nat)
    requires i < |chunks|
    ensures var rest := Last(Split(Joined(chunks[..i]))) + chunks[i];
            EndedEvents(json, Joined(chunks[..i + 1]))
            == EndedEvents(json, Joined(chunks[..i])) + EndedEvents(json, rest)
            && Last(Split(Joined(chunks[..i + 1]))) == Last(Split(rest))
  {
    assert Front(chunks[..i + 1]) == chunks[..i];
    SplitAppend(Joined(chunks[..i]), chunks[i]);
    EndedEventsAppend(json, Joined(chunks[..i]), chunks[i]);
  }

  /** What is left in the buffer at the end holds the event of the unended last line, if any. */
  lemma RemainderEvents(json: JsonParse<Json>, text: string)
    ensures var rest := Last(Split(text));
            AllEvents(json, text) == EndedEvents(json, text) + EndedEvents(json, rest + "\n")
            && (Trim(rest) == "" ==> EndedEvents(json, rest + "\n") == [])
  {
    var rest := Last(Split(text));
    SplitIsExact(text);
    NoLineFeedOnePart(rest);
    assert Front(rest + "\n") == rest && Last(rest + "\n") == '\n';
    assert Front(Split(rest + "\n")) == [rest];
    assert Front([rest]) == [];
    assert EventsIn(json, [rest]) == EventOf(json, rest);
  }

  // ---- Line by line ----

  lemma ThreeParts(a: string, b: string, c: string)
    ensures a + b + c == a + (b + c)
  {
  }

  /** The first line of a text, and its event, come before those of the rest. */
  lemma FirstLine(json: JsonParse<Json>, line: string, rest: string)
    requires '\n' !in line
    ensures AllEvents(json, line + "\n" + rest) == EventOf(json, line) + AllEvents(json, rest)
  {
    NoLineFeedOnePart(line);
    assert Front(line + "\n") == line && Last(line + "\n") == '\n';
    assert Split(line + "\n") == [line] + [""];
    SplitAppend(line + "\n", rest);
    assert Front(Split(line + "\n")) == [line] && Last(Split(line + "\n")) == "" && "" + rest == rest;
    EventsInAppend(json, [line], Split(rest));
    OneLine(json, line);
  }

  lemma OneLine(json: JsonParse<Json>, line: string)
    ensures EventsIn(json, [line]) == EventOf(json, line)
  {
    assert Front([line]) == [];
  }

  /** The event of a payload, if it has one. */
  function EventFor(json: JsonParse<Json>, payload: string): seq<Json> {
    if json(payload).Some? then [json(payload).value] else []
  }

  lemma DataLineRead(json: JsonParse<Json>, a: string, b: string, payload: string, c: string)
    requires AllSpace(a) && AllSpace(b) && AllSpace(c) && Tight(payload) && payload != ""
    ensures EventOf(json, a + "data: " + b + payload + c) == EventFor(json, payload)
  {
    var t := "data: " + (b + payload);
    assert a + "data: " + b + payload + c == a + t + c;
    assert t[|t| - 1] == payload[|payload| - 1] && t[0] == 'd';
    TrimDrops(a, t, c);
    assert t[..|DATA|] == DATA && t[|DATA|..] == b + payload;
    assert b + payload == b + payload + "";
    TrimDrops(b, payload, "");
  }

  /**
    A line that holds `data: ` and a payload, with any white space around these, a carriage return at its
    end included, gives the event of exactly the payload; the rest of the text gives its own.
  */
  lemma DataLineIsItsEvent(json: JsonParse<Json>, a: string, b: string, payload: string, c: string, rest: string)
    requires AllSpace(a) && AllSpace(b) && AllSpace(c) && Tight(payload) && payload != ""
    requires '\n' !in a + b + payload + c
    ensures AllEvents(json, a + "data: " + b + payload + c + "\n" + rest)
            == EventFor(json, payload) + AllEvents(json, rest)
  {
    DataLineRead(json, a, b, payload, c);
    var line := a + "data: " + b + payload + c;
    forall i | 0 <= i < |line|
      ensures line[i] != '\n'
    {
      if !(|a| <= i < |a| + 6) {
        assert line[i] in a + b + payload + c;
      }
    }
    FirstLine(json, line, rest);
  }

  /** A line that does not begin with `data: ` once the white space around it is gone adds nothing. */
  lemma OtherLineIsNothing(json: JsonParse<Json>, a: string, t: string, c: string, rest: string)
    requires AllSpace(a) && AllSpace(c) && Tight(t) && !("data: " <= t) && '\n' !in a + t + c
    ensures AllEvents(json, a + t + c + "\n" + rest) == AllEvents(json, rest)
  {
    TrimDrops(a, t, c);
    FirstLine(json, a + t + c, rest);
  }

  /** A last line without a line feed counts as one with it. */
  lemma LastLineCounts(json: JsonParse<Json>, line: string)
    requires '\n' !in line
    ensures AllEvents(json, line) == AllEvents(json, line + "\n")
  {
    FirstLine(json, line, "");
    NoLineFeedOnePart(line);
    OneLine(json, line);
    assert line + "\n" + "" == line + "\n";
    OneLine(json, "");
  }

  // ---- What the results mean ----

  /** An aborted stream has handled a prefix of what the whole stream would have given. */
  lemma AbortGivesPrefix(json: JsonParse<Json>, chunks: seq<string>, k: nat)
    requires k < |chunks|
    ensures EndedEvents(json, Joined(chunks[..k + 1])) <= AllEvents(json, Joined(chunks))
  {
    JoinedSplits(chunks, k + 1);
    var head, tail := Joined(chunks[..k + 1]), Joined(chunks[k + 1..]);
    SplitAppend(head, tail);
    EventsInAppend(json, Front(Split(head)), Split(Last(Split(head)) + tail));
  }

  lemma {:induction false} JoinedSplits(chunks: seq<string>, k: nat)
    requires k <= |chunks|
    ensures Joined(chunks) == Joined(chunks[..k]) + Joined(chunks[k..])
    decreases |chunks| - k
  {
    if k == |chunks| {
      assert chunks[..k] == chunks && chunks[k..] == [];
    } else {
      JoinedSplits(chunks, k + 1);
      assert Front(chunks[..k + 1]) == chunks[..k];
      JoinedFirst(chunks[k..]);
      assert chunks[k..][1..] == chunks[k + 1..];
    }
  }

  lemma {:induction false} JoinedFirst(chunks: seq<string>)
    requires chunks != []
    ensures Joined(chunks) == chunks[0] + Joined(chunks[1..])
  {
    if |chunks| > 1 {
      JoinedFirst(Front(chunks));
      assert Front(chunks)[1..] == Front(chunks[1..]);
    }
  }

  /** The last error or completion wins. */
  lemma {:induction false} LastDecisionWins(events: seq<Json>, r: AnalyzeResult)
    ensures LastDecision(events) == Some(r)
            <==> exists k | 0 <= k < |events| ::
                   Decision(events[k]) == Some(r) && forall j | k < j < |events| :: Decision(events[j]) == None
  {
    hide Decision;
    if events == [] {
    } else {
      LastDecisionWins(Front(events), r);
      FrontAgrees(events);
    }
  }

  lemma FrontAgrees(events: seq<Json>)
    requires events != []
    ensures |Front(events)| == |events| - 1 && Last(events) == events[|events| - 1]
    ensures forall j | 0 <= j < |events| - 1 :: Decision(Front(events)[j]) == Decision(events[j])
  {
    hide Decision;
  }

  /** No two calls in a row are the same, and none is empty. */
  ghost predicate Changing(calls: seq<string>) {
    (forall i | 0 <= i < |calls| :: calls[i] != "")
    && forall i, j | 0 <= i < j < |calls| && j == i + 1 :: calls[i] != calls[j]
  }

  lemma {:induction false} ProgressNeverRepeats(events: seq<Json>)
    ensures Changing(ProgressCalls(events))
  {
    if events == [] {
    } else {
      ProgressNeverRepeats(Front(events));
    }
  }

  /** And none is lost: after each event with a message, that message is the latest call. */
  lemma ProgressNeverLost(events: seq<Json>)
    requires events != [] && ProgressOf(Last(events)) != ""
    ensures LastCall(ProgressCalls(events)) == ProgressOf(Last(events))
  {
  }

  /** The latest call is the message of the last event that has one. */
  lemma {:induction false} LatestMessage(events: seq<Json>, k: nat)
    requires k < |events| && ProgressOf(events[k]) != ""
    requires forall j | k < j < |events| :: ProgressOf(events[j]) == ""
    ensures LastCall(ProgressCalls(events)) == ProgressOf(events[k])
    decreases |events|
  {
    hide ProgressOf;
    if k == |events| - 1 {
      ProgressNeverLost(events);
    } else {
      LatestMessage(Front(events), k);
    }
  }

  lemma {:induction false} NoMessage(events: seq<Json>)
    requires forall j | 0 <= j < |events| :: ProgressOf(events[j]) == ""
    ensures ProgressCalls(events) == []
  {
    hide ProgressOf;
    if events == [] {
    } else {
      NoMessage(Front(events));
    }
  }

  /** Without a decision the result is the last progress message there was, or `Done.` if there was none. */
  lemma ResultWithoutDecision(events: seq<Json>)
    requires forall k | 0 <= k < |events| :: Decision(events[k]) == None
    ensures (forall k | 0 <= k < |events| :: ProgressOf(events[k]) == "") ==> ResultOf(events) == Message("Done.")
    ensures forall k | 0 <= k < |events| && ProgressOf(events[k]) != ""
                       && forall j | k < j < |events| :: ProgressOf(events[j]) == "" ::
              ResultOf(events) == Message(ProgressOf(events[k]))
  {
    hide ProgressOf, Decision, ProgressCalls, LastDecision;
    NoDecision(events);
    if forall k | 0 <= k < |events| :: ProgressOf(events[k]) == "" {
      NoMessage(events);
    }
    forall k | 0 <= k < |events| && ProgressOf(events[k]) != ""
               && forall j | k < j < |events| :: ProgressOf(events[j]) == ""
      ensures ResultOf(events) == Message(ProgressOf(events[k]))
    {
      LatestMessage(events, k);
    }
  }

  lemma {:induction false} NoDecision(events: seq<Json>)
    requires forall k | 0 <= k < |events| :: Decision(events[k]) == None
    ensures LastDecision(events) == None
  {
    hide Decision;
    if events == [] {
    } else {
      NoDecision(Front(events));
    }
  }

  /** With one it is what the last one decided. */
  lemma ResultIsLastDecision(events: seq<Json>, r: AnalyzeResult, k: nat)
    requires k < |events| && Decision(events[k]) == Some(r)
    requires forall j | k < j < |events| :: Decision(events[j]) == None
    ensures ResultOf(events) == r
  {
    hide Decision;
    LastDecisionWins(events, r);
  }
}
