/** Cutting streamed text into lines, and reading the data lines (one event per `data: ` line). */
module SseBuffer {
  import opened Options
  import opened Strings

  /** What `JSON.parse` gives for a payload; None when it throws or gives null. */
  type JsonParse<!E> = string -> Option<E>

  const DATA := "data: "

  function ParseSSEDataLine<E>(json: JsonParse<E>, line: string): Option<E> {
    var trimmed := Trim(line);
    if !(DATA <= trimmed) then None
    else
      var payload := Trim(trimmed[|DATA|..]);
      if payload == [] then None else json(payload)
  }

  function Front<T>(s: seq<T>): seq<T>
    requires s != []
  {
    s[..|s| - 1]
  }

  function Last<T>(s: seq<T>): T
    requires s != []
  {
    s[|s| - 1]
  }

  /** One more character either ends the last part or goes on with it. */
  function Extend(parts: seq<string>, c: char): (r: seq<string>)
    requires parts != []
    ensures r != []
  {
    if c == '\n' then parts + [[]] else Front(parts) + [Last(parts) + [c]]
  }

  /** `split('\n')`: always at least one part. */
  function Split(s: string): (parts: seq<string>)
    ensures parts != []
  {
    if s == [] then [[]] else Extend(Split(Front(s)), Last(s))
  }

  /** The lines with a line feed after each but the last. */
  function Unlines(lines: seq<string>): string
    requires lines != []
  {
    if |lines| == 1 then lines[0] else Unlines(Front(lines)) + "\n" + Last(lines)
  }

  lemma {:induction false} SplitIsExact(s: string)
    ensures Unlines(Split(s)) == s && forall i | 0 <= i < |Split(s)| :: '\n' !in Split(s)[i]
  {
    if s == [] {
    } else {
      var parts, c := Split(Front(s)), Last(s);
      SplitIsExact(Front(s));
      assert s == Front(s) + [c];
      if c == '\n' {
        assert Front(parts + [[]]) == parts;
      } else if |parts| > 1 {
        assert Front(Split(s)) == Front(parts);
      }
    }
  }

  lemma ExtendAfter(before: seq<string>, parts: seq<string>, c: char)
    requires parts != []
    ensures Extend(before + parts, c) == before + Extend(parts, c)
  {
    assert Last(before + parts) == Last(parts);
    if c == '\n' {
      assert before + parts + [[]] == before + (parts + [[]]);
    } else {
      assert Front(before + parts) == before + Front(parts);
    }
  }

  /** More text continues the last part; the parts before it stay. */
  lemma {:induction false} SplitAppend(a: string, b: string)
    ensures Split(a + b) == Front(Split(a)) + Split(Last(Split(a)) + b)
    decreases |b|
  {
    var before, last := Front(Split(a)), Last(Split(a));
    if b == [] {
      assert a + b == a && last + b == last;
      NoLineFeedOnePart(last) by { SplitIsExact(a); }
    } else {
      SplitAppend(a, Front(b));
      assert Front(a + b) == a + Front(b) && Last(a + b) == Last(b);
      assert Front(last + b) == last + Front(b) && Last(last + b) == Last(b);
      ExtendAfter(before, Split(last + Front(b)), Last(b));
    }
  }

  lemma {:induction false} NoLineFeedOnePart(s: string)
    requires '\n' !in s
    ensures Split(s) == [s]
  {
    if s == [] {
    } else {
      NoLineFeedOnePart(Front(s));
      assert s == Front(s) + [Last(s)];
    }
  }

  /** The events the lines hold, in order. */
  function EventsIn<E>(json: JsonParse<E>, lines: seq<string>): seq<E> {
    if lines == [] then []
    else
      EventsIn(json, Front(lines)) + EventOf(json, Last(lines))
  }

  function EventOf<E>(json: JsonParse<E>, line: string): seq<E> {
    var data := ParseSSEDataLine(json, line);
    if data.Some? then [data.value] else []
  }

  lemma {:induction false} EventsInAppend<E>(json: JsonParse<E>, a: seq<string>, b: seq<string>)
    ensures EventsIn(json, a + b) == EventsIn(json, a) + EventsIn(json, b)
    decreases |b|
  {
    if b == [] {
      assert a + b == a;
    } else {
      assert Front(a + b) == a + Front(b) && Last(a + b) == Last(b);
      EventsInAppend(json, a, Front(b));
      var x, y, z := EventsIn(json, a), EventsIn(json, Front(b)), EventOf(json, Last(b));
      assert (x + y) + z == x + (y + z);
    }
  }
}
