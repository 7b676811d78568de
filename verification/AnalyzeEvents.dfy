/** Reading the fields of a stream event, with JavaScript's notions of truth, absence and text. */
module AnalyzeEvents {
  import opened Options

  /** How a number is written, which is never as nothing. */
  type NumText = s: string | s != "" witness "0"

  /** A parsed JSON value; of a number only its text and whether it is zero matter. */
  datatype Json =
    | Null
    | Bool(b: bool)
    | Num(text: NumText, isZero: bool)
    | Str(s: string)
    | Arr(items: seq<Json>)
    | Obj(fields: map<string, Json>)

  datatype AnalyzeResult =
    | Failed(error: string)
    | Complete(message: string, narration: string, executiveSummary: string, surfaceActions: Option<Json>,
               dashboardCreated: Option<Json>)
    | Message(message: string)

  /** A field's value, or undefined. */
  function Field(o: map<string, Json>, key: string): Option<Json> {
    if key in o then Some(o[key]) else None
  }

  predicate Truthy(v: Option<Json>) {
    v.Some? && match v.value
               case Null => false
               case Bool(b) => b
               case Num(_, zero) => !zero
               case Str(s) => s != ""
               case Arr(_) => true
               case Obj(_) => true
  }

  /** `a || b` */
  function Or(a: Option<Json>, b: Option<Json>): Option<Json> {
    if Truthy(a) then a else b
  }

  /** `a ?? b` */
  function Nullish(a: Option<Json>, b: Option<Json>): Option<Json> {
    if a.None? || a.value.Null? then b else a
  }

  const NOTHING := Some(Str(""))

  /** `String(v)` (ECMA-262, section 22.1.1.1) */
  function Text(v: Json): string
    decreases v, 1
  {
    match v
    case Null => "null"
    case Bool(b) => if b then "true" else "false"
    case Num(text, _) => text
    case Str(s) => s
    case Arr(items) => JoinItems(items)
    case Obj(_) => "[object Object]"
  }

  /** A list's items with commas between; null items leave nothing. */
  function JoinItems(items: seq<Json>): string
    decreases items, 0
  {
    if items == [] then ""
    else
      var last := items[|items| - 1];
      (if |items| == 1 then "" else JoinItems(items[..|items| - 1]) + ",") + if last.Null? then "" else Text(last)
  }

  function TextOf(v: Option<Json>): string {
    if v.None? then "undefined" else Text(v.value)
  }

  // ---- The fields ----

  type Payload = map<string, Json>

  function PartialResultsOf(p: Payload): Payload {
    var pr := Field(p, "partial_results");
    if pr.Some? && pr.value.Obj? then pr.value.fields else p
  }

  function TypeOf(d: Payload): string {
    TextOf(Or(Field(d, "type"), Or(Field(d, "event_type"), NOTHING)))
  }

  function PickAnalyzeSummary(p: Payload): string {
    var pr := PartialResultsOf(p);
    TextOf(Or(Field(pr, "message"), Or(Field(pr, "narration"),
           Or(Field(pr, "executive_summary"), Or(Field(pr, "analysis"),
           Or(Field(pr, "answer"), Or(Field(p, "message"), Or(Field(p, "narration"), NOTHING))))))))
  }

  predicate IsAnalyzeCompleteEvent(d: Payload) {
    TypeOf(d) == "complete" || Truthy(Field(d, "workflow_complete"))
  }

  function AnalyzeCompleteFromEvent(d: Payload): AnalyzeResult {
    var pr := PartialResultsOf(d);
    Complete(PickAnalyzeSummary(d),
             TextOf(Or(Field(pr, "narration"), NOTHING)),
             TextOf(Or(Field(pr, "executive_summary"), NOTHING)),
             Nullish(Field(pr, "surface_actions"), Field(d, "surface_actions")),
             Nullish(Field(pr, "dashboard_created"), Field(d, "dashboard_created")))
  }

  function AnalyzeProgressMessage(d: Payload): string {
    var progress := Field(d, "progress");
    var message := if progress.Some? && progress.value.Obj? then Field(progress.value.fields, "message") else None;
    if TypeOf(d) in {"progress", "stage", "node_start", "node_complete"} then
      TextOf(Nullish(message, Nullish(Field(d, "progress_message"), Nullish(Field(d, "message"), NOTHING))))
    else ""
  }

  predicate SaysError(d: Payload) {
    TypeOf(d) == "error" || Truthy(Field(d, "error"))
  }

  /** What an error event reports. */
  function Reported(d: Payload): Option<Json> {
    Or(Field(d, "error"), Or(Field(d, "message"), Some(Str("Analyze failed"))))
  }

  function AnalyzeErrorFromEvent(d: Payload): Option<string> {
    if SaysError(d) then Some(TextOf(Reported(d))) else None
  }

  /** What an event decides: an error that says something comes before a completion. */
  function Decision(e: Json): Option<AnalyzeResult> {
    if !e.Obj? then None
    else
      var err := AnalyzeErrorFromEvent(e.fields);
      if err.Some? && err.value != "" then Some(Failed(err.value))
      else if IsAnalyzeCompleteEvent(e.fields) then Some(AnalyzeCompleteFromEvent(e.fields))
      else None
  }

  function ProgressOf(e: Json): string {
    if e.Obj? then AnalyzeProgressMessage(e.fields) else ""
  }

  // ---- What it means ----

  /** Values whose text is empty: the empty text, and lists of at most one item that leaves nothing. */
  predicate Blank(v: Json) {
    match v
    case Str(s) => s == ""
    case Arr(items) => items == [] || (|items| == 1 && (items[0].Null? || Blank(items[0])))
    case _ => false
  }

  lemma {:induction false} BlankExactly(v: Json)
    ensures Text(v) == "" <==> Blank(v)
    decreases v
  {
    if v.Arr? && |v.items| == 1 && !v.items[0].Null? {
      BlankExactly(v.items[0]);
    }
  }

  /** The text of an item of a list: none for null. */
  function ItemText(v: Json): string {
    if v == Null then "" else Text(v)
  }

  /** How values are written: lists by their items, with commas between (ECMA-262, section 23.1.3.18). */
  lemma TextIs(items: seq<Json>, last: Json, fields: map<string, Json>)
    ensures Text(Null) == "null" && Text(Bool(true)) == "true" && Text(Bool(false)) == "false"
    ensures Text(Obj(fields)) == "[object Object]" && Text(Arr([])) == "" && Text(Arr([last])) == ItemText(last)
    ensures items != [] ==> Text(Arr(items + [last])) == Text(Arr(items)) + "," + ItemText(last)
  {
    assert (items + [last])[..|items + [last]| - 1] == items;
    assert "" + ItemText(last) == ItemText(last);
  }

  /**
    An event that says it is an error ends the stream as failed exactly when what it reports is not
    blank. What it reports can be blank only by being a list, as in `error: []`; then the error is lost.
  */
  lemma ErrorsFailExactly(d: Payload)
    requires SaysError(d)
    ensures Decision(Obj(d)).Some? && Decision(Obj(d)).value.Failed? <==> !Blank(Reported(d).value)
    ensures Blank(Reported(d).value) ==> Reported(d).value.Arr?
  {
    BlankExactly(Reported(d).value);
  }

  /** An error that is an empty list is no error to the stream. */
  lemma EmptyErrorListIsLost()
    ensures SaysError(map["error" := Arr([])]) && Decision(Obj(map["error" := Arr([])])) == None
  {
    var d := map["error" := Arr([])];
    assert Reported(d) == Some(Arr([]));
    ErrorsFailExactly(d);
    assert "workflow_complete" !in d && TypeOf(d) == "";
  }

  // ---- Which fields are read, in which order ----

  /** The field is there, and is not null, false, zero or an empty text. */
  predicate Says(o: Payload, key: string) {
    key in o && o[key] !in {Null, Bool(false), Str("")} && !(o[key].Num? && o[key].isZero)
  }

  /** The value of the first of the fields that says something. */
  function FirstSaid(o: Payload, keys: seq<string>): (v: Option<Json>)
    ensures v.Some? ==>
              exists k: nat | k < |keys| && Says(o, keys[k]) ::
                v.value == o[keys[k]] && forall j | 0 <= j < k :: !Says(o, keys[j])
    ensures v.None? ==> forall k | 0 <= k < |keys| :: !Says(o, keys[k])
  {
    if keys == [] then None
    else if Says(o, keys[0]) then Some(o[keys[0]])
    else
      var v := FirstSaid(o, keys[1..]);
      assert forall k | 0 < k < |keys| :: keys[k] == keys[1..][k - 1];
      v
  }

  function TextOr(v: Option<Json>, default: string): string {
    if v.Some? then Text(v.value) else default
  }

  lemma OrIs(o: Payload, key: string, rest: Option<Json>)
    ensures Or(Field(o, key), rest) == if Says(o, key) then Some(o[key]) else rest
  {
  }

  lemma TypeIs(d: Payload)
    ensures TypeOf(d) == TextOr(FirstSaid(d, ["type", "event_type"]), "")
  {
    OrIs(d, "type", Or(Field(d, "event_type"), NOTHING));
    OrIs(d, "event_type", NOTHING);
  }

  lemma PartialResultsIs(d: Payload)
    ensures "partial_results" in d && d["partial_results"].Obj? ==> PartialResultsOf(d) == d["partial_results"].fields
    ensures !("partial_results" in d && d["partial_results"].Obj?) ==> PartialResultsOf(d) == d
  {
  }

  lemma TwoSaid(o: Payload, a: string, b: string, default: string)
    ensures TextOf(Or(Field(o, a), Or(Field(o, b), Some(Str(default))))) == TextOr(FirstSaid(o, [a, b]), default)
  {
    OrIs(o, a, Or(Field(o, b), Some(Str(default))));
    OrIs(o, b, Some(Str(default)));
    assert [a, b][1..] == [b] && [b][1..] == [];
  }

  function Else(a: Option<Json>, b: Option<Json>): Option<Json> {
    if a.Some? then a else b
  }

  lemma OneMoreField(o: Payload, key: string, keys: seq<string>, tail: Option<Json>)
    ensures Or(Field(o, key), Else(FirstSaid(o, keys), tail)) == Else(FirstSaid(o, [key] + keys), tail)
  {
    assert ([key] + keys)[1..] == keys;
  }

  const SUMMARY_FIELDS := ["message", "narration", "executive_summary", "analysis", "answer"]

  /** The summary is what the first of five fields of the partial results says, or else of two of the event's. */
  lemma SummaryIs(d: Payload)
    ensures PickAnalyzeSummary(d)
            == TextOr(Else(FirstSaid(PartialResultsOf(d), SUMMARY_FIELDS), FirstSaid(d, ["message", "narration"])), "")
  {
    hide FirstSaid, Or, Field;
    var pr, tail := PartialResultsOf(d), Or(Field(d, "message"), Or(Field(d, "narration"), NOTHING));
    assert FirstSaid(pr, []) == None;
    OneMoreField(pr, "answer", [], tail);
    OneMoreField(pr, "analysis", ["answer"], tail);
    OneMoreField(pr, "executive_summary", ["analysis", "answer"], tail);
    OneMoreField(pr, "narration", ["executive_summary", "analysis", "answer"], tail);
    OneMoreField(pr, "message", ["narration", "executive_summary", "analysis", "answer"], tail);
    TwoSaid(d, "message", "narration", "");
    assert ["answer"] + [] == ["answer"];
    assert ["message"] + ["narration", "executive_summary", "analysis", "answer"] == SUMMARY_FIELDS;
    assert ["narration"] + ["executive_summary", "analysis", "answer"]
           == ["narration", "executive_summary", "analysis", "answer"];
    assert ["executive_summary"] + ["analysis", "answer"] == ["executive_summary", "analysis", "answer"];
    assert ["analysis"] + ["answer"] == ["analysis", "answer"];
  }

  /** The field's value unless it is null. */
  function Given(o: Payload, key: string): Option<Json> {
    if key in o && o[key] != Null then Some(o[key]) else None
  }

  /** A completion has its parts from the partial results, and two of them, failing that, from the event itself. */
  lemma CompletionIs(d: Payload)
    ensures var r, pr := AnalyzeCompleteFromEvent(d), PartialResultsOf(d);
            && r.Complete? && r.message == PickAnalyzeSummary(d)
            && r.narration == TextOr(FirstSaid(pr, ["narration"]), "")
            && r.executiveSummary == TextOr(FirstSaid(pr, ["executive_summary"]), "")
            && r.surfaceActions == Else(Given(pr, "surface_actions"), Field(d, "surface_actions"))
            && r.dashboardCreated == Else(Given(pr, "dashboard_created"), Field(d, "dashboard_created"))
  {
    OrIs(PartialResultsOf(d), "narration", NOTHING);
    OrIs(PartialResultsOf(d), "executive_summary", NOTHING);
  }

  /**
    What an event decides, by its type and its fields: what it reports when it is an error and that is not
    empty, else a completion when it is one, else nothing.
  */
  lemma DecisionIs(d: Payload)
    ensures var report := TextOr(FirstSaid(d, ["error", "message"]), "Analyze failed");
            Decision(Obj(d))
            == if (TypeOf(d) == "error" || Says(d, "error")) && report != "" then Some(Failed(report))
               else if TypeOf(d) == "complete" || Says(d, "workflow_complete") then Some(AnalyzeCompleteFromEvent(d))
               else None
  {
    TwoSaid(d, "error", "message", "Analyze failed");
    OrIs(d, "error", None);
    OrIs(d, "workflow_complete", None);
  }

  lemma OnlyObjectsSay(e: Json)
    requires !e.Obj?
    ensures Decision(e) == None && ProgressOf(e) == ""
  {
  }

  /** The progress an event reports: only four types do; the message of `progress` comes first. */
  lemma ProgressIs(d: Payload)
    ensures TypeOf(d) !in {"progress", "stage", "node_start", "node_complete"} ==> ProgressOf(Obj(d)) == ""
    ensures TypeOf(d) in {"progress", "stage", "node_start", "node_complete"} ==>
              var inner :=
                if "progress" in d && d["progress"].Obj? then Given(d["progress"].fields, "message") else None;
              ProgressOf(Obj(d))
              == if inner.Some? then Text(inner.value)
                 else if Given(d, "progress_message").Some? then Text(d["progress_message"])
                 else if Given(d, "message").Some? then Text(d["message"]) else ""
  {
  }
}
