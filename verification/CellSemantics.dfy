/**
  Running a cell. `Raw` is Python: calling a coroutine method of the library makes a coroutine that
  does nothing until it is awaited. `Direct` is what the pass promises the author: a listed call
  written in the open runs on the spot. Loops and calls of defined functions use up fuel, so that a
  cell that never ends is `Timeout` at every fuel.
*/
module CellSemantics {
  import opened AwaitPass

  datatype Mode = Raw | Direct

  datatype Value =
    | VNone
    | VInt(n: int)
    | VList(items: seq<Value>)
    | VLibrary
    | VMethod(name: string)
    | VPrint
    | VClass(fields: map<string, Value>)
    | VFunction(params: seq<string>, body: Node, frame: map<string, Value>, isAsync: bool)
    | VRequest(name: string, args: seq<Value>)             // a library coroutine not run yet
    | VCoroutine(body: Node, frame: map<string, Value>)      // an async function's, not run yet
    | VGenerator(elt: Node, target: string, items: seq<Value>, frame: map<string, Value>, mode: Mode, isAsync: bool)
    | VError(message: string)

  datatype Event =
    | Requested(name: string, args: seq<Value>)
    | Printed(args: seq<Value>)

  datatype Answer = Returns(value: Value) | Fails(error: Value)

  /** How the server answers the last request, given everything that happened before it. */
  type Server = seq<Event> -> Answer

  datatype State = State(globals: map<string, Value>, locals: map<string, Value>, atTop: bool, trace: seq<Event>)

  /** The outcome of running something: a result, an exception on its way up, or no more fuel. */
  datatype Outcome<+T> = Ok(value: T, st: State) | Raised(error: Value, st: State) | Timeout {
    predicate IsFailure() {
      !Ok?
    }

    function PropagateFailure<U>(): Outcome<U>
      requires !Ok?
    {
      match this
      case Raised(e, st) => Raised(e, st)
      case Timeout => Timeout
    }

    function Extract(): (T, State)
      requires Ok?
    {
      (value, st)
    }
  }

  datatype Flow = Normal | Returned(value: Value)

  predicate Bound(st: State, id: string) {
    id in st.locals || id in st.globals
  }

  function Lookup(st: State, id: string): Value
    requires Bound(st, id)
  {
    if id in st.locals then st.locals[id] else st.globals[id]
  }

  function Bind(st: State, id: string, v: Value): State {
    if st.atTop then st.(globals := st.globals[id := v]) else st.(locals := st.locals[id := v])
  }

  function Fail<T>(message: string, st: State): Outcome<T> {
    Raised(VError(message), st)
  }

  function Truthy(v: Value): bool {
    match v
    case VNone => false
    case VInt(n) => n != 0
    case VList(s) => s != []
    case _ => true
  }

  function GetAttribute(v: Value, attr: string, st: State): Outcome<Value> {
    match v
    case VLibrary =>
      if attr in COROUTINE_METHODS + {"sources"} then Ok(VMethod(attr), st) else Fail("AttributeError", st)
    case VClass(fields) => if attr in fields then Ok(fields[attr], st) else Fail("AttributeError", st)
    case _ => Fail("AttributeError", st)
  }

  /** What a plain loop can go through: not an async generator. */
  predicate Iterable(v: Value) {
    v.VList? || (v.VGenerator? && !v.isAsync)
  }

  function Zip(params: seq<string>, args: seq<Value>): map<string, Value>
    requires |params| == |args|
  {
    if params == [] then map[] else Zip(params[1..], args[1..])[params[0] := args[0]]
  }

  /**
    The expression awaits as part of itself, so a generator made from it is an async generator; an await in
    a definition, or in the element of another generator expression, is not part of it.
  */
  predicate AwaitsItself(n: Node) {
    match n
    case Await(_) => true
    case Attribute(v, _) => AwaitsItself(v)
    case Call(f, a) => AwaitsItself(f) || AwaitsItself(a)
    case BinOp(l, r) => AwaitsItself(l) || AwaitsItself(r)
    case IfExp(t, b, o) => AwaitsItself(t) || AwaitsItself(b) || AwaitsItself(o)
    case ListComp(e, _, i) => AwaitsItself(e) || AwaitsItself(i)
    case GeneratorExp(_, _, i) => AwaitsItself(i)
    case Cons(a, b) => AwaitsItself(a) || AwaitsItself(b)
    case _ => false
  }

  /** Some listed call would run on the spot here: one outside awaits and definitions. */
  predicate RunsOnTheSpot(n: Node) {
    match n
    case Attribute(v, _) => RunsOnTheSpot(v)
    case Call(f, a) => IsListedCall(n) || RunsOnTheSpot(f) || RunsOnTheSpot(a)
    case BinOp(l, r) => RunsOnTheSpot(l) || RunsOnTheSpot(r)
    case IfExp(t, b, o) => RunsOnTheSpot(t) || RunsOnTheSpot(b) || RunsOnTheSpot(o)
    case ListComp(e, _, i) => RunsOnTheSpot(e) || RunsOnTheSpot(i)
    case GeneratorExp(e, _, i) => RunsOnTheSpot(e) || RunsOnTheSpot(i)
    case Expr(v) => RunsOnTheSpot(v)
    case Assign(_, v) => RunsOnTheSpot(v)
    case If(t, b, o) => RunsOnTheSpot(t) || RunsOnTheSpot(b) || RunsOnTheSpot(o)
    case While(t, b) => RunsOnTheSpot(t) || RunsOnTheSpot(b)
    case For(_, i, b) => RunsOnTheSpot(i) || RunsOnTheSpot(b)
    case Return(v) => RunsOnTheSpot(v)
    case Try(b, h) => RunsOnTheSpot(b) || RunsOnTheSpot(h)
    case Cons(a, b) => RunsOnTheSpot(a) || RunsOnTheSpot(b)
    case _ => false
  }

  /** Evaluation leaves every variable as it was, and only adds events. */
  ghost predicate OnlyAddsEvents<T>(st: State, r: Outcome<T>) {
    r.Timeout? || (r.st == st.(trace := r.st.trace) && st.trace <= r.st.trace)
  }

  ghost predicate KeepsHistory<T>(st: State, r: Outcome<T>) {
    r.Timeout? || st.trace <= r.st.trace
  }

  /** A list comprehension: `elt` for each of n items, with the variable x hidden again afterwards. */
  function Collect(n: nat, items: (nat, State) -> Outcome<Value>, x: string, elt: State -> Outcome<Value>, st: State,
                   k: nat := 0)
    : (r: Outcome<seq<Value>>)
    requires forall j: nat, s: State :: OnlyAddsEvents(s, items(j, s))
    requires forall s :: OnlyAddsEvents(s, elt(s))
    ensures OnlyAddsEvents(st, r)
    decreases n - k
  {
    if k >= n then Ok([], st)
    else
      assert OnlyAddsEvents(st, items(k, st));
      var (item, st1) :- items(k, st);
      var inside := st1.(locals := st1.locals[x := item]);
      assert OnlyAddsEvents(inside, elt(inside));
      match elt(inside)
      case Ok(v, st2) =>
        var (vs, st3) :- Collect(n, items, x, elt, st1.(trace := st2.trace), k + 1);
        Ok([v] + vs, st3)
      case Raised(e, st2) => Raised(e, st1.(trace := st2.trace))
      case Timeout => Timeout
  }

  /** A for loop: `body` for each of n items. */
  function Repeat(n: nat, items: (nat, State) -> Outcome<Value>, x: string, body: State -> Outcome<Flow>, st: State,
                  k: nat := 0)
    : (r: Outcome<Flow>)
    requires forall j: nat, s: State :: OnlyAddsEvents(s, items(j, s))
    requires forall s :: KeepsHistory(s, body(s))
    ensures KeepsHistory(st, r)
    decreases n - k
  {
    if k >= n then Ok(Normal, st)
    else
      assert OnlyAddsEvents(st, items(k, st));
      var (item, st1) :- items(k, st);
      var inside := Bind(st1, x, item);
      assert KeepsHistory(inside, body(inside));
      var (flow, st2) :- body(inside);
      if flow.Returned? then Ok(flow, st2) else Repeat(n, items, x, body, st2, k + 1)
  }

  function Eval(mode: Mode, n: Node, st: State, fuel: nat, server: Server): (r: Outcome<Value>)
    ensures OnlyAddsEvents(st, r)
    decreases fuel, 1, n, 2
  {
    match n
    case Const(k) => Ok(VInt(k), st)
    case Name(id) => if Bound(st, id) then Ok(Lookup(st, id), st) else Fail("NameError", st)
    case Attribute(v, a) =>
      var (o, st1) :- Eval(mode, v, st, fuel, server);
      GetAttribute(o, a, st1)
    case Call(_, _) => EvalCall(mode, n, st, fuel, server)
    case Await(v) =>
      var (c, st1) :- Eval(Raw, v, st, fuel, server);
      RunAwaited(c, st1, fuel, server)
    case BinOp(l, r) =>
      var (x, st1) :- Eval(mode, l, st, fuel, server);
      var (y, st2) :- Eval(mode, r, st1, fuel, server);
      if x.VInt? && y.VInt? then Ok(VInt(x.n + y.n), st2) else Fail("TypeError", st2)
    case IfExp(t, b, o) =>
      var (c, st1) :- Eval(mode, t, st, fuel, server);
      if Truthy(c) then Eval(mode, b, st1, fuel, server) else Eval(mode, o, st1, fuel, server)
    case Lambda(ps, b) => Ok(VFunction(ps, Cons(Return(b), Nil), st.locals, false), st)
    case ListComp(_, _, _) => EvalListComp(mode, n, st, fuel, server)
    case GeneratorExp(_, _, _) => EvalGeneratorExp(mode, n, st, fuel, server)
    case _ => Fail("not an expression", st)
  }

  function EvalCall(mode: Mode, n: Node, st: State, fuel: nat, server: Server): (r: Outcome<Value>)
    requires n.Call?
    ensures OnlyAddsEvents(st, r)
    decreases fuel, 1, n, 1
  {
    var (fv, st1) :- Eval(mode, n.func, st, fuel, server);
    var (vs, st2) :- EvalAll(mode, n.args, st1, fuel, server);
    var (v, st3) :- Apply(fv, vs, st2, fuel, server);
    if mode.Direct? && IsListedCall(n) && (v.VRequest? || v.VCoroutine?) then RunAwaited(v, st3, fuel, server)
    else Ok(v, st3)
  }

  function EvalListComp(mode: Mode, n: Node, st: State, fuel: nat, server: Server): (r: Outcome<Value>)
    requires n.ListComp?
    ensures OnlyAddsEvents(st, r)
    decreases fuel, 1, n, 1
  {
    var (it, st1) :- Eval(mode, n.iter, st, fuel, server);
    if !Iterable(it) then Fail("TypeError", st1)
    else
      var (vs, st2) :- Collect(|it.items|, ItemsOf(it, fuel, server), n.target, Evaluator(mode, n.elt, fuel, server),
                              st1);
      Ok(VList(vs), st2)
  }

  /** A generator keeps its items; its element is evaluated later, for each of them. */
  function EvalGeneratorExp(mode: Mode, n: Node, st: State, fuel: nat, server: Server): (r: Outcome<Value>)
    requires n.GeneratorExp?
    ensures OnlyAddsEvents(st, r)
    decreases fuel, 1, n, 1
  {
    var (it, st1) :- Eval(mode, n.iter, st, fuel, server);
    if !it.VList? then Fail("TypeError", st1)
    else
      var later := if mode.Direct? && RunsOnTheSpot(n.elt) then Direct else Raw;
      Ok(VGenerator(n.elt, n.target, it.items, st1.locals, later, AwaitsItself(n.elt)), st1)
  }

  function EvalAll(mode: Mode, n: Node, st: State, fuel: nat, server: Server): (r: Outcome<seq<Value>>)
    ensures OnlyAddsEvents(st, r)
    decreases fuel, 1, n, 0
  {
    match n
    case Nil => Ok([], st)
    case Cons(a, rest) =>
      var (v, st1) :- Eval(mode, a, st, fuel, server);
      var (vs, st2) :- EvalAll(mode, rest, st1, fuel, server);
      Ok([v] + vs, st2)
    case _ => Fail("not a list", st)
  }

  /** How to go through v: its k-th item; a generator works it out only now, in its own frame. */
  function Item(v: Value, k: nat, st: State, fuel: nat, server: Server): (r: Outcome<Value>)
    ensures OnlyAddsEvents(st, r)
    decreases fuel, 0, 0
  {
    if !Iterable(v) || k >= |v.items| then Fail("StopIteration", st)
    else if v.VList? then Ok(v.items[k], st)
    else if fuel == 0 then Timeout
    else
      match Eval(v.mode, v.elt, State(st.globals, v.frame[v.target := v.items[k]], false, st.trace), fuel - 1, server)
      case Ok(x, st1) => Ok(x, st.(trace := st1.trace))
      case Raised(e, st1) => Raised(e, st.(trace := st1.trace))
      case Timeout => Timeout
  }

  function ItemsOf(v: Value, fuel: nat, server: Server): (items: (nat, State) -> Outcome<Value>)
    ensures forall k: nat, s: State :: items(k, s) == Item(v, k, s, fuel, server)
    decreases fuel, 0, 1
  {
    (k: nat, s: State) => Item(v, k, s, fuel, server)
  }

  function Evaluator(mode: Mode, e: Node, fuel: nat, server: Server): (f: State -> Outcome<Value>)
    ensures forall s :: f(s) == Eval(mode, e, s, fuel, server)
    decreases fuel, 1, e, 3
  {
    s => Eval(mode, e, s, fuel, server)
  }

  function Runner(mode: Mode, b: Node, fuel: nat, server: Server): (f: State -> Outcome<Flow>)
    ensures forall s :: f(s) == Exec(mode, b, s, fuel, server)
    decreases fuel, 1, b, 1
  {
    s => Exec(mode, b, s, fuel, server)
  }

  function Apply(f: Value, args: seq<Value>, st: State, fuel: nat, server: Server): (r: Outcome<Value>)
    ensures OnlyAddsEvents(st, r)
    decreases fuel, 0, 1
  {
    match f
    case VMethod(m) => if m == "sources" then Ok(VList([]), st) else Ok(VRequest(m, args), st)
    case VPrint => Ok(VNone, st.(trace := st.trace + [Printed(args)]))
    case VFunction(ps, body, frame, isAsync) =>
      if |ps| != |args| then Fail("TypeError", st)
      else if isAsync then Ok(VCoroutine(body, frame + Zip(ps, args)), st)
      else RunBody(body, frame + Zip(ps, args), st, fuel, server)
    case _ => Fail("TypeError", st)
  }

  function RunAwaited(v: Value, st: State, fuel: nat, server: Server): (r: Outcome<Value>)
    ensures OnlyAddsEvents(st, r)
    decreases fuel, 0, 1
  {
    match v
    case VRequest(m, args) =>
      var st1 := st.(trace := st.trace + [Requested(m, args)]);
      (match server(st1.trace)
       case Returns(x) => Ok(x, st1)
       case Fails(e) => Raised(e, st1))
    case VCoroutine(body, frame) => RunBody(body, frame, st, fuel, server)
    case _ => Fail("TypeError", st)
  }

  /** A function's body: reads the cell's globals, keeps its own names to itself. */
  function RunBody(body: Node, frame: map<string, Value>, st: State, fuel: nat, server: Server): (r: Outcome<Value>)
    ensures OnlyAddsEvents(st, r)
    decreases fuel, 0, 0
  {
    if fuel == 0 then Timeout
    else
      match Exec(Raw, body, State(st.globals, frame, false, st.trace), fuel - 1, server)
      case Ok(flow, st1) => Ok(if flow.Returned? then flow.value else VNone, st.(trace := st1.trace))
      case Raised(e, st1) => Raised(e, st.(trace := st1.trace))
      case Timeout => Timeout
  }

  function Exec(mode: Mode, n: Node, st: State, fuel: nat, server: Server): (r: Outcome<Flow>)
    ensures KeepsHistory(st, r)
    decreases fuel, 1, n, 0
  {
    match n
    case Nil => Ok(Normal, st)
    case Cons(a, rest) =>
      var (flow, st1) :- Exec(mode, a, st, fuel, server);
      if flow.Returned? then Ok(flow, st1) else Exec(mode, rest, st1, fuel, server)
    case Expr(v) =>
      var (_, st1) :- Eval(mode, v, st, fuel, server);
      Ok(Normal, st1)
    case Assign(x, v) =>
      var (y, st1) :- Eval(mode, v, st, fuel, server);
      Ok(Normal, Bind(st1, x, y))
    case Return(v) =>
      var (y, st1) :- Eval(mode, v, st, fuel, server);
      Ok(Returned(y), st1)
    case If(t, b, o) =>
      var (c, st1) :- Eval(mode, t, st, fuel, server);
      if Truthy(c) then Exec(mode, b, st1, fuel, server) else Exec(mode, o, st1, fuel, server)
    case While(t, b) =>
      var (c, st1) :- Eval(mode, t, st, fuel, server);
      if !Truthy(c) then Ok(Normal, st1)
      else if fuel == 0 then Timeout
      else
        var (flow, st2) :- Exec(mode, b, st1, fuel, server);
        if flow.Returned? then Ok(flow, st2) else Exec(mode, n, st2, fuel - 1, server)
    case For(x, i, b) =>
      var (it, st1) :- Eval(mode, i, st, fuel, server);
      if Iterable(it) then Repeat(|it.items|, ItemsOf(it, fuel, server), x, Runner(mode, b, fuel, server), st1)
      else Fail("TypeError", st1)
    case Try(b, h) =>
      var r := Exec(mode, b, st, fuel, server);
      if r.Raised? then Exec(mode, h, r.st, fuel, server) else r
    case FunctionDef(f, ps, b) => Ok(Normal, Bind(st, f, VFunction(ps, b, st.locals, false)))
    case AsyncFunctionDef(f, ps, b) => Ok(Normal, Bind(st, f, VFunction(ps, b, st.locals, true)))
    case ClassDef(c, b) =>
      (match Exec(Raw, b, State(st.globals, map[], false, st.trace), fuel, server)
       case Ok(_, st1) => Ok(Normal, Bind(st.(trace := st1.trace), c, VClass(st1.locals)))
       case Raised(e, st1) => Raised(e, st.(trace := st1.trace))
       case Timeout => Timeout)
    case _ => Fail("not a statement", st)
  }
}
