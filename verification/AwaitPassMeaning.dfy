/**
  What the await-inserting pass preserves: running its output as plain Python gives, event for event
  and value for value, what running the cell with listed calls executed on the spot gives.
*/
module AwaitPassMeaning {
  import opened Options
  import opened AwaitPass
  import opened CellSemantics

  /** The name `aicser` still means the library. */
  predicate LibraryBound(st: State) {
    "aicser" !in st.locals && "aicser" in st.globals && st.globals["aicser"] == VLibrary
  }

  /** A listed call in the open finds the library, or there is none. */
  predicate Fits(n: Node, st: State) {
    LibraryBound(st) || !RunsOnTheSpot(n)
  }

  /** At the top of the cell, with the library in place. */
  predicate Ready(st: State) {
    LibraryBound(st) && st.atTop
  }

  predicate StaysReady<T>(r: Outcome<T>) {
    r.Timeout? || Ready(r.st)
  }

  /**
    In the open, the cell gives the name `aicser` no other meaning, and has no listed call in a
    generator expression.
  */
  predicate Supported(n: Node) {
    match n
    case Lambda(_, _) => true
    case Await(_) => true
    case FunctionDef(f, _, _) => f != "aicser"
    case AsyncFunctionDef(f, _, _) => f != "aicser"
    case ClassDef(c, _) => c != "aicser"
    case Assign(x, v) => x != "aicser" && Supported(v)
    case For(x, i, b) => x != "aicser" && Supported(i) && Supported(b)
    case ListComp(e, x, i) => x != "aicser" && Supported(e) && Supported(i)
    case GeneratorExp(e, _, i) => !RunsOnTheSpot(e) && Supported(i)
    case Attribute(v, _) => Supported(v)
    case Call(f, a) => Supported(f) && Supported(a)
    case BinOp(l, r) => Supported(l) && Supported(r)
    case IfExp(t, b, o) => Supported(t) && Supported(b) && Supported(o)
    case Expr(v) => Supported(v)
    case If(t, b, o) => Supported(t) && Supported(b) && Supported(o)
    case While(t, b) => Supported(t) && Supported(b)
    case Return(v) => Supported(v)
    case Try(b, h) => Supported(b) && Supported(h)
    case Cons(a, b) => Supported(a) && Supported(b)
    case _ => true
  }

  /** The pass changes an accepted tree exactly when some listed call in it would run on the spot. */
  lemma {:induction false} ChangedExactlyOnTheSpot(n: Node)
    requires Rewrite(n).Some?
    ensures Rewrite(n).value == n <==> !RunsOnTheSpot(n)
  {
    if !IsDefinition(n) && !IsLeftAlone(n) {
      forall c | c in Children(n)
        ensures Rewrite(c).Some? && (Rewrite(c).value == c) == !RunsOnTheSpot(c)
      {
        ChangedExactlyOnTheSpot(c);
      }
    }
  }

  /** Comprehensions over the same items agree when their elements do: everywhere, or where the library is bound. */
  lemma {:induction false} CollectSame(n: nat, items: (nat, State) -> Outcome<Value>, x: string,
                                       f: State -> Outcome<Value>,
                                       g: State -> Outcome<Value>, st: State, k: nat, everywhere: bool)
    requires forall j: nat, s: State :: OnlyAddsEvents(s, items(j, s))
    requires forall s :: OnlyAddsEvents(s, f(s))
    requires forall s :: OnlyAddsEvents(s, g(s))
    requires forall s | everywhere || LibraryBound(s) :: f(s) == g(s)
    requires everywhere || (LibraryBound(st) && x != "aicser")
    ensures Collect(n, items, x, f, st, k) == Collect(n, items, x, g, st, k)
    decreases n - k
  {
    if k < n {
      var item := items(k, st);
      if item.Ok? {
        var v := f(item.st.(locals := item.st.locals[x := item.value]));
        if v.Ok? { CollectSame(n, items, x, f, g, item.st.(trace := v.st.trace), k + 1, everywhere); }
      }
    }
  }

  /** Loops over the same items agree when their bodies do. */
  lemma {:induction false} RepeatSame(n: nat, items: (nat, State) -> Outcome<Value>, x: string,
                                      f: State -> Outcome<Flow>, g: State -> Outcome<Flow>, st: State, k: nat)
    requires forall j: nat, s: State :: OnlyAddsEvents(s, items(j, s))
    requires forall s :: KeepsHistory(s, f(s))
    requires forall s :: KeepsHistory(s, g(s))
    requires forall s | Ready(s) :: f(s) == g(s) && StaysReady(f(s))
    requires Ready(st) && x != "aicser"
    ensures Repeat(n, items, x, f, st, k) == Repeat(n, items, x, g, st, k)
    ensures StaysReady(Repeat(n, items, x, f, st, k))
    decreases n - k
  {
    if k < n {
      var item := items(k, st);
      if item.Ok? {
        var r := f(Bind(item.st, x, item.value));
        if r.Ok? { RepeatSame(n, items, x, f, g, r.st, k + 1); }
      }
    }
  }

  lemma PartsFit(n: Node, st: State)
    requires Fits(n, st) && !IsDefinition(n) && !IsLeftAlone(n)
    ensures forall c | c in Children(n) :: Fits(c, st)
    ensures IsListedCall(n) ==> LibraryBound(st)
  {
  }

  lemma {:induction false} EvalPreserved(n: Node, st: State, fuel: nat, server: Server)
    requires Rewrite(n).Some? && Supported(n) && Fits(n, st)
    ensures Eval(Raw, Rewrite(n).value, st, fuel, server) == Eval(Direct, n, st, fuel, server)
    decreases fuel, n, 1
  {
    hide EvalAll, Exec, Apply, RunAwaited, RunsOnTheSpot, GetAttribute, Iterable, Collect;
    if !IsDefinition(n) && !IsLeftAlone(n) { PartsFit(n, st); }
    match n
    case Attribute(_, _) => AttributePreserved(n, st, fuel, server);
    case Call(_, _) =>
      if IsListedCall(n) {
        ListedCallPreserved(n, st, fuel, server);
      } else {
        OtherCallPreserved(n, st, fuel, server);
      }
    case BinOp(_, _) => BinOpPreserved(n, st, fuel, server);
    case IfExp(_, _, _) => IfExpPreserved(n, st, fuel, server);
    case ListComp(_, _, _) => ListCompPreserved(n, st, fuel, server);
    case GeneratorExp(_, _, _) => GeneratorExpPreserved(n, st, fuel, server);
    case Const(_) =>
    case Name(_) =>
    case Lambda(_, _) =>
    case Await(_) =>
    case _ => NotAnExpression(n, st, fuel, server);
  }

  lemma ListedMethodLookup(mode: Mode, f: Node, st: State, fuel: nat, server: Server)
    requires f.Attribute? && f.value == Name("aicser") && f.attr in LISTED && LibraryBound(st)
    ensures Eval(mode, f, st, fuel, server) == Ok(VMethod(f.attr), st)
  {
    assert Eval(mode, f.value, st, fuel, server) == Ok(VLibrary, st);
  }

  /** A listed call once its arguments are known: Python makes the coroutine; on the spot, it is run at once. */
  function ListedCallResult(mode: Mode, name: string, args: Outcome<seq<Value>>, fuel: nat,
                            server: Server): Outcome<Value> {
    var (vs, st) :- args;
    if mode.Raw? then Ok(VRequest(name, vs), st) else RunAwaited(VRequest(name, vs), st, fuel, server)
  }

  lemma ListedCallByMode(mode: Mode, n: Node, st: State, fuel: nat, server: Server)
    requires IsListedCall(n) && LibraryBound(st)
    ensures Eval(mode, n, st, fuel, server)
            == ListedCallResult(mode, n.func.attr, EvalAll(mode, n.args, st, fuel, server), fuel, server)
  {
    ListedMethodLookup(mode, n.func, st, fuel, server);
    var vs := EvalAll(mode, n.args, st, fuel, server);
    if vs.Ok? {
      assert Apply(VMethod(n.func.attr), vs.value, vs.st, fuel, server) == Ok(VRequest(n.func.attr, vs.value), vs.st);
    }
  }

  lemma {:induction false} ListedCallPreserved(n: Node, st: State, fuel: nat, server: Server)
    requires IsListedCall(n) && Rewrite(n).Some? && Supported(n) && LibraryBound(st)
    ensures Eval(Raw, Rewrite(n).value, st, fuel, server) == Eval(Direct, n, st, fuel, server)
    decreases fuel, n, 0
  {
    hide EvalAll, Exec, Apply, RunAwaited, RunsOnTheSpot, Collect, HasListedCall, GetAttribute, Bound, Lookup,
      Iterable, AwaitsItself;
    EvalAllPreserved(n.args, st, fuel, server);
    var call := Call(n.func, Rewrite(n.args).value);
    assert Rewrite(n).value == Await(call);
    ListedCallByMode(Raw, call, st, fuel, server);
    ListedCallByMode(Direct, n, st, fuel, server);
  }

  lemma {:induction false} OtherCallPreserved(n: Node, st: State, fuel: nat, server: Server)
    requires n.Call? && !IsListedCall(n) && Rewrite(n).Some? && Supported(n) && Fits(n, st)
    ensures Eval(Raw, Rewrite(n).value, st, fuel, server) == Eval(Direct, n, st, fuel, server)
    decreases fuel, n, 0
  {
    hide EvalAll, Exec, Apply, RunAwaited, RunsOnTheSpot, Collect, HasListedCall, GetAttribute, Bound, Lookup,
      Iterable, AwaitsItself;
    PartsFit(n, st);
    var Call(f, args) := n;
    EvalPreserved(f, st, fuel, server);
    var fv := Eval(Direct, f, st, fuel, server);
    assert Rewrite(n).value == Call(Rewrite(f).value, Rewrite(args).value);
    if fv.Ok? {
      assert Fits(args, st);
      EvalAllPreserved(args, fv.st, fuel, server);
      var vs := EvalAll(Direct, args, fv.st, fuel, server);
    }
  }

  lemma NotAnExpression(n: Node, st: State, fuel: nat, server: Server)
    requires n.Expr? || n.Assign? || n.If? || n.While? || n.For? || n.Return? || n.Try? || n.FunctionDef?
             || n.AsyncFunctionDef? || n.ClassDef? || n.Nil? || n.Cons?
    requires Rewrite(n).Some?
    ensures Eval(Raw, Rewrite(n).value, st, fuel, server) == Eval(Direct, n, st, fuel, server)
  {
    hide Exec, RunAwaited, RunsOnTheSpot, Collect, Iterable, AwaitsItself, Item, HasListedCall, EvalAll, Apply;
  }

  lemma {:induction false} AttributePreserved(n: Node, st: State, fuel: nat, server: Server)
    requires n.Attribute? && Rewrite(n).Some? && Supported(n) && Fits(n, st)
    ensures Eval(Raw, Rewrite(n).value, st, fuel, server) == Eval(Direct, n, st, fuel, server)
    decreases fuel, n, 0
  {
    PartsFit(n, st);
    EvalPreserved(n.value, st, fuel, server);
  }

  lemma {:induction false} GeneratorExpPreserved(n: Node, st: State, fuel: nat, server: Server)
    requires n.GeneratorExp? && Rewrite(n).Some? && Supported(n) && Fits(n, st)
    ensures Eval(Raw, Rewrite(n).value, st, fuel, server) == Eval(Direct, n, st, fuel, server)
    decreases fuel, n, 0
  {
    PartsFit(n, st);
    EvalPreserved(n.iter, st, fuel, server);
    ChangedExactlyOnTheSpot(n.elt);
  }

  lemma {:induction false} BinOpPreserved(n: Node, st: State, fuel: nat, server: Server)
    requires n.BinOp? && Rewrite(n).Some? && Supported(n) && Fits(n, st)
    ensures Eval(Raw, Rewrite(n).value, st, fuel, server) == Eval(Direct, n, st, fuel, server)
    decreases fuel, n, 0
  {
    hide EvalAll, Exec, Apply, RunAwaited, RunsOnTheSpot, Collect;
    PartsFit(n, st);
    EvalPreserved(n.left, st, fuel, server);
    var x := Eval(Direct, n.left, st, fuel, server);
    if x.Ok? { EvalPreserved(n.right, x.st, fuel, server); }
  }

  lemma {:induction false} IfExpPreserved(n: Node, st: State, fuel: nat, server: Server)
    requires n.IfExp? && Rewrite(n).Some? && Supported(n) && Fits(n, st)
    ensures Eval(Raw, Rewrite(n).value, st, fuel, server) == Eval(Direct, n, st, fuel, server)
    decreases fuel, n, 0
  {
    hide EvalAll, Exec, Apply, RunAwaited, RunsOnTheSpot, Collect, Truthy;
    PartsFit(n, st);
    EvalPreserved(n.test, st, fuel, server);
    var x := Eval(Direct, n.test, st, fuel, server);
    if x.Ok? {
      if Truthy(x.value) {
        EvalPreserved(n.body, x.st, fuel, server);
      } else {
        EvalPreserved(n.orelse, x.st, fuel, server);
      }
    }
  }

  lemma {:induction false} ListCompPreserved(n: Node, st: State, fuel: nat, server: Server)
    requires n.ListComp? && Rewrite(n).Some? && Supported(n) && Fits(n, st)
    ensures Eval(Raw, Rewrite(n).value, st, fuel, server) == Eval(Direct, n, st, fuel, server)
    decreases fuel, n, 0
  {
    PartsFit(n, st);
    EvalPreserved(n.iter, st, fuel, server);
    var it := Eval(Direct, n.iter, st, fuel, server);
    if it.Ok? && Iterable(it.value) {
      var e := n.elt;
      var everywhere := !RunsOnTheSpot(e);
      forall s | everywhere || LibraryBound(s)
        ensures Eval(Raw, Rewrite(e).value, s, fuel, server) == Eval(Direct, e, s, fuel, server)
      {
        EvalPreserved(e, s, fuel, server);
      }
      CollectSame(|it.value.items|, ItemsOf(it.value, fuel, server), n.target,
                  Evaluator(Direct, e, fuel, server), Evaluator(Raw, Rewrite(e).value, fuel, server), it.st, 0,
                  everywhere);
    }
  }

  lemma {:induction false} EvalAllPreserved(n: Node, st: State, fuel: nat, server: Server)
    requires Rewrite(n).Some? && Supported(n) && Fits(n, st)
    ensures EvalAll(Raw, Rewrite(n).value, st, fuel, server) == EvalAll(Direct, n, st, fuel, server)
    decreases fuel, n, 0
  {
    hide Eval, Apply, RunAwaited, RunsOnTheSpot, HasListedCall, GetAttribute, Bound, Lookup, Iterable, AwaitsItself;
    if n.Cons? {
      PartsFit(n, st);
      EvalPreserved(n.first, st, fuel, server);
      var x := Eval(Direct, n.first, st, fuel, server);
      if x.Ok? {
        assert Fits(n.rest, st);
        EvalAllPreserved(n.rest, x.st, fuel, server);
      }
    }
  }

  lemma {:induction false} ExecPreserved(n: Node, st: State, fuel: nat, server: Server)
    requires Rewrite(n).Some? && Supported(n) && Ready(st)
    ensures Exec(Raw, Rewrite(n).value, st, fuel, server) == Exec(Direct, n, st, fuel, server)
    ensures StaysReady(Exec(Direct, n, st, fuel, server))
    decreases fuel, n, 1
  {
    hide Eval, Exec, Rewrite;
    match n
    case Cons(_, _) => SequencePreserved(n, st, fuel, server);
    case If(_, _, _) => IfPreserved(n, st, fuel, server);
    case While(_, _) => WhilePreserved(n, st, fuel, server);
    case For(_, _, _) => ForPreserved(n, st, fuel, server);
    case Try(_, _) => TryPreserved(n, st, fuel, server);
    case Expr(_) => SimplePreserved(n, st, fuel, server);
    case Assign(_, _) => SimplePreserved(n, st, fuel, server);
    case Return(_) => SimplePreserved(n, st, fuel, server);
    case _ => RestPreserved(n, st, fuel, server);
  }

  /** Definitions, the empty list, and what is no statement. */
  lemma RestPreserved(n: Node, st: State, fuel: nat, server: Server)
    requires !n.Cons? && !n.If? && !n.While? && !n.For? && !n.Try? && !n.Expr? && !n.Assign? && !n.Return?
    requires Rewrite(n).Some? && Supported(n) && Ready(st)
    ensures Exec(Raw, Rewrite(n).value, st, fuel, server) == Exec(Direct, n, st, fuel, server)
    ensures StaysReady(Exec(Direct, n, st, fuel, server))
  {
    hide Eval, EvalAll, Apply, RunAwaited, RunsOnTheSpot, HasListedCall, Iterable, Truthy;
  }

  lemma {:induction false} SequencePreserved(n: Node, st: State, fuel: nat, server: Server)
    requires n.Cons? && Rewrite(n).Some? && Supported(n) && Ready(st)
    ensures Exec(Raw, Rewrite(n).value, st, fuel, server) == Exec(Direct, n, st, fuel, server)
    ensures StaysReady(Exec(Direct, n, st, fuel, server))
    decreases fuel, n, 0
  {
    hide Eval, EvalAll, Apply, RunAwaited, RunsOnTheSpot;
    ExecPreserved(n.first, st, fuel, server);
    var r := Exec(Direct, n.first, st, fuel, server);
    if r.Ok? { ExecPreserved(n.rest, r.st, fuel, server); }
  }

  lemma {:induction false} SimplePreserved(n: Node, st: State, fuel: nat, server: Server)
    requires (n.Expr? || n.Assign? || n.Return?) && Rewrite(n).Some? && Supported(n) && Ready(st)
    ensures Exec(Raw, Rewrite(n).value, st, fuel, server) == Exec(Direct, n, st, fuel, server)
    ensures StaysReady(Exec(Direct, n, st, fuel, server))
    decreases fuel, n, 0
  {
    hide Eval, EvalAll, Apply, RunAwaited, RunsOnTheSpot;
    EvalPreserved(n.value, st, fuel, server);
  }

  lemma {:induction false} IfPreserved(n: Node, st: State, fuel: nat, server: Server)
    requires n.If? && Rewrite(n).Some? && Supported(n) && Ready(st)
    ensures Exec(Raw, Rewrite(n).value, st, fuel, server) == Exec(Direct, n, st, fuel, server)
    ensures StaysReady(Exec(Direct, n, st, fuel, server))
    decreases fuel, n, 0
  {
    hide Eval, EvalAll, Apply, RunAwaited, RunsOnTheSpot, Truthy;
    EvalPreserved(n.test, st, fuel, server);
    var c := Eval(Direct, n.test, st, fuel, server);
    if c.Ok? {
      if Truthy(c.value) {
        ExecPreserved(n.body, c.st, fuel, server);
      } else {
        ExecPreserved(n.orelse, c.st, fuel, server);
      }
    }
  }

  lemma {:induction false} WhilePreserved(n: Node, st: State, fuel: nat, server: Server)
    requires n.While? && Rewrite(n).Some? && Supported(n) && Ready(st)
    ensures Exec(Raw, Rewrite(n).value, st, fuel, server) == Exec(Direct, n, st, fuel, server)
    ensures StaysReady(Exec(Direct, n, st, fuel, server))
    decreases fuel, n, 0
  {
    hide Eval, EvalAll, Apply, RunAwaited, RunsOnTheSpot, Truthy;
    EvalPreserved(n.test, st, fuel, server);
    var c := Eval(Direct, n.test, st, fuel, server);
    if c.Ok? && Truthy(c.value) && fuel > 0 {
      ExecPreserved(n.body, c.st, fuel, server);
      var r := Exec(Direct, n.body, c.st, fuel, server);
      if r.Ok? { ExecPreserved(n, r.st, fuel - 1, server); }
    }
  }

  lemma {:induction false} ForPreserved(n: Node, st: State, fuel: nat, server: Server)
    requires n.For? && Rewrite(n).Some? && Supported(n) && Ready(st)
    ensures Exec(Raw, Rewrite(n).value, st, fuel, server) == Exec(Direct, n, st, fuel, server)
    ensures StaysReady(Exec(Direct, n, st, fuel, server))
    decreases fuel, n, 0
  {
    hide Eval, EvalAll, Apply, RunAwaited, RunsOnTheSpot, Item;
    EvalPreserved(n.iter, st, fuel, server);
    var it := Eval(Direct, n.iter, st, fuel, server);
    if it.Ok? && Iterable(it.value) {
      var b := n.body;
      forall s | Ready(s)
        ensures Exec(Raw, Rewrite(b).value, s, fuel, server) == Exec(Direct, b, s, fuel, server)
        ensures StaysReady(Exec(Direct, b, s, fuel, server))
      {
        ExecPreserved(b, s, fuel, server);
      }
      RepeatSame(|it.value.items|, ItemsOf(it.value, fuel, server), n.target,
                 Runner(Direct, b, fuel, server), Runner(Raw, Rewrite(b).value, fuel, server), it.st, 0);
    }
  }

  lemma {:induction false} TryPreserved(n: Node, st: State, fuel: nat, server: Server)
    requires n.Try? && Rewrite(n).Some? && Supported(n) && Ready(st)
    ensures Exec(Raw, Rewrite(n).value, st, fuel, server) == Exec(Direct, n, st, fuel, server)
    ensures StaysReady(Exec(Direct, n, st, fuel, server))
    decreases fuel, n, 0
  {
    hide Eval, EvalAll, Apply, RunAwaited, RunsOnTheSpot;
    ExecPreserved(n.body, st, fuel, server);
    var r := Exec(Direct, n.body, st, fuel, server);
    if r.Raised? { ExecPreserved(n.handler, r.st, fuel, server); }
  }

  /**
    The pass preserves meaning. For every accepted cell (it may hold awaits of its own), every
    starting state in which `aicser` is the library, every server and every amount of fuel: running
    the prepared cell as Python gives the outcome, variables and events, in order, that running the
    cell with its open listed calls executed on the spot gives.
  */
  lemma PreparedCellMeansTheSame(cell: Node, st: State, fuel: nat, server: Server)
    requires Prepare(cell).Some? && Supported(cell) && Ready(st)
    ensures Exec(Raw, Prepare(cell).value, st, fuel, server) == Exec(Direct, cell, st, fuel, server)
  {
    PrepareIsRewrite(cell);
    ExecPreserved(cell, st, fuel, server);
  }

  // ---- Where it does not ----

  /** What the name `aicser` stands for is the same in both modes, and so is a method taken from it. */
  lemma CalleeAlike(f: Node, st: State, fuel: nat, server: Server)
    requires f.Attribute? && f.value == Name("aicser")
    ensures Eval(Raw, f, st, fuel, server) == Eval(Direct, f, st, fuel, server)
  {
    hide Lookup, GetAttribute;
    assert Eval(Raw, f.value, st, fuel, server) == Eval(Direct, f.value, st, fuel, server);
  }

  /** The call before anything awaits it: the same in both modes, when its arguments hold no open listed call. */
  function CallAlone(n: Node, st: State, fuel: nat, server: Server): Outcome<Value>
    requires n.Call?
  {
    var (fv, st1) :- Eval(Raw, n.func, st, fuel, server);
    var (vs, st2) :- EvalAll(Raw, n.args, st1, fuel, server);
    Apply(fv, vs, st2, fuel, server)
  }

  predicate IsCoroutine(v: Value) {
    v.VRequest? || v.VCoroutine?
  }

  lemma ArgumentsAlike(n: Node, st: State, fuel: nat, server: Server)
    requires Rewrite(n).Some? && Supported(n) && !RunsOnTheSpot(n)
    ensures EvalAll(Raw, n, st, fuel, server) == EvalAll(Direct, n, st, fuel, server)
  {
    ChangedExactlyOnTheSpot(n);
    EvalAllPreserved(n, st, fuel, server);
  }

  lemma CallByMode(n: Node, st: State, fuel: nat, server: Server)
    requires IsListedCall(n) && Rewrite(n.args).Some? && Supported(n.args) && !RunsOnTheSpot(n.args)
    ensures var r := CallAlone(n, st, fuel, server);
            && Eval(Raw, n, st, fuel, server) == r
            && Eval(Direct, n, st, fuel, server)
               == if r.Ok? && IsCoroutine(r.value) then RunAwaited(r.value, r.st, fuel, server) else r
  {
    hide Apply, RunAwaited, RunsOnTheSpot, Collect, Iterable;
    CalleeAlike(n.func, st, fuel, server);
    var fv := Eval(Raw, n.func, st, fuel, server);
    if fv.Ok? {
      ArgumentsAlike(n.args, fv.st, fuel, server);
    }
    assert Eval(Raw, n, st, fuel, server) == EvalCall(Raw, n, st, fuel, server);
    assert Eval(Direct, n, st, fuel, server) == EvalCall(Direct, n, st, fuel, server);
  }

  lemma ListedCallRewrites(n: Node)
    requires IsListedCall(n) && Rewrite(n.args).Some? && !RunsOnTheSpot(n.args)
    ensures Rewrite(n) == Some(Await(n))
  {
    ChangedExactlyOnTheSpot(n.args);
    assert Rewrite(n.func) == Some(n.func);
  }

  lemma AwaitedResult(v: Node, st: State, fuel: nat, server: Server)
    ensures var r := Eval(Raw, v, st, fuel, server);
            Eval(Raw, Await(v), st, fuel, server)
            == match r
               case Ok(c, st1) => RunAwaited(c, st1, fuel, server)
               case Raised(e, st1) => Raised(e, st1)
               case Timeout => Timeout
  {
  }

  /**
    Whatever `aicser` stands for: what the pass makes of a listed call, whose arguments hold no other, means
    the call executed on the spot exactly when the call does not return, or returns a coroutine. Whatever
    else it returns would have been the result, and awaiting that fails.
  */
  lemma AwaitRightExactlyForCoroutines(n: Node, st: State, fuel: nat, server: Server)
    requires IsListedCall(n) && Rewrite(n.args).Some? && Supported(n.args) && !RunsOnTheSpot(n.args)
    ensures Rewrite(n).Some?
    ensures Eval(Raw, Rewrite(n).value, st, fuel, server) == Eval(Direct, n, st, fuel, server)
            <==> (CallAlone(n, st, fuel, server).Ok? ==> IsCoroutine(CallAlone(n, st, fuel, server).value))
  {
    hide Eval, CallAlone, Rewrite;
    ListedCallRewrites(n);
    CallByMode(n, st, fuel, server);
    AwaitedResult(n, st, fuel, server);
  }

  /** Which a callee decides before the call when it is a library method, an async function, or one that only prints. */
  lemma AwaitRightByCallee(n: Node, st: State, fuel: nat, server: Server, callee: Value)
    requires IsListedCall(n) && Eval(Raw, n.func, st, fuel, server) == Ok(callee, st)
    requires CallAlone(n, st, fuel, server).Ok?
    ensures var v := CallAlone(n, st, fuel, server).value;
            && (callee.VMethod? && callee.name != "sources" ==> IsCoroutine(v))
            && (callee.VFunction? && callee.isAsync ==> IsCoroutine(v))
            && (callee.VPrint? ==> !IsCoroutine(v))
  {
    hide Eval, EvalAll, RunBody;
  }

  /** aicser.m() */
  function BareCall(m: string): Node {
    Call(Attribute(Name("aicser"), m), Nil)
  }

  /** class aicser: m = print */
  function RebindingClass(m: string): Node {
    ClassDef("aicser", Cons(Assign(m, Name("print")), Nil))
  }

  /** The class, and then aicser.m() */
  function RebindingCell(m: string): Node {
    Cons(RebindingClass(m), Cons(Expr(BareCall(m)), Nil))
  }

  /** `print` still means Python's. */
  predicate PrintBound(st: State) {
    "print" in st.globals && st.globals["print"] == VPrint
  }

  /** The state after the class has run. */
  function Rebound(m: string, st: State): State {
    Bind(st, "aicser", VClass(map[m := VPrint]))
  }

  function PrintedNothing(st: State): State {
    st.(trace := st.trace + [Printed([])])
  }

  /**
    A cell may rebind `aicser`. From any state at the top with the library in place and `print` bound: the
    cell below prints and ends; prepared, it prints and fails.
  */
  lemma RebindingChangesMeaning(m: string, st: State, fuel: nat, server: Server)
    requires m in LISTED && Ready(st) && PrintBound(st)
    ensures Prepare(RebindingCell(m)).Some?
    ensures Exec(Direct, RebindingCell(m), st, fuel, server) == Ok(Normal, PrintedNothing(Rebound(m, st)))
    ensures Exec(Raw, Prepare(RebindingCell(m)).value, st, fuel, server)
            == Raised(VError("TypeError"), PrintedNothing(Rebound(m, st)))
  {
    hide Exec, Eval;
    RebindingCellRewrites(m);
    PrepareIsRewrite(RebindingCell(m));
    var t, u := Rebound(m, st), PrintedNothing(Rebound(m, st));
    ClassRuns(Raw, m, st, fuel, server);
    ClassRuns(Direct, m, st, fuel, server);
    ReboundCall(Direct, m, st, fuel, server);
    ReboundCall(Raw, m, st, fuel, server);
    AwaitedResult(BareCall(m), t, fuel, server);
    TwoStatements(Direct, RebindingClass(m), BareCall(m), st, t, fuel, server);
    TwoStatements(Raw, RebindingClass(m), Await(BareCall(m)), st, t, fuel, server);
  }

  lemma RewriteBoth(a: Node, b: Node)
    requires Rewrite(a).Some? && Rewrite(b).Some?
    ensures Rewrite(Cons(a, b)) == Some(Cons(Rewrite(a).value, Rewrite(b).value))
  {
  }

  lemma RewriteStatement(e: Node)
    requires Rewrite(e).Some?
    ensures Rewrite(Expr(e)) == Some(Expr(Rewrite(e).value))
  {
  }

  lemma RebindingCellRewrites(m: string)
    requires m in LISTED
    ensures Rewrite(RebindingCell(m)) == Some(Cons(RebindingClass(m), Cons(Expr(Await(BareCall(m))), Nil)))
  {
    hide Rewrite, BareCall;
    BareCallRewrites(m);
    RewriteStatement(BareCall(m));
    ClassHasNoCall(m);
    NoListedCallUnchanged(RebindingClass(m));
    NoListedCallUnchanged(Nil);
    RewriteBoth(Expr(BareCall(m)), Nil);
    RewriteBoth(RebindingClass(m), Cons(Expr(BareCall(m)), Nil));
  }

  lemma ClassHasNoCall(m: string)
    ensures !HasListedCall(RebindingClass(m))
  {
    assert !HasListedCall(Name("print")) && !HasListedCall(Nil);
    assert !HasListedCall(Assign(m, Name("print")));
    assert !HasListedCall(Cons(Assign(m, Name("print")), Nil));
  }

  lemma ClassRuns(mode: Mode, m: string, st: State, fuel: nat, server: Server)
    requires Ready(st) && PrintBound(st)
    ensures Exec(mode, RebindingClass(m), st, fuel, server) == Ok(Normal, Rebound(m, st))
  {
    hide EvalAll, Apply, RunAwaited, RunsOnTheSpot, Collect, Repeat, EvalCall, Item, RunBody;
    var inside := State(st.globals, map[], false, st.trace);
    var after := State(st.globals, map[m := VPrint], false, st.trace);
    assert Eval(Raw, Name("print"), inside, fuel, server) == Ok(VPrint, inside);
    assert Exec(Raw, Assign(m, Name("print")), inside, fuel, server) == Ok(Normal, after);
    assert Exec(Raw, Nil, after, fuel, server) == Ok(Normal, after);
    assert Exec(Raw, RebindingClass(m).body, inside, fuel, server) == Ok(Normal, after);
  }

  /** What running an expression on its own comes to. */
  function Ended(r: Outcome<Value>): Outcome<Flow> {
    match r
    case Ok(_, st) => Ok(Normal, st)
    case Raised(e, st) => Raised(e, st)
    case Timeout => Timeout
  }

  lemma OneStatement(mode: Mode, e: Node, st: State, fuel: nat, server: Server)
    ensures Exec(mode, Expr(e), st, fuel, server) == Ended(Eval(mode, e, st, fuel, server))
  {
    hide Eval, Repeat, RunsOnTheSpot;
  }

  lemma NoStatement(mode: Mode, st: State, fuel: nat, server: Server)
    ensures Exec(mode, Nil, st, fuel, server) == Ok(Normal, st)
  {
    hide Eval, Repeat;
  }

  lemma LastStatement(mode: Mode, e: Node, st: State, fuel: nat, server: Server)
    ensures Exec(mode, Cons(Expr(e), Nil), st, fuel, server) == Ended(Eval(mode, e, st, fuel, server))
  {
    hide Eval, Repeat, RunsOnTheSpot;
    OneStatement(mode, e, st, fuel, server);
    var r := Eval(mode, e, st, fuel, server);
    if r.Ok? {
      NoStatement(mode, r.st, fuel, server);
    }
  }

  /** A statement that ends, and then an expression on its own. */
  lemma TwoStatements(mode: Mode, first: Node, e: Node, st: State, t: State, fuel: nat, server: Server)
    requires Exec(mode, first, st, fuel, server) == Ok(Normal, t)
    ensures Exec(mode, Cons(first, Cons(Expr(e), Nil)), st, fuel, server) == Ended(Eval(mode, e, t, fuel, server))
  {
    hide Eval, Ended, Repeat, RunsOnTheSpot;
    LastStatement(mode, e, t, fuel, server);
  }

  lemma ReboundCall(mode: Mode, m: string, st: State, fuel: nat, server: Server)
    requires Ready(st)
    ensures Eval(mode, BareCall(m), Rebound(m, st), fuel, server) == Ok(VNone, PrintedNothing(Rebound(m, st)))
  {
    hide Exec, RunAwaited, RunsOnTheSpot, Collect, Iterable, AwaitsItself, Item;
    var t := Rebound(m, st);
    assert Eval(mode, Name("aicser"), t, fuel, server) == Ok(t.globals["aicser"], t);
    assert Eval(mode, BareCall(m).func, t, fuel, server) == Ok(VPrint, t);
    assert EvalAll(mode, Nil, t, fuel, server) == Ok([], t);
    assert Apply(VPrint, [], t, fuel, server) == Ok(VNone, PrintedNothing(t));
    assert EvalCall(mode, BareCall(m), t, fuel, server) == Ok(VNone, PrintedNothing(t));
  }

  // ---- Generator expressions ----

  /** A listed call the pass awaits as part of the expression itself. */
  predicate OwnOpenCall(n: Node) {
    match n
    case Attribute(v, _) => OwnOpenCall(v)
    case Call(f, a) => IsListedCall(n) || OwnOpenCall(f) || OwnOpenCall(a)
    case BinOp(l, r) => OwnOpenCall(l) || OwnOpenCall(r)
    case IfExp(t, b, o) => OwnOpenCall(t) || OwnOpenCall(b) || OwnOpenCall(o)
    case ListComp(e, _, i) => OwnOpenCall(e) || OwnOpenCall(i)
    case GeneratorExp(_, _, i) => OwnOpenCall(i)
    case Cons(a, b) => OwnOpenCall(a) || OwnOpenCall(b)
    case _ => false
  }

  /** Rewriting the parts of a call neither makes it a listed one nor the other way round. */
  lemma ListedStaysListed(n: Node)
    requires n.Call? && Rewrite(n.func).Some?
    ensures IsListedCall(Call(Rewrite(n.func).value, n.args)) <==> IsListedCall(n)
  {
    if n.func.Attribute? {
      assert Rewrite(n.func.value).Some?
             && Rewrite(n.func).value == Attribute(Rewrite(n.func.value).value, n.func.attr);
    }
  }

  lemma CallAwaitsAfter(e: Node)
    requires e.Call? && Rewrite(e).Some? && Rewrite(e.func).Some? && Rewrite(e.args).Some?
    ensures AwaitsItself(Rewrite(e).value)
            <==> IsListedCall(e) || AwaitsItself(Rewrite(e.func).value) || AwaitsItself(Rewrite(e.args).value)
  {
    ListedStaysListed(e);
    assert IsListedCall(Call(Rewrite(e.func).value, Rewrite(e.args).value)) <==> IsListedCall(e);
  }

  /**
    Which expressions come to await as part of themselves: exactly those that did, and those with an open
    listed call of their own.
  */
  lemma {:induction false} AwaitsItselfAfter(e: Node)
    requires Rewrite(e).Some?
    ensures AwaitsItself(Rewrite(e).value) <==> AwaitsItself(e) || OwnOpenCall(e)
  {
    if !IsDefinition(e) && !IsLeftAlone(e) {
      forall c | c in Children(e)
        ensures Rewrite(c).Some? && (AwaitsItself(Rewrite(c).value) <==> AwaitsItself(c) || OwnOpenCall(c))
      {
        AwaitsItselfAfter(c);
      }
      if e.Call? {
        CallAwaitsAfter(e);
      }
    }
  }

  /**
    What the pass makes of a generator expression over a list: a loop can go through the generator exactly
    when the element neither awaits nor holds an open listed call of its own; the original is in the way of
    a loop only when its element awaits.
  */
  lemma GeneratorTurnsAsyncExactly(n: Node, st: State, fuel: nat, server: Server, items: seq<Value>, st1: State)
    requires n.GeneratorExp? && Rewrite(n).Some?
             && Eval(Raw, Rewrite(n.iter).value, st, fuel, server) == Ok(VList(items), st1)
    ensures var r := Eval(Raw, Rewrite(n).value, st, fuel, server);
            r.Ok? && (Iterable(r.value) <==> !AwaitsItself(n.elt) && !OwnOpenCall(n.elt))
    ensures forall mode, later: State, made: Outcome<Value> ::
              (made == Eval(mode, n, later, fuel, server) && made.Ok?)
              ==> (Iterable(made.value) <==> !AwaitsItself(n.elt))
  {
    hide OwnOpenCall, RunsOnTheSpot, HasListedCall;
    AwaitsItselfAfter(n.elt);
  }

  /** for x in (aicser.m() for y in xs): pass */
  function GeneratorLoop(m: string): Node {
    For("x", GeneratorExp(BareCall(m), "y", Name("xs")), Nil)
  }

  const START := State(map["aicser" := VLibrary, "xs" := VList([VInt(1)])], map[], true, [])

  /**
    Awaiting inside a generator expression makes it an async generator, which a plain loop cannot go
    through: the prepared loop fails without sending the request the cell asked for.
  */
  lemma GeneratorChangesMeaning(m: string, fuel: nat, server: Server)
    requires m in LISTED && fuel > 0 && server([Requested(m, [])]) == Returns(VNone)
    ensures Ready(START) && Rewrite(GeneratorLoop(m)).Some?
    ensures Exec(Raw, Rewrite(GeneratorLoop(m)).value, START, fuel, server) == Raised(VError("TypeError"), START)
    ensures var r := Exec(Direct, GeneratorLoop(m), START, fuel, server); r.Ok? && r.st.trace == [Requested(m, [])]
  {
    GeneratorLoopFailsAwaited(m, fuel, server);
    GeneratorLoopRuns(m, fuel, server);
  }

  lemma BareCallRewrites(m: string)
    requires m in LISTED
    ensures IsListedCall(BareCall(m)) && Rewrite(BareCall(m)) == Some(Await(BareCall(m)))
  {
    assert Rewrite(BareCall(m).func) == Some(BareCall(m).func);
  }

  /** The rewritten loop's generator: (await aicser.m() for y in xs) */
  function AwaitingGenerator(m: string): Node {
    GeneratorExp(Await(BareCall(m)), "y", Name("xs"))
  }

  lemma GeneratorLoopRewrites(m: string)
    requires m in LISTED
    ensures Rewrite(GeneratorLoop(m)) == Some(For("x", AwaitingGenerator(m), Nil))
  {
    BareCallRewrites(m);
    assert Rewrite(GeneratorLoop(m).iter) == Some(AwaitingGenerator(m));
  }

  lemma GeneratorLoopFailsAwaited(m: string, fuel: nat, server: Server)
    requires m in LISTED
    ensures Rewrite(GeneratorLoop(m)).Some?
    ensures Exec(Raw, Rewrite(GeneratorLoop(m)).value, START, fuel, server) == Raised(VError("TypeError"), START)
  {
    hide RunAwaited, RunsOnTheSpot, Collect, Item, HasListedCall, EvalAll, Apply, Repeat, Eval;
    GeneratorLoopRewrites(m);
    GeneratorValue(Raw, AwaitingGenerator(m), fuel, server);
  }

  lemma GeneratorLoopRuns(m: string, fuel: nat, server: Server)
    requires m in LISTED && fuel > 0 && server([Requested(m, [])]) == Returns(VNone)
    ensures var r := Exec(Direct, GeneratorLoop(m), START, fuel, server); r.Ok? && r.st.trace == [Requested(m, [])]
  {
    var g := VGenerator(BareCall(m), "y", [VInt(1)], map[], Direct, false);
    GeneratorMade(m, fuel, server);
    ForRepeats(Direct, GeneratorLoop(m), g, START, fuel, server);
    GeneratorLoopRound(g, m, fuel, server);
  }

  lemma GeneratorMade(m: string, fuel: nat, server: Server)
    requires m in LISTED
    ensures Eval(Direct, GeneratorLoop(m).iter, START, fuel, server)
            == Ok(VGenerator(BareCall(m), "y", [VInt(1)], map[], Direct, false), START)
  {
    GeneratorValue(Direct, GeneratorLoop(m).iter, fuel, server);
    BareCallAwaitsNothing(m);
  }

  lemma BareCallAwaitsNothing(m: string)
    ensures !AwaitsItself(BareCall(m))
  {
    assert !AwaitsItself(BareCall(m).func) && !AwaitsItself(Nil);
  }

  lemma ForRepeats(mode: Mode, n: Node, it: Value, st: State, fuel: nat, server: Server)
    requires n.For? && Iterable(it) && Eval(mode, n.iter, st, fuel, server) == Ok(it, st)
    ensures Exec(mode, n, st, fuel, server)
            == Repeat(|it.items|, ItemsOf(it, fuel, server), n.target, Runner(mode, n.body, fuel, server), st, 0)
  {
  }

  lemma GeneratorLoopRound(g: Value, m: string, fuel: nat, server: Server)
    requires m in LISTED && g == VGenerator(BareCall(m), "y", [VInt(1)], map[], Direct, false)
    requires fuel > 0 && server([Requested(m, [])]) == Returns(VNone)
    ensures var r := Repeat(1, ItemsOf(g, fuel, server), "x", Runner(Direct, Nil, fuel, server), START, 0);
            r.Ok? && r.st.trace == [Requested(m, [])]
  {
    hide EvalAll, Apply, RunAwaited, RunsOnTheSpot, Eval, Item;
    GeneratorItem(g, m, fuel, server);
    OneRound(ItemsOf(g, fuel, server), Runner(Direct, Nil, fuel, server), VNone, START,
             START.(trace := [Requested(m, [])]));
  }

  /** A loop over one item, with a body that does nothing. */
  lemma OneRound(items: (nat, State) -> Outcome<Value>, body: State -> Outcome<Flow>, v: Value, st: State, st1: State)
    requires forall j: nat, s: State :: OnlyAddsEvents(s, items(j, s))
    requires forall s :: KeepsHistory(s, body(s))
    requires items(0, st) == Ok(v, st1) && body(Bind(st1, "x", v)) == Ok(Normal, Bind(st1, "x", v))
    ensures Repeat(1, items, "x", body, st, 0) == Ok(Normal, Bind(st1, "x", v))
  {
    assert Repeat(1, items, "x", body, Bind(st1, "x", v), 1) == Ok(Normal, Bind(st1, "x", v));
  }

  lemma GeneratorValue(mode: Mode, n: Node, fuel: nat, server: Server)
    requires n.GeneratorExp? && n.target == "y" && n.iter == Name("xs")
    ensures Eval(mode, n, START, fuel, server)
            == Ok(VGenerator(n.elt, "y", [VInt(1)], map[], if mode.Direct? && RunsOnTheSpot(n.elt) then Direct else Raw,
                             AwaitsItself(n.elt)), START)
  {
    assert Eval(mode, Name("xs"), START, fuel, server) == Ok(VList([VInt(1)]), START);
  }

  lemma GeneratorItem(g: Value, m: string, fuel: nat, server: Server)
    requires m in LISTED && g == VGenerator(BareCall(m), "y", [VInt(1)], map[], Direct, false)
    requires fuel > 0 && server([Requested(m, [])]) == Returns(VNone)
    ensures Item(g, 0, START, fuel, server) == Ok(VNone, START.(trace := [Requested(m, [])]))
  {
    hide EvalAll, Apply, RunAwaited, RunsOnTheSpot, Eval, Exec;
    var inside := State(START.globals, map["y" := VInt(1)], false, []);
    BareCallSends(m, inside, fuel - 1, server);
    assert g.frame[g.target := g.items[0]] == inside.locals;
  }

  lemma BareCallSends(m: string, st: State, fuel: nat, server: Server)
    requires m in LISTED && LibraryBound(st) && st.trace == []
    requires server([Requested(m, [])]) == Returns(VNone)
    ensures Eval(Direct, BareCall(m), st, fuel, server) == Ok(VNone, st.(trace := [Requested(m, [])]))
  {
    hide Exec, RunsOnTheSpot, Collect, Item, HasListedCall, Apply, Eval;
    ListedCallByMode(Direct, BareCall(m), st, fuel, server);
    assert EvalAll(Direct, Nil, st, fuel, server) == Ok([], st);
    assert st.trace + [Requested(m, [])] == [Requested(m, [])];
  }

  /** A coroutine method the list leaves out: its call is accepted, unchanged, and stays un-run. */
  lemma UnlistedMethodStaysUnrun(m: string, st: State, fuel: nat, server: Server)
    requires m in COROUTINE_METHODS && m !in LISTED && LibraryBound(st)
    ensures Prepare(BareCall(m)) == Some(BareCall(m))
    ensures Eval(Direct, BareCall(m), st, fuel, server) == Ok(VRequest(m, []), st)
  {
    hide Eval, RunsOnTheSpot, EvalCall;
    MetricsAreUnlisted();
    assert m in COROUTINE_METHODS - LISTED;
    UnlistedCallAlone(m, st, fuel, server);
    PrepareIsRewrite(BareCall(m));
    assert Rewrite(BareCall(m).func) == Some(BareCall(m).func);
  }

  lemma UnlistedCallAlone(m: string, st: State, fuel: nat, server: Server)
    requires m in {"metric", "metrics"} && !IsListedCall(BareCall(m)) && LibraryBound(st)
    ensures Eval(Direct, BareCall(m), st, fuel, server) == Ok(VRequest(m, []), st)
  {
    hide Exec, RunAwaited, RunsOnTheSpot, Collect, Iterable, AwaitsItself, Item;
    assert m != "sources" by { assert |m| < |"sources"| || m[0] == 'm'; }
    assert Eval(Direct, Name("aicser"), st, fuel, server) == Ok(VLibrary, st);
    assert Eval(Direct, BareCall(m).func, st, fuel, server) == Ok(VMethod(m), st);
    assert EvalAll(Direct, Nil, st, fuel, server) == Ok([], st);
    assert Apply(VMethod(m), [], st, fuel, server) == Ok(VRequest(m, []), st);
    assert EvalCall(Direct, BareCall(m), st, fuel, server) == Ok(VRequest(m, []), st);
  }

  lemma MetricsAreUnlisted()
    ensures COROUTINE_METHODS - LISTED == {"metric", "metrics"}
  {
    assert |"metric"| == 6 && |"metrics"| == 7;
  }
}
