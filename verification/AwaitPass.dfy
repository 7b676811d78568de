/**
  The pass that lets a notebook cell write `df = aicser.table(...)` without `await`.
  A cell is a tree of nodes, as in Python's `ast` module: one type for expressions,
  statements and lists of either.
*/
module AwaitPass {
  import opened Options

  datatype Node =
    // expressions
    | Const(n: int)
    | Name(id: string)
    | Attribute(value: Node, attr: string)
    | Call(func: Node, args: Node)
    | BinOp(left: Node, right: Node)
    | IfExp(test: Node, body: Node, orelse: Node)
    | ListComp(elt: Node, target: string, iter: Node)
    | GeneratorExp(elt: Node, target: string, iter: Node)
    | Lambda(params: seq<string>, body: Node)
    | Await(value: Node)
    // statements
    | Expr(value: Node)
    | Assign(target: string, value: Node)
    | If(test: Node, body: Node, orelse: Node)
    | While(test: Node, body: Node)
    | For(target: string, iter: Node, body: Node)
    | Return(value: Node)
    | Try(body: Node, handler: Node)
    | FunctionDef(name: string, params: seq<string>, body: Node)
    | AsyncFunctionDef(name: string, params: seq<string>, body: Node)
    | ClassDef(name: string, body: Node)
    // lists of arguments or statements
    | Nil
    | Cons(first: Node, rest: Node)

  /** The methods the pass awaits (`_AICSER_ASYNC`). */
  const LISTED := {"sql", "table", "inspect", "create_model", "models", "predict", "forecast",
                   "save_forecast", "decisions", "decide"}

  /** The library's coroutine methods: those its class declares with `async def`. */
  const COROUTINE_METHODS := {"metrics", "metric", "table", "sql", "inspect", "create_model", "models", "predict",
                              "forecast", "save_forecast", "decisions", "decide"}

  /** A call written `aicser.m(...)` with `m` listed. */
  predicate IsListedCall(n: Node) {
    n.Call? && n.func.Attribute? && n.func.value == Name("aicser") && n.func.attr in LISTED
  }

  function Children(n: Node): set<Node> {
    match n
    case Const(_) => {}
    case Name(_) => {}
    case Attribute(v, _) => {v}
    case Call(f, a) => {f, a}
    case BinOp(l, r) => {l, r}
    case IfExp(t, b, o) => {t, b, o}
    case ListComp(e, _, i) => {e, i}
    case GeneratorExp(e, _, i) => {e, i}
    case Lambda(_, b) => {b}
    case Await(v) => {v}
    case Expr(v) => {v}
    case Assign(_, v) => {v}
    case If(t, b, o) => {t, b, o}
    case While(t, b) => {t, b}
    case For(_, i, b) => {i, b}
    case Return(v) => {v}
    case Try(b, h) => {b, h}
    case FunctionDef(_, _, b) => {b}
    case AsyncFunctionDef(_, _, b) => {b}
    case ClassDef(_, b) => {b}
    case Nil => {}
    case Cons(a, b) => {a, b}
  }

  /** Some node of the tree (`ast.walk`) is a listed call. */
  predicate HasListedCall(n: Node) {
    IsListedCall(n) || exists c | c in Children(n) :: HasListedCall(c)
  }

  /** Nodes whose whole inside the pass only checks. */
  predicate IsDefinition(n: Node) {
    n.FunctionDef? || n.Lambda? || n.ClassDef?
  }

  /** Nodes the pass leaves alone, unseen. */
  predicate IsLeftAlone(n: Node) {
    n.Await? || n.AsyncFunctionDef?
  }

  /** The visitor `_AicserAwait`; None is its SyntaxError. */
  function Rewrite(n: Node): Option<Node> {
    match n
    case Const(_) => Some(n)
    case Name(_) => Some(n)
    case Nil => Some(n)
    case Await(_) => Some(n)
    case AsyncFunctionDef(_, _, _) => Some(n)
    case FunctionDef(_, _, _) => if HasListedCall(n) then None else Some(n)
    case Lambda(_, _) => if HasListedCall(n) then None else Some(n)
    case ClassDef(_, _) => if HasListedCall(n) then None else Some(n)
    case Attribute(v, a) => var v' :- Rewrite(v); Some(Attribute(v', a))
    case Call(f, a) =>
      var f' :- Rewrite(f);
      var a' :- Rewrite(a);
      var c := Call(f', a');
      Some(if IsListedCall(c) then Await(c) else c)
    case BinOp(l, r) => var l' :- Rewrite(l); var r' :- Rewrite(r); Some(BinOp(l', r'))
    case IfExp(t, b, o) => var t' :- Rewrite(t); var b' :- Rewrite(b); var o' :- Rewrite(o); Some(IfExp(t', b', o'))
    case ListComp(e, x, i) => var e' :- Rewrite(e); var i' :- Rewrite(i); Some(ListComp(e', x, i'))
    case GeneratorExp(e, x, i) => var e' :- Rewrite(e); var i' :- Rewrite(i); Some(GeneratorExp(e', x, i'))
    case Expr(v) => var v' :- Rewrite(v); Some(Expr(v'))
    case Assign(x, v) => var v' :- Rewrite(v); Some(Assign(x, v'))
    case If(t, b, o) => var t' :- Rewrite(t); var b' :- Rewrite(b); var o' :- Rewrite(o); Some(If(t', b', o'))
    case While(t, b) => var t' :- Rewrite(t); var b' :- Rewrite(b); Some(While(t', b'))
    case For(x, i, b) => var i' :- Rewrite(i); var b' :- Rewrite(b); Some(For(x, i', b'))
    case Return(v) => var v' :- Rewrite(v); Some(Return(v'))
    case Try(b, h) => var b' :- Rewrite(b); var h' :- Rewrite(h); Some(Try(b', h'))
    case Cons(a, b) => var a' :- Rewrite(a); var b' :- Rewrite(b); Some(Cons(a', b'))
  }

  /** `_aicser_prepare`: cells without any listed call are returned as they were written. */
  function Prepare(cell: Node): Option<Node> {
    if HasListedCall(cell) then Rewrite(cell) else Some(cell)
  }

  /** The tree with every Await taken off. */
  function Erase(n: Node): Node {
    match n
    case Const(_) => n
    case Name(_) => n
    case Nil => n
    case Await(v) => Erase(v)
    case Attribute(v, a) => Attribute(Erase(v), a)
    case Call(f, a) => Call(Erase(f), Erase(a))
    case BinOp(l, r) => BinOp(Erase(l), Erase(r))
    case IfExp(t, b, o) => IfExp(Erase(t), Erase(b), Erase(o))
    case ListComp(e, x, i) => ListComp(Erase(e), x, Erase(i))
    case GeneratorExp(e, x, i) => GeneratorExp(Erase(e), x, Erase(i))
    case Lambda(ps, b) => Lambda(ps, Erase(b))
    case Expr(v) => Expr(Erase(v))
    case Assign(x, v) => Assign(x, Erase(v))
    case If(t, b, o) => If(Erase(t), Erase(b), Erase(o))
    case While(t, b) => While(Erase(t), Erase(b))
    case For(x, i, b) => For(x, Erase(i), Erase(b))
    case Return(v) => Return(Erase(v))
    case Try(b, h) => Try(Erase(b), Erase(h))
    case FunctionDef(f, ps, b) => FunctionDef(f, ps, Erase(b))
    case AsyncFunctionDef(f, ps, b) => AsyncFunctionDef(f, ps, Erase(b))
    case ClassDef(c, b) => ClassDef(c, Erase(b))
    case Cons(a, b) => Cons(Erase(a), Erase(b))
  }

  predicate HasAwait(n: Node) {
    n.Await? || exists c | c in Children(n) :: HasAwait(c)
  }

  // ---- Shape of the output ----

  /** The pass run on its own output changes nothing. */
  lemma {:induction false} RewriteIdempotent(n: Node)
    requires Rewrite(n).Some?
    ensures Rewrite(Rewrite(n).value) == Rewrite(n)
  {
    if !IsDefinition(n) && !IsLeftAlone(n) {
      forall c | c in Children(n)
        ensures Rewrite(c).Some? && Rewrite(Rewrite(c).value) == Rewrite(c)
      {
        RewriteIdempotent(c);
      }
    }
  }

  /** The pass only adds Awaits: taking them all off gives the same tree before and after. */
  lemma {:induction false} RewriteOnlyAddsAwaits(n: Node)
    requires Rewrite(n).Some?
    ensures Erase(Rewrite(n).value) == Erase(n)
  {
    hide HasListedCall;
    if !IsDefinition(n) && !IsLeftAlone(n) {
      forall c | c in Children(n)
        ensures Rewrite(c).Some? && Erase(Rewrite(c).value) == Erase(c)
      {
        RewriteOnlyAddsAwaits(c);
      }
    }
  }

  lemma {:induction false} EraseWithoutAwaits(n: Node)
    requires !HasAwait(n)
    ensures Erase(n) == n
  {
    forall c | c in Children(n)
      ensures Erase(c) == c
    {
      EraseWithoutAwaits(c);
    }
  }

  /** A cell written without Awaits is recovered exactly from the pass's output. */
  lemma EraseUndoesRewrite(n: Node)
    requires !HasAwait(n) && Rewrite(n).Some?
    ensures Erase(Rewrite(n).value) == n
  {
    RewriteOnlyAddsAwaits(n);
    EraseWithoutAwaits(n);
  }

  lemma {:induction false} NoListedCallUnchanged(n: Node)
    requires !HasListedCall(n)
    ensures Rewrite(n) == Some(n)
  {
    forall c | c in Children(n)
      ensures Rewrite(c) == Some(c)
    {
      NoListedCallUnchanged(c);
    }
  }

  /** The shortcut for cells without listed calls never changes the outcome. */
  lemma {:induction false} PrepareIsRewrite(cell: Node)
    ensures Prepare(cell) == Rewrite(cell)
  {
    if !HasListedCall(cell) {
      NoListedCallUnchanged(cell);
    }
  }

  // ---- What is rejected ----

  predicate IsPath(p: seq<Node>) {
    |p| > 0 && forall i | 0 <= i < |p| - 1 :: p[i + 1] in Children(p[i])
  }

  /** A path down the tree to a listed call. */
  predicate LeadsToListedCall(p: seq<Node>) {
    IsPath(p) && IsListedCall(p[|p| - 1])
  }

  /** A path to a listed call, through the definition at index d that is reached in the open. */
  predicate Forbidden(p: seq<Node>, d: nat) {
    LeadsToListedCall(p) && d < |p| && IsDefinition(p[d]) && forall i | 0 <= i < d :: !IsLeftAlone(p[i])
  }

  lemma {:induction false} ListedCallHasPath(n: Node) returns (p: seq<Node>)
    requires HasListedCall(n)
    ensures LeadsToListedCall(p) && p[0] == n
  {
    if IsListedCall(n) {
      p := [n];
    } else {
      var c :| c in Children(n) && HasListedCall(c);
      var q := ListedCallHasPath(c);
      p := [n] + q;
    }
  }

  lemma {:induction false} PathShowsListedCall(p: seq<Node>)
    requires LeadsToListedCall(p)
    ensures HasListedCall(p[0])
  {
    if |p| > 1 {
      PathShowsListedCall(p[1..]);
    }
  }

  lemma ChildIsSmaller(n: Node, c: Node)
    requires c in Children(n)
    ensures n decreases to c
  {
  }

  lemma {:induction false} RejectionHasPath(n: Node) returns (p: seq<Node>, d: nat)
    requires Rewrite(n).None?
    ensures Forbidden(p, d) && p[0] == n
  {
    if IsDefinition(n) {
      p := ListedCallHasPath(n);
      d := 0;
    } else {
      var c :| c in Children(n) && Rewrite(c).None?;
      ChildIsSmaller(n, c);
      var q, e := RejectionHasPath(c);
      p, d := [n] + q, e + 1;
    }
  }

  lemma {:induction false} ForbiddenPathRejects(p: seq<Node>, d: nat)
    requires Forbidden(p, d)
    ensures Rewrite(p[0]).None?
    decreases d
  {
    if IsDefinition(p[0]) {
      PathShowsListedCall(p);
    } else {
      assert LeadsToListedCall(p[1..]);
      ForbiddenPathRejects(p[1..], d - 1);
      assert p[1] in Children(p[0]) && Rewrite(p[1]).None?;
    }
  }

  /** Rejected exactly when a listed call lies under a def, lambda or class met outside any await or async def. */
  lemma RejectedExactlyUnderDefinitions(n: Node)
    ensures Rewrite(n).None? <==> exists p, d :: p != [] && p[0] == n && Forbidden(p, d)
  {
    if Rewrite(n).None? {
      var p, d := RejectionHasPath(n);
    }
    forall p, d | p != [] && p[0] == n && Forbidden(p, d)
      ensures Rewrite(n).None?
    {
      ForbiddenPathRejects(p, d);
    }
  }

  // ---- The calls it is about, by their form alone ----

  lemma OnlyNamesRewriteToNames(v: Node, id: string)
    requires Rewrite(v) == Some(Name(id))
    ensures v == Name(id)
  {
  }

  /** The pass leaves the function part of a call written `aicser.m` as it is, and makes no other into one. */
  lemma LibraryMethodStays(f: Node, m: string)
    requires Rewrite(f).Some?
    ensures Rewrite(f).value == Attribute(Name("aicser"), m) <==> f == Attribute(Name("aicser"), m)
  {
    if f.Attribute? && Rewrite(f.value) == Some(Name("aicser")) {
      OnlyNamesRewriteToNames(f.value, "aicser");
    }
  }

  /** An accepted call is awaited exactly when it is written `aicser.m(...)` with m listed, whatever its arguments. */
  lemma AwaitedByForm(f: Node, args: Node)
    requires Rewrite(Call(f, args)).Some?
    ensures Rewrite(f).Some? && Rewrite(args).Some?
    ensures Rewrite(Call(f, args)).value
            == if exists m | m in LISTED :: f == Attribute(Name("aicser"), m) then Await(Call(f, Rewrite(args).value))
               else Call(Rewrite(f).value, Rewrite(args).value)
  {
    forall m
      ensures Rewrite(f).value == Attribute(Name("aicser"), m) <==> f == Attribute(Name("aicser"), m)
    {
      LibraryMethodStays(f, m);
    }
  }

  /** A walk down from n meets a call written `aicser.m(...)` with m listed. */
  ghost predicate MeetsCall(n: Node, p: seq<Node>, m: string, args: Node) {
    IsPath(p) && p[0] == n && m in LISTED && p[|p| - 1] == Call(Attribute(Name("aicser"), m), args)
  }

  /** A def, lambda or class is rejected exactly when a walk through it meets such a call; else it stays as it is. */
  lemma DefinitionRejectedByForm(n: Node)
    requires n.FunctionDef? || n.Lambda? || n.ClassDef?
    ensures Rewrite(n) in {None, Some(n)}
    ensures Rewrite(n) == None <==> exists p, m, args :: MeetsCall(n, p, m, args)
  {
    if Rewrite(n) == None {
      var p := ListedCallHasPath(n);
      var c := p[|p| - 1];
      assert MeetsCall(n, p, c.func.attr, c.args);
    }
    forall p, m, args | MeetsCall(n, p, m, args)
      ensures Rewrite(n) == None
    {
      PathShowsListedCall(p);
    }
  }

  /** At d the walk is at a def, lambda or class, outside every await and async def. */
  predicate InDefinition(p: seq<Node>, d: nat) {
    d < |p| && (p[d].FunctionDef? || p[d].Lambda? || p[d].ClassDef?)
    && forall i | 0 <= i < d :: !p[i].Await? && !p[i].AsyncFunctionDef?
  }

  /** Any tree is rejected exactly when a walk from it meets such a call in an open definition. */
  lemma RejectedByForm(n: Node)
    ensures Rewrite(n) == None
            <==> exists p, m, args, d: nat :: MeetsCall(n, p, m, args) && InDefinition(p, d)
  {
    if Rewrite(n) == None {
      var p, d := RejectionHasPath(n);
      var c := p[|p| - 1];
      assert MeetsCall(n, p, c.func.attr, c.args) && InDefinition(p, d);
    }
    forall p, m, args, d: nat | MeetsCall(n, p, m, args) && InDefinition(p, d)
      ensures Rewrite(n) == None
    {
      assert Forbidden(p, d);
      ForbiddenPathRejects(p, d);
    }
  }
}
