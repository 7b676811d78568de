/** Which packages the notebook runner vendors: the roots and everything they depend on. */
module Packages {
  import opened Options
  import opened Closure
  import opened Strings

  datatype Package = Package(depends: Option<seq<string>>)

  type Lock = map<string, Package>

  datatype Selection = Needs(names: set<string>) | NotInLock(name: string)

  function DependsOf(p: Package): seq<string> {
    if p.depends.Some? then p.depends.value else []
  }

  function DependEdges(lock: Lock): Edges {
    set n, d | n in lock && d in DependsOf(lock[n]) :: (n, d)
  }

  lemma WalkableIsLeast(edges: Edges, starts: set<string>, need: set<string>)
    requires forall x | x in need :: WalkTo(edges, starts, x)
    ensures forall t: set<string> | starts <= t && Closed(edges, t) :: need <= t
  {
    forall t: set<string> | starts <= t && Closed(edges, t)
      ensures need <= t
    {
      forall x | x in need
        ensures x in t
      {
        var p :| IsWalk(edges, p) && p[0] in starts && p[|p| - 1] == x;
        WalkStaysInside(edges, t, p);
      }
    }
  }

  /**
    The worklist: a name popped off the stack is looked up once, and its dependencies are pushed. It
    stops at the first name the lock file does not list.
  */
  method Select(lock: Lock, roots: seq<string>) returns (r: Selection)
    ensures r.Needs? ==> IsLeastClosed(DependEdges(lock), Elements(roots), r.names) && r.names <= lock.Keys
    ensures r.NotInLock? ==> r.name !in lock && WalkTo(DependEdges(lock), Elements(roots), r.name)
    ensures r.NotInLock? <==> exists x :: x !in lock && WalkTo(DependEdges(lock), Elements(roots), x)
    ensures r.Needs? ==> forall x :: x in r.names <==> exists path :: NeededBy(lock, roots, path, x)
    ensures r.NotInLock? ==> exists path :: NeededBy(lock, roots, path, r.name)
  {
    hide WalkTo, IsWalk, NeededBy;
    ghost var edges, starts := DependEdges(lock), Elements(roots);
    var need: set<string> := {};
    var stack := roots;
    forall x | x in roots
      ensures WalkTo(edges, starts, x)
    {
      StartIsWalkable(edges, starts, x);
    }
    while stack != []
      invariant need <= lock.Keys
      invariant forall x | x in need || x in stack :: WalkTo(edges, starts, x)
      invariant forall x | x in roots :: x in need || x in stack
      invariant forall e | e in edges && e.0 in need :: e.1 in need || e.1 in stack
      decreases lock.Keys - need, |stack|
    {
      var name := stack[|stack| - 1];
      assert stack == stack[..|stack| - 1] + [name];
      stack := stack[..|stack| - 1];
      if name !in need {
        if name !in lock {
          NeededExactly(lock, roots, name);
          return NotInLock(name);
        }
        forall d | d in DependsOf(lock[name])
          ensures WalkTo(edges, starts, d)
        {
          WalkOn(edges, starts, name, d);
        }
        need := need + {name};
        stack := stack + DependsOf(lock[name]);
      }
    }
    WalkableIsLeast(edges, starts, need);
    LeastClosedIsWalkable(edges, starts, need);
    forall x
      ensures WalkTo(edges, starts, x) <==> exists path :: NeededBy(lock, roots, path, x)
    {
      NeededExactly(lock, roots, x);
    }
    r := Needs(need);
  }

  /** The lock file lists y among what x depends on. */
  predicate Lists(lock: Lock, x: string, y: string) {
    x in lock && lock[x].depends.Some? && y in lock[x].depends.value
  }

  /** A chain from a root to x in which each name is listed with the one before it. */
  ghost predicate NeededBy(lock: Lock, roots: seq<string>, path: seq<string>, x: string) {
    && path != [] && path[0] in roots && path[|path| - 1] == x
    && forall i | 0 <= i < |path| - 1 :: Lists(lock, path[i], path[i + 1])
  }

  lemma EdgeIsListed(lock: Lock, x: string, y: string)
    ensures (x, y) in DependEdges(lock) <==> Lists(lock, x, y)
  {
  }

  lemma NeededExactly(lock: Lock, roots: seq<string>, x: string)
    ensures WalkTo(DependEdges(lock), Elements(roots), x) <==> exists path :: NeededBy(lock, roots, path, x)
  {
    hide DependEdges, Lists;
    forall a, b
      ensures (a, b) in DependEdges(lock) <==> Lists(lock, a, b)
    {
      EdgeIsListed(lock, a, b);
    }
    if p :| IsWalk(DependEdges(lock), p) && p[0] in Elements(roots) && p[|p| - 1] == x {
      assert NeededBy(lock, roots, p, x);
    }
    if path :| NeededBy(lock, roots, path, x) {
      assert IsWalk(DependEdges(lock), path);
    }
  }
}
