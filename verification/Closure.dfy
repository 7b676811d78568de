/** Sets closed under a relation on names, and the least such set holding given names. */
module Closure {

  type Edges = set<(string, string)>

  ghost predicate Closed(edges: Edges, s: set<string>) {
    forall e | e in edges && e.0 in s :: e.1 in s
  }

  ghost predicate IsLeastClosed(edges: Edges, starts: set<string>, s: set<string>) {
    starts <= s && Closed(edges, s) && forall t: set<string> | starts <= t && Closed(edges, t) :: s <= t
  }

  /** A walk along the edges. */
  predicate IsWalk(edges: Edges, p: seq<string>) {
    |p| > 0 && forall i | 0 <= i < |p| - 1 :: (p[i], p[i + 1]) in edges
  }

  ghost predicate WalkTo(edges: Edges, starts: set<string>, x: string) {
    exists p :: IsWalk(edges, p) && p[0] in starts && p[|p| - 1] == x
  }

  lemma {:induction false} WalkStaysInside(edges: Edges, s: set<string>, p: seq<string>)
    requires Closed(edges, s) && IsWalk(edges, p) && p[0] in s
    ensures p[|p| - 1] in s
  {
    if |p| > 1 {
      assert (p[0], p[1]) in edges;
      WalkStaysInside(edges, s, p[1..]);
    }
  }

  /** The least closed set holds exactly the names that can be walked to. */
  lemma LeastClosedIsWalkable(edges: Edges, starts: set<string>, s: set<string>)
    requires IsLeastClosed(edges, starts, s)
    ensures forall x :: x in s <==> WalkTo(edges, starts, x)
  {
    forall x | WalkTo(edges, starts, x)
      ensures x in s
    {
      var p :| IsWalk(edges, p) && p[0] in starts && p[|p| - 1] == x;
      WalkStaysInside(edges, s, p);
    }
    var walked := set x | x in s && WalkTo(edges, starts, x);
    forall x | x in starts
      ensures x in walked
    {
      assert IsWalk(edges, [x]);
    }
    forall e | e in edges && e.0 in walked
      ensures e.1 in walked
    {
      var p :| IsWalk(edges, p) && p[0] in starts && p[|p| - 1] == e.0;
      var q := p + [e.1];
      assert IsWalk(edges, q) && q[0] in starts && q[|q| - 1] == e.1;
    }
    assert s <= walked;
  }

  lemma StartIsWalkable(edges: Edges, starts: set<string>, x: string)
    requires x in starts
    ensures WalkTo(edges, starts, x)
  {
    assert IsWalk(edges, [x]);
  }

  lemma WalkOn(edges: Edges, starts: set<string>, x: string, y: string)
    requires WalkTo(edges, starts, x) && (x, y) in edges
    ensures WalkTo(edges, starts, y)
  {
    var p :| IsWalk(edges, p) && p[0] in starts && p[|p| - 1] == x;
    var q := p + [y];
    assert IsWalk(edges, q) && q[0] in starts && q[|q| - 1] == y;
  }
}
