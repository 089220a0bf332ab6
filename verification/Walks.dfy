/**
 Walks over weighted links, usable in both directions, and the distance they define.
 This is the reference the routing tables are measured against.
 */
module Walks {
  type Node = string

  /** Node `a` was configured with, or later given, neighbour `b` at cost `w`. */
  datatype Link = Link(a: Node, b: Node, w: int)

  type Links = set<Link>

  ghost predicate Hop(links: Links, l: Link) {
    l in links || Link(l.b, l.a, l.w) in links
  }

  ghost predicate IsWalk(links: Links, u: Node, v: Node, hops: seq<Link>)
    decreases |hops|
  {
    if hops == [] then u == v
    else hops[0].a == u && Hop(links, hops[0]) && IsWalk(links, hops[0].b, v, hops[1..])
  }

  ghost function Length(hops: seq<Link>): int {
    if hops == [] then 0 else hops[0].w + Length(hops[1..])
  }

  /** Some walk from `u` to `v` costs exactly `c`. */
  ghost predicate Walkable(links: Links, u: Node, v: Node, c: int) {
    exists hops :: IsWalk(links, u, v, hops) && Length(hops) == c
  }

  ghost predicate IsDistance(links: Links, u: Node, v: Node, d: int) {
    && Walkable(links, u, v, d)
    && forall c :: Walkable(links, u, v, c) ==> d <= c
  }

  ghost predicate Connected(links: Links, u: Node, v: Node) {
    exists c :: Walkable(links, u, v, c)
  }

  lemma {:induction false} WalkConcat(links: Links, u: Node, v: Node, x: Node, p: seq<Link>, q: seq<Link>)
    requires IsWalk(links, u, v, p) && IsWalk(links, v, x, q)
    ensures IsWalk(links, u, x, p + q) && Length(p + q) == Length(p) + Length(q)
    decreases |p|
  {
    if p == [] {
      assert p + q == q;
    } else {
      WalkConcat(links, p[0].b, v, x, p[1..], q);
      assert (p + q)[1..] == p[1..] + q;
    }
  }

  function Reversed(hops: seq<Link>): seq<Link> {
    if hops == [] then [] else Reversed(hops[1..]) + [Link(hops[0].b, hops[0].a, hops[0].w)]
  }

  lemma {:induction false} WalkReverse(links: Links, u: Node, v: Node, p: seq<Link>)
    requires IsWalk(links, u, v, p)
    ensures IsWalk(links, v, u, Reversed(p)) && Length(Reversed(p)) == Length(p)
    decreases |p|
  {
    if p != [] {
      WalkReverse(links, p[0].b, v, p[1..]);
      var back := [Link(p[0].b, p[0].a, p[0].w)];
      assert back[1..] == [] && IsWalk(links, p[0].a, u, back[1..]);
      assert IsWalk(links, p[0].b, u, back);
      assert Length(back) == p[0].w + Length(back[1..]);
      WalkConcat(links, v, p[0].b, u, Reversed(p[1..]), back);
    }
  }

  lemma {:induction false} WalkMonotone(links: Links, more: Links, u: Node, v: Node, p: seq<Link>)
    requires links <= more && IsWalk(links, u, v, p)
    ensures IsWalk(more, u, v, p)
    decreases |p|
  {
    if p != [] {
      WalkMonotone(links, more, p[0].b, v, p[1..]);
    }
  }

  ghost predicate NonNegative(links: Links) {
    forall l :: l in links ==> l.w >= 0
  }

  ghost predicate Positive(links: Links) {
    forall l :: l in links ==> l.w > 0
  }

  lemma {:induction false} WalkLength(links: Links, u: Node, v: Node, p: seq<Link>)
    requires NonNegative(links) && IsWalk(links, u, v, p)
    ensures Length(p) >= 0
    ensures Positive(links) && u != v ==> Length(p) > 0
    decreases |p|
  {
    if p != [] {
      WalkLength(links, p[0].b, v, p[1..]);
    }
  }

  // The same facts about costs rather than walks.

  lemma StayPut(links: Links, u: Node)
    ensures Walkable(links, u, u, 0)
  {
    assert IsWalk(links, u, u, []);
  }

  lemma OneHop(links: Links, l: Link)
    requires Hop(links, l)
    ensures Walkable(links, l.a, l.b, l.w)
  {
    assert [l][1..] == [] && IsWalk(links, l.b, l.b, [l][1..]);
    assert Length([l]) == l.w + Length([l][1..]);
    assert IsWalk(links, l.a, l.b, [l]);
  }

  lemma Onwards(links: Links, u: Node, v: Node, x: Node, c: int, d: int)
    requires Walkable(links, u, v, c) && Walkable(links, v, x, d)
    ensures Walkable(links, u, x, c + d)
  {
    var p :| IsWalk(links, u, v, p) && Length(p) == c;
    var q :| IsWalk(links, v, x, q) && Length(q) == d;
    WalkConcat(links, u, v, x, p, q);
  }

  lemma Backwards(links: Links, u: Node, v: Node, c: int)
    requires Walkable(links, u, v, c)
    ensures Walkable(links, v, u, c)
  {
    var p :| IsWalk(links, u, v, p) && Length(p) == c;
    WalkReverse(links, u, v, p);
  }

  lemma StillWalkable(links: Links, more: Links, u: Node, v: Node, c: int)
    requires links <= more && Walkable(links, u, v, c)
    ensures Walkable(more, u, v, c)
  {
    var p :| IsWalk(links, u, v, p) && Length(p) == c;
    WalkMonotone(links, more, u, v, p);
  }
}
