/** The order in which neighbours accumulate when records are ingested
    one step at a time: a new edge appends, a record naming neither end
    leaves a node's neighbours alone. */
module NeighbourOrder {
  import opened Graphs
  import opened GraphSteps

  /** A record joining `a` to a node it was not yet adjacent to appends
      that node to the neighbours of `a`. */
  lemma NewNeighbour<R>(g: GraphValue, recs: seq<R>, f: R -> Step, i: nat)
    requires WellFormed(g) && i < |recs| && f(recs[i]).a != f(recs[i]).b
    requires !HasEdge(AllAttached(g, recs[..i], f), f(recs[i]).a, f(recs[i]).b)
    ensures var before := AllAttached(g, recs[..i], f);
      var after := AllAttached(g, recs[..i + 1], f);
      f(recs[i]).a in after.adj && after.adj[f(recs[i]).a] == Adjacent(before, f(recs[i]).a) + [f(recs[i]).b]
  {
    AllAttachedSnoc(g, recs, f, i);
    AttachedAdjacency(AllAttached(g, recs[..i], f), f(recs[i]), f(recs[i]).a);
  }

  /** A record that names neither end leaves the neighbours of `x` as they
      were. */
  lemma Untouched<R>(g: GraphValue, recs: seq<R>, f: R -> Step, i: nat, x: string)
    requires WellFormed(g) && i < |recs| && x != f(recs[i]).a && x != f(recs[i]).b
    requires x in AllAttached(g, recs[..i], f).adj
    ensures var before := AllAttached(g, recs[..i], f);
      var after := AllAttached(g, recs[..i + 1], f);
      x in after.adj && after.adj[x] == before.adj[x]
  {
    AllAttachedSnoc(g, recs, f, i);
    AttachedAdjacency(AllAttached(g, recs[..i], f), f(recs[i]), x);
  }

  /** Of three records from an empty graph, the first and the last join
      the same `a` to two different nodes and the middle one names neither
      `a` nor those nodes: the neighbours of `a` are those two nodes, in
      record order. */
  lemma ReturningEnd<R>(recs: seq<R>, f: R -> Step, a: string)
    requires |recs| == 3 && f(recs[0]).a == a && f(recs[2]).a == a
    requires f(recs[1]).a != a && f(recs[1]).b != a
    requires f(recs[0]).b != a && f(recs[2]).b != a
    requires f(recs[0]).b != f(recs[2]).b
    ensures var r := AllAttached(EmptyGraph, recs, f);
      a in r.adj && r.adj[a] == [f(recs[0]).b, f(recs[2]).b]
  {
    FirstNeighbour(recs, f);
    SecondNeighbour(recs, f, 2, f(recs[0]).b);
    WholePrefix(EmptyGraph, recs, f);
  }

  /** Of two records from an empty graph that join the same `a` to two
      different nodes, the neighbours of `a` are those two nodes, in
      record order. */
  lemma TwoEnds<R>(recs: seq<R>, f: R -> Step, a: string)
    requires |recs| == 2 && f(recs[0]).a == a && f(recs[1]).a == a
    requires f(recs[0]).b != a && f(recs[1]).b != a && f(recs[0]).b != f(recs[1]).b
    ensures var r := AllAttached(EmptyGraph, recs, f);
      a in r.adj && r.adj[a] == [f(recs[0]).b, f(recs[1]).b]
  {
    OnlyNeighbour(recs, f);
    SecondNeighbour(recs, f, 1, f(recs[0]).b);
    WholePrefix(EmptyGraph, recs, f);
  }

  /** After the first record the neighbours of its `a` are its `b`. */
  lemma OnlyNeighbour<R>(recs: seq<R>, f: R -> Step)
    requires |recs| >= 1 && f(recs[0]).a != f(recs[0]).b
    ensures var g1 := AllAttached(EmptyGraph, recs[..1], f);
      f(recs[0]).a in g1.adj && g1.adj[f(recs[0]).a] == [f(recs[0]).b]
  {
    assert recs[..0] == [];
    NewNeighbour(EmptyGraph, recs, f, 0);
  }

  /** One more record appends its two ends to the node sequence, each
      only when new. */
  lemma StepNodes<R>(g: GraphValue, recs: seq<R>, f: R -> Step, i: nat)
    requires WellFormed(g) && i < |recs|
    ensures AllAttached(g, recs[..i + 1], f).nodes == Grown(Grown(AllAttached(g, recs[..i], f).nodes, f(recs[i]).a), f(recs[i]).b)
  {
    AllAttachedSnoc(g, recs, f, i);
    AttachedNodes(AllAttached(g, recs[..i], f), f(recs[i]));
  }

  /** One more record writes the attributes of its two ends, `a` first. */
  lemma StepAttrs<R>(g: GraphValue, recs: seq<R>, f: R -> Step, i: nat)
    requires WellFormed(g) && i < |recs|
    ensures var s := f(recs[i]);
      AllAttached(g, recs[..i + 1], f).attrs == Merge(Merge(AllAttached(g, recs[..i], f).attrs, s.a, s.aAttrs), s.b, s.bAttrs)
  {
    AllAttachedSnoc(g, recs, f, i);
  }

  /** No record, no change. */
  lemma NoSteps<R>(g: GraphValue, recs: seq<R>, f: R -> Step)
    requires WellFormed(g)
    ensures AllAttached(g, recs[..0], f) == g
  {
    assert recs[..0] == [];
  }

  /** Two new names are appended in order. */
  lemma FreshPair(ns: seq<string>, x: string, y: string)
    requires x !in ns && y !in ns && x != y
    ensures Grown(Grown(ns, x), y) == ns + [x, y]
  {
    assert y !in ns + [x];
  }

  /** A name already there is skipped and a new one appended. */
  lemma SharedThenFresh(ns: seq<string>, a: string, b0: string, b1: string)
    requires b1 !in ns && b1 != a && b1 != b0
    ensures Grown(Grown(ns + [a, b0], a), b1) == ns + [a, b0, b1]
  {
    assert (ns + [a, b0])[|ns|] == a;
    assert b1 !in ns + [a, b0];
  }

  /** A first record naming two new, different nodes appends them. */
  lemma FirstNodes<R>(g: GraphValue, recs: seq<R>, f: R -> Step)
    requires WellFormed(g) && |recs| >= 1 && f(recs[0]).a != f(recs[0]).b
    requires f(recs[0]).a !in g.nodes && f(recs[0]).b !in g.nodes
    ensures AllAttached(g, recs[..1], f).nodes == g.nodes + [f(recs[0]).a, f(recs[0]).b]
  {
    NoSteps(g, recs, f);
    StepNodes(g, recs, f, 0);
    FreshPair(g.nodes, f(recs[0]).a, f(recs[0]).b);
  }

  /** Two more new names are appended after two earlier ones. */
  lemma FreshAfter(ns: seq<string>, a0: string, b0: string, a1: string, b1: string)
    requires a1 !in ns && b1 !in ns && a1 != b1
    requires a1 != a0 && a1 != b0 && b1 != a0 && b1 != b0
    ensures Grown(Grown(ns + [a0, b0], a1), b1) == ns + [a0, b0, a1, b1]
  {
    FreshPair(ns + [a0, b0], a1, b1);
  }

  /** Two records that name the same `a` and two other, different nodes,
      none of them a node yet, append `a` and those two, in that order. */
  lemma TwoNodes<R>(g: GraphValue, recs: seq<R>, f: R -> Step, a: string)
    requires WellFormed(g) && |recs| == 2 && f(recs[0]).a == a && f(recs[1]).a == a
    requires f(recs[0]).b != a && f(recs[1]).b != a && f(recs[0]).b != f(recs[1]).b
    requires a !in g.nodes && f(recs[0]).b !in g.nodes && f(recs[1]).b !in g.nodes
    ensures AllAttached(g, recs, f).nodes == g.nodes + [a, f(recs[0]).b, f(recs[1]).b]
  {
    var b0, b1 := f(recs[0]).b, f(recs[1]).b;
    var n1 := AllAttached(g, recs[..1], f).nodes;
    FirstNodes(g, recs, f);
    assert AllAttached(g, recs[..2], f).nodes == g.nodes + [a, b0, b1] by {
      StepNodes(g, recs, f, 1);
      SharedThenFresh(g.nodes, a, b0, b1);
    }
    WholePrefix(g, recs, f);
  }

  /** Two records that name four different nodes, none of them a node
      yet, append those nodes in the order named. */
  lemma TwoApart<R>(g: GraphValue, recs: seq<R>, f: R -> Step)
    requires WellFormed(g) && |recs| == 2
    requires var s0, s1 := f(recs[0]), f(recs[1]);
      s0.a != s0.b && s0.a != s1.a && s0.a != s1.b && s0.b != s1.a && s0.b != s1.b && s1.a != s1.b
    requires f(recs[0]).a !in g.nodes && f(recs[0]).b !in g.nodes && f(recs[1]).a !in g.nodes && f(recs[1]).b !in g.nodes
    ensures AllAttached(g, recs, f).nodes == g.nodes + [f(recs[0]).a, f(recs[0]).b, f(recs[1]).a, f(recs[1]).b]
  {
    var a0, b0, a1, b1 := f(recs[0]).a, f(recs[0]).b, f(recs[1]).a, f(recs[1]).b;
    var n1 := AllAttached(g, recs[..1], f).nodes;
    FirstNodes(g, recs, f);
    assert AllAttached(g, recs[..2], f).nodes == g.nodes + [a0, b0, a1, b1] by {
      StepNodes(g, recs, f, 1);
      FreshAfter(g.nodes, a0, b0, a1, b1);
    }
    WholePrefix(g, recs, f);
  }

  /** Two records write their attributes in order: `a` then `b` of the
      first, `a` then `b` of the second. */
  lemma TwoAttrs<R>(g: GraphValue, recs: seq<R>, f: R -> Step)
    requires WellFormed(g) && |recs| == 2
    ensures var s0, s1 := f(recs[0]), f(recs[1]);
      AllAttached(g, recs, f).attrs ==
        Merge(Merge(Merge(Merge(g.attrs, s0.a, s0.aAttrs), s0.b, s0.bAttrs), s1.a, s1.aAttrs), s1.b, s1.bAttrs)
  {
    NoSteps(g, recs, f);
    StepAttrs(g, recs, f, 0);
    StepAttrs(g, recs, f, 1);
    WholePrefix(g, recs, f);
  }

  lemma WholePrefix<R>(g: GraphValue, recs: seq<R>, f: R -> Step)
    requires WellFormed(g)
    ensures AllAttached(g, recs[..|recs|], f) == AllAttached(g, recs, f)
  {
    assert recs[..|recs|] == recs;
  }

  lemma FirstNeighbour<R>(recs: seq<R>, f: R -> Step)
    requires |recs| == 3
    requires f(recs[1]).a != f(recs[0]).a && f(recs[1]).b != f(recs[0]).a
    requires f(recs[0]).b != f(recs[0]).a
    ensures var g2 := AllAttached(EmptyGraph, recs[..2], f);
      f(recs[0]).a in g2.adj && g2.adj[f(recs[0]).a] == [f(recs[0]).b]
  {
    assert recs[..0] == [];
    NewNeighbour(EmptyGraph, recs, f, 0);
    Untouched(EmptyGraph, recs, f, 1, f(recs[0]).a);
  }

  /** A record joining `a`, whose only neighbour so far is `b`, to another
      node makes that node its second neighbour. */
  lemma SecondNeighbour<R>(recs: seq<R>, f: R -> Step, i: nat, b: string)
    requires i < |recs| && f(recs[i]).b != f(recs[i]).a && b != f(recs[i]).b
    requires var before := AllAttached(EmptyGraph, recs[..i], f);
      f(recs[i]).a in before.adj && before.adj[f(recs[i]).a] == [b]
    ensures var after := AllAttached(EmptyGraph, recs[..i + 1], f);
      f(recs[i]).a in after.adj && after.adj[f(recs[i]).a] == [b, f(recs[i]).b]
  {
    var before := AllAttached(EmptyGraph, recs[..i], f);
    SingleNeighbour(before, f(recs[i]).a, b, f(recs[i]).b);
    NewNeighbour(EmptyGraph, recs, f, i);
    PairOfNeighbours(before, AllAttached(EmptyGraph, recs[..i + 1], f), f(recs[i]).a, b, f(recs[i]).b);
  }

  lemma SingleNeighbour(g: GraphValue, a: string, b: string, c: string)
    requires a in g.adj && g.adj[a] == [b] && b != c
    ensures !HasEdge(g, a, c)
  {
  }

  lemma PairOfNeighbours(g: GraphValue, h: GraphValue, a: string, b: string, c: string)
    requires a in g.adj && g.adj[a] == [b]
    requires a in h.adj && h.adj[a] == Adjacent(g, a) + [c]
    ensures h.adj[a] == [b, c]
  {
  }
}
