/** The two loop bodies the record-keeping agents share, and what a whole
    run of each leaves in the graph.

    `Put` is `G.add_node(n, **A)` once per record (use cases 4 and 9).
    `Step` is `G.add_node(a, **A)`, `G.add_node(b, **B)`,
    `G.add_edge(a, b)` once per record (use cases 7, 8 and 10). Each agent
    says how it turns a record into a `Put` or a `Step`. */
module GraphSteps {
  import opened Wrappers
  import opened Graphs

  /** `G.nodes[n].get(k)` for a node that may be absent. */
  function Lookup(attrs: map<string, Attrs>, n: string, k: string): Option<string> {
    if n in attrs && k in attrs[n] then Some(attrs[n][k]) else None
  }

  /** `add_node(x, **a)` writes the keys of `a` on `x` and nothing else. */
  lemma MergeLookup(attrs: map<string, Attrs>, x: string, a: Attrs, n: string, k: string)
    ensures Lookup(Merge(attrs, x, a), n, k) == if n == x && k in a then Some(a[k]) else Lookup(attrs, n, k)
  {
  }

  // ---------------------------------------------------------------------
  // One `add_node` per record

  /** The node a record names and the attributes written on it. */
  datatype Put = Put(n: string, attrs: Attrs)

  /** The graph after one `add_node` per record, in order. */
  function AllPut<R>(g: GraphValue, recs: seq<R>, f: R -> Put): (r: GraphValue)
    requires WellFormed(g)
    ensures WellFormed(r) && g.nodes <= r.nodes
    decreases |recs|
  {
    if recs == [] then g
    else
      var prev := AllPut(g, recs[..|recs| - 1], f);
      var p := f(recs[|recs| - 1]);
      var r := NodeAdded(prev, p.n, p.attrs);
      PrefixTrans(g.nodes, prev.nodes, r.nodes);
      r
  }

  lemma AllPutSnoc<R>(g: GraphValue, recs: seq<R>, f: R -> Put, i: nat)
    requires WellFormed(g) && i < |recs|
    ensures AllPut(g, recs[..i + 1], f) == NodeAdded(AllPut(g, recs[..i], f), f(recs[i]).n, f(recs[i]).attrs)
  {
    assert recs[..i + 1][..i] == recs[..i];
  }

  /** The value written last on key `k` of node `n`, if any record wrote
      one. */
  function LastPut<R>(recs: seq<R>, f: R -> Put, n: string, k: string): Option<string>
    decreases |recs|
  {
    if recs == [] then None
    else
      var p := f(recs[|recs| - 1]);
      if n == p.n && k in p.attrs then Some(p.attrs[k]) else LastPut(recs[..|recs| - 1], f, n, k)
  }

  /** Some record names `n`. */
  predicate Named<R>(recs: seq<R>, f: R -> Put, n: string) {
    exists i :: 0 <= i < |recs| && f(recs[i]).n == n
  }

  lemma NamedSnoc<R>(recs: seq<R>, f: R -> Put, n: string)
    requires recs != []
    ensures Named(recs, f, n) <==> Named(recs[..|recs| - 1], f, n) || f(recs[|recs| - 1]).n == n
  {
    var prefix := recs[..|recs| - 1];
    if Named(recs, f, n) && f(recs[|recs| - 1]).n != n {
      var i :| 0 <= i < |recs| && f(recs[i]).n == n;
      assert prefix[i] == recs[i];
    }
    if Named(prefix, f, n) {
      var i :| 0 <= i < |prefix| && f(prefix[i]).n == n;
      assert recs[i] == prefix[i];
    }
  }

  /** `add_node` never adds an edge; the nodes are the old ones and the
      named ones, each once, and the old ones keep their place. */
  lemma {:induction false} AllPutShape<R>(g: GraphValue, recs: seq<R>, f: R -> Put)
    requires WellFormed(g)
    ensures var r := AllPut(g, recs, f);
      && EdgeSet(r) == EdgeSet(g)
      && (forall x :: x in g.adj ==> x in r.adj && r.adj[x] == g.adj[x])
      && (forall n :: n in r.attrs <==> n in g.attrs || Named(recs, f, n))
    decreases |recs|
  {
    if recs != [] {
      var prefix := recs[..|recs| - 1];
      AllPutShape(g, prefix, f);
      forall n ensures n in AllPut(g, recs, f).attrs <==> n in g.attrs || Named(recs, f, n) {
        NamedSnoc(recs, f, n);
      }
    }
  }

  /** Every key of every node holds the value written last, or its old
      value when no record wrote it. */
  lemma {:induction false} AllPutAttrs<R>(g: GraphValue, recs: seq<R>, f: R -> Put, n: string, k: string)
    requires WellFormed(g)
    ensures Lookup(AllPut(g, recs, f).attrs, n, k) ==
      if LastPut(recs, f, n, k).Some? then LastPut(recs, f, n, k) else Lookup(g.attrs, n, k)
    decreases |recs|
  {
    if recs != [] {
      var prefix := recs[..|recs| - 1];
      AllPutAttrs(g, prefix, f, n, k);
      var prev := AllPut(g, prefix, f);
      var p := f(recs[|recs| - 1]);
      assert ViewOf(AllPut(g, recs, f)) == ViewAddNode(ViewOf(prev), p.n, p.attrs);
      assert AllPut(g, recs, f).attrs == Merge(prev.attrs, p.n, p.attrs);
      MergeLookup(prev.attrs, p.n, p.attrs, n, k);
    }
  }

  /** One more record appends its node unless the graph already has it. */
  lemma PutNodesSnoc<R>(g: GraphValue, recs: seq<R>, f: R -> Put, i: nat)
    requires WellFormed(g) && i < |recs|
    ensures AllPut(g, recs[..i + 1], f).nodes == Grown(AllPut(g, recs[..i], f).nodes, f(recs[i]).n)
  {
    AllPutSnoc(g, recs, f, i);
  }

  /** No record, no change. */
  lemma NoPuts<R>(g: GraphValue, recs: seq<R>, f: R -> Put)
    requires WellFormed(g)
    ensures AllPut(g, recs[..0], f) == g
  {
    assert recs[..0] == [];
  }

  lemma WholePuts<R>(g: GraphValue, recs: seq<R>, f: R -> Put)
    requires WellFormed(g)
    ensures AllPut(g, recs[..|recs|], f) == AllPut(g, recs, f)
  {
    assert recs[..|recs|] == recs;
  }

  /** Two records naming different nodes, put into an empty graph, give
      those two nodes in record order. */
  lemma TwoPutNodes<R>(recs: seq<R>, f: R -> Put)
    requires |recs| == 2 && f(recs[0]).n != f(recs[1]).n
    ensures AllPut(EmptyGraph, recs, f).nodes == [f(recs[0]).n, f(recs[1]).n]
  {
    NoPuts(EmptyGraph, recs, f);
    PutNodesSnoc(EmptyGraph, recs, f, 0);
    PutNodesSnoc(EmptyGraph, recs, f, 1);
    WholePuts(EmptyGraph, recs, f);
    GrownFromEmpty(f(recs[0]).n, f(recs[1]).n);
  }

  /** Two different names grown onto nothing, in order. */
  lemma GrownFromEmpty(x: string, y: string)
    requires x != y
    ensures Grown(Grown([], x), y) == [x, y]
  {
  }

  /** One record is one `add_node`. */
  lemma OnePut<R>(g: GraphValue, rec: R, f: R -> Put)
    requires WellFormed(g)
    ensures AllPut(g, [rec], f) == NodeAdded(g, f(rec).n, f(rec).attrs)
  {
    assert [rec][..0] == [];
  }

  /** Records that name the same nodes with the same attributes give the
      same graph, whatever else they carry. */
  lemma {:induction false} SamePuts<R, S>(g: GraphValue, recs: seq<R>, f: R -> Put, others: seq<S>, h: S -> Put)
    requires WellFormed(g) && |recs| == |others|
    requires forall i :: 0 <= i < |recs| ==> f(recs[i]) == h(others[i])
    ensures AllPut(g, recs, f) == AllPut(g, others, h)
    decreases |recs|
  {
    if recs != [] {
      SamePuts(g, recs[..|recs| - 1], f, others[..|others| - 1], h);
    }
  }

  /** Running the records in two batches is running them in one. */
  lemma {:induction false} AllPutAppend<R>(g: GraphValue, a: seq<R>, b: seq<R>, f: R -> Put)
    requires WellFormed(g)
    ensures AllPut(g, a + b, f) == AllPut(AllPut(g, a, f), b, f)
    decreases |b|
  {
    if b == [] {
      assert a + b == a;
    } else {
      assert (a + b)[..|a + b| - 1] == a + b[..|b| - 1];
      AllPutAppend(g, a, b[..|b| - 1], f);
    }
  }

  // ---------------------------------------------------------------------
  // Two `add_node`s and an `add_edge` per record

  /** The two nodes a record names, the attributes written on each, in
      the order written; the edge joins `a` and `b`. */
  datatype Step = Step(a: string, aAttrs: Attrs, b: string, bAttrs: Attrs)

  /** The graph after one record's three calls. */
  function Attached(g: GraphValue, s: Step): (r: GraphValue)
    requires WellFormed(g)
    ensures WellFormed(r) && g.nodes <= r.nodes
    ensures r.attrs == Merge(Merge(g.attrs, s.a, s.aAttrs), s.b, s.bAttrs)
    ensures EdgeSet(r) == EdgeSet(g) + {(s.a, s.b), (s.b, s.a)}
  {
    var g1 := NodeAdded(g, s.a, s.aAttrs);
    var g2 := NodeAdded(g1, s.b, s.bAttrs);
    var r := EdgeAdded(g2, s.a, s.b);
    PrefixTrans(g.nodes, g1.nodes, g2.nodes);
    PrefixTrans(g.nodes, g2.nodes, r.nodes);
    assert WithKey(WithKey(g2.attrs, s.a), s.b) == g2.attrs;
    r
  }

  /** `n` appended unless already there. */
  function Grown(ns: seq<string>, n: string): seq<string> {
    if n in ns then ns else ns + [n]
  }

  /** `add_node` leaves the neighbours of every other node alone. */
  lemma NodeAddedAdjacent(g: GraphValue, n: string, a: Attrs, k: string)
    requires WellFormed(g) && k != n
    ensures Adjacent(NodeAdded(g, n, a), k) == Adjacent(g, k)
  {
    var r := NodeAdded(g, n, a);
    if k !in g.adj {
      assert k !in g.nodes && k !in r.nodes;
    }
  }

  /** `add_edge(u, v)` leaves the neighbours of every node other than
      `u` and `v` alone. */
  lemma EdgeAddedOther(g: GraphValue, u: string, v: string, k: string)
    requires WellFormed(g) && k != u && k != v
    ensures Adjacent(EdgeAdded(g, u, v), k) == Adjacent(g, k)
  {
    var g1 := WithNode(WithNode(g, u), v);
    if k !in g.adj {
      assert k !in g.nodes && k !in WithNode(g, u).nodes && k !in g1.nodes;
      assert k !in g1.adj;
      if v !in g1.adj[u] {
        assert Link(g1.adj, u, v).Keys == g1.adj.Keys;
      }
    }
  }

  /** `add_edge(u, v)` appends `u` to the neighbours of `v` unless the
      two are joined already. */
  lemma EdgeAddedEnd(g: GraphValue, u: string, v: string)
    requires WellFormed(g) && u != v
    ensures Adjacent(EdgeAdded(g, u, v), v) == Grown(Adjacent(g, v), u)
  {
    if HasEdge(g, u, v) {
      assert u in g.adj[v];
    } else if v in g.adj && u in g.adj[v] {
      assert HasEdge(g, u, v);
    }
  }

  /** One record's three calls append `a` and then `b` to the node
      sequence, each only when new. */
  lemma AttachedNodes(g: GraphValue, s: Step)
    requires WellFormed(g)
    ensures Attached(g, s).nodes == Grown(Grown(g.nodes, s.a), s.b)
  {
    var g1 := NodeAdded(g, s.a, s.aAttrs);
    var g2 := NodeAdded(g1, s.b, s.bAttrs);
    assert s.a in g2.adj && s.b in g2.adj;
    assert WithNode(WithNode(g2, s.a), s.b) == g2;
  }

  /** One record's three calls append `b` to the neighbours of `a` when
      the edge is new, and leave the neighbours of every other old node
      alone. */
  lemma AttachedAdjacency(g: GraphValue, s: Step, x: string)
    requires WellFormed(g)
    ensures var r := Attached(g, s);
      && (x != s.a && x != s.b && x in g.adj ==> x in r.adj && r.adj[x] == g.adj[x])
      && (x == s.a && x != s.b && !HasEdge(g, s.a, s.b) ==> x in r.adj && r.adj[x] == Adjacent(g, x) + [s.b])
  {
    var g1 := NodeAdded(g, s.a, s.aAttrs);
    var g2 := NodeAdded(g1, s.b, s.bAttrs);
    assert Adjacent(g2, s.a) == Adjacent(g, s.a) && (HasEdge(g2, s.a, s.b) <==> HasEdge(g, s.a, s.b)) by {
      assert s.a in g.adj ==> g2.adj[s.a] == g.adj[s.a];
      assert s.a !in g.adj ==> g1.adj[s.a] == [];
    }
  }

  /** The graph after one record's three calls per record, in order. */
  function AllAttached<R>(g: GraphValue, recs: seq<R>, f: R -> Step): (r: GraphValue)
    requires WellFormed(g)
    ensures WellFormed(r) && g.nodes <= r.nodes
    decreases |recs|
  {
    if recs == [] then g
    else
      var prev := AllAttached(g, recs[..|recs| - 1], f);
      var r := Attached(prev, f(recs[|recs| - 1]));
      PrefixTrans(g.nodes, prev.nodes, r.nodes);
      r
  }

  /** One more record is one more step. */
  lemma AllAttachedSnoc<R>(g: GraphValue, recs: seq<R>, f: R -> Step, i: nat)
    requires WellFormed(g) && i < |recs|
    ensures AllAttached(g, recs[..i + 1], f) == Attached(AllAttached(g, recs[..i], f), f(recs[i]))
  {
    assert recs[..i + 1][..i] == recs[..i];
  }

  /** Some record joins `x` and `y`, in either direction. */
  predicate Joined<R>(recs: seq<R>, f: R -> Step, x: string, y: string) {
    exists i :: 0 <= i < |recs| && ((f(recs[i]).a == x && f(recs[i]).b == y) || (f(recs[i]).a == y && f(recs[i]).b == x))
  }

  /** Some record names `n` at either end. */
  predicate Mentioned<R>(recs: seq<R>, f: R -> Step, n: string) {
    exists i :: 0 <= i < |recs| && (f(recs[i]).a == n || f(recs[i]).b == n)
  }

  lemma JoinedSnoc<R>(recs: seq<R>, f: R -> Step, x: string, y: string)
    requires recs != []
    ensures var s := f(recs[|recs| - 1]);
      Joined(recs, f, x, y) <==> Joined(recs[..|recs| - 1], f, x, y) || (s.a == x && s.b == y) || (s.a == y && s.b == x)
  {
    var prefix := recs[..|recs| - 1];
    var s := f(recs[|recs| - 1]);
    if Joined(recs, f, x, y) && !((s.a == x && s.b == y) || (s.a == y && s.b == x)) {
      var i :| 0 <= i < |recs| && ((f(recs[i]).a == x && f(recs[i]).b == y) || (f(recs[i]).a == y && f(recs[i]).b == x));
      assert prefix[i] == recs[i];
    }
    if Joined(prefix, f, x, y) {
      var i :| 0 <= i < |prefix| && ((f(prefix[i]).a == x && f(prefix[i]).b == y) || (f(prefix[i]).a == y && f(prefix[i]).b == x));
      assert recs[i] == prefix[i];
    }
  }

  lemma MentionedSnoc<R>(recs: seq<R>, f: R -> Step, x: string)
    requires recs != []
    ensures var s := f(recs[|recs| - 1]);
      Mentioned(recs, f, x) <==> Mentioned(recs[..|recs| - 1], f, x) || s.a == x || s.b == x
  {
    var prefix := recs[..|recs| - 1];
    var s := f(recs[|recs| - 1]);
    if Mentioned(recs, f, x) && s.a != x && s.b != x {
      var i :| 0 <= i < |recs| && (f(recs[i]).a == x || f(recs[i]).b == x);
      assert prefix[i] == recs[i];
    }
    if Mentioned(prefix, f, x) {
      var i :| 0 <= i < |prefix| && (f(prefix[i]).a == x || f(prefix[i]).b == x);
      assert recs[i] == prefix[i];
    }
  }

  /** Adding an edge both ways adds exactly those two pairs. */
  lemma EdgeStep(before: set<(string, string)>, after: set<(string, string)>, a: string, b: string, x: string, y: string)
    requires after == before + {(a, b), (b, a)}
    ensures (x, y) in after <==> (x, y) in before || (a == x && b == y) || (a == y && b == x)
  {
  }

  lemma {:induction false} AllAttachedEdge<R>(g: GraphValue, recs: seq<R>, f: R -> Step, x: string, y: string)
    requires WellFormed(g)
    ensures (x, y) in EdgeSet(AllAttached(g, recs, f)) <==> (x, y) in EdgeSet(g) || Joined(recs, f, x, y)
    decreases |recs|
  {
    if recs != [] {
      var prefix := recs[..|recs| - 1];
      AllAttachedEdge(g, prefix, f, x, y);
      var prev := AllAttached(g, prefix, f);
      var s := f(recs[|recs| - 1]);
      var r := AllAttached(g, recs, f);
      assert r == Attached(prev, s);
      EdgeStep(EdgeSet(prev), EdgeSet(r), s.a, s.b, x, y);
      JoinedSnoc(recs, f, x, y);
    }
  }

  lemma {:induction false} AllAttachedNode<R>(g: GraphValue, recs: seq<R>, f: R -> Step, x: string)
    requires WellFormed(g)
    ensures x in AllAttached(g, recs, f).attrs <==> x in g.attrs || Mentioned(recs, f, x)
    decreases |recs|
  {
    if recs != [] {
      var prefix := recs[..|recs| - 1];
      AllAttachedNode(g, prefix, f, x);
      var prev := AllAttached(g, prefix, f);
      var s := f(recs[|recs| - 1]);
      var r := AllAttached(g, recs, f);
      var m := Merge(prev.attrs, s.a, s.aAttrs);
      assert r.attrs == Merge(m, s.b, s.bAttrs);
      assert x in m <==> x in prev.attrs || x == s.a;
      assert x in r.attrs <==> x in m || x == s.b;
      MentionedSnoc(recs, f, x);
    }
  }

  /** The edges are the old ones and one per record, in both directions;
      the nodes are the old ones and the ones the records name. */
  lemma AllAttachedShape<R>(g: GraphValue, recs: seq<R>, f: R -> Step)
    requires WellFormed(g)
    ensures var r := AllAttached(g, recs, f);
      && (forall x, y :: (x, y) in EdgeSet(r) <==> (x, y) in EdgeSet(g) || Joined(recs, f, x, y))
      && (forall n :: n in r.attrs <==> n in g.attrs || Mentioned(recs, f, n))
  {
    var r := AllAttached(g, recs, f);
    forall x, y ensures (x, y) in EdgeSet(r) <==> (x, y) in EdgeSet(g) || Joined(recs, f, x, y) {
      AllAttachedEdge(g, recs, f, x, y);
    }
    forall n ensures n in r.attrs <==> n in g.attrs || Mentioned(recs, f, n) {
      AllAttachedNode(g, recs, f, n);
    }
  }

  /** The value written last on key `k` of node `n`: a record writes on
      `a` first and on `b` after, so within one record `b` wins. */
  function LastWrite<R>(recs: seq<R>, f: R -> Step, n: string, k: string): Option<string>
    decreases |recs|
  {
    if recs == [] then None
    else
      var s := f(recs[|recs| - 1]);
      if n == s.b && k in s.bAttrs then Some(s.bAttrs[k])
      else if n == s.a && k in s.aAttrs then Some(s.aAttrs[k])
      else LastWrite(recs[..|recs| - 1], f, n, k)
  }

  /** Every key of every node holds the value written last, or its old
      value when no record wrote it. */
  lemma {:induction false} AllAttachedAttrs<R>(g: GraphValue, recs: seq<R>, f: R -> Step, n: string, k: string)
    requires WellFormed(g)
    ensures Lookup(AllAttached(g, recs, f).attrs, n, k) ==
      if LastWrite(recs, f, n, k).Some? then LastWrite(recs, f, n, k) else Lookup(g.attrs, n, k)
    decreases |recs|
  {
    if recs != [] {
      var prefix := recs[..|recs| - 1];
      AllAttachedAttrs(g, prefix, f, n, k);
      var prev := AllAttached(g, prefix, f);
      var s := f(recs[|recs| - 1]);
      var m := Merge(prev.attrs, s.a, s.aAttrs);
      assert AllAttached(g, recs, f).attrs == Merge(m, s.b, s.bAttrs);
      MergeLookup(prev.attrs, s.a, s.aAttrs, n, k);
      MergeLookup(m, s.b, s.bAttrs, n, k);
    }
  }

  /** A record whose edge is already there adds no node and no edge; it
      can only rewrite attributes. */
  lemma RepeatAddsNothing(g: GraphValue, s: Step)
    requires WellFormed(g) && HasEdge(g, s.a, s.b)
    ensures Attached(g, s).nodes == g.nodes && Attached(g, s).adj == g.adj
  {
  }

  /** Records that name the same nodes with the same attributes give the
      same graph, whatever else they carry. */
  lemma {:induction false} SameSteps<R, S>(g: GraphValue, recs: seq<R>, f: R -> Step, others: seq<S>, h: S -> Step)
    requires WellFormed(g) && |recs| == |others|
    requires forall i :: 0 <= i < |recs| ==> f(recs[i]) == h(others[i])
    ensures AllAttached(g, recs, f) == AllAttached(g, others, h)
    decreases |recs|
  {
    if recs != [] {
      SameSteps(g, recs[..|recs| - 1], f, others[..|others| - 1], h);
    }
  }
}
