/** The part of an undirected networkx Graph the agents use: `add_node`
    with keyword attributes, `add_edge` without attributes, `n in G`,
    `has_edge`, `neighbors` and `nodes(data=True)`.

    `GraphValue` is a graph as a value: its nodes in insertion order, the
    attribute dictionary of every node, and every node's neighbours in the
    order their edges were first added. `Graph` is the object the agents
    hold and update in place. `View` forgets both orders, keeping only the
    attributes and the edge relation. */
module Graphs {
  type Attrs = map<string, string>

  datatype GraphValue = GraphValue(nodes: seq<string>, attrs: map<string, Attrs>, adj: map<string, seq<string>>)

  const EmptyGraph: GraphValue := GraphValue([], map[], map[])

  predicate Distinct<T(==)>(s: seq<T>) {
    forall i, j :: 0 <= i < j < |s| ==> s[i] != s[j]
  }

  /** Every node once, with an attribute dictionary and an adjacency
      list; adjacency lists hold nodes, each once, and are symmetric. */
  ghost predicate WellFormed(g: GraphValue) {
    && Distinct(g.nodes)
    && (forall n :: n in g.attrs <==> n in g.nodes)
    && (forall n :: n in g.adj <==> n in g.nodes)
    && (forall u :: u in g.adj ==> Distinct(g.adj[u]))
    && (forall u, v :: u in g.adj && v in g.adj[u] ==> v in g.adj && u in g.adj[v])
  }

  /** `G.has_edge(u, v)`. */
  predicate HasEdge(g: GraphValue, u: string, v: string) {
    u in g.adj && v in g.adj[u]
  }

  /** The attribute dictionaries after `add_node(n, **a)`: an existing
      dictionary is updated with `a`, a new node gets `a`. */
  function Merge(attrs: map<string, Attrs>, n: string, a: Attrs): (r: map<string, Attrs>)
    ensures r.Keys == attrs.Keys + {n}
    ensures forall x :: x in attrs && x != n ==> r[x] == attrs[x]
    ensures r[n].Keys == a.Keys + (if n in attrs then attrs[n].Keys else {})
    ensures forall k :: k in r[n] ==> r[n][k] == if k in a then a[k] else attrs[n][k]
  {
    attrs[n := if n in attrs then attrs[n] + a else a]
  }

  /** The attribute dictionaries after `add_edge` has created a missing
      endpoint `n` with an empty dictionary. */
  function WithKey(attrs: map<string, Attrs>, n: string): (r: map<string, Attrs>)
    ensures r.Keys == attrs.Keys + {n}
    ensures forall x :: x in attrs ==> r[x] == attrs[x]
    ensures n !in attrs ==> r[n] == map[]
  {
    if n in attrs then attrs else attrs[n := map[]]
  }

  /** What a graph looks like once node and neighbour order are forgotten. */
  datatype View = View(attrs: map<string, Attrs>, edges: set<(string, string)>)

  ghost function EdgeSet(g: GraphValue): (r: set<(string, string)>)
    ensures forall u, v :: (u, v) in r <==> HasEdge(g, u, v)
  {
    set u, v | u in g.adj && v in g.adj[u] :: (u, v)
  }

  ghost function ViewOf(g: GraphValue): View {
    View(g.attrs, EdgeSet(g))
  }

  ghost function ViewAddNode(v: View, n: string, a: Attrs): View {
    v.(attrs := Merge(v.attrs, n, a))
  }

  ghost function ViewAddEdge(v: View, x: string, y: string): View {
    View(WithKey(WithKey(v.attrs, x), y), v.edges + {(x, y), (y, x)})
  }

  /** Appending a node with no neighbours keeps a graph well formed and
      adds no edge. */
  lemma FreshNode(g: GraphValue, n: string, a: Attrs)
    requires WellFormed(g) && n !in g.adj
    ensures var r := GraphValue(g.nodes + [n], g.attrs[n := a], g.adj[n := []]);
      WellFormed(r) && EdgeSet(r) == EdgeSet(g)
  {
    var r := GraphValue(g.nodes + [n], g.attrs[n := a], g.adj[n := []]);
    assert forall x :: x in r.nodes <==> x in g.nodes || x == n;
    assert EdgeSet(r) == EdgeSet(g);
  }

  /** `G.add_node(n, **a)` as a value. */
  function NodeAdded(g: GraphValue, n: string, a: Attrs): (r: GraphValue)
    requires WellFormed(g)
    ensures WellFormed(r)
    ensures r.nodes == if n in g.nodes then g.nodes else g.nodes + [n]
    ensures g.nodes <= r.nodes
    ensures forall x :: x in g.adj ==> x in r.adj && r.adj[x] == g.adj[x]
    ensures r.attrs == Merge(g.attrs, n, a)
    ensures ViewOf(r) == ViewAddNode(ViewOf(g), n, a)
  {
    if n in g.adj then g.(attrs := Merge(g.attrs, n, a))
    else
      FreshNode(g, n, a);
      GraphValue(g.nodes + [n], g.attrs[n := a], g.adj[n := []])
  }

  /** The graph after `add_edge` has created a missing endpoint `n`. */
  function WithNode(g: GraphValue, n: string): (r: GraphValue)
    requires WellFormed(g)
    ensures WellFormed(r) && n in r.adj
    ensures r.nodes == if n in g.nodes then g.nodes else g.nodes + [n]
    ensures r.attrs == WithKey(g.attrs, n)
    ensures forall x :: x in g.adj ==> x in r.adj && r.adj[x] == g.adj[x]
    ensures n !in g.adj ==> r.adj[n] == []
    ensures EdgeSet(r) == EdgeSet(g)
  {
    if n in g.adj then g
    else
      FreshNode(g, n, map[]);
      GraphValue(g.nodes + [n], g.attrs[n := map[]], g.adj[n := []])
  }

  /** The neighbours of `n`, or none for a node not in the graph. */
  function Adjacent(g: GraphValue, n: string): seq<string> {
    if n in g.adj then g.adj[n] else []
  }

  lemma DistinctAppend<T>(s: seq<T>, x: T)
    requires Distinct(s) && x !in s
    ensures Distinct(s + [x])
  {
  }

  /** A map from nodes to adjacency lists in which `v` is appended to the
      neighbours of `u` and `u` to those of `v`. */
  function Link(adj: map<string, seq<string>>, u: string, v: string): (r: map<string, seq<string>>)
    requires u in adj && v in adj
    ensures r.Keys == adj.Keys
    ensures r[u] == adj[u] + [v]
    ensures u != v ==> r[v] == adj[v] + [u]
    ensures forall x :: x in adj && x != u && x != v ==> r[x] == adj[x]
  {
    if u == v then adj[u := adj[u] + [u]] else adj[u := adj[u] + [v]][v := adj[v] + [u]]
  }

  /** Linking two nodes that were not adjacent adds exactly that edge, in
      both directions. */
  lemma LinkEdges(g: GraphValue, u: string, v: string)
    requires u in g.adj && v in g.adj
    ensures forall x, y :: HasEdge(g.(adj := Link(g.adj, u, v)), x, y) <==>
      HasEdge(g, x, y) || (x == u && y == v) || (x == v && y == u)
  {
    var r := g.(adj := Link(g.adj, u, v));
    forall x, y ensures HasEdge(r, x, y) <==> HasEdge(g, x, y) || (x == u && y == v) || (x == v && y == u) {
      if x == u {
        assert r.adj[x] == g.adj[x] + [v];
      } else if x == v {
        assert r.adj[x] == g.adj[x] + [u];
      } else if x in g.adj {
        assert r.adj[x] == g.adj[x];
      }
    }
  }

  lemma LinkEdgeSet(g: GraphValue, u: string, v: string)
    requires u in g.adj && v in g.adj
    ensures EdgeSet(g.(adj := Link(g.adj, u, v))) == EdgeSet(g) + {(u, v), (v, u)}
  {
    LinkEdges(g, u, v);
  }

  lemma LinkWellFormed(g: GraphValue, u: string, v: string)
    requires WellFormed(g) && u in g.adj && v in g.adj && v !in g.adj[u]
    ensures WellFormed(g.(adj := Link(g.adj, u, v)))
  {
    var r := g.(adj := Link(g.adj, u, v));
    LinkEdges(g, u, v);
    assert u !in g.adj[v];
    DistinctAppend(g.adj[u], v);
    if u != v {
      DistinctAppend(g.adj[v], u);
    }
    forall x | x in r.adj ensures Distinct(r.adj[x]) {
      if x != u && x != v {
        assert r.adj[x] == g.adj[x];
      }
    }
    forall x, y | x in r.adj && y in r.adj[x] ensures y in r.adj && x in r.adj[y] {
      assert HasEdge(r, x, y);
      assert HasEdge(r, y, x);
    }
  }

  /** Recording a new edge between two existing nodes. */
  function Linked(g: GraphValue, u: string, v: string): (r: GraphValue)
    requires WellFormed(g) && u in g.adj && v in g.adj && v !in g.adj[u]
    ensures WellFormed(r)
    ensures r.nodes == g.nodes && r.attrs == g.attrs && r.adj == Link(g.adj, u, v)
    ensures EdgeSet(r) == EdgeSet(g) + {(u, v), (v, u)}
  {
    LinkWellFormed(g, u, v);
    LinkEdgeSet(g, u, v);
    g.(adj := Link(g.adj, u, v))
  }

  /** `G.add_edge(u, v)` as a value: missing endpoints are created, `u`
      first; a new edge is appended to both adjacency lists (once for a
      self-loop); an existing edge changes nothing. */
  function EdgeAdded(g: GraphValue, u: string, v: string): (r: GraphValue)
    requires WellFormed(g)
    ensures WellFormed(r)
    ensures u in r.adj && v in r.adj
    ensures HasEdge(g, u, v) ==> r == g
    ensures g.nodes <= r.nodes
    ensures !HasEdge(g, u, v) ==> r.adj[u] == Adjacent(g, u) + [v]
    ensures !HasEdge(g, u, v) && u != v ==> r.adj[v] == Adjacent(g, v) + [u]
    ensures forall x :: x in g.adj && x != u && x != v ==> r.adj[x] == g.adj[x]
    ensures ViewOf(r) == ViewAddEdge(ViewOf(g), u, v)
  {
    var g1 := WithNode(WithNode(g, u), v);
    if v in g1.adj[u] then
      KnownEdge(g1, u, v);
      g1
    else Linked(g1, u, v)
  }

  /** Adding an edge that is already there adds nothing to the edge set. */
  lemma KnownEdge(g: GraphValue, u: string, v: string)
    requires WellFormed(g) && HasEdge(g, u, v)
    ensures EdgeSet(g) + {(u, v), (v, u)} == EdgeSet(g)
  {
    assert HasEdge(g, v, u);
  }

  /** In an undirected graph `add_edge(u, v)` and `add_edge(v, u)` between
      two existing nodes leave the same graph, neighbour order included. */
  lemma EdgeAddedSwap(g: GraphValue, u: string, v: string)
    requires WellFormed(g) && u in g.adj && v in g.adj
    ensures EdgeAdded(g, v, u) == EdgeAdded(g, u, v)
  {
    if HasEdge(g, u, v) {
      assert HasEdge(g, v, u);
    } else if u != v {
      assert !HasEdge(g, v, u);
      assert Link(g.adj, u, v) == Link(g.adj, v, u);
    }
  }

  /** Every node has a "type" attribute, so `G.nodes[n]["type"]` never
      raises. */
  ghost predicate AllTyped(attrs: map<string, Attrs>) {
    forall n :: n in attrs ==> "type" in attrs[n]
  }

  /** `add_node` with a "type" keeps every node typed. */
  lemma MergeTyped(attrs: map<string, Attrs>, n: string, a: Attrs)
    requires AllTyped(attrs) && "type" in a
    ensures AllTyped(Merge(attrs, n, a))
  {
  }

  /** The members of `s` whose "type" attribute is `t`, in the order of
      `s`: `[n for n in s if G.nodes[n]["type"] == t]`. */
  function OfType(g: GraphValue, s: seq<string>, t: string): (r: seq<string>)
    requires forall x :: x in s ==> x in g.attrs && "type" in g.attrs[x]
    ensures forall x :: x in r <==> x in s && g.attrs[x]["type"] == t
    ensures Distinct(s) ==> Distinct(r)
  {
    if s == [] then []
    else
      var rest := OfType(g, s[1..], t);
      assert Distinct(s) ==> s[0] !in s[1..] && Distinct(s[1..]);
      (if g.attrs[s[0]]["type"] == t then [s[0]] else []) + rest
  }

  /** A single node is kept exactly when it has type `t`. */
  lemma OfTypeOne(g: GraphValue, x: string, t: string)
    requires x in g.attrs && "type" in g.attrs[x]
    ensures OfType(g, [x], t) == if g.attrs[x]["type"] == t then [x] else []
  {
    assert [x][1..] == [];
  }

  /** Two nodes of type `t` are both kept, in order. */
  lemma OfTypeTwo(g: GraphValue, x: string, y: string, t: string)
    requires x in g.attrs && "type" in g.attrs[x] && g.attrs[x]["type"] == t
    requires y in g.attrs && "type" in g.attrs[y] && g.attrs[y]["type"] == t
    ensures OfType(g, [x, y], t) == [x, y]
  {
    OfTypeAppend(g, [x], [y], t);
    OfTypeOne(g, x, t);
    OfTypeOne(g, y, t);
    assert [x] + [y] == [x, y];
  }

  /** The filter keeps the order of its input: filtering `a + b` is
      filtering `a`, then filtering `b`. */
  lemma {:induction false} OfTypeAppend(g: GraphValue, a: seq<string>, b: seq<string>, t: string)
    requires forall x :: x in a + b ==> x in g.attrs && "type" in g.attrs[x]
    ensures OfType(g, a + b, t) == OfType(g, a, t) + OfType(g, b, t)
    decreases |a|
  {
    if a == [] {
      assert a + b == b;
    } else {
      var head := if g.attrs[a[0]]["type"] == t then [a[0]] else [];
      calc {
        OfType(g, a + b, t);
      == { assert (a + b)[0] == a[0] && (a + b)[1..] == a[1..] + b; }
        head + OfType(g, a[1..] + b, t);
      == { OfTypeAppend(g, a[1..], b, t); }
        head + (OfType(g, a[1..], t) + OfType(g, b, t));
      ==
        (head + OfType(g, a[1..], t)) + OfType(g, b, t);
      ==
        OfType(g, a, t) + OfType(g, b, t);
      }
    }
  }

  lemma PrefixTrans<T>(a: seq<T>, b: seq<T>, c: seq<T>)
    requires a <= b && b <= c
    ensures a <= c
  {
    assert a == c[..|a|] by {
      assert b[..|a|] == c[..|a|];
    }
  }

  /** The element after a proper prefix of a sequence without repeats is
      not in that prefix. */
  lemma DistinctFresh<T>(s: seq<T>, prefix: seq<T>)
    requires Distinct(s) && prefix <= s && |prefix| < |s|
    ensures s[|prefix|] in s && s[|prefix|] !in prefix
  {
  }

  /** A graph that only grew by appending nodes, yet has the same node
      set, has the same node sequence. */
  lemma SameNodes(g: GraphValue, h: GraphValue)
    requires WellFormed(g) && WellFormed(h)
    requires g.nodes <= h.nodes && g.attrs.Keys == h.attrs.Keys
    ensures h.nodes == g.nodes
  {
    if |h.nodes| > |g.nodes| {
      DistinctFresh(h.nodes, g.nodes);
      assert false;
    }
  }

  /** An undirected networkx Graph, updated in place. */
  class Graph {
    var nodes: seq<string>
    var attrs: map<string, Attrs>
    var adj: map<string, seq<string>>

    function Value(): GraphValue
      reads this
    {
      GraphValue(nodes, attrs, adj)
    }

    ghost predicate Valid()
      reads this
    {
      WellFormed(Value())
    }

    /** `nx.Graph()`. */
    constructor ()
      ensures Valid() && Value() == EmptyGraph
    {
      nodes := [];
      attrs := map[];
      adj := map[];
    }

    /** `add_node(n, **a)`. */
    method AddNode(n: string, a: Attrs)
      requires Valid()
      modifies this
      ensures Valid()
      ensures Value() == NodeAdded(old(Value()), n, a)
    {
      ghost var g := Value();
      if n in adj {
        attrs := attrs[n := attrs[n] + a];
      } else {
        FreshNode(g, n, a);
        nodes := nodes + [n];
        adj := adj[n := []];
        attrs := attrs[n := a];
      }
    }

    /** `add_edge(u, v)`. */
    method AddEdge(u: string, v: string)
      requires Valid()
      modifies this
      ensures Valid()
      ensures Value() == EdgeAdded(old(Value()), u, v)
    {
      ghost var g := Value();
      if u !in adj {
        nodes := nodes + [u];
        adj := adj[u := []];
        attrs := attrs[u := map[]];
      }
      assert Value() == WithNode(g, u);
      if v !in adj {
        nodes := nodes + [v];
        adj := adj[v := []];
        attrs := attrs[v := map[]];
      }
      ghost var g1 := Value();
      assert g1 == WithNode(WithNode(g, u), v);
      if v !in adj[u] {
        if u == v {
          adj := adj[u := adj[u] + [u]];
        } else {
          adj := adj[u := adj[u] + [v]][v := adj[v] + [u]];
        }
        assert Value() == Linked(g1, u, v);
      }
    }
  }
}
