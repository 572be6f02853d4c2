/** Use case 8, data integration with ontologies (`OntologyAgent` of
    project/examples/use_cases/use_case_08/src/main.py and of its copy
    examples/use_cases/use_case_08/main.py): `ingest` adds every entry's
    term with its dataset as an attribute, adds the dataset as a node
    typed "dataset", and links the two. The entry's id is never used. */
module Ontology {
  import opened Wrappers
  import opened Graphs
  import opened GraphSteps
  import opened NeighbourOrder

  datatype DataEntry = DataEntry(id: string, term: string, dataset: string)

  const DatasetType: string := "dataset"

  /** `add_node(entry.term, dataset=entry.dataset)`, then
      `add_node(entry.dataset, type="dataset")`, then the edge between the
      two (written `add_edge(entry.dataset, entry.term)`, which leaves the
      same graph as the other direction: `EdgeAddedSwap`). */
  function Entered(e: DataEntry): Step {
    Step(e.term, map["dataset" := e.dataset], e.dataset, map["type" := DatasetType])
  }

  /** The dataset of the last entry for term `n`, if any. */
  function LastDataset(entries: seq<DataEntry>, n: string): Option<string>
    decreases |entries|
  {
    if entries == [] then None
    else if entries[|entries| - 1].term == n then Some(entries[|entries| - 1].dataset)
    else LastDataset(entries[..|entries| - 1], n)
  }

  /** Some entry names `n` as its dataset. */
  predicate Catalogued(entries: seq<DataEntry>, n: string) {
    exists i :: 0 <= i < |entries| && entries[i].dataset == n
  }

  lemma CataloguedSnoc(entries: seq<DataEntry>, n: string)
    requires entries != []
    ensures Catalogued(entries, n) <==> Catalogued(entries[..|entries| - 1], n) || entries[|entries| - 1].dataset == n
  {
    var prefix := entries[..|entries| - 1];
    if Catalogued(entries, n) && entries[|entries| - 1].dataset != n {
      var i :| 0 <= i < |entries| && entries[i].dataset == n;
      assert prefix[i] == entries[i];
    }
    if Catalogued(prefix, n) {
      var i :| 0 <= i < |prefix| && prefix[i].dataset == n;
      assert entries[i] == prefix[i];
    }
  }

  /** "type" is only ever written as "dataset", and only on dataset
      names; "dataset" is only written on terms, by the last entry for
      the term; no other key is written. */
  lemma {:induction false} EntryWrites(entries: seq<DataEntry>, n: string, k: string)
    ensures LastWrite(entries, Entered, n, k) ==
      if k == "type" && Catalogued(entries, n) then Some(DatasetType)
      else if k == "dataset" then LastDataset(entries, n)
      else None
    decreases |entries|
  {
    if entries != [] {
      EntryWrites(entries[..|entries| - 1], n, k);
      CataloguedSnoc(entries, n);
    }
  }

  /** After `ingest(entries)`: the edges are the old ones and one between
      the term and the dataset of every entry; every term and dataset is
      a node; a dataset name is typed "dataset"; a term's "dataset" is
      that of its last entry; everything else keeps its old value. */
  lemma IngestResult(g: GraphValue, entries: seq<DataEntry>, x: string, y: string, k: string)
    requires WellFormed(g)
    ensures var r := AllAttached(g, entries, Entered);
      && (HasEdge(r, x, y) <==> HasEdge(g, x, y) || Joined(entries, Entered, x, y))
      && (x in r.attrs <==> x in g.attrs || Mentioned(entries, Entered, x))
      && Lookup(r.attrs, x, k) ==
           if k == "type" && Catalogued(entries, x) then Some(DatasetType)
           else if k == "dataset" && LastDataset(entries, x).Some? then LastDataset(entries, x)
           else Lookup(g.attrs, x, k)
  {
    AllAttachedEdge(g, entries, Entered, x, y);
    AllAttachedNode(g, entries, Entered, x);
    AllAttachedAttrs(g, entries, Entered, x, k);
    EntryWrites(entries, x, k);
  }

  /** Every entry's term and dataset are neighbours. */
  lemma EveryEntryLinked(g: GraphValue, entries: seq<DataEntry>, i: nat)
    requires WellFormed(g) && i < |entries|
    ensures var r := AllAttached(g, entries, Entered);
      HasEdge(r, entries[i].term, entries[i].dataset) && HasEdge(r, entries[i].dataset, entries[i].term)
  {
    assert Entered(entries[i]).a == entries[i].term && Entered(entries[i]).b == entries[i].dataset;
    AllAttachedEdge(g, entries, Entered, entries[i].term, entries[i].dataset);
    AllAttachedEdge(g, entries, Entered, entries[i].dataset, entries[i].term);
  }

  /** Every entry's dataset ends typed "dataset", whatever else was
      written on that name. */
  lemma DatasetTyped(g: GraphValue, entries: seq<DataEntry>, i: nat)
    requires WellFormed(g) && i < |entries|
    ensures Lookup(AllAttached(g, entries, Entered).attrs, entries[i].dataset, "type") == Some(DatasetType)
  {
    assert Catalogued(entries, entries[i].dataset);
    IngestResult(g, entries, entries[i].dataset, entries[i].dataset, "type");
  }

  /** The ids never matter: entries with the same terms and datasets give
      the same graph. */
  lemma IdIgnored(g: GraphValue, entries: seq<DataEntry>, others: seq<DataEntry>)
    requires WellFormed(g) && |entries| == |others|
    requires forall i :: 0 <= i < |entries| ==> entries[i].term == others[i].term && entries[i].dataset == others[i].dataset
    ensures AllAttached(g, entries, Entered) == AllAttached(g, others, Entered)
  {
    SameSteps(g, entries, Entered, others, Entered);
  }

  /** The datasets recorded for term `t`. */
  function DatasetsOf(entries: seq<DataEntry>, t: string): set<string> {
    set i | 0 <= i < |entries| && entries[i].term == t :: entries[i].dataset
  }

  /** A list without repeats has as many elements as its set. */
  lemma {:induction false} DistinctCard(s: seq<string>)
    requires Distinct(s)
    ensures |(set x | x in s)| == |s|
    decreases |s|
  {
    if s != [] {
      var init := s[..|s| - 1];
      var last := s[|s| - 1];
      assert Distinct(init) by {
        forall i, j | 0 <= i < j < |init| ensures init[i] != init[j] {
          assert init[i] == s[i] && init[j] == s[j];
        }
      }
      DistinctCard(init);
      assert last !in init by {
        forall i | 0 <= i < |init| ensures init[i] != last {
          assert init[i] == s[i];
        }
      }
      assert (set x | x in s) == (set x | x in init) + {last} by {
        assert s == init + [last];
      }
    }
  }

  /** A term never used as a dataset name is adjacent exactly to the
      datasets of its entries. */
  lemma TermNeighbour(entries: seq<DataEntry>, t: string, y: string)
    requires !Catalogued(entries, t)
    ensures HasEdge(AllAttached(EmptyGraph, entries, Entered), t, y) <==> y in DatasetsOf(entries, t)
  {
    AllAttachedEdge(EmptyGraph, entries, Entered, t, y);
    if y in DatasetsOf(entries, t) {
      var j :| 0 <= j < |entries| && entries[j].term == t && entries[j].dataset == y;
      assert Entered(entries[j]).a == t && Entered(entries[j]).b == y;
    }
    if Joined(entries, Entered, t, y) {
      var j :| 0 <= j < |entries| && ((Entered(entries[j]).a == t && Entered(entries[j]).b == y) ||
                                       (Entered(entries[j]).a == y && Entered(entries[j]).b == t));
      assert entries[j].dataset != t;
      assert entries[j].term == t && entries[j].dataset == y;
    }
  }

  /** A term shared by entries from n distinct datasets, and never used as
      a dataset name, ends as one node whose neighbours are exactly those
      n datasets, each once. */
  lemma SharedTerm(entries: seq<DataEntry>, t: string, i: nat)
    requires i < |entries| && entries[i].term == t && !Catalogued(entries, t)
    ensures var r := AllAttached(EmptyGraph, entries, Entered);
      && t in r.adj && t in r.nodes
      && (forall y :: y in r.adj[t] <==> y in DatasetsOf(entries, t))
      && |r.adj[t]| == |DatasetsOf(entries, t)|
  {
    var r := AllAttached(EmptyGraph, entries, Entered);
    assert Entered(entries[i]).a == t;
    AllAttachedNode(EmptyGraph, entries, Entered, t);
    forall y ensures HasEdge(r, t, y) <==> y in DatasetsOf(entries, t) {
      TermNeighbour(entries, t, y);
    }
    CountedNeighbours(r, t, DatasetsOf(entries, t));
  }

  /** A node adjacent exactly to the members of `s` has |s| neighbours. */
  lemma CountedNeighbours(g: GraphValue, n: string, s: set<string>)
    requires WellFormed(g) && n in g.attrs
    requires forall y :: HasEdge(g, n, y) <==> y in s
    ensures n in g.adj && n in g.nodes
    ensures forall y :: y in g.adj[n] <==> y in s
    ensures |g.adj[n]| == |s|
  {
    DistinctCard(g.adj[n]);
    assert (set x | x in g.adj[n]) == s;
  }

  class OntologyAgent {
    const graph: Graph

    ghost predicate Valid()
      reads this, graph
    {
      graph.Valid()
    }

    constructor ()
      ensures Valid() && fresh(graph) && graph.Value() == EmptyGraph
    {
      graph := new Graph();
    }

    /** `ingest(entries)`: per entry, two `add_node`s and an `add_edge`. */
    method Ingest(entries: seq<DataEntry>)
      requires Valid()
      modifies graph
      ensures Valid()
      ensures graph.Value() == AllAttached(old(graph.Value()), entries, Entered)
    {
      ghost var g0 := graph.Value();
      for i := 0 to |entries|
        invariant Valid()
        invariant graph.Value() == AllAttached(g0, entries[..i], Entered)
      {
        AddEntry(entries[i]);
        AllAttachedSnoc(g0, entries, Entered, i);
      }
      assert entries[..|entries|] == entries;
    }

    /** The loop body of `ingest`. */
    method AddEntry(entry: DataEntry)
      requires Valid()
      modifies graph
      ensures Valid()
      ensures graph.Value() == Attached(old(graph.Value()), Entered(entry))
    {
      ghost var g := graph.Value();
      graph.AddNode(entry.term, map["dataset" := entry.dataset]);
      ghost var g1 := graph.Value();
      graph.AddNode(entry.dataset, map["type" := DatasetType]);
      ghost var g2 := graph.Value();
      assert entry.term in g2.adj;
      EdgeAddedSwap(g2, entry.term, entry.dataset);
      graph.AddEdge(entry.dataset, entry.term);
      assert g1 == NodeAdded(g, entry.term, map["dataset" := entry.dataset]);
      assert g2 == NodeAdded(g1, entry.dataset, map["type" := DatasetType]);
      assert graph.Value() == EdgeAdded(g2, entry.term, entry.dataset);
    }
  }

  /** Two entries for the same term `t` from two different datasets,
      neither named `t`, as in `main()`. */
  predicate SharedPair(entries: seq<DataEntry>, t: string) {
    && |entries| == 2 && entries[0].term == t && entries[1].term == t
    && entries[0].dataset != t && entries[1].dataset != t && entries[0].dataset != entries[1].dataset
  }

  /** The term is added first, then the two datasets. */
  lemma PairNodes(entries: seq<DataEntry>, t: string)
    requires SharedPair(entries, t)
    ensures AllAttached(EmptyGraph, entries, Entered).nodes == [t, entries[0].dataset, entries[1].dataset]
  {
    TwoNodes(EmptyGraph, entries, Entered, t);
  }

  /** The term keeps the dataset of the second entry; both datasets are
      typed. */
  lemma PairData(entries: seq<DataEntry>, t: string)
    requires SharedPair(entries, t)
    ensures AllAttached(EmptyGraph, entries, Entered).attrs ==
      map[t := map["dataset" := entries[1].dataset],
          entries[0].dataset := map["type" := DatasetType],
          entries[1].dataset := map["type" := DatasetType]]
  {
    TwoAttrs(EmptyGraph, entries, Entered);
    var d0, d1 := entries[0].dataset, entries[1].dataset;
    FirstData(t, d0);
    SecondData(map[t := map["dataset" := d0], d0 := map["type" := DatasetType]], t, d0, d1);
  }

  lemma FirstData(t: string, d0: string)
    requires d0 != t
    ensures Merge(Merge(map[], t, map["dataset" := d0]), d0, map["type" := DatasetType]) ==
      map[t := map["dataset" := d0], d0 := map["type" := DatasetType]]
  {
    var m := Merge(map[], t, map["dataset" := d0]);
    assert m == map[t := map["dataset" := d0]];
    assert d0 !in m;
  }

  lemma SecondData(m1: map<string, Attrs>, t: string, d0: string, d1: string)
    requires d0 != t && d1 != t && d0 != d1
    requires m1 == map[t := map["dataset" := d0], d0 := map["type" := DatasetType]]
    ensures Merge(Merge(m1, t, map["dataset" := d1]), d1, map["type" := DatasetType]) ==
      map[t := map["dataset" := d1], d0 := map["type" := DatasetType], d1 := map["type" := DatasetType]]
  {
    var a := map["dataset" := d1];
    assert m1[t] + a == a;
    var m2 := Merge(m1, t, a);
    assert m2 == m1[t := a];
    assert d1 !in m2;
  }

  /** The term is one node joined to both datasets, in entry order. */
  lemma PairNeighbours(entries: seq<DataEntry>, t: string)
    requires SharedPair(entries, t)
    ensures var r := AllAttached(EmptyGraph, entries, Entered);
      t in r.adj && r.adj[t] == [entries[0].dataset, entries[1].dataset]
  {
    TwoEnds(entries, Entered, t);
  }

  /** The entries of `main()`: "protein" from "bio", then from "chem". */
  lemma MainEntries(entries: seq<DataEntry>)
    requires entries == [DataEntry("1", "protein", "bio"), DataEntry("2", "protein", "chem")]
    ensures SharedPair(entries, "protein")
    ensures var r := AllAttached(EmptyGraph, entries, Entered);
      && r.nodes == ["protein", "bio", "chem"]
      && r.attrs == map["protein" := map["dataset" := "chem"], "bio" := map["type" := "dataset"], "chem" := map["type" := "dataset"]]
      && "protein" in r.adj && r.adj["protein"] == ["bio", "chem"]
  {
    PairNodes(entries, "protein");
    PairNeighbours(entries, "protein");
    PairData(entries, "protein");
  }

  /** `main()`: the nodes with their data, as `nodes(data=True)` lists
      them. */
  method OntologyExample() returns (nodes: seq<string>, data: map<string, Attrs>)
    ensures nodes == ["protein", "bio", "chem"]
    ensures data == map["protein" := map["dataset" := "chem"], "bio" := map["type" := "dataset"], "chem" := map["type" := "dataset"]]
  {
    var entries := [DataEntry("1", "protein", "bio"), DataEntry("2", "protein", "chem")];
    MainEntries(entries);
    var agent := new OntologyAgent();
    agent.Ingest(entries);
    nodes := agent.graph.nodes;
    data := agent.graph.attrs;
  }
}
