/** Use case 9, real-time research updates (`UpdateAgent` of
    examples/use_cases/use_case_09/main.py and of its copy under src/):
    `ingest` adds every title as a node typed "document", and
    `monitor_and_add` ingests one new document. The content is never
    stored. */
module ResearchUpdates {
  import opened Wrappers
  import opened Graphs
  import opened GraphSteps
  import KG = KeywordGraph

  /** `add_node(doc.title, type="document")`. */
  function Added(d: KG.Document): Put {
    Put(d.title, map["type" := KG.DocumentType])
  }

  /** Some document is titled `n`. */
  predicate Titled(docs: seq<KG.Document>, n: string) {
    exists i :: 0 <= i < |docs| && docs[i].title == n
  }

  /** The only key written is "type", always "document", on the titles. */
  lemma {:induction false} AddedWrites(docs: seq<KG.Document>, n: string, k: string)
    ensures Named(docs, Added, n) <==> Titled(docs, n)
    ensures LastPut(docs, Added, n, k) == if Titled(docs, n) && k == "type" then Some(KG.DocumentType) else None
    decreases |docs|
  {
    if docs != [] {
      var prefix := docs[..|docs| - 1];
      AddedWrites(prefix, n, k);
      NamedSnoc(docs, Added, n);
      if Titled(docs, n) && docs[|docs| - 1].title != n {
        var i :| 0 <= i < |docs| && docs[i].title == n;
        assert prefix[i] == docs[i];
      }
      if Titled(prefix, n) {
        var i :| 0 <= i < |prefix| && prefix[i].title == n;
        assert docs[i] == prefix[i];
      }
    }
  }

  /** After `ingest(docs)`: no edge is added, the old nodes keep their
      place, the titles are added as nodes typed "document", and nothing
      else changes. */
  lemma IngestResult(g: GraphValue, docs: seq<KG.Document>, n: string, k: string)
    requires WellFormed(g)
    ensures var r := AllPut(g, docs, Added);
      && EdgeSet(r) == EdgeSet(g)
      && g.nodes <= r.nodes
      && (n in r.attrs <==> n in g.attrs || Titled(docs, n))
      && (Titled(docs, n) ==> Lookup(r.attrs, n, "type") == Some(KG.DocumentType))
      && (!(Titled(docs, n) && k == "type") ==> Lookup(r.attrs, n, k) == Lookup(g.attrs, n, k))
  {
    AllPutShape(g, docs, Added);
    AllPutAttrs(g, docs, Added, n, k);
    AllPutAttrs(g, docs, Added, n, "type");
    AddedWrites(docs, n, k);
    AddedWrites(docs, n, "type");
  }

  /** The content of a document never matters: documents with the same
      titles give the same graph. */
  lemma ContentIgnored(g: GraphValue, docs: seq<KG.Document>, others: seq<KG.Document>)
    requires WellFormed(g) && |docs| == |others|
    requires forall i :: 0 <= i < |docs| ==> docs[i].title == others[i].title
    ensures AllPut(g, docs, Added) == AllPut(g, others, Added)
  {
    SamePuts(g, docs, Added, others, Added);
  }

  /** Ingesting a document whose title is already a node leaves the node
      sequence as it was; when that node is already a document, the graph
      does not change at all. */
  lemma ReAdd(g: GraphValue, d: KG.Document)
    requires WellFormed(g) && d.title in g.nodes
    ensures AllPut(g, [d], Added).nodes == g.nodes
    ensures d.title in g.attrs && Lookup(g.attrs, d.title, "type") == Some(KG.DocumentType) ==>
      AllPut(g, [d], Added) == g
  {
    OnePut(g, d, Added);
    var r := AllPut(g, [d], Added);
    assert d.title in g.adj;
    assert r == g.(attrs := Merge(g.attrs, d.title, Added(d).attrs));
    if d.title in g.attrs && Lookup(g.attrs, d.title, "type") == Some(KG.DocumentType) {
      assert g.attrs[d.title] + Added(d).attrs == g.attrs[d.title];
      assert Merge(g.attrs, d.title, Added(d).attrs) == g.attrs;
    }
  }

  /** Ingesting in two calls is ingesting once: `monitor_and_add(d)` after
      `ingest(docs)` leaves the graph `ingest(docs + [d])` would. */
  lemma MonitorAfterIngest(g: GraphValue, docs: seq<KG.Document>, d: KG.Document)
    requires WellFormed(g)
    ensures AllPut(AllPut(g, docs, Added), [d], Added) == AllPut(g, docs + [d], Added)
  {
    AllPutAppend(g, docs, [d], Added);
  }

  class UpdateAgent {
    const graph: Graph

    ghost predicate Valid()
      reads this, graph
    {
      graph.Valid()
    }

    constructor ()
      ensures Valid() && fresh(graph) && graph.Value() == EmptyGraph
    {
      graph := new Graph();
    }

    /** `ingest(docs)`: one `add_node` per document, in order. */
    method Ingest(docs: seq<KG.Document>)
      requires Valid()
      modifies graph
      ensures Valid()
      ensures graph.Value() == AllPut(old(graph.Value()), docs, Added)
    {
      ghost var g0 := graph.Value();
      for i := 0 to |docs|
        invariant Valid()
        invariant graph.Value() == AllPut(g0, docs[..i], Added)
      {
        graph.AddNode(docs[i].title, map["type" := KG.DocumentType]);
        AllPutSnoc(g0, docs, Added, i);
      }
      assert docs[..|docs|] == docs;
    }

    /** `monitor_and_add(new_doc)`: the graph changes exactly as
        `ingest([new_doc])` changes it. */
    method MonitorAndAdd(newDoc: KG.Document)
      requires Valid()
      modifies graph
      ensures Valid()
      ensures graph.Value() == AllPut(old(graph.Value()), [newDoc], Added)
    {
      Ingest([newDoc]);
    }
  }

  /** `main()`: the graph ends with the nodes "Start" and "New Research",
      in that order. */
  method ResearchUpdatesExample() returns (nodes: seq<string>)
    ensures nodes == ["Start", "New Research"]
  {
    var agent := new UpdateAgent();
    agent.Ingest([KG.Document("Start", "baseline")]);
    agent.MonitorAndAdd(KG.Document("New Research", "latest findings"));
    nodes := agent.graph.nodes;
  }
}
