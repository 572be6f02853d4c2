/** Use case 4, automated literature review (`KnowledgeGraphAgent` of
    examples/use_cases/use_case_04/main.py, of its copy under src/ and of
    project/examples/use_cases/use_case_04/src/main.py): `ingest` stores
    every document as a node typed "document" that carries its content,
    and `summarize` lists every document node, in node order, with the
    first 50 characters of its content. */
module LiteratureReview {
  import opened Wrappers
  import opened Graphs
  import opened GraphSteps
  import KG = KeywordGraph

  /** How many characters `summarize` keeps. */
  const SnippetLength: nat := 50

  /** `content[:50]`: the content itself when it is short enough, else
      its first 50 characters. */
  function Snippet(content: string): (r: string)
    ensures r <= content
    ensures |r| == if |content| < SnippetLength then |content| else SnippetLength
  {
    content[..if |content| < SnippetLength then |content| else SnippetLength]
  }

  /** `add_node(doc.title, type="document", content=doc.content)`. */
  function Stored(d: KG.Document): Put {
    Put(d.title, map["type" := KG.DocumentType, "content" := d.content])
  }

  /** The content of the last document titled `n`, if any. */
  function LastContent(docs: seq<KG.Document>, n: string): Option<string>
    decreases |docs|
  {
    if docs == [] then None
    else if docs[|docs| - 1].title == n then Some(docs[|docs| - 1].content)
    else LastContent(docs[..|docs| - 1], n)
  }

  /** A node is titled by some document exactly when it has a last
      content; then the last values written on it are "document" and that
      content, and nothing is written on any other node. */
  lemma {:induction false} StoredWrites(docs: seq<KG.Document>, n: string, k: string)
    ensures Named(docs, Stored, n) <==> LastContent(docs, n).Some?
    ensures LastPut(docs, Stored, n, k) ==
      if LastContent(docs, n).None? then None
      else if k == "type" then Some(KG.DocumentType)
      else if k == "content" then LastContent(docs, n)
      else None
    decreases |docs|
  {
    if docs != [] {
      StoredWrites(docs[..|docs| - 1], n, k);
      NamedSnoc(docs, Stored, n);
    }
  }

  /** After `ingest(docs)`: no edge is added; the nodes are the old ones
      and one per distinct title; every title is typed "document" and
      carries the content of the last document with that title; every
      other node keeps its attributes. */
  lemma IngestResult(g: GraphValue, docs: seq<KG.Document>, n: string, k: string)
    requires WellFormed(g)
    ensures var r := AllPut(g, docs, Stored);
      && EdgeSet(r) == EdgeSet(g)
      && (n in r.attrs <==> n in g.attrs || LastContent(docs, n).Some?)
      && (LastContent(docs, n).Some? ==>
            Lookup(r.attrs, n, "type") == Some(KG.DocumentType) && Lookup(r.attrs, n, "content") == LastContent(docs, n))
      && (LastContent(docs, n).None? ==> Lookup(r.attrs, n, k) == Lookup(g.attrs, n, k))
  {
    AllPutShape(g, docs, Stored);
    AllPutAttrs(g, docs, Stored, n, k);
    AllPutAttrs(g, docs, Stored, n, "type");
    AllPutAttrs(g, docs, Stored, n, "content");
    StoredWrites(docs, n, k);
    StoredWrites(docs, n, "type");
    StoredWrites(docs, n, "content");
  }

  /** Every node is typed and every document node has a content, so
      `summarize` never raises. */
  ghost predicate Documented(attrs: map<string, Attrs>) {
    forall n :: n in attrs ==> "type" in attrs[n] && (attrs[n]["type"] == KG.DocumentType ==> "content" in attrs[n])
  }

  lemma StoreDocumented(attrs: map<string, Attrs>, d: KG.Document)
    requires Documented(attrs)
    ensures Documented(Merge(attrs, d.title, Stored(d).attrs))
  {
  }

  /** What `summarize()` returns for a graph: one item per
      document-typed node, in node order, each pairing the node with a
      prefix of its content of length min(50, len(content)). */
  function Summary(g: GraphValue): (r: seq<(string, string)>)
    requires WellFormed(g) && Documented(g.attrs)
    ensures var ds := OfType(g, g.nodes, KG.DocumentType);
      |r| == |ds| && forall i :: 0 <= i < |r| ==> r[i].0 == ds[i]
    ensures forall n :: (exists i :: 0 <= i < |r| && r[i].0 == n) <==>
      n in g.attrs && g.attrs[n]["type"] == KG.DocumentType
    ensures forall i, j :: 0 <= i < j < |r| ==> r[i].0 != r[j].0
    ensures forall i :: 0 <= i < |r| ==>
      && r[i].0 in g.attrs && "content" in g.attrs[r[i].0]
      && var content := g.attrs[r[i].0]["content"];
      r[i].1 <= content && |r[i].1| == if |content| < SnippetLength then |content| else SnippetLength
  {
    var ds := OfType(g, g.nodes, KG.DocumentType);
    seq(|ds|, i requires 0 <= i < |ds| => (ds[i], Snippet(g.attrs[ds[i]]["content"])))
  }

  class KnowledgeGraphAgent {
    const graph: Graph

    ghost predicate Valid()
      reads this, graph
    {
      graph.Valid() && Documented(graph.attrs)
    }

    constructor ()
      ensures Valid() && fresh(graph) && graph.Value() == EmptyGraph
    {
      graph := new Graph();
    }

    /** `ingest(docs)`: one `add_node` per document, in order. */
    method Ingest(docs: seq<KG.Document>)
      requires Valid()
      modifies graph
      ensures Valid()
      ensures graph.Value() == AllPut(old(graph.Value()), docs, Stored)
    {
      ghost var g0 := graph.Value();
      for i := 0 to |docs|
        invariant Valid()
        invariant graph.Value() == AllPut(g0, docs[..i], Stored)
      {
        StoreDocumented(graph.attrs, docs[i]);
        graph.AddNode(docs[i].title, map["type" := KG.DocumentType, "content" := docs[i].content]);
        AllPutSnoc(g0, docs, Stored, i);
      }
      assert docs[..|docs|] == docs;
    }

    /** `summarize()` on the current graph. */
    function Summarize(): (r: seq<(string, string)>)
      reads this, graph
      requires Valid()
      ensures r == Summary(graph.Value())
    {
      Summary(graph.Value())
    }
  }

  /** Of two documents, the later one decides the content of a shared title. */
  lemma TwoContents(docs: seq<KG.Document>, n: string)
    requires |docs| == 2
    ensures LastContent(docs, n) ==
      if n == docs[1].title then Some(docs[1].content)
      else if n == docs[0].title then Some(docs[0].content)
      else None
  {
    var first := docs[..1];
    assert first[|first| - 1] == docs[0] && first[..0] == [];
    assert LastContent(first, n) == if n == docs[0].title then Some(docs[0].content) else None;
    assert docs[..|docs| - 1] == first;
  }

  /** Two documents with different titles, stored into an empty graph,
      give the two title nodes in document order, each typed "document"
      and holding its own content. */
  lemma TwoStored(docs: seq<KG.Document>)
    requires |docs| == 2 && docs[0].title != docs[1].title
    ensures var g := AllPut(EmptyGraph, docs, Stored);
      && g.nodes == [docs[0].title, docs[1].title]
      && Lookup(g.attrs, docs[0].title, "type") == Some(KG.DocumentType)
      && Lookup(g.attrs, docs[1].title, "type") == Some(KG.DocumentType)
      && Lookup(g.attrs, docs[0].title, "content") == Some(docs[0].content)
      && Lookup(g.attrs, docs[1].title, "content") == Some(docs[1].content)
  {
    TwoPutNodes(docs, Stored);
    IngestResult(EmptyGraph, docs, docs[0].title, "type");
    IngestResult(EmptyGraph, docs, docs[1].title, "type");
    TwoContents(docs, docs[0].title);
    TwoContents(docs, docs[1].title);
  }

  /** A graph whose nodes are just two document nodes, with contents
      shorter than 50 characters, is summarised by their whole contents,
      in node order. */
  lemma ShortSummaries(g: GraphValue, d0: KG.Document, d1: KG.Document)
    requires WellFormed(g) && Documented(g.attrs)
    requires |d0.content| < SnippetLength && |d1.content| < SnippetLength
    requires g.nodes == [d0.title, d1.title]
    requires Lookup(g.attrs, d0.title, "type") == Some(KG.DocumentType)
    requires Lookup(g.attrs, d1.title, "type") == Some(KG.DocumentType)
    requires Lookup(g.attrs, d0.title, "content") == Some(d0.content)
    requires Lookup(g.attrs, d1.title, "content") == Some(d1.content)
    ensures Summary(g) == [(d0.title, d0.content), (d1.title, d1.content)]
  {
    OfTypeTwo(g, d0.title, d1.title, KG.DocumentType);
    var r := Summary(g);
    assert |r| == 2 && r[0].0 == d0.title && r[1].0 == d1.title;
    assert r[0].1 == d0.content;
    assert r[1].1 == d1.content;
  }

  /** `main()`: both contents are shorter than 50 characters, so each
      summary is the whole content, and the items come in ingest order. */
  method LiteratureReviewExample() returns (summaries: seq<(string, string)>)
    ensures summaries == [("LLM Knowledge Graphs", "using llms to build knowledge graphs"),
                          ("Research Agents", "agents automate research tasks")]
  {
    var docs := [KG.Document("LLM Knowledge Graphs", "using llms to build knowledge graphs"),
                 KG.Document("Research Agents", "agents automate research tasks")];
    var agent := new KnowledgeGraphAgent();
    agent.Ingest(docs);
    TwoStored(docs);
    ShortSummaries(agent.graph.Value(), docs[0], docs[1]);
    summaries := agent.Summarize();
  }
}
