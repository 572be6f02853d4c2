/** The `main` functions of the keyword agents, with the value each one
    prints: the documents related to "research" in the knowledge-graph
    example, the references for "research" in use case 6 and the
    suggested methods in use case 5.

    Each document's content is written as the words `" ".join(...)` puts
    together, which is the same string as the literal in the script. */
module KeywordExamples {
  import opened Wrappers
  import opened PyStrings
  import opened Graphs
  import opened KeywordGraph

  const EmptyView: View := View(map[], {})

  lemma EmptyViewOf()
    ensures ViewOf(EmptyGraph) == EmptyView
  {
    assert EdgeSet(EmptyGraph) == {};
  }

  lemma MembersAt<T>(r: seq<T>, i: nat, j: nat)
    requires i < |r| && j < |r|
    ensures r[i] in r && r[j] in r
  {
  }

  /** A sequence without repeats whose only member is `x` is `[x]`. */
  lemma Single(r: seq<string>, x: string)
    requires Distinct(r) && forall n :: n in r <==> n == x
    ensures r == [x]
  {
    assert x in r;
    if |r| > 1 {
      MembersAt(r, 0, 1);
      assert false;
    }
  }

  lemma TwoDocuments(docs: seq<Document>, x: string, y: string)
    requires |docs| == 2
    ensures LinkedBy(docs, x, y) <==> Links(docs[0], x, y) || Links(docs[1], x, y)
  {
  }

  /** After `ingest` into a new agent, the document-typed neighbours of
      `k`, stated on the view. */
  ghost predicate DocumentNeighbour(u: View, k: string, n: string) {
    (k, n) in u.edges && n in u.attrs && "type" in u.attrs[n] && u.attrs[n]["type"] == DocumentType
  }

  /** On a new agent, `n` is a document-typed neighbour of `k` after
      `ingest(docs)` exactly when a document links the two and the last
      type written on `n` is "document". */
  lemma NeighbourAfterIngest(docs: seq<Document>, t: string, k: string, n: string)
    ensures DocumentNeighbour(IngestView(EmptyView, docs, t), k, n)
        <==> LinkedBy(docs, k, n) && LastType(docs, n, t) == Some(DocumentType)
  {
    IngestEdges(EmptyView, docs, t);
    IngestAttrs(EmptyView, docs, t);
  }

  /** On a new agent, the nodes typed `m` after `ingest(docs)`. */
  lemma TypedAfterIngest(docs: seq<Document>, t: string, m: string, n: string)
    ensures var u := IngestView(EmptyView, docs, t);
      n in u.attrs && "type" in u.attrs[n] && u.attrs[n]["type"] == m <==> LastType(docs, n, t) == Some(m)
  {
    IngestAttrs(EmptyView, docs, t);
  }

  /** Of two documents only the second mentions `k`: then the second
      title is the one document-typed neighbour of `k`. */
  lemma SecondOnly(docs: seq<Document>, t: string, k: string, n: string)
    requires |docs| == 2
    requires k != docs[0].title && k !in Tokens(docs[0].content)
    requires k != docs[1].title && k in Tokens(docs[1].content)
    requires docs[1].title != [] && IsUpper(docs[1].title[0])
    ensures LinkedBy(docs, k, n) && LastType(docs, n, t) == Some(DocumentType) <==> n == docs[1].title
  {
    CapitalNotToken(docs[1].title, docs[1].content);
    assert LastType(docs, docs[1].title, t) == Some(DocumentType);
    TwoDocuments(docs, k, n);
  }

  /** Both documents mention `k`: then both titles are its document-typed
      neighbours. */
  lemma BothLink(docs: seq<Document>, t: string, k: string, n: string)
    requires |docs| == 2
    requires k != docs[0].title && k in Tokens(docs[0].content)
    requires k != docs[1].title && k in Tokens(docs[1].content)
    requires docs[0].title != [] && IsUpper(docs[0].title[0])
    requires docs[1].title != [] && IsUpper(docs[1].title[0])
    ensures LinkedBy(docs, k, n) && LastType(docs, n, t) == Some(DocumentType)
        <==> n == docs[0].title || n == docs[1].title
  {
    CapitalNotToken(docs[0].title, docs[0].content);
    CapitalNotToken(docs[0].title, docs[1].content);
    CapitalNotToken(docs[1].title, docs[1].content);
    assert LastType(docs[..1], docs[0].title, t) == Some(DocumentType) by {
      var first := docs[..1];
      assert first[|first| - 1] == docs[0] && first[..0] == [];
    }
    assert LastType(docs, docs[0].title, t) == Some(DocumentType);
    assert LastType(docs, docs[1].title, t) == Some(DocumentType);
    TwoDocuments(docs, k, n);
  }

  /** With capitalised titles, the nodes ingest types `t` (other than
      "document") are the tokens of the two documents. */
  lemma TokenTyped(docs: seq<Document>, t: string, n: string)
    requires |docs| == 2 && t != DocumentType
    requires docs[0].title != [] && IsUpper(docs[0].title[0])
    requires docs[1].title != [] && IsUpper(docs[1].title[0])
    ensures LastType(docs, n, t) == Some(t) <==> n in Tokens(docs[0].content) || n in Tokens(docs[1].content)
  {
    CapitalNotToken(docs[1].title, docs[0].content);
    var first := docs[..1];
    assert first[|first| - 1] == docs[0] && first[..0] == [];
    assert LastType(first, n, t) == Some(t) <==> n in Tokens(docs[0].content);
    assert docs[..|docs| - 1] == first;
  }

  // ---------------------------------------------------------------------
  // examples/knowledge_graph_example.py (and use case 2)

  function ExampleDocs(): seq<Document> {
    [Document("LLM Knowledge Graphs", Join(["using", "llms", "to", "build", "knowledge", "graphs"], " ")),
     Document("Research Agents", Join(["agents", "automate", "research", "tasks"], " "))]
  }

  lemma ExampleTokens0()
    ensures Tokens(ExampleDocs()[0].content) == {"using", "llms", "to", "build", "knowledge", "graphs"}
  {
    Example0Words();
    Example0Set();
    TokensOfJoin(["using", "llms", "to", "build", "knowledge", "graphs"], {"using", "llms", "to", "build", "knowledge", "graphs"});
  }

  lemma Example0Words()
    ensures PlainWords(["using", "llms", "to", "build", "knowledge", "graphs"])
  {
  }

  lemma Example0Set()
    ensures (set w | w in ["using", "llms", "to", "build", "knowledge", "graphs"]) == {"using", "llms", "to", "build", "knowledge", "graphs"}
  {
  }

  lemma ExampleTokens1()
    ensures Tokens(ExampleDocs()[1].content) == {"agents", "automate", "research", "tasks"}
  {
    Example1Words();
    Example1Set();
    TokensOfJoin(["agents", "automate", "research", "tasks"], {"agents", "automate", "research", "tasks"});
  }

  lemma Example1Words()
    ensures PlainWords(["agents", "automate", "research", "tasks"])
  {
  }

  lemma Example1Set()
    ensures (set w | w in ["agents", "automate", "research", "tasks"]) == {"agents", "automate", "research", "tasks"}
  {
  }

  /** "research" is a token of the second example document only, and
      neither title. */
  lemma ExampleFacts(docs: seq<Document>)
    requires |docs| == 2
    requires docs[0].title == "LLM Knowledge Graphs"
    requires Tokens(docs[0].content) == {"using", "llms", "to", "build", "knowledge", "graphs"}
    requires docs[1].title == "Research Agents"
    requires Tokens(docs[1].content) == {"agents", "automate", "research", "tasks"}
    ensures "research" != docs[0].title && "research" !in Tokens(docs[0].content)
    ensures "research" != docs[1].title && "research" in Tokens(docs[1].content)
    ensures docs[1].title != [] && IsUpper(docs[1].title[0])
  {
    ResearchNotFirst({"using", "llms", "to", "build", "knowledge", "graphs"});
  }

  lemma ResearchNotFirst(s0: set<string>)
    requires s0 == {"using", "llms", "to", "build", "knowledge", "graphs"}
    ensures "research" !in s0
  {
    assert forall w :: w in s0 ==> |w| != |"research"|;
  }

  /** `main()` of the knowledge-graph example: the one document related
      to "research" is "Research Agents". */
  method KnowledgeGraphExample() returns (related: seq<string>)
    ensures related == ["Research Agents"]
  {
    var docs := ExampleDocs();
    ExampleTokens0();
    ExampleTokens1();
    ExampleFacts(docs);
    var agent := new KnowledgeGraphAgent(KeywordType);
    EmptyViewOf();
    agent.Ingest(docs);
    related := agent.Query("research");
    forall n ensures n in related <==> n == "Research Agents" {
      NeighbourAfterIngest(docs, KeywordType, "research", n);
      SecondOnly(docs, KeywordType, "research", n);
    }
    Single(related, "Research Agents");
  }

  // ---------------------------------------------------------------------
  // examples/use_cases/use_case_06/main.py

  function GrantDocs(): seq<Document> {
    [Document("Funding Strategies", Join(["grant", "writing", "research"], " ")),
     Document("Knowledge Graph Benefits", Join(["knowledge", "graph", "research"], " "))]
  }

  lemma GrantTokens0()
    ensures Tokens(GrantDocs()[0].content) == {"grant", "writing", "research"}
  {
    Grant0Words();
    Grant0Set();
    TokensOfJoin(["grant", "writing", "research"], {"grant", "writing", "research"});
  }

  lemma Grant0Words()
    ensures PlainWords(["grant", "writing", "research"])
  {
  }

  lemma Grant0Set()
    ensures (set w | w in ["grant", "writing", "research"]) == {"grant", "writing", "research"}
  {
  }

  lemma GrantTokens1()
    ensures Tokens(GrantDocs()[1].content) == {"knowledge", "graph", "research"}
  {
    Grant1Words();
    Grant1Set();
    TokensOfJoin(["knowledge", "graph", "research"], {"knowledge", "graph", "research"});
  }

  lemma Grant1Words()
    ensures PlainWords(["knowledge", "graph", "research"])
  {
  }

  lemma Grant1Set()
    ensures (set w | w in ["knowledge", "graph", "research"]) == {"knowledge", "graph", "research"}
  {
  }

  /** "research" is a token of both documents and neither title. */
  lemma GrantFacts(docs: seq<Document>)
    requires |docs| == 2
    requires docs[0].title == "Funding Strategies" && Tokens(docs[0].content) == {"grant", "writing", "research"}
    requires docs[1].title == "Knowledge Graph Benefits" && Tokens(docs[1].content) == {"knowledge", "graph", "research"}
    ensures "research" != docs[0].title && "research" in Tokens(docs[0].content)
    ensures "research" != docs[1].title && "research" in Tokens(docs[1].content)
    ensures docs[0].title != [] && IsUpper(docs[0].title[0])
    ensures docs[1].title != [] && IsUpper(docs[1].title[0])
    ensures docs[0].title != docs[1].title
  {
  }

  lemma TitledOtherwise(docs: seq<Document>, k: string)
    requires |docs| == 2 && docs[0].title != k && docs[1].title != k
    ensures NoTitle(docs, k)
  {
  }

  /** Two documents with different titles that both mention `k`: the
      titles join the neighbours of `k` in document order. */
  lemma BothMention(docs: seq<Document>, k: string)
    requires |docs| == 2 && docs[0].title != docs[1].title
    requires k in Tokens(docs[0].content) && k in Tokens(docs[1].content)
    ensures TitlesMentioning([], docs, k) == [docs[0].title, docs[1].title]
  {
    var first := docs[..1];
    assert first[..0] == [] && first[0] == docs[0];
    assert TitlesMentioning([], first, k) == [docs[0].title];
    assert docs[..|docs| - 1] == first;
  }

  /** `main()` of use case 6: both titles mention "research", so both are
      references for it, in the order the documents were ingested. */
  method GrantProposalExample() returns (references: seq<string>)
    ensures references == ["Funding Strategies", "Knowledge Graph Benefits"]
  {
    var docs := GrantDocs();
    GrantTokens0();
    GrantTokens1();
    GrantFacts(docs);
    var agent := new KnowledgeGraphAgent(KeywordType);
    EmptyViewOf();
    agent.Ingest(docs);
    TitledOtherwise(docs, "research");
    BothMention(docs, "research");
    assert Adjacent(agent.graph.Value(), "research") == ["Funding Strategies", "Knowledge Graph Benefits"];
    references := agent.Query("research");
    forall n ensures n in references <==> n == "Funding Strategies" || n == "Knowledge Graph Benefits" {
      NeighbourAfterIngest(docs, KeywordType, "research", n);
      BothLink(docs, KeywordType, "research", n);
    }
    assert "Funding Strategies" in references && "Knowledge Graph Benefits" in references;
    OfTypeTwo(agent.graph.Value(), "Funding Strategies", "Knowledge Graph Benefits", DocumentType);
  }

  // ---------------------------------------------------------------------
  // project/examples/use_cases/use_case_05/src/main.py

  function MethodDocs(): seq<Document> {
    [Document("Image Classification", Join(["use", "cnn", "and", "torch"], " ")),
     Document("Graph Analysis", Join(["apply", "networkx", "and", "centrality"], " "))]
  }

  lemma MethodTokens0()
    ensures Tokens(MethodDocs()[0].content) == {"use", "cnn", "and", "torch"}
  {
    Method0Words();
    Method0Set();
    TokensOfJoin(["use", "cnn", "and", "torch"], {"use", "cnn", "and", "torch"});
  }

  lemma Method0Words()
    ensures PlainWords(["use", "cnn", "and", "torch"])
  {
  }

  lemma Method0Set()
    ensures (set w | w in ["use", "cnn", "and", "torch"]) == {"use", "cnn", "and", "torch"}
  {
  }

  lemma MethodTokens1()
    ensures Tokens(MethodDocs()[1].content) == {"apply", "networkx", "and", "centrality"}
  {
    Method1Words();
    Method1Set();
    TokensOfJoin(["apply", "networkx", "and", "centrality"], {"apply", "networkx", "and", "centrality"});
  }

  lemma Method1Words()
    ensures PlainWords(["apply", "networkx", "and", "centrality"])
  {
  }

  lemma Method1Set()
    ensures (set w | w in ["apply", "networkx", "and", "centrality"]) == {"apply", "networkx", "and", "centrality"}
  {
  }

  const SuggestedMethods: seq<string> := ["and", "apply", "centrality", "cnn", "networkx", "torch", "use"]

  /** The tokens of the two documents are the suggested methods, and both
      titles are capitalised. */
  lemma MethodFacts(docs: seq<Document>, n: string)
    requires |docs| == 2
    requires docs[0].title == "Image Classification" && Tokens(docs[0].content) == {"use", "cnn", "and", "torch"}
    requires docs[1].title == "Graph Analysis" && Tokens(docs[1].content) == {"apply", "networkx", "and", "centrality"}
    ensures n in Tokens(docs[0].content) || n in Tokens(docs[1].content) <==> n in SuggestedMethods
    ensures docs[0].title != [] && IsUpper(docs[0].title[0])
    ensures docs[1].title != [] && IsUpper(docs[1].title[0])
  {
  }

  lemma SuggestedSorted()
    ensures StrictlySorted(SuggestedMethods)
  {
  }

  /** `main()` of use case 5: the suggested methods, sorted. */
  method ExperimentDesignExample() returns (methods: seq<string>)
    ensures methods == SuggestedMethods
  {
    var docs := MethodDocs();
    MethodTokens0();
    MethodTokens1();
    var agent := new KnowledgeGraphAgent(MethodType);
    EmptyViewOf();
    agent.Ingest(docs);
    methods := agent.RecommendMethods();
    forall n ensures n in methods <==> n in SuggestedMethods {
      TypedAfterIngest(docs, MethodType, MethodType, n);
      MethodFacts(docs, n);
      TokenTyped(docs, MethodType, n);
    }
    SuggestedSorted();
    SortedUnique(methods, SuggestedMethods);
  }
}
