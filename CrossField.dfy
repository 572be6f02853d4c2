/** Use case 10, interdisciplinary connection finder (`ConnectionAgent`
    of examples/use_cases/use_case_10/src/main.py): `ingest` adds every
    title with its field as an attribute, adds the field as a node typed
    "field" and links the two; `cross_field_links` lists every ordered
    pair of different non-field nodes whose "field" attributes differ. */
module CrossField {
  import opened Wrappers
  import opened Graphs
  import opened GraphSteps
  import opened NeighbourOrder

  datatype Document = Document(title: string, content: string, field: string)

  const FieldType: string := "field"

  /** `add_node(doc.title, field=doc.field)`,
      `add_node(doc.field, type="field")`,
      `add_edge(doc.title, doc.field)`. */
  function Filed(d: Document): Step {
    Step(d.title, map["field" := d.field], d.field, map["type" := FieldType])
  }

  /** `data.get("type") == "field"`. */
  function IsField(attrs: map<string, Attrs>, n: string): bool {
    Lookup(attrs, n, "type") == Some(FieldType)
  }

  /** Every node is a field node or carries a "field", so
      `data["field"]` never raises on a node that is not a field. */
  ghost predicate Fielded(attrs: map<string, Attrs>) {
    forall n :: n in attrs ==> IsField(attrs, n) || "field" in attrs[n]
  }

  /** Some document names `n` as its field. */
  predicate FieldOf(docs: seq<Document>, n: string) {
    exists i :: 0 <= i < |docs| && docs[i].field == n
  }

  /** The field of the last document titled `n`, if any. */
  function LastField(docs: seq<Document>, n: string): Option<string>
    decreases |docs|
  {
    if docs == [] then None
    else if docs[|docs| - 1].title == n then Some(docs[|docs| - 1].field)
    else LastField(docs[..|docs| - 1], n)
  }

  lemma FieldOfSnoc(docs: seq<Document>, n: string)
    requires docs != []
    ensures FieldOf(docs, n) <==> FieldOf(docs[..|docs| - 1], n) || docs[|docs| - 1].field == n
  {
    var prefix := docs[..|docs| - 1];
    if FieldOf(docs, n) && docs[|docs| - 1].field != n {
      var i :| 0 <= i < |docs| && docs[i].field == n;
      assert prefix[i] == docs[i];
    }
    if FieldOf(prefix, n) {
      var i :| 0 <= i < |prefix| && prefix[i].field == n;
      assert docs[i] == prefix[i];
    }
  }

  /** "type" is only ever written as "field", on field names; "field" is
      written on titles by the last document with that title; no other
      key is written. */
  lemma {:induction false} FiledWrites(docs: seq<Document>, n: string, k: string)
    ensures LastWrite(docs, Filed, n, k) ==
      if k == "type" && FieldOf(docs, n) then Some(FieldType)
      else if k == "field" then LastField(docs, n)
      else None
    decreases |docs|
  {
    if docs != [] {
      FiledWrites(docs[..|docs| - 1], n, k);
      FieldOfSnoc(docs, n);
    }
  }

  /** After `ingest(docs)`: the edges are the old ones and one between the
      title and the field of every document; every title and field is a
      node; a field name is typed "field"; a title's "field" is that of
      its last document; everything else keeps its old value. */
  lemma IngestResult(g: GraphValue, docs: seq<Document>, x: string, y: string, k: string)
    requires WellFormed(g)
    ensures var r := AllAttached(g, docs, Filed);
      && (HasEdge(r, x, y) <==> HasEdge(g, x, y) || Joined(docs, Filed, x, y))
      && (x in r.attrs <==> x in g.attrs || Mentioned(docs, Filed, x))
      && Lookup(r.attrs, x, k) ==
           if k == "type" && FieldOf(docs, x) then Some(FieldType)
           else if k == "field" && LastField(docs, x).Some? then LastField(docs, x)
           else Lookup(g.attrs, x, k)
  {
    AllAttachedEdge(g, docs, Filed, x, y);
    AllAttachedNode(g, docs, Filed, x);
    AllAttachedAttrs(g, docs, Filed, x, k);
    FiledWrites(docs, x, k);
  }

  /** Every document's title is linked to its field, and the field is a
      field node. */
  lemma EveryDocumentFiled(g: GraphValue, docs: seq<Document>, i: nat)
    requires WellFormed(g) && i < |docs|
    ensures var r := AllAttached(g, docs, Filed);
      && HasEdge(r, docs[i].title, docs[i].field) && HasEdge(r, docs[i].field, docs[i].title)
      && IsField(r.attrs, docs[i].field)
  {
    assert Filed(docs[i]).a == docs[i].title && Filed(docs[i]).b == docs[i].field;
    AllAttachedEdge(g, docs, Filed, docs[i].title, docs[i].field);
    AllAttachedEdge(g, docs, Filed, docs[i].field, docs[i].title);
    assert FieldOf(docs, docs[i].field);
    IngestResult(g, docs, docs[i].field, docs[i].field, "type");
  }

  /** One document's `add_node` calls keep every node a field or fielded. */
  lemma FiledFielded(attrs: map<string, Attrs>, d: Document)
    requires Fielded(attrs)
    ensures Fielded(Merge(Merge(attrs, d.title, map["field" := d.field]), d.field, map["type" := FieldType]))
  {
    var m1 := Merge(attrs, d.title, map["field" := d.field]);
    var m2 := Merge(m1, d.field, map["type" := FieldType]);
    forall n | n in m2 ensures IsField(m2, n) || "field" in m2[n] {
      if n == d.field {
        assert IsField(m2, n);
      } else if n == d.title {
        assert m2[n] == m1[n];
      } else {
        assert m2[n] == attrs[n];
      }
    }
  }

  // ---------------------------------------------------------------------
  // `cross_field_links`

  /** The inner test: `doc2` is not a field, is not `doc1`, and the two
      "field" attributes differ (both are present wherever the loops
      read them: `Fielded`). */
  function Paired(attrs: map<string, Attrs>, doc1: string, doc2: string): bool {
    !IsField(attrs, doc2) && doc1 != doc2 && Lookup(attrs, doc1, "field") != Lookup(attrs, doc2, "field")
  }

  /** What the inner loop appends for `doc2`. */
  function Hit(attrs: map<string, Attrs>, doc1: string, doc2: string): seq<(string, string)> {
    if Paired(attrs, doc1, doc2) then [(doc1, doc2)] else []
  }

  /** The pairs the inner loop appends for `doc1` while it walks `s`. */
  function Row(attrs: map<string, Attrs>, doc1: string, s: seq<string>): seq<(string, string)>
    decreases |s|
  {
    if s == [] then [] else Row(attrs, doc1, s[..|s| - 1]) + Hit(attrs, doc1, s[|s| - 1])
  }

  /** What the outer loop appends for `doc1`: nothing for a field. */
  function RowOf(attrs: map<string, Attrs>, doc1: string, all: seq<string>): seq<(string, string)> {
    if IsField(attrs, doc1) then [] else Row(attrs, doc1, all)
  }

  /** The pairs both loops append while the outer one walks `outer`. */
  function Rows(attrs: map<string, Attrs>, outer: seq<string>, all: seq<string>): seq<(string, string)>
    decreases |outer|
  {
    if outer == [] then [] else Rows(attrs, outer[..|outer| - 1], all) + RowOf(attrs, outer[|outer| - 1], all)
  }

  /** The pairs of `Row` are `doc1` with each node of `s` it is paired
      with. */
  lemma {:induction false} RowMember(attrs: map<string, Attrs>, doc1: string, s: seq<string>, p: (string, string))
    ensures p in Row(attrs, doc1, s) <==> p.0 == doc1 && p.1 in s && Paired(attrs, doc1, p.1)
    decreases |s|
  {
    if s != [] {
      var init := s[..|s| - 1];
      RowMember(attrs, doc1, init, p);
      assert forall n :: n in s <==> n in init || n == s[|s| - 1] by {
        assert s == init + [s[|s| - 1]];
      }
    }
  }

  /** The pairs of `Rows` are those of the rows of its non-field nodes. */
  lemma {:induction false} RowsMember(attrs: map<string, Attrs>, outer: seq<string>, all: seq<string>, p: (string, string))
    ensures p in Rows(attrs, outer, all) <==>
      p.0 in outer && !IsField(attrs, p.0) && p.1 in all && Paired(attrs, p.0, p.1)
    decreases |outer|
  {
    if outer != [] {
      var init := outer[..|outer| - 1];
      var doc1 := outer[|outer| - 1];
      RowsMember(attrs, init, all, p);
      assert forall n :: n in outer <==> n in init || n == doc1 by {
        assert outer == init + [doc1];
      }
      RowMember(attrs, doc1, all, p);
    }
  }

  /** `cross_field_links()` over the nodes in insertion order. */
  function Links(attrs: map<string, Attrs>, nodes: seq<string>): seq<(string, string)> {
    Rows(attrs, nodes, nodes)
  }

  /** A pair is listed exactly when both ends are nodes, neither is a
      field, they are different and their fields differ. */
  lemma LinksMember(attrs: map<string, Attrs>, nodes: seq<string>, a: string, b: string)
    requires Fielded(attrs) && forall n :: n in nodes ==> n in attrs
    ensures (a, b) in Links(attrs, nodes) <==>
      && a in nodes && b in nodes && a != b
      && !IsField(attrs, a) && !IsField(attrs, b)
      && attrs[a]["field"] != attrs[b]["field"]
  {
    RowsMember(attrs, nodes, nodes, (a, b));
  }

  /** The list is symmetric: `(a, b)` is in it exactly when `(b, a)` is. */
  lemma LinksSymmetric(attrs: map<string, Attrs>, nodes: seq<string>, a: string, b: string)
    requires Fielded(attrs) && forall n :: n in nodes ==> n in attrs
    ensures (a, b) in Links(attrs, nodes) <==> (b, a) in Links(attrs, nodes)
  {
    LinksMember(attrs, nodes, a, b);
    LinksMember(attrs, nodes, b, a);
  }

  /** When every document node has the same field, nothing is listed. */
  lemma OneField(attrs: map<string, Attrs>, nodes: seq<string>, f: string)
    requires Fielded(attrs) && forall n :: n in nodes ==> n in attrs
    requires forall n :: n in nodes && !IsField(attrs, n) ==> attrs[n]["field"] == f
    ensures Links(attrs, nodes) == []
  {
    var links := Links(attrs, nodes);
    if links != [] {
      LinksMember(attrs, nodes, links[0].0, links[0].1);
      assert false;
    }
  }

  /** One more node of `s` adds its pair, if any, to the end of the row. */
  lemma RowSnoc(attrs: map<string, Attrs>, doc1: string, s: seq<string>, j: nat)
    requires j < |s|
    ensures Row(attrs, doc1, s[..j + 1]) == Row(attrs, doc1, s[..j]) + Hit(attrs, doc1, s[j])
  {
    assert s[..j + 1][..j] == s[..j];
  }

  /** One more outer node adds its row, if it is not a field. */
  lemma RowsSnoc(attrs: map<string, Attrs>, outer: seq<string>, all: seq<string>, i: nat)
    requires i < |outer|
    ensures Rows(attrs, outer[..i + 1], all) == Rows(attrs, outer[..i], all) + RowOf(attrs, outer[i], all)
  {
    assert outer[..i + 1][..i] == outer[..i];
  }

  /** The inner loop of `cross_field_links` for a non-field `doc1`:
      append `(doc1, doc2)` for every node `doc2`, in order, that is not
      a field, is not `doc1` and has another field. */
  method AppendRow(links: seq<(string, string)>, attrs: map<string, Attrs>, doc1: string, nodes: seq<string>)
    returns (out: seq<(string, string)>)
    requires Fielded(attrs) && doc1 in attrs && !IsField(attrs, doc1)
    requires forall n :: n in nodes ==> n in attrs
    ensures out == links + Row(attrs, doc1, nodes)
  {
    out := links;
    for j := 0 to |nodes|
      invariant out == links + Row(attrs, doc1, nodes[..j])
    {
      var doc2 := nodes[j];
      RowSnoc(attrs, doc1, nodes, j);
      if !(IsField(attrs, doc2) || doc1 == doc2) && attrs[doc1]["field"] != attrs[doc2]["field"] {
        out := out + [(doc1, doc2)];
      }
    }
    assert nodes[..|nodes|] == nodes;
  }

  class ConnectionAgent {
    const graph: Graph

    ghost predicate Valid()
      reads this, graph
    {
      graph.Valid() && Fielded(graph.attrs)
    }

    constructor ()
      ensures Valid() && fresh(graph) && graph.Value() == EmptyGraph
    {
      graph := new Graph();
    }

    /** `ingest(docs)`: per document, two `add_node`s and an `add_edge`. */
    method Ingest(docs: seq<Document>)
      requires Valid()
      modifies graph
      ensures Valid()
      ensures graph.Value() == AllAttached(old(graph.Value()), docs, Filed)
    {
      ghost var g0 := graph.Value();
      for i := 0 to |docs|
        invariant Valid()
        invariant graph.Value() == AllAttached(g0, docs[..i], Filed)
      {
        AddDocument(docs[i]);
        AllAttachedSnoc(g0, docs, Filed, i);
      }
      assert docs[..|docs|] == docs;
    }

    /** The loop body of `ingest`. */
    method AddDocument(doc: Document)
      requires Valid()
      modifies graph
      ensures Valid()
      ensures graph.Value() == Attached(old(graph.Value()), Filed(doc))
    {
      ghost var g := graph.Value();
      FiledFielded(graph.attrs, doc);
      graph.AddNode(doc.title, map["field" := doc.field]);
      ghost var g1 := graph.Value();
      graph.AddNode(doc.field, map["type" := FieldType]);
      ghost var g2 := graph.Value();
      graph.AddEdge(doc.title, doc.field);
      assert g1 == NodeAdded(g, doc.title, map["field" := doc.field]);
      assert g2 == NodeAdded(g1, doc.field, map["type" := FieldType]);
      assert graph.Value() == EdgeAdded(g2, doc.title, doc.field);
    }

    /** `cross_field_links()`: for every non-field node in insertion
        order, every other non-field node with a different field, in
        insertion order. */
    method CrossFieldLinks() returns (links: seq<(string, string)>)
      requires Valid()
      ensures links == Links(graph.attrs, graph.nodes)
    {
      var nodes := graph.nodes;
      var attrs := graph.attrs;
      assert Fielded(attrs) && forall n :: n in nodes ==> n in attrs;
      links := [];
      for i := 0 to |nodes|
        invariant links == Rows(attrs, nodes[..i], nodes)
      {
        var doc1 := nodes[i];
        RowsSnoc(attrs, nodes, nodes, i);
        if !IsField(attrs, doc1) {
          links := AppendRow(links, attrs, doc1, nodes);
        }
      }
      assert nodes[..|nodes|] == nodes;
    }
  }

  /** A row over four nodes is the four hits in order. */
  lemma RowOfFour(attrs: map<string, Attrs>, doc1: string, s: seq<string>)
    requires |s| == 4
    ensures Row(attrs, doc1, s) ==
      Hit(attrs, doc1, s[0]) + Hit(attrs, doc1, s[1]) + Hit(attrs, doc1, s[2]) + Hit(attrs, doc1, s[3])
  {
    var h0, h1, h2, h3 := Hit(attrs, doc1, s[0]), Hit(attrs, doc1, s[1]), Hit(attrs, doc1, s[2]), Hit(attrs, doc1, s[3]);
    assert Row(attrs, doc1, s[..1]) == h0 by {
      RowSnoc(attrs, doc1, s, 0);
      assert s[..0] == [];
    }
    assert Row(attrs, doc1, s[..2]) == h0 + h1 by {
      RowSnoc(attrs, doc1, s, 1);
    }
    assert Row(attrs, doc1, s[..3]) == h0 + h1 + h2 by {
      RowSnoc(attrs, doc1, s, 2);
    }
    assert Row(attrs, doc1, s[..4]) == h0 + h1 + h2 + h3 by {
      RowSnoc(attrs, doc1, s, 3);
    }
    assert s[..4] == s;
  }

  /** Both loops over four nodes are the four rows in order. */
  lemma RowsOfFour(attrs: map<string, Attrs>, all: seq<string>)
    requires |all| == 4
    ensures Rows(attrs, all, all) ==
      RowOf(attrs, all[0], all) + RowOf(attrs, all[1], all) + RowOf(attrs, all[2], all) + RowOf(attrs, all[3], all)
  {
    var r0, r1, r2, r3 := RowOf(attrs, all[0], all), RowOf(attrs, all[1], all), RowOf(attrs, all[2], all), RowOf(attrs, all[3], all);
    assert Rows(attrs, all[..1], all) == r0 by {
      RowsSnoc(attrs, all, all, 0);
      assert all[..0] == [];
    }
    assert Rows(attrs, all[..2], all) == r0 + r1 by {
      RowsSnoc(attrs, all, all, 1);
    }
    assert Rows(attrs, all[..3], all) == r0 + r1 + r2 by {
      RowsSnoc(attrs, all, all, 2);
    }
    assert Rows(attrs, all[..4], all) == r0 + r1 + r2 + r3 by {
      RowsSnoc(attrs, all, all, 3);
    }
    assert all[..4] == all;
  }

  /** Two documents with different titles and different fields, no title
      naming a field, from an empty graph. */
  predicate ApartPair(docs: seq<Document>) {
    && |docs| == 2
    && docs[0].title != docs[1].title && docs[0].field != docs[1].field
    && docs[0].title != docs[0].field && docs[0].title != docs[1].field
    && docs[1].title != docs[0].field && docs[1].title != docs[1].field
  }

  lemma FreshMerges(a0: string, b0: string, a1: string, b1: string, x0: string, x1: string)
    requires a0 != b0 && a0 != a1 && a0 != b1 && b0 != a1 && b0 != b1 && a1 != b1
    ensures Merge(Merge(Merge(Merge(map[], a0, map["field" := x0]), b0, map["type" := FieldType]), a1, map["field" := x1]), b1, map["type" := FieldType]) ==
      map[a0 := map["field" := x0], b0 := map["type" := FieldType], a1 := map["field" := x1], b1 := map["type" := FieldType]]
  {
    var m1 := Merge(map[], a0, map["field" := x0]);
    assert m1 == map[a0 := map["field" := x0]];
    var m2 := Merge(m1, b0, map["type" := FieldType]);
    assert m2 == m1[b0 := map["type" := FieldType]];
    var m3 := Merge(m2, a1, map["field" := x1]);
    assert m3 == m2[a1 := map["field" := x1]];
    assert b1 !in m3;
  }

  /** The graph two such documents build: the title and field of the first,
      then those of the second. */
  lemma ApartGraph(docs: seq<Document>)
    requires ApartPair(docs)
    ensures var r := AllAttached(EmptyGraph, docs, Filed);
      && r.nodes == [docs[0].title, docs[0].field, docs[1].title, docs[1].field]
      && r.attrs == map[docs[0].title := map["field" := docs[0].field], docs[0].field := map["type" := FieldType],
                        docs[1].title := map["field" := docs[1].field], docs[1].field := map["type" := FieldType]]
  {
    TwoApart(EmptyGraph, docs, Filed);
    TwoAttrs(EmptyGraph, docs, Filed);
    FreshMerges(docs[0].title, docs[0].field, docs[1].title, docs[1].field, docs[0].field, docs[1].field);
  }

  /** On that graph the two titles are linked both ways, the first title's
      pair first. */
  lemma ApartLinks(attrs: map<string, Attrs>, a0: string, b0: string, a1: string, b1: string)
    requires a0 != b0 && a0 != a1 && a0 != b1 && b0 != a1 && b0 != b1 && a1 != b1
    requires attrs == map[a0 := map["field" := b0], b0 := map["type" := FieldType], a1 := map["field" := b1], b1 := map["type" := FieldType]]
    requires Fielded(attrs)
    ensures Links(attrs, [a0, b0, a1, b1]) == [(a0, a1), (a1, a0)]
  {
    assert IsField(attrs, b0) && IsField(attrs, b1) && !IsField(attrs, a0) && !IsField(attrs, a1);
    var nodes := [a0, b0, a1, b1];
    RowsOfFour(attrs, nodes);
    RowOfFour(attrs, a0, nodes);
    RowOfFour(attrs, a1, nodes);
  }

  /** `main()`: the two documents are in different fields, so each is
      paired with the other. */
  method CrossFieldExample() returns (links: seq<(string, string)>)
    ensures links == [("Graph Mining", "Protein Analysis"), ("Protein Analysis", "Graph Mining")]
  {
    var docs := [Document("Graph Mining", "techniques", "Computer Science"), Document("Protein Analysis", "biology", "Biology")];
    ApartGraph(docs);
    var agent := new ConnectionAgent();
    agent.Ingest(docs);
    links := agent.CrossFieldLinks();
    ApartLinks(agent.graph.attrs, "Graph Mining", "Computer Science", "Protein Analysis", "Biology");
  }
}
