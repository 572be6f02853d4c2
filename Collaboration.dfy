/** Use case 7, collaboration network mapping (`CollaborationAgent` of
    project/examples/use_cases/use_case_07/src/main.py): `ingest` adds the
    researcher and the institution of every record, typed by role, and
    links them; `find_institutions` lists the institution-typed
    neighbours of a researcher. */
module Collaboration {
  import opened Wrappers
  import opened Graphs
  import opened GraphSteps
  import opened NeighbourOrder

  datatype Collaboration = Collaboration(researcher: string, institution: string)

  const ResearcherType: string := "researcher"
  const InstitutionType: string := "institution"

  /** `add_node(rec.researcher, type="researcher")`,
      `add_node(rec.institution, type="institution")`,
      `add_edge(rec.researcher, rec.institution)`. */
  function Recorded(rec: Collaboration): Step {
    Step(rec.researcher, map["type" := ResearcherType], rec.institution, map["type" := InstitutionType])
  }

  /** The role a name was given last: within one record the institution
      is written after the researcher. */
  function LastRole(recs: seq<Collaboration>, n: string): Option<string>
    decreases |recs|
  {
    if recs == [] then None
    else
      var rec := recs[|recs| - 1];
      if n == rec.institution then Some(InstitutionType)
      else if n == rec.researcher then Some(ResearcherType)
      else LastRole(recs[..|recs| - 1], n)
  }

  /** The "type" written last on a name is its last role, and no other
      key is ever written. */
  lemma {:induction false} RoleWrites(recs: seq<Collaboration>, n: string, k: string)
    ensures LastWrite(recs, Recorded, n, k) == if k == "type" then LastRole(recs, n) else None
    decreases |recs|
  {
    if recs != [] {
      RoleWrites(recs[..|recs| - 1], n, k);
    }
  }

  /** After `ingest(recs)`: the edges are the old ones and one between the
      researcher and the institution of every record; every name in a
      record is a node whose "type" is its last role; nothing else
      changes. */
  lemma IngestResult(g: GraphValue, recs: seq<Collaboration>, x: string, y: string, k: string)
    requires WellFormed(g)
    ensures var r := AllAttached(g, recs, Recorded);
      && (HasEdge(r, x, y) <==> HasEdge(g, x, y) || Joined(recs, Recorded, x, y))
      && (x in r.attrs <==> x in g.attrs || Mentioned(recs, Recorded, x))
      && Lookup(r.attrs, x, k) == if k == "type" && LastRole(recs, x).Some? then LastRole(recs, x) else Lookup(g.attrs, x, k)
  {
    AllAttachedEdge(g, recs, Recorded, x, y);
    AllAttachedNode(g, recs, Recorded, x);
    AllAttachedAttrs(g, recs, Recorded, x, k);
    RoleWrites(recs, x, k);
  }

  /** Every record's researcher and institution are neighbours. */
  lemma EveryRecordLinked(g: GraphValue, recs: seq<Collaboration>, i: nat)
    requires WellFormed(g) && i < |recs|
    ensures var r := AllAttached(g, recs, Recorded);
      HasEdge(r, recs[i].researcher, recs[i].institution) && HasEdge(r, recs[i].institution, recs[i].researcher)
  {
    assert Recorded(recs[i]).a == recs[i].researcher && Recorded(recs[i]).b == recs[i].institution;
    AllAttachedEdge(g, recs, Recorded, recs[i].researcher, recs[i].institution);
    AllAttachedEdge(g, recs, Recorded, recs[i].institution, recs[i].researcher);
  }

  /** A record seen before adds no node and no edge. */
  lemma RepeatedRecord(g: GraphValue, recs: seq<Collaboration>)
    requires WellFormed(g) && recs != [] && recs[|recs| - 1] in recs[..|recs| - 1]
    ensures var prev := AllAttached(g, recs[..|recs| - 1], Recorded);
      AllAttached(g, recs, Recorded).nodes == prev.nodes && AllAttached(g, recs, Recorded).adj == prev.adj
  {
    var prefix := recs[..|recs| - 1];
    var i :| 0 <= i < |prefix| && prefix[i] == recs[|recs| - 1];
    EveryRecordLinked(g, prefix, i);
    RepeatAddsNothing(AllAttached(g, prefix, Recorded), Recorded(recs[|recs| - 1]));
  }

  /** `ingest` types both ends of every record, so every node stays typed. */
  lemma RecordTyped(attrs: map<string, Attrs>, rec: Collaboration)
    requires AllTyped(attrs)
    ensures AllTyped(Merge(Merge(attrs, rec.researcher, map["type" := ResearcherType]), rec.institution, map["type" := InstitutionType]))
  {
    MergeTyped(attrs, rec.researcher, map["type" := ResearcherType]);
    MergeTyped(Merge(attrs, rec.researcher, map["type" := ResearcherType]), rec.institution, map["type" := InstitutionType]);
  }

  class CollaborationAgent {
    const graph: Graph

    /** Every node is typed, so `G.nodes[n]["type"]` never raises. */
    ghost predicate Valid()
      reads this, graph
    {
      graph.Valid() && AllTyped(graph.attrs)
    }

    constructor ()
      ensures Valid() && fresh(graph) && graph.Value() == EmptyGraph
    {
      graph := new Graph();
    }

    /** `ingest(records)`: per record, two `add_node`s and an `add_edge`. */
    method Ingest(records: seq<Collaboration>)
      requires Valid()
      modifies graph
      ensures Valid()
      ensures graph.Value() == AllAttached(old(graph.Value()), records, Recorded)
    {
      ghost var g0 := graph.Value();
      for i := 0 to |records|
        invariant Valid()
        invariant graph.Value() == AllAttached(g0, records[..i], Recorded)
      {
        AddRecord(records[i]);
        AllAttachedSnoc(g0, records, Recorded, i);
      }
      assert records[..|records|] == records;
    }

    /** The loop body of `ingest`. */
    method AddRecord(rec: Collaboration)
      requires Valid()
      modifies graph
      ensures Valid()
      ensures graph.Value() == Attached(old(graph.Value()), Recorded(rec))
    {
      ghost var g := graph.Value();
      RecordTyped(graph.attrs, rec);
      graph.AddNode(rec.researcher, map["type" := ResearcherType]);
      ghost var g1 := graph.Value();
      graph.AddNode(rec.institution, map["type" := InstitutionType]);
      ghost var g2 := graph.Value();
      graph.AddEdge(rec.researcher, rec.institution);
      assert g1 == NodeAdded(g, rec.researcher, map["type" := ResearcherType]);
      assert g2 == NodeAdded(g1, rec.institution, map["type" := InstitutionType]);
      assert graph.Value() == EdgeAdded(g2, rec.researcher, rec.institution);
    }

    /** `find_institutions(researcher)`: nothing for a name that is not a
        node; otherwise its institution-typed neighbours, each once, in the
        order of its adjacency list. */
    function FindInstitutions(researcher: string): (r: seq<string>)
      reads this, graph
      requires Valid()
      ensures researcher !in graph.attrs ==> r == []
      ensures forall n :: n in r <==> HasEdge(graph.Value(), researcher, n) && graph.attrs[n]["type"] == InstitutionType
      ensures Distinct(r)
    {
      if researcher !in graph.adj then []
      else OfType(graph.Value(), graph.adj[researcher], InstitutionType)
    }
  }

  /** Three records, the first and last for the same researcher, the
      middle one naming neither that researcher nor those institutions:
      the researcher's neighbours are the two institutions, in record
      order. */
  lemma ThreeRecords(recs: seq<Collaboration>)
    requires |recs| == 3
    requires recs[0].researcher == recs[2].researcher
    requires recs[1].researcher != recs[0].researcher && recs[1].institution != recs[0].researcher
    requires recs[0].institution != recs[0].researcher && recs[2].institution != recs[0].researcher
    requires recs[0].institution != recs[2].institution
    ensures var r := AllAttached(EmptyGraph, recs, Recorded);
      recs[0].researcher in r.adj && r.adj[recs[0].researcher] == [recs[0].institution, recs[2].institution]
  {
    ReturningEnd(recs, Recorded, recs[0].researcher);
  }

  /** In the same three records both institutions are typed
      "institution" last. */
  lemma ThreeRoles(recs: seq<Collaboration>)
    requires |recs| == 3
    requires recs[0].institution != recs[1].researcher && recs[0].institution != recs[2].researcher
    requires recs[0].institution != recs[2].institution
    ensures var r := AllAttached(EmptyGraph, recs, Recorded);
      && Lookup(r.attrs, recs[0].institution, "type") == Some(InstitutionType)
      && Lookup(r.attrs, recs[2].institution, "type") == Some(InstitutionType)
  {
    InstitutionRoles(recs);
    IngestResult(EmptyGraph, recs, recs[0].institution, recs[0].institution, "type");
    IngestResult(EmptyGraph, recs, recs[2].institution, recs[2].institution, "type");
  }

  lemma InstitutionRoles(recs: seq<Collaboration>)
    requires |recs| == 3
    requires recs[0].institution != recs[1].researcher && recs[0].institution != recs[2].researcher
    requires recs[0].institution != recs[2].institution
    ensures LastRole(recs, recs[0].institution) == Some(InstitutionType)
    ensures LastRole(recs, recs[2].institution) == Some(InstitutionType)
  {
    var first := recs[..1];
    var two := recs[..2];
    assert first[..0] == [] && first[0] == recs[0];
    assert LastRole(first, recs[0].institution) == Some(InstitutionType);
    assert two[..1] == first && two[1] == recs[1];
    assert LastRole(two, recs[0].institution) == Some(InstitutionType);
    assert recs[..2] == two;
  }

  /** For the same three records, `find_institutions` of the shared
      researcher lists the two institutions in record order. */
  lemma ThreeInstitutions(recs: seq<Collaboration>)
    requires |recs| == 3
    requires recs[0].researcher == recs[2].researcher
    requires recs[1].researcher != recs[0].researcher && recs[1].institution != recs[0].researcher
    requires recs[0].institution != recs[0].researcher && recs[2].institution != recs[0].researcher
    requires recs[0].institution != recs[1].researcher && recs[0].institution != recs[2].institution
    ensures var r := AllAttached(EmptyGraph, recs, Recorded);
      && recs[0].researcher in r.adj
      && (forall x :: x in r.adj[recs[0].researcher] ==> x in r.attrs && "type" in r.attrs[x])
      && OfType(r, r.adj[recs[0].researcher], InstitutionType) == [recs[0].institution, recs[2].institution]
  {
    ThreeRecords(recs);
    ThreeRoles(recs);
    TwoOfType(AllAttached(EmptyGraph, recs, Recorded), recs[0].researcher, recs[0].institution, recs[2].institution, InstitutionType);
  }

  lemma TwoOfType(g: GraphValue, a: string, x: string, y: string, t: string)
    requires a in g.adj && g.adj[a] == [x, y]
    requires Lookup(g.attrs, x, "type") == Some(t) && Lookup(g.attrs, y, "type") == Some(t)
    ensures forall n :: n in g.adj[a] ==> n in g.attrs && "type" in g.attrs[n]
    ensures OfType(g, g.adj[a], t) == [x, y]
  {
    assert [x, y][1..] == [y] && [y][1..] == [];
    assert OfType(g, [y], t) == [y] + OfType(g, [], t);
    assert OfType(g, [x, y], t) == [x] + OfType(g, [y], t);
  }

  /** `main()`: Alice's institutions, in the order her records came. */
  method CollaborationExample() returns (institutions: seq<string>)
    ensures institutions == ["University A", "Research Lab X"]
  {
    var recs := [Collaboration("Alice", "University A"), Collaboration("Bob", "University B"),
                 Collaboration("Alice", "Research Lab X")];
    var agent := new CollaborationAgent();
    agent.Ingest(recs);
    ThreeInstitutions(recs);
    institutions := agent.FindInstitutions("Alice");
  }
}
