/** The keyword knowledge-graph agent (`KnowledgeGraphAgent` of
    examples/knowledge_graph_example.py and use cases 1, 2, 3, 5 and 6):
    `ingest` makes each document title a node typed "document", links it
    to every distinct token of its lower-cased content and types those
    tokens; `query` (`collect_references` in use case 6) lists the
    document neighbours of a node; `suggest_new_links` lists keyword pairs
    without an edge; `recommend_methods` lists the method-typed nodes in
    sorted order.

    `ingest` walks a Python set, whose order depends on string hashes. The
    model picks tokens in an unspecified order and states its result on
    the order-free `View` of the graph, which is the same whatever order
    is taken. */
module KeywordGraph {
  import opened Wrappers
  import opened PyStrings
  import opened Graphs
  import opened GraphSteps

  datatype Document = Document(title: string, content: string)

  const DocumentType: string := "document"
  const KeywordType: string := "keyword"
  const MethodType: string := "method"

  lemma LowerSpace(s: string)
    ensures AllSpace(Lower(s)) <==> AllSpace(s)
  {
    var l := Lower(s);
    forall i | 0 <= i < |s| ensures IsSpace(l[i]) <==> IsSpace(s[i]) {
      if IsUpper(s[i]) {
        assert IsLetter(l[i]);
      }
    }
  }

  /** `set(content.lower().split())`: non-empty words without whitespace
      or upper-case letters; none at all for blank content. */
  function Tokens(content: string): (r: set<string>)
    ensures forall t :: t in r ==> t != [] && NoSpace(t) && forall c :: c in t ==> !IsUpper(c)
    ensures r == {} <==> AllSpace(content)
  {
    var words := Words(Lower(content));
    LowerSpace(content);
    assert words != [] ==> words[0] in words;
    forall t | t in words ensures forall c :: c in t ==> !IsUpper(c) {
      var k :| 0 <= k < |words| && words[k] == t;
      NoUpperInWord(Lower(content), k);
    }
    set w | w in words
  }

  /** A non-empty word without whitespace or upper-case letters. */
  predicate PlainWord(w: string) {
    w != [] && NoSpace(w) && NoUpper(w)
  }

  predicate PlainWords(ws: seq<string>) {
    ws == [] || (PlainWord(ws[0]) && PlainWords(ws[1..]))
  }

  lemma {:induction false} PlainWordsAt(ws: seq<string>)
    requires PlainWords(ws)
    ensures forall k :: 0 <= k < |ws| ==> PlainWord(ws[k])
    decreases |ws|
  {
    if ws != [] {
      PlainWordsAt(ws[1..]);
      forall k | 0 < k < |ws| ensures PlainWord(ws[k]) {
        assert ws[k] == ws[1..][k - 1];
      }
    }
  }

  /** The tokens of plain words joined by spaces are those words. */
  lemma TokensOfJoin(ws: seq<string>, s: set<string>)
    requires PlainWords(ws) && s == set w | w in ws
    ensures Tokens(Join(ws, " ")) == s
  {
    PlainWordsAt(ws);
    var s := Join(ws, " ");
    NoUpperJoin(ws, " ");
    assert Lower(s) == s;
    WordsJoin(ws);
  }

  /** A string that starts with an upper-case letter, such as every
      example title, is never a token. */
  lemma CapitalNotToken(s: string, content: string)
    requires s != [] && IsUpper(s[0])
    ensures s !in Tokens(content)
  {
    assert s[0] in s;
  }

  /** Words of a string without upper-case letters have none either. */
  lemma NoUpperInWord(s: string, k: nat)
    requires forall i :: 0 <= i < |s| ==> !IsUpper(s[i])
    requires k < |Words(s)|
    ensures forall c :: c in Words(s)[k] ==> !IsUpper(c)
  {
    WordsKeepNonSpace(s);
    ConcatMember(Words(s), k);
    forall c | c in Words(s)[k] ensures !IsUpper(c) {
      NonSpaceMember(s, c);
    }
  }

  lemma {:induction false} ConcatMember(ws: seq<string>, k: nat)
    requires k < |ws|
    ensures forall c :: c in ws[k] ==> c in Concat(ws)
    decreases |ws|
  {
    if k > 0 {
      ConcatMember(ws[1..], k - 1);
    }
  }

  lemma {:induction false} NonSpaceMember(s: string, c: char)
    requires c in NonSpace(s)
    ensures c in s
    decreases |s|
  {
    if s != [] && c != s[0] {
      NonSpaceMember(s[1..], c);
    }
  }

  // ---------------------------------------------------------------------
  // ingest, stated on the order-free view

  /** The attribute dictionary of `n` once `type` has been set to `t`. */
  function Retyped(attrs: map<string, Attrs>, n: string, t: string): Attrs {
    (if n in attrs then attrs[n] else map[])["type" := t]
  }

  /** The view once every token in `S` has been typed `t` and linked to
      `title`. */
  ghost function Tagged(v: View, title: string, S: set<string>, t: string): View {
    View(map n | n in v.attrs.Keys + S :: if n in S then Retyped(v.attrs, n, t) else v.attrs[n],
         v.edges + (set w | w in S :: (title, w)) + (set w | w in S :: (w, title)))
  }

  /** The view after one document: its title typed "document", then its
      tokens typed `t` and linked to it. */
  ghost function DocView(v: View, d: Document, t: string): View {
    Tagged(ViewAddNode(v, d.title, map["type" := DocumentType]), d.title, Tokens(d.content), t)
  }

  /** The view after `ingest(docs)`. */
  ghost function IngestView(v: View, docs: seq<Document>, t: string): View
    decreases |docs|
  {
    if docs == [] then v
    else DocView(IngestView(v, docs[..|docs| - 1], t), docs[|docs| - 1], t)
  }

  lemma IngestViewSnoc(v: View, docs: seq<Document>, i: nat, t: string)
    requires i < |docs|
    ensures IngestView(v, docs[..i + 1], t) == DocView(IngestView(v, docs[..i], t), docs[i], t)
  {
    assert docs[..i + 1][..i] == docs[..i];
  }

  lemma UpdateIsMerge(m: Attrs, k: string, x: string)
    ensures m + map[k := x] == m[k := x]
  {
  }

  lemma TaggedStepAttrs(v: View, title: string, S: set<string>, w: string, t: string)
    requires title in v.attrs && w !in S
    ensures WithKey(WithKey(Merge(Tagged(v, title, S, t).attrs, w, map["type" := t]), title), w)
         == Tagged(v, title, S + {w}, t).attrs
  {
    var before := Tagged(v, title, S, t).attrs;
    var merged := Merge(before, w, map["type" := t]);
    var rhs := Tagged(v, title, S + {w}, t).attrs;
    if w in v.attrs {
      UpdateIsMerge(v.attrs[w], "type", t);
    }
    assert merged[w] == rhs[w];
    assert merged.Keys == rhs.Keys;
    assert merged == rhs;
  }

  lemma TaggedStepEdges(v: View, title: string, S: set<string>, w: string, t: string)
    ensures Tagged(v, title, S, t).edges + {(title, w), (w, title)} == Tagged(v, title, S + {w}, t).edges
  {
  }

  /** Typing and linking one more token, in whatever order it comes. */
  lemma TaggedStep(v: View, title: string, S: set<string>, w: string, t: string)
    requires title in v.attrs && w !in S
    ensures ViewAddEdge(ViewAddNode(Tagged(v, title, S, t), w, map["type" := t]), title, w)
         == Tagged(v, title, S + {w}, t)
  {
    TaggedStepAttrs(v, title, S, w, t);
    TaggedStepEdges(v, title, S, w, t);
  }

  /** One pass of the token loop on a graph value: the view moves on by
      one token. */
  lemma TokenStep(g: GraphValue, v1: View, title: string, done: set<string>, word: string, t: string)
    requires WellFormed(g)
    requires ViewOf(g) == Tagged(v1, title, done, t) && title in v1.attrs && word !in done
    ensures ViewOf(TokenAdded(g, title, word, t)) == Tagged(v1, title, done + {word}, t)
  {
    var g1 := NodeAdded(g, word, map["type" := t]);
    assert ViewOf(EdgeAdded(g1, title, word)) == ViewAddEdge(ViewAddNode(ViewOf(g), word, map["type" := t]), title, word);
    TaggedStep(v1, title, done, word, t);
  }

  /** The words of a sequence, as a set. */
  function Elements(s: seq<string>): (r: set<string>)
    ensures forall x :: x in r <==> x in s
  {
    set x | x in s
  }

  lemma ElementsSnoc(s: seq<string>, x: string)
    ensures Elements(s + [x]) == Elements(s) + {x}
  {
  }

  /** One pass of the token loop: `add_node(word, type=t)`, then
      `add_edge(title, word)`. */
  function TokenAdded(g: GraphValue, title: string, w: string, t: string): (r: GraphValue)
    requires WellFormed(g)
    ensures WellFormed(r) && g.nodes <= r.nodes
  {
    var g1 := NodeAdded(g, w, map["type" := t]);
    PrefixTrans(g.nodes, g1.nodes, EdgeAdded(g1, title, w).nodes);
    EdgeAdded(g1, title, w)
  }

  /** The graph after the token loop has taken the words of `order`, in
      that order. */
  ghost function Walked(g: GraphValue, title: string, order: seq<string>, t: string): (r: GraphValue)
    requires WellFormed(g)
    ensures WellFormed(r)
    decreases |order|
  {
    if order == [] then g
    else
      TokenAdded(Walked(g, title, order[..|order| - 1], t), title, order[|order| - 1], t)
  }

  lemma WalkedSnoc(g: GraphValue, title: string, order: seq<string>, w: string, t: string)
    requires WellFormed(g)
    ensures Walked(g, title, order + [w], t) == TokenAdded(Walked(g, title, order, t), title, w, t)
  {
    assert (order + [w])[..|order|] == order;
  }

  lemma ElementsLast(s: seq<string>)
    requires s != []
    ensures Elements(s) == Elements(s[..|s| - 1]) + {s[|s| - 1]}
  {
    assert forall x :: x in s <==> x in s[..|s| - 1] || x == s[|s| - 1];
  }

  /** Part way through the token loop: `order` holds the words taken,
      each once, and `words` those still to take. */
  predicate Taken(all: set<string>, words: set<string>, order: seq<string>) {
    words <= all && Distinct(order) && Elements(order) == all - words
  }

  lemma TakeWord(all: set<string>, words: set<string>, order: seq<string>, word: string)
    requires Taken(all, words, order) && word in words
    ensures Taken(all, words - {word}, order + [word])
  {
    DistinctAppend(order, word);
    ElementsSnoc(order, word);
  }

  lemma TakenAll(all: set<string>, order: seq<string>)
    requires Taken(all, {}, order)
    ensures Distinct(order) && Elements(order) == all
  {
  }

  /** One more word taken by the token loop. */
  lemma WalkedStep(g: GraphValue, v1: View, title: string, order: seq<string>, t: string)
    requires WellFormed(g) && title in v1.attrs
    requires order != [] && order[|order| - 1] !in order[..|order| - 1]
    requires ViewOf(Walked(g, title, order[..|order| - 1], t)) == Tagged(v1, title, Elements(order[..|order| - 1]), t)
    ensures ViewOf(Walked(g, title, order, t)) == Tagged(v1, title, Elements(order), t)
  {
    var n := |order| - 1;
    ElementsLast(order);
    TokenStep(Walked(g, title, order[..n], t), v1, title, Elements(order[..n]), order[n], t);
  }

  /** The token loop only appends nodes. */
  lemma {:induction false} WalkedGrows(g: GraphValue, title: string, order: seq<string>, t: string)
    requires WellFormed(g)
    ensures g.nodes <= Walked(g, title, order, t).nodes
    decreases |order|
  {
    if order != [] {
      var prev := Walked(g, title, order[..|order| - 1], t);
      WalkedGrows(g, title, order[..|order| - 1], t);
      PrefixTrans(g.nodes, prev.nodes, TokenAdded(prev, title, order[|order| - 1], t).nodes);
    }
  }

  /** Whatever order the token loop takes, its view is the one with every
      word taken typed and linked. */
  lemma {:induction false} WalkedView(g: GraphValue, v1: View, title: string, order: seq<string>, t: string)
    requires WellFormed(g) && title in v1.attrs
    requires ViewOf(g) == Tagged(v1, title, {}, t) && Distinct(order)
    ensures ViewOf(Walked(g, title, order, t)) == Tagged(v1, title, Elements(order), t)
    decreases |order|
  {
    if order == [] {
      assert Elements(order) == {};
    } else {
      WalkedView(g, v1, title, order[..|order| - 1], t);
      WalkedStep(g, v1, title, order, t);
    }
  }

  // ---------------------------------------------------------------------
  // the neighbours of a node that is no document's title

  /** One pass of the token loop, seen from a node `k` other than the
      title: when the word is `k`, the title joins its neighbours unless
      it is there already; otherwise nothing changes. */
  lemma TokenAddedAdjacent(g: GraphValue, title: string, w: string, t: string, k: string)
    requires WellFormed(g) && k != title
    ensures Adjacent(TokenAdded(g, title, w, t), k) ==
      if w == k then Grown(Adjacent(g, k), title) else Adjacent(g, k)
  {
    var g1 := NodeAdded(g, w, map["type" := t]);
    if w == k {
      assert Adjacent(g1, k) == Adjacent(g, k) by {
        if k !in g.adj {
          assert g1.adj[k] == [];
        }
      }
      EdgeAddedEnd(g1, title, k);
    } else {
      NodeAddedAdjacent(g, w, map["type" := t], k);
      EdgeAddedOther(g1, title, w, k);
    }
  }

  /** Taking `k` once or twice comes to the same thing. */
  lemma GrownTwice(ns: seq<string>, x: string)
    ensures Grown(Grown(ns, x), x) == Grown(ns, x)
  {
  }

  lemma LastMember(s: seq<string>, x: string)
    requires s != []
    ensures x in s <==> x in s[..|s| - 1] || x == s[|s| - 1]
  {
    assert s == s[..|s| - 1] + [s[|s| - 1]];
  }

  /** The token loop, seen from a node `k` other than the title: the
      title joins its neighbours when `k` is one of the words taken. */
  lemma {:induction false} WalkedAdjacent(g: GraphValue, title: string, order: seq<string>, t: string, k: string)
    requires WellFormed(g) && k != title
    ensures Adjacent(Walked(g, title, order, t), k) ==
      if k in order then Grown(Adjacent(g, k), title) else Adjacent(g, k)
    decreases |order|
  {
    if order != [] {
      var init := order[..|order| - 1];
      var w := order[|order| - 1];
      var prev := Walked(g, title, init, t);
      WalkedAdjacent(g, title, init, t, k);
      assert Walked(g, title, order, t) == TokenAdded(prev, title, w, t);
      TokenAddedAdjacent(prev, title, w, t, k);
      LastMember(order, k);
      if k in init {
        GrownTwice(Adjacent(g, k), title);
      }
    }
  }

  /** `k` is the title of none of `docs`. */
  predicate NoTitle(docs: seq<Document>, k: string) {
    forall j :: 0 <= j < |docs| ==> docs[j].title != k
  }

  /** The neighbours of a node `k` that is no document's title, after
      `ingest(docs)` starting from neighbours `ns`: every document that
      mentions `k` appends its title, unless it is there already. */
  function TitlesMentioning(ns: seq<string>, docs: seq<Document>, k: string): seq<string>
    decreases |docs|
  {
    if docs == [] then ns
    else
      var prev := TitlesMentioning(ns, docs[..|docs| - 1], k);
      var d := docs[|docs| - 1];
      if k in Tokens(d.content) then Grown(prev, d.title) else prev
  }

  /** The neighbours `TitlesMentioning` builds are the starting ones and the
      titles of the documents that mention `k`, each once. */
  lemma {:induction false} TitlesMentioningMembers(ns: seq<string>, docs: seq<Document>, k: string, x: string)
    ensures x in TitlesMentioning(ns, docs, k) <==>
      x in ns || exists j :: 0 <= j < |docs| && docs[j].title == x && k in Tokens(docs[j].content)
    ensures Distinct(ns) ==> Distinct(TitlesMentioning(ns, docs, k))
    decreases |docs|
  {
    if docs != [] {
      var init := docs[..|docs| - 1];
      var d := docs[|docs| - 1];
      TitlesMentioningMembers(ns, init, k, x);
      SomeSnoc(docs, init, (dj: Document) => dj.title == x && k in Tokens(dj.content));
      var prev := TitlesMentioning(ns, init, k);
      if k in Tokens(d.content) && d.title !in prev && Distinct(prev) {
        DistinctAppend(prev, d.title);
      }
    }
  }

  lemma TitlesMentioningSnoc(ns: seq<string>, docs: seq<Document>, i: nat, k: string)
    requires i < |docs|
    ensures TitlesMentioning(ns, docs[..i + 1], k) ==
      if k in Tokens(docs[i].content) then Grown(TitlesMentioning(ns, docs[..i], k), docs[i].title)
      else TitlesMentioning(ns, docs[..i], k)
  {
    assert docs[..i + 1][..i] == docs[..i];
  }

  lemma TaggedNone(v: View, title: string, t: string)
    ensures Tagged(v, title, {}, t) == v
  {
    assert Tagged(v, title, {}, t).attrs == v.attrs;
  }

  lemma TaggedTyped(v: View, title: string, S: set<string>, t: string)
    requires AllTyped(v.attrs)
    ensures AllTyped(Tagged(v, title, S, t).attrs)
  {
  }

  // ---------------------------------------------------------------------
  // what ingest leaves behind

  /** Document `d` links `x` and `y`: one is its title, the other one of
      its tokens. */
  predicate Links(d: Document, x: string, y: string) {
    (x == d.title && y in Tokens(d.content)) || (y == d.title && x in Tokens(d.content))
  }

  lemma DocViewEdges(v: View, d: Document, t: string)
    ensures forall x, y :: (x, y) in DocView(v, d, t).edges <==> (x, y) in v.edges || Links(d, x, y)
  {
  }

  /** Some document of `docs` links `x` and `y`. */
  ghost predicate LinkedBy(docs: seq<Document>, x: string, y: string) {
    exists i :: 0 <= i < |docs| && Links(docs[i], x, y)
  }

  lemma LinkedBySnoc(docs: seq<Document>, x: string, y: string)
    requires docs != []
    ensures LinkedBy(docs, x, y) <==>
      LinkedBy(docs[..|docs| - 1], x, y) || Links(docs[|docs| - 1], x, y)
  {
    SomeSnoc(docs, docs[..|docs| - 1], d => Links(d, x, y));
  }

  /** Some element of a non-empty sequence satisfies `p` exactly when
      some element before the last does, or the last one does. */
  lemma SomeSnoc<T>(s: seq<T>, init: seq<T>, p: T -> bool)
    requires s != [] && init == s[..|s| - 1]
    ensures (exists i :: 0 <= i < |s| && p(s[i])) <==>
      (exists i :: 0 <= i < |init| && p(init[i])) || p(s[|s| - 1])
  {
    if exists i :: 0 <= i < |init| && p(init[i]) {
      var i :| 0 <= i < |init| && p(init[i]);
      assert s[i] == init[i];
    }
    if exists i :: 0 <= i < |s| && p(s[i]) {
      var i :| 0 <= i < |s| && p(s[i]);
      if i < |init| {
        assert init[i] == s[i];
      }
    }
  }

  /** The edges after `ingest(docs)` are the edges before and, in both
      directions, every title with every token of its own document; no
      other edge is created. */
  lemma {:induction false} IngestEdges(v: View, docs: seq<Document>, t: string)
    ensures forall x, y :: (x, y) in IngestView(v, docs, t).edges <==> (x, y) in v.edges || LinkedBy(docs, x, y)
    decreases |docs|
  {
    if docs != [] {
      var n := |docs| - 1;
      var prev := IngestView(v, docs[..n], t);
      assert IngestView(v, docs, t) == DocView(prev, docs[n], t);
      IngestEdges(v, docs[..n], t);
      DocViewEdges(prev, docs[n], t);
      forall x, y ensures (x, y) in IngestView(v, docs, t).edges <==> (x, y) in v.edges || LinkedBy(docs, x, y) {
        LinkedBySnoc(docs, x, y);
      }
    }
  }

  /** The type `ingest(docs)` writes last on node `n`: the token type when
      the last document that mentions `n` has it as a token (tokens are
      typed after their title), "document" when it is only that
      document's title, and nothing when no document mentions `n`. */
  function LastType(docs: seq<Document>, n: string, t: string): Option<string>
    decreases |docs|
  {
    if docs == [] then None
    else
      var d := docs[|docs| - 1];
      if n in Tokens(d.content) then Some(t)
      else if n == d.title then Some(DocumentType)
      else LastType(docs[..|docs| - 1], n, t)
  }

  lemma RetypeAgain(m: map<string, Attrs>, base: map<string, Attrs>, n: string, x: string, y: string)
    requires n in m && m[n] == Retyped(base, n, y)
    ensures Retyped(m, n, x) == Retyped(base, n, x)
  {
    var b := if n in base then base[n] else map[];
    assert b["type" := y]["type" := x] == b["type" := x];
  }

  /** The attributes after one document. */
  lemma DocViewAttrs(v: View, d: Document, t: string)
    ensures var a := DocView(v, d, t).attrs;
      && a.Keys == v.attrs.Keys + {d.title} + Tokens(d.content)
      && (forall n :: n in Tokens(d.content) ==> a[n] == Retyped(v.attrs, n, t))
      && (d.title !in Tokens(d.content) ==> a[d.title] == Retyped(v.attrs, d.title, DocumentType))
      && (forall n :: n in v.attrs && n != d.title && n !in Tokens(d.content) ==> a[n] == v.attrs[n])
  {
    var w := ViewAddNode(v, d.title, map["type" := DocumentType]);
    if d.title in v.attrs {
      UpdateIsMerge(v.attrs[d.title], "type", DocumentType);
    }
    assert w.attrs[d.title] == Retyped(v.attrs, d.title, DocumentType);
    forall n | n in Tokens(d.content) ensures DocView(v, d, t).attrs[n] == Retyped(v.attrs, n, t) {
      if n == d.title {
        RetypeAgain(w.attrs, v.attrs, n, t, DocumentType);
      }
    }
  }

  /** After `ingest(docs)` a node exists when it did before or a document
      mentions it; a mentioned node's dictionary is its old one (or none)
      with "type" set to the value written last, and an unmentioned node's
      dictionary is untouched. */
  lemma {:induction false} IngestAttrs(v: View, docs: seq<Document>, t: string)
    ensures forall n :: n in IngestView(v, docs, t).attrs <==> n in v.attrs || LastType(docs, n, t).Some?
    ensures forall n :: LastType(docs, n, t).Some? ==>
      IngestView(v, docs, t).attrs[n] == Retyped(v.attrs, n, LastType(docs, n, t).value)
    ensures forall n :: n in v.attrs && LastType(docs, n, t).None? ==> IngestView(v, docs, t).attrs[n] == v.attrs[n]
    decreases |docs|
  {
    if docs != [] {
      var k := |docs| - 1;
      var prefix := docs[..k];
      var d := docs[k];
      var w := IngestView(v, prefix, t);
      var u := IngestView(v, docs, t);
      assert u == DocView(w, d, t);
      IngestAttrs(v, prefix, t);
      DocViewAttrs(w, d, t);
      forall n
        ensures n in u.attrs <==> n in v.attrs || LastType(docs, n, t).Some?
        ensures LastType(docs, n, t).Some? ==> u.attrs[n] == Retyped(v.attrs, n, LastType(docs, n, t).value)
        ensures n in v.attrs && LastType(docs, n, t).None? ==> u.attrs[n] == v.attrs[n]
      {
        if n in Tokens(d.content) || n == d.title {
          var x := LastType(docs, n, t).value;
          assert u.attrs[n] == Retyped(w.attrs, n, x);
          if LastType(prefix, n, t).Some? {
            RetypeAgain(w.attrs, v.attrs, n, x, LastType(prefix, n, t).value);
          }
        } else {
          assert LastType(docs, n, t) == LastType(prefix, n, t);
        }
      }
    }
  }

  /** A token of document j keeps the token type when no later document
      has it as its title: a title that a later document uses as a token
      is retyped. */
  lemma {:induction false} LaterTokenWins(docs: seq<Document>, j: nat, n: string, t: string)
    requires j < |docs| && n in Tokens(docs[j].content)
    requires forall k :: j < k < |docs| ==> docs[k].title != n
    ensures LastType(docs, n, t) == Some(t)
    decreases |docs|
  {
    var last := |docs| - 1;
    if j < last && n !in Tokens(docs[last].content) {
      var prefix := docs[..last];
      assert prefix[j] == docs[j];
      forall k | j < k < |prefix| ensures prefix[k].title != n {
        assert prefix[k] == docs[k];
      }
      LaterTokenWins(prefix, j, n, t);
      assert docs[last].title != n;
    }
  }

  /** The title of document j stays "document" when it is not a token of
      document j nor of any later document: a token that a later document
      uses as its title is retyped. */
  lemma {:induction false} LaterTitleWins(docs: seq<Document>, j: nat, t: string)
    requires j < |docs| && docs[j].title !in Tokens(docs[j].content)
    requires forall k :: j < k < |docs| ==> docs[j].title !in Tokens(docs[k].content)
    ensures LastType(docs, docs[j].title, t) == Some(DocumentType)
    decreases |docs|
  {
    var last := |docs| - 1;
    if j < last && docs[j].title != docs[last].title {
      var prefix := docs[..last];
      assert prefix[j] == docs[j];
      forall k | j < k < |prefix| ensures docs[j].title !in Tokens(prefix[k].content) {
        assert prefix[k] == docs[k];
      }
      LaterTitleWins(prefix, j, t);
      assert docs[j].title !in Tokens(docs[last].content);
    }
  }

  lemma ReingestAttrs(v: View, docs: seq<Document>, t: string)
    ensures IngestView(IngestView(v, docs, t), docs, t).attrs == IngestView(v, docs, t).attrs
  {
    var w := IngestView(v, docs, t);
    var u := IngestView(w, docs, t);
    IngestAttrs(v, docs, t);
    IngestAttrs(w, docs, t);
    forall n | n in u.attrs ensures n in w.attrs && u.attrs[n] == w.attrs[n] {
      if LastType(docs, n, t).Some? {
        var x := LastType(docs, n, t).value;
        RetypeAgain(w.attrs, v.attrs, n, x, x);
      }
    }
    assert u.attrs.Keys == w.attrs.Keys;
  }

  lemma ReingestEdges(v: View, docs: seq<Document>, t: string)
    ensures IngestView(IngestView(v, docs, t), docs, t).edges == IngestView(v, docs, t).edges
  {
    var w := IngestView(v, docs, t);
    var u := IngestView(w, docs, t);
    IngestEdges(v, docs, t);
    IngestEdges(w, docs, t);
    forall e ensures e in u.edges <==> e in w.edges {
      var (x, y) := e;
      assert (x, y) in u.edges <==> (x, y) in w.edges || LinkedBy(docs, x, y);
      assert (x, y) in w.edges <==> (x, y) in v.edges || LinkedBy(docs, x, y);
    }
  }

  /** Ingesting the same documents again changes neither the attributes
      nor the edges. */
  lemma IngestIdempotent(v: View, docs: seq<Document>, t: string)
    ensures IngestView(IngestView(v, docs, t), docs, t) == IngestView(v, docs, t)
  {
    ReingestAttrs(v, docs, t);
    ReingestEdges(v, docs, t);
  }

  /** A document with blank content adds its title node and no edge. */
  lemma BlankDocument(v: View, d: Document, t: string)
    requires AllSpace(d.content)
    ensures DocView(v, d, t) == ViewAddNode(v, d.title, map["type" := DocumentType])
  {
    TaggedNone(ViewAddNode(v, d.title, map["type" := DocumentType]), d.title, t);
  }

  /** A graph whose view already holds `docs`, ingested again: same view,
      and since nodes are only appended, the same node sequence. */
  lemma Reingested(g: GraphValue, h: GraphValue, docs: seq<Document>, t: string, v: View)
    requires WellFormed(g) && WellFormed(h) && g.nodes <= h.nodes
    requires ViewOf(g) == IngestView(v, docs, t)
    requires ViewOf(h) == IngestView(ViewOf(g), docs, t)
    ensures ViewOf(h) == ViewOf(g) && h.nodes == g.nodes
  {
    IngestIdempotent(v, docs, t);
    SameNodes(g, h);
  }

  /** Title `docs[i].title` is a document-typed neighbour of every token
      `w` of its content once `ingest(docs)` is done, provided no later
      write retyped it. */
  lemma TitleFound(v: View, docs: seq<Document>, t: string, i: nat, w: string)
    requires i < |docs| && w in Tokens(docs[i].content)
    requires LastType(docs, docs[i].title, t) == Some(DocumentType)
    ensures var u := IngestView(v, docs, t);
      && (w, docs[i].title) in u.edges
      && docs[i].title in u.attrs && "type" in u.attrs[docs[i].title]
      && u.attrs[docs[i].title]["type"] == DocumentType
  {
    IngestEdges(v, docs, t);
    IngestAttrs(v, docs, t);
    assert Links(docs[i], w, docs[i].title);
    assert LinkedBy(docs, w, docs[i].title);
  }

  // ---------------------------------------------------------------------
  // suggest_new_links (use case 3)

  /** The pairs `(a, b)` the inner loop appends, for each `b` of `cands`
      not adjacent to `a`. */
  function Row(g: GraphValue, a: string, cands: seq<string>): seq<(string, string)>
    decreases |cands|
  {
    if cands == [] then []
    else
      var b := cands[|cands| - 1];
      Row(g, a, cands[..|cands| - 1]) + (if HasEdge(g, a, b) then [] else [(a, b)])
  }

  /** The suggestions after the first `n` passes of the outer loop. */
  function Pairs(g: GraphValue, ks: seq<string>, n: nat): seq<(string, string)>
    requires n <= |ks|
  {
    if n == 0 then [] else Pairs(g, ks, n - 1) + Row(g, ks[n - 1], ks[n..])
  }

  /** The keyword-typed nodes, in node order. */
  function Keywords(g: GraphValue): (r: seq<string>)
    requires WellFormed(g) && AllTyped(g.attrs)
    ensures forall n :: n in r <==> n in g.attrs && g.attrs[n]["type"] == KeywordType
    ensures Distinct(r)
  {
    OfType(g, g.nodes, KeywordType)
  }

  /** What `suggest_new_links` returns. */
  function MissingLinks(g: GraphValue): seq<(string, string)>
    requires WellFormed(g) && AllTyped(g.attrs)
  {
    Pairs(g, Keywords(g), |Keywords(g)|)
  }

  lemma {:induction false} RowMembers(g: GraphValue, a: string, cands: seq<string>)
    ensures forall p :: p in Row(g, a, cands) <==>
      exists j :: 0 <= j < |cands| && p == (a, cands[j]) && !HasEdge(g, a, cands[j])
    ensures |Row(g, a, cands)| <= |cands|
    ensures (forall b :: b in cands ==> !HasEdge(g, a, b)) ==> |Row(g, a, cands)| == |cands|
    ensures Distinct(cands) ==> Distinct(Row(g, a, cands))
    decreases |cands|
  {
    if cands != [] {
      var n := |cands| - 1;
      var init := cands[..n];
      RowMembers(g, a, init);
      forall p ensures p in Row(g, a, cands) <==>
        exists j :: 0 <= j < |cands| && p == (a, cands[j]) && !HasEdge(g, a, cands[j])
      {
        if exists j :: 0 <= j < n && p == (a, init[j]) && !HasEdge(g, a, init[j]) {
          var j :| 0 <= j < n && p == (a, init[j]) && !HasEdge(g, a, init[j]);
          assert cands[j] == init[j];
        }
        if exists j :: 0 <= j < |cands| && p == (a, cands[j]) && !HasEdge(g, a, cands[j]) {
          var j :| 0 <= j < |cands| && p == (a, cands[j]) && !HasEdge(g, a, cands[j]);
          if j < n {
            assert init[j] == cands[j];
          }
        }
      }
      if Distinct(cands) {
        assert Distinct(init);
        if !HasEdge(g, a, cands[n]) {
          DistinctAppend(Row(g, a, init), (a, cands[n]));
        }
      }
    }
  }

  /** A suggestion after n outer passes is a pair `(ks[i], ks[j])` with
      `i < n`, `i < j` and no edge between the two. */
  lemma {:induction false} PairsMembers(g: GraphValue, ks: seq<string>, n: nat)
    requires n <= |ks|
    ensures forall p :: p in Pairs(g, ks, n) <==>
      exists i, j :: 0 <= i < n && i < j < |ks| && p == (ks[i], ks[j]) && !HasEdge(g, ks[i], ks[j])
    decreases n
  {
    if n > 0 {
      PairsMembers(g, ks, n - 1);
      RowMembers(g, ks[n - 1], ks[n..]);
      forall p ensures p in Pairs(g, ks, n) <==>
        exists i, j :: 0 <= i < n && i < j < |ks| && p == (ks[i], ks[j]) && !HasEdge(g, ks[i], ks[j])
      {
        if p in Row(g, ks[n - 1], ks[n..]) {
          var j :| 0 <= j < |ks[n..]| && p == (ks[n - 1], ks[n..][j]) && !HasEdge(g, ks[n - 1], ks[n..][j]);
          assert ks[n..][j] == ks[n + j];
        }
        if exists i, j :: 0 <= i < n && i < j < |ks| && p == (ks[i], ks[j]) && !HasEdge(g, ks[i], ks[j]) {
          var i, j :| 0 <= i < n && i < j < |ks| && p == (ks[i], ks[j]) && !HasEdge(g, ks[i], ks[j]);
          if i == n - 1 {
            assert ks[n..][j - n] == ks[j];
          }
        }
      }
    }
  }

  /** `n * (2k - n - 1) / 2`: how many pairs `i < j < k` have `i < n`. */
  function Tri(k: nat, n: nat): int
    requires n <= k
  {
    if n == 0 then 0 else Tri(k, n - 1) + (k - n)
  }

  lemma {:induction false} TriClosed(k: nat, n: nat)
    requires n <= k
    ensures 2 * Tri(k, n) == n * (2 * k - n - 1)
    decreases n
  {
    if n > 0 {
      TriClosed(k, n - 1);
      assert n * (2 * k - n - 1) == (n - 1) * (2 * k - (n - 1) - 1) + 2 * (k - n);
    }
  }

  /** After n outer passes over distinct keywords: no repeated pair, at
      most one suggestion per pair `i < j`, and exactly one when no two
      keywords are adjacent. */
  lemma {:induction false} PairsCount(g: GraphValue, ks: seq<string>, n: nat)
    requires n <= |ks| && Distinct(ks)
    ensures Distinct(Pairs(g, ks, n))
    ensures |Pairs(g, ks, n)| <= Tri(|ks|, n)
    ensures (forall a, b :: a in ks && b in ks ==> !HasEdge(g, a, b)) ==> |Pairs(g, ks, n)| == Tri(|ks|, n)
    decreases n
  {
    if n > 0 {
      var before := Pairs(g, ks, n - 1);
      var row := Row(g, ks[n - 1], ks[n..]);
      PairsCount(g, ks, n - 1);
      PairsMembers(g, ks, n - 1);
      RowMembers(g, ks[n - 1], ks[n..]);
      assert Distinct(ks[n..]);
      forall x, y | 0 <= x < |before| && 0 <= y < |row| ensures before[x] != row[y] {
        assert before[x] in before && row[y] in row;
        var i, j :| 0 <= i < n - 1 && i < j < |ks| && before[x] == (ks[i], ks[j]) && !HasEdge(g, ks[i], ks[j]);
        assert row[y].0 == ks[n - 1];
      }
      DistinctConcat(before, row);
    }
  }

  lemma DistinctConcat<T>(a: seq<T>, b: seq<T>)
    requires Distinct(a) && Distinct(b)
    requires forall x, y :: 0 <= x < |a| && 0 <= y < |b| ==> a[x] != b[y]
    ensures Distinct(a + b)
  {
    forall x, y | 0 <= x < y < |a + b| ensures (a + b)[x] != (a + b)[y] {
      if y < |a| {
      } else if x >= |a| {
        assert (a + b)[x] == b[x - |a|] && (a + b)[y] == b[y - |a|];
      } else {
        assert (a + b)[y] == b[y - |a|];
      }
    }
  }

  /** `suggest_new_links`: exactly the pairs of keywords `(ks[i], ks[j])`
      with `i < j` in node order and no edge between them. */
  lemma MissingLinksMembers(g: GraphValue)
    requires WellFormed(g) && AllTyped(g.attrs)
    ensures var ks := Keywords(g);
      forall p :: p in MissingLinks(g) <==>
        exists i, j :: 0 <= i < j < |ks| && p == (ks[i], ks[j]) && !HasEdge(g, ks[i], ks[j])
  {
    PairsMembers(g, Keywords(g), |Keywords(g)|);
  }

  /** Every suggestion joins two different keyword nodes that are not
      adjacent, and no pair is suggested twice or in both orders. */
  lemma MissingLinksShape(g: GraphValue)
    requires WellFormed(g) && AllTyped(g.attrs)
    ensures Distinct(MissingLinks(g))
    ensures forall p :: p in MissingLinks(g) ==>
      && p.0 != p.1 && !HasEdge(g, p.0, p.1) && (p.1, p.0) !in MissingLinks(g)
      && p.0 in g.attrs && g.attrs[p.0]["type"] == KeywordType
      && p.1 in g.attrs && g.attrs[p.1]["type"] == KeywordType
  {
    var ks := Keywords(g);
    PairsCount(g, ks, |ks|);
    MissingLinksMembers(g);
    forall p | p in MissingLinks(g) ensures p.0 != p.1 && (p.1, p.0) !in MissingLinks(g) {
      var i, j :| 0 <= i < j < |ks| && p == (ks[i], ks[j]) && !HasEdge(g, ks[i], ks[j]);
    }
  }

  /** With k keyword nodes there are at most k(k-1)/2 suggestions, and
      exactly that many when no two keywords are adjacent. */
  lemma MissingLinksCount(g: GraphValue)
    requires WellFormed(g) && AllTyped(g.attrs)
    ensures var k := |Keywords(g)|;
      && 2 * |MissingLinks(g)| <= k * (k - 1)
      && ((forall a, b :: a in Keywords(g) && b in Keywords(g) ==> !HasEdge(g, a, b)) ==>
            2 * |MissingLinks(g)| == k * (k - 1))
  {
    var ks := Keywords(g);
    PairsCount(g, ks, |ks|);
    TriClosed(|ks|, |ks|);
  }

  /** `KnowledgeGraphAgent`: a graph, and the type its `ingest` gives to
      tokens ("keyword", or "method" in use case 5). */
  class KnowledgeGraphAgent {
    const graph: Graph
    const tokenType: string

    /** Every node is typed, so `G.nodes[n]["type"]` never raises. */
    ghost predicate Valid()
      reads this, graph
    {
      graph.Valid() && AllTyped(graph.attrs)
    }

    constructor (tokenType: string)
      ensures Valid() && fresh(graph)
      ensures graph.Value() == EmptyGraph && this.tokenType == tokenType
    {
      graph := new Graph();
      this.tokenType := tokenType;
    }

    /** One iteration of `ingest`'s loop: the document's title, then its
        tokens in the order the token set is walked. */
    method AddDocument(doc: Document)
      requires Valid()
      modifies graph
      ensures Valid()
      ensures old(graph.nodes) <= graph.nodes
      ensures ViewOf(graph.Value()) == DocView(ViewOf(old(graph.Value())), doc, tokenType)
      ensures forall k :: k != doc.title ==>
        Adjacent(graph.Value(), k) ==
          (if k in Tokens(doc.content) then Grown(Adjacent(old(graph.Value()), k), doc.title)
           else Adjacent(old(graph.Value()), k))
    {
      MergeTyped(graph.attrs, doc.title, map["type" := DocumentType]);
      ghost var g0 := graph.Value();
      graph.AddNode(doc.title, map["type" := DocumentType]);
      ghost var g1 := graph.Value();
      ghost var order := AddTokens(doc.title, Tokens(doc.content));
      forall k | k != doc.title
        ensures Adjacent(graph.Value(), k) ==
          if k in Tokens(doc.content) then Grown(Adjacent(g0, k), doc.title) else Adjacent(g0, k)
      {
        NodeAddedAdjacent(g0, doc.title, map["type" := DocumentType], k);
        WalkedAdjacent(g1, doc.title, order, tokenType, k);
      }
      TaggedNone(ViewOf(g1), doc.title, tokenType);
      WalkedView(g1, ViewOf(g1), doc.title, order, tokenType);
      TaggedTyped(ViewOf(g1), doc.title, Tokens(doc.content), tokenType);
      WalkedGrows(g1, doc.title, order, tokenType);
      PrefixTrans(old(graph.nodes), g1.nodes, graph.nodes);
    }

    /** The inner loop of `ingest`: every token of one document, in the
        order the token set is walked. */
    method AddTokens(title: string, all: set<string>) returns (ghost order: seq<string>)
      requires graph.Valid()
      modifies graph
      ensures graph.Valid() && Distinct(order) && Elements(order) == all
      ensures graph.Value() == Walked(old(graph.Value()), title, order, tokenType)
    {
      ghost var g1 := graph.Value();
      order := [];
      var words := all;
      while words != {}
        invariant Taken(all, words, order)
        invariant graph.Value() == Walked(g1, title, order, tokenType)
        decreases |words|
      {
        var word :| word in words;
        AddToken(title, word);
        TakeWord(all, words, order, word);
        WalkedSnoc(g1, title, order, word, tokenType);
        order := order + [word];
        words := words - {word};
      }
      TakenAll(all, order);
    }

    /** The inner loop's body: the token becomes a node typed `tokenType`
        and is linked to the document's title. */
    method AddToken(title: string, word: string)
      requires graph.Valid()
      modifies graph
      ensures graph.Valid()
      ensures graph.Value() == TokenAdded(old(graph.Value()), title, word, tokenType)
    {
      graph.AddNode(word, map["type" := tokenType]);
      graph.AddEdge(title, word);
    }

    /** `ingest(docs)`. Node order and neighbour order depend on the
        order the token sets are walked; nodes are only ever appended, and
        the attributes and edges come out the same for every order. */
    method Ingest(docs: seq<Document>)
      requires Valid()
      modifies graph
      ensures Valid()
      ensures old(graph.nodes) <= graph.nodes
      ensures ViewOf(graph.Value()) == IngestView(ViewOf(old(graph.Value())), docs, tokenType)
      ensures forall k :: NoTitle(docs, k) ==>
        Adjacent(graph.Value(), k) == TitlesMentioning(Adjacent(old(graph.Value()), k), docs, k)
    {
      for i := 0 to |docs|
        invariant Valid()
        invariant old(graph.nodes) <= graph.nodes
        invariant ViewOf(graph.Value()) == IngestView(ViewOf(old(graph.Value())), docs[..i], tokenType)
        invariant forall k :: NoTitle(docs, k) ==>
          Adjacent(graph.Value(), k) == TitlesMentioning(Adjacent(old(graph.Value()), k), docs[..i], k)
      {
        ghost var nodes0 := graph.nodes;
        AddDocument(docs[i]);
        PrefixTrans(old(graph.nodes), nodes0, graph.nodes);
        IngestViewSnoc(ViewOf(old(graph.Value())), docs, i, tokenType);
        forall k | NoTitle(docs, k)
          ensures Adjacent(graph.Value(), k) == TitlesMentioning(Adjacent(old(graph.Value()), k), docs[..i + 1], k)
        {
          TitlesMentioningSnoc(Adjacent(old(graph.Value()), k), docs, i, k);
        }
      }
      assert docs[..|docs|] == docs;
    }

    /** `query(keyword)`, and `collect_references(topic)` of use case 6:
        nothing for a string that is not a node (it is not lower-cased),
        otherwise the document-typed neighbours, each once, in neighbour
        order. */
    function Query(keyword: string): (r: seq<string>)
      reads this, graph
      requires Valid()
      ensures keyword !in graph.attrs ==> r == []
      ensures forall n :: n in r <==>
        HasEdge(graph.Value(), keyword, n) && n in graph.attrs && graph.attrs[n]["type"] == DocumentType
      ensures Distinct(r)
    {
      if keyword !in graph.attrs then []
      else OfType(graph.Value(), graph.adj[keyword], DocumentType)
    }

    /** `suggest_new_links` (use case 3): for each keyword-typed node in
        node order, every later keyword-typed node it has no edge to. The
        graph is only read. */
    method SuggestNewLinks() returns (suggestions: seq<(string, string)>)
      requires Valid()
      ensures suggestions == MissingLinks(graph.Value())
    {
      var g := graph.Value();
      suggestions := [];
      var keywords := OfType(g, g.nodes, KeywordType);
      for i := 0 to |keywords|
        invariant suggestions == Pairs(g, keywords, i)
      {
        var row := SuggestFrom(g, keywords[i], keywords[i + 1..]);
        suggestions := suggestions + row;
      }
    }

    /** The inner loop of `suggest_new_links`: the pairs `(kw1, kw2)` for
        the candidates `kw2` not adjacent to `kw1`. */
    static method SuggestFrom(g: GraphValue, kw1: string, candidates: seq<string>)
      returns (row: seq<(string, string)>)
      ensures row == Row(g, kw1, candidates)
    {
      row := [];
      for j := 0 to |candidates|
        invariant row == Row(g, kw1, candidates[..j])
      {
        assert candidates[..j + 1][..j] == candidates[..j];
        if !HasEdge(g, kw1, candidates[j]) {
          row := row + [(kw1, candidates[j])];
        }
      }
      assert candidates[..|candidates|] == candidates;
    }

    /** `recommend_methods` (use case 5): the method-typed nodes, sorted,
        each once. */
    function RecommendMethods(): (r: seq<string>)
      reads this, graph
      requires Valid()
      ensures StrictlySorted(r)
      ensures forall n :: n in r <==> n in graph.attrs && graph.attrs[n]["type"] == MethodType
    {
      SortedSet(OfType(graph.Value(), graph.nodes, MethodType))
    }
  }
}
