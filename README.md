# Crew AI Agents hub: use-case manager, UI session, null-byte fixer and graph agents

This project models the deterministic core of the Crew AI Agents
repository in Dafny and proves properties of it. The core has four parts:

- **The use-case manager** (`UseCaseCore`, from ui/core.py).
  - `_load_use_cases` turns a directory listing into use-case records. It reads the title and description from each README and truncates the description to 200 characters plus `...`.
  - `get_all_use_cases` merges the financial and research catalogues.
  - `run_use_case` finds a use case and dispatches it: to a `run` function, else to `crew.kickoff()`, else to a fixed message. It wraps the outcome in a success record or an error record.
  - The quirk of the loader is kept. A README-less directory takes the title of the last README read before it; if there was none, the record is dropped.
- **The Streamlit session state** (`UiSession`, from ui/app.py).
  - The five session keys are set only when absent.
  - Three transitions act on them: `reset_result`, `set_use_case` and `run_use_case`.
  - The form assembles the input record, adding `"transactions"` only for the fraud-detection use case and only when the JSON parses.
- **The null-byte fixer** (`NullBytes`, from fix_null_bytes.py).
  - `fix_file` removes every 0x00 byte. It rewrites the file only when there was one.
  - `scan_directory` counts the `.py` files it fixed.
- **The toy knowledge-graph agents** of `examples/` and `project/examples/`.
  - They share a model of the networkx graph operations they use (`Graphs`). `add_node` merges attributes, `add_edge` adds missing ends, and `neighbors` lists neighbours in the order their edges were first added.
  - Two generic models of ingestion loops are shared too (`GraphSteps`). One is for loops that only add nodes; the other is for loops that add two nodes and the edge between them.
  - Each agent has its own module:
    - `KeywordGraph` and `KeywordExamples`: title–keyword graphs; `query`, `collect_references`, `suggest_new_links`, `recommend_methods`.
    - `LiteratureReview`: `summarize`. Its dict is modelled as the list of its items in insertion order, which is node order.
    - `Collaboration`: `find_institutions`.
    - `Ontology`: term–dataset graphs.
    - `ResearchUpdates`: `monitor_and_add`.
    - `CrossField`: `cross_field_links`.
  - `NeighbourOrder` proves in what order neighbours accumulate.

Several source files are byte-identical copies, or differ only in the line numbers of the same code.

| source file | modelled by |
|---|---|
| examples/knowledge_graph_example.py, project/examples/basic/knowledge_graph_example.py | `KeywordGraph.KnowledgeGraphAgent` (`Ingest`, `Query`), `KeywordExamples.KnowledgeGraphExample` |
| project/examples/use_cases/use_case_01/src/main.py, examples/use_cases/use_case_01/main.py | `KeywordGraph.KnowledgeGraphAgent.Ingest` |
| project/examples/use_cases/use_case_02/src/main.py | `KeywordGraph.KnowledgeGraphAgent` (`Ingest`, `Query`) |
| examples/use_cases/use_case_03/main.py, project/examples/use_cases/use_case_03/src/main.py | `KeywordGraph.KnowledgeGraphAgent` (`Ingest`, `SuggestNewLinks`) |
| project/examples/use_cases/use_case_04/src/main.py, examples/use_cases/use_case_04/main.py, examples/use_cases/use_case_04/src/main.py | `LiteratureReview` |
| project/examples/use_cases/use_case_05/src/main.py | `KeywordGraph.KnowledgeGraphAgent` (`Ingest` with token type "method", `RecommendMethods`), `KeywordExamples.ExperimentDesignExample` |
| examples/use_cases/use_case_06/main.py | `KeywordGraph.KnowledgeGraphAgent` (`Ingest`, `Query` as `collect_references`), `KeywordExamples.GrantProposalExample` |
| project/examples/use_cases/use_case_07/src/main.py | `Collaboration` |
| project/examples/use_cases/use_case_08/src/main.py, examples/use_cases/use_case_08/main.py | `Ontology` |
| examples/use_cases/use_case_09/main.py, examples/use_cases/use_case_09/src/main.py | `ResearchUpdates` |
| examples/use_cases/use_case_10/src/main.py | `CrossField` |

Inputs that stand in for I/O:

- The directory listing is a sequence of `(name, isDir, readme)`. It is absent when the category directory does not exist.
- Importing a module is a function from module path to an `Import` outcome. The module's shape is a `Module` value.
- `json.loads` is a function from string to `Option<Json>`.
- The file system of the null-byte fixer is a map from path to bytes, where a path missing from the map cannot be read, plus the set of paths that cannot be written.

## Model

| member | source | states |
|---|---|---|
| PyStrings.Lower | examples/knowledge_graph_example.py:33 | `str.lower()` on ASCII keeps the length, leaves no upper-case letter, keeps every non-upper-case character, and turns each upper-case letter into the lower-case one 32 code points later |
| PyStrings.Words | examples/knowledge_graph_example.py:33 | `str.split()` yields non-empty words without whitespace, and yields none exactly when the string is all whitespace |
| PyStrings.WordsSplitAt | examples/knowledge_graph_example.py:33 | a whitespace character is a word boundary: the words of `a + c + b` are the words of `a` followed by the words of `b` |
| PyStrings.WordsKeepNonSpace | examples/knowledge_graph_example.py:33 | the words of `split()`, concatenated, are exactly the non-whitespace characters of the string, in order |
| PyStrings.WordsJoin | examples/knowledge_graph_example.py:33 | splitting words joined by single spaces gives those words back |
| PyStrings.Split | ui/core.py:37 | `split('\n')` yields at least one piece, and no piece contains the separator |
| PyStrings.JoinSplit | ui/core.py:37 | joining the pieces of `split(sep)` with `sep` gives the original string back |
| PyStrings.Strip | ui/core.py:35 | `strip()` is a slice of its input with only whitespace cut off before and after it, and the slice neither starts nor ends with whitespace |
| PyStrings.StripLeft | ui/core.py:35 | the result is a suffix of the input, starts with a non-space, and only whitespace was removed |
| PyStrings.StripRight | ui/core.py:35 | the result is a prefix of the input, ends with a non-space, and only whitespace was removed |
| PyStrings.Replace | ui/core.py:39 | `replace(a, b)` keeps the length and every other character, puts `b` at each position of an `a`, and leaves no `a` when `a != b` |
| PyStrings.Title | ui/core.py:39 | `title()` keeps the length, the non-letters and each letter up to case, and upper-cases exactly the letters that start a run of letters |
| PyStrings.TitleIdempotent | ui/core.py:39 | `title()` applied twice equals `title()` applied once |
| PyStrings.LessTransitive | project/examples/use_cases/use_case_05/src/main.py:31 | Python's string order `<` is transitive |
| PyStrings.LessTotal | project/examples/use_cases/use_case_05/src/main.py:31 | of two different strings, one is less than the other |
| PyStrings.LessIrreflexive | project/examples/use_cases/use_case_05/src/main.py:31 | no string is less than itself |
| PyStrings.Insert | project/examples/use_cases/use_case_05/src/main.py:31 | inserting into a strictly sorted list keeps it strictly sorted and adds exactly the new element |
| PyStrings.SortedSet | project/examples/use_cases/use_case_05/src/main.py:31 | `sorted(set(xs))` is strictly ascending and has exactly the elements of `xs` |
| PyStrings.SortedUnique | project/examples/use_cases/use_case_05/src/main.py:31 | two strictly sorted lists with the same elements are equal, so `sorted(set(xs))` is determined by its elements |
| UseCaseCore.FirstHeading | ui/core.py:37-38 | the index of the first line starting with `# `, or the number of lines when there is none; no earlier line starts with `# ` |
| UseCaseCore.DefaultTitle | ui/core.py:39 | the fallback title has the length of the directory name; each `_` becomes a space; every other character is kept up to case; a letter is upper-case exactly when it starts a run of letters |
| UseCaseCore.ReadmeTitle | ui/core.py:37-39 | the title is the text after `# ` of the first heading line of the stripped README, else the fallback title |
| UseCaseCore.DescriptionLines | ui/core.py:42-43 | exactly the non-empty lines not starting with `#` are kept |
| UseCaseCore.DescriptionLinesOne | ui/core.py:42-43 | a single line is kept exactly when it is non-empty and does not start with `#` |
| UseCaseCore.DescriptionLinesAppend | ui/core.py:42-43 | the filter works line by line and keeps the order: filtering two blocks of lines one after the other is filtering each and concatenating |
| UseCaseCore.ReadmeDescription | ui/core.py:42-44 | with no description line the description is "No description available"; otherwise it is the description lines joined by single spaces, starting with the first of them |
| UseCaseCore.Truncate | ui/core.py:50 | a description of at most 200 characters is unchanged; a longer one becomes its first 200 characters followed by `...`; the result is at most 203 long |
| UseCaseCore.LoadUseCases | ui/core.py:19-57 | the loop over the listing builds exactly `Catalog(category, dir)`, which is the empty map when the directory is missing |
| UseCaseCore.LoadEntry | ui/core.py:28-53 | one iteration of the loop moves the dict and the local `title` exactly as the step `LoadStep` does: a README-bearing `use_case_*` directory is stored under its name with the README's title and truncated description; a README-less one reuses the previous title, or is skipped when none was bound |
| UseCaseCore.TitleBound | ui/core.py:33-49 | after the loop a title is bound exactly when some `use_case_*` directory with a README came before |
| UseCaseCore.CatalogKeys | ui/core.py:27-55 | a name is in the catalogue exactly when some listed `use_case_*` directory has that name and either has a README or comes after a `use_case_*` directory that has one |
| UseCaseCore.CatalogRecords | ui/core.py:47-53 | every record has `id` equal to its key, the category argument, module path `projects.<category>.<item>.main`, and a description at most 203 long |
| UseCaseCore.RecordPreserved | ui/core.py:47 | a record stored for a name is kept to the end when no later `use_case_*` directory has that name |
| UseCaseCore.TitleCarried | ui/core.py:33-39 | the title bound after the loop is the one from the last README read |
| UseCaseCore.ReadmeRecord | ui/core.py:28-53 | a directory with a README that is not listed again later ends with the record built from its own README |
| UseCaseCore.InheritedTitle | ui/core.py:32-53 | a README-less directory gets the title from the last README read before it and the description "No description available" |
| UseCaseCore.Dispatch | ui/core.py:92-99 | a callable `run` is called with the input data; otherwise `crew.kickoff()`; otherwise the result is "Module executed but no result available" |
| UseCaseCore.Execute | ui/core.py:74-116 | the record has a `success` key; success is true exactly when the import and the call both return; a success carries the call's value and captured output; an import failure carries its message and traceback; a failure after a successful import is an exception raised by the call, and carries its message and traceback |
| UseCaseCore.UseCaseManager.constructor | ui/core.py:15-17 | the two catalogues are loaded from their category directories |
| UseCaseCore.UseCaseManager.GetAllUseCases | ui/core.py:59-64 | the keys are the union of both catalogues; on a shared key the research record wins |
| UseCaseCore.UseCaseManager.RunUseCase | ui/core.py:66-72 | an id in neither catalogue gives a record whose only key is `error`, naming the id; otherwise the financial catalogue is looked up before the research one and the found record is executed |
| UiSession.AssembleInput | ui/app.py:114-127 | the input always maps `query` to the query and has no key besides `query` and `transactions`; `transactions` is present exactly for the fraud-detection use case when the JSON parses, and holds the parsed value; the JSON is reported invalid exactly when it was given to that use case and did not parse |
| UiSession.SessionState.constructor | ui/app.py:20-21 | a new session has no key set |
| UiSession.SessionState.InitializeDefaults | ui/app.py:20-30 | each of the five keys is set to its default only when absent (manager, None, None, False, `{}`), and is otherwise left as it was |
| UiSession.SessionState.InitializeManager | ui/app.py:21-22 | a manager is created only when absent; the other keys are untouched |
| UiSession.SessionState.InitializeRunState | ui/app.py:23-30 | the four run-state keys get their defaults only when absent |
| UiSession.SessionState.ResetResult | ui/app.py:32-35 | the result is cleared and `is_running` is false; the other keys are unchanged |
| UiSession.SessionState.SetUseCase | ui/app.py:37-42 | selecting the current id changes nothing; another id becomes current, with the result cleared, `is_running` false and the input data `{}` |
| UiSession.SessionState.RunUseCase | ui/app.py:44-56 | with no use case selected nothing changes; otherwise the result is the manager's record for the current id and input data, and `is_running` ends false |
| UiSession.SessionState.Submit | ui/app.py:114-130 | the assembled input is saved, with `query` always present and `transactions`, holding the parsed JSON, only for the fraud-detection use case with valid JSON; the invalid-JSON flag is raised exactly for the fraud-detection use case with transaction text that does not parse, and then `query` alone is saved; the use case is then run |
| NullBytes.Occurrences | fix_null_bytes.py:14 | a byte occurs zero times exactly when it is not in the content |
| NullBytes.RemoveNulls | fix_null_bytes.py:17 | the result has no 0x00 byte, is shorter by the number of 0x00 bytes, keeps the count of every other byte, and is the content itself when there was no 0x00 |
| NullBytes.RemoveNullsAppend | fix_null_bytes.py:17 | removal distributes over concatenation, so every non-zero byte keeps its place in order |
| NullBytes.RemoveNullsIdempotent | fix_null_bytes.py:17 | removing null bytes twice is the same as once |
| NullBytes.AfterFix | fix_null_bytes.py:14-25 | fixing one path keeps the set of files and leaves every other file unchanged |
| NullBytes.FixIdempotent | fix_null_bytes.py:14-25 | a second `fix_file` on a fixed file reports False and changes nothing |
| NullBytes.FileSystem.FixFile | fix_null_bytes.py:6-28 | returns True exactly when the file is readable and writable and held a 0x00 byte, and then holds the content without them; otherwise False and no write |
| NullBytes.FileSystem.ScanDirectory | fix_null_bytes.py:30-41 | the count and the files after the walk are those of `ScanAll` over the walk |
| NullBytes.ScanCountBound | fix_null_bytes.py:30-41 | the count is at most the number of `.py` files walked, and the set of files is unchanged |
| NullBytes.ScanCleans | fix_null_bytes.py:34-39 | every writable walked `.py` file ends without null bytes, and files not walked as `.py` are untouched |
| NullBytes.ScanCountExact | fix_null_bytes.py:34-41 | when no path is walked twice, the count is exactly the number of walked writable `.py` files holding a 0x00 byte |
| Graphs.Merge | project/examples/use_cases/use_case_08/src/main.py:25-26 | `add_node(n, **attrs)` on an attribute map adds `n`, overwrites the given keys of `n`, keeps its other keys and leaves other nodes alone |
| Graphs.NodeAdded | examples/knowledge_graph_example.py:32 | `add_node` appends a new node at the end of the node order, keeps an existing one in place, merges its attributes, and keeps every adjacency list |
| Graphs.EdgeAdded | examples/knowledge_graph_example.py:35 | `add_edge` adds missing ends; an existing edge changes nothing; a new edge is appended to the neighbour list of both ends (once for a self-loop); other lists are unchanged |
| Graphs.EdgeAddedSwap | project/examples/use_cases/use_case_08/src/main.py:27 | on an undirected graph `add_edge(v, u)` has the same effect as `add_edge(u, v)` once both nodes exist |
| Graphs.Linked | examples/knowledge_graph_example.py:35 | linking two nodes adds exactly the two directed pairs of that edge to the edge set |
| Graphs.OfType | examples/knowledge_graph_example.py:41 | filtering nodes by `type` keeps exactly the nodes of that type, without introducing duplicates |
| Graphs.OfTypeOne | examples/knowledge_graph_example.py:41 | one node is kept exactly when its `type` matches |
| Graphs.OfTypeAppend | examples/knowledge_graph_example.py:41 | the filter keeps the order of its input: filtering `a + b` is filtering `a`, then filtering `b` |
| Graphs.OfTypeTwo | examples/knowledge_graph_example.py:41 | two nodes that both have the wanted type are both kept, in their order |
| Graphs.Graph.constructor | examples/knowledge_graph_example.py:27 | `nx.Graph()` is empty |
| Graphs.Graph.AddNode | examples/knowledge_graph_example.py:32 | the graph after the call is `NodeAdded` of the graph before |
| Graphs.Graph.AddEdge | examples/knowledge_graph_example.py:35 | the graph after the call is `EdgeAdded` of the graph before |
| GraphSteps.AllPutShape | examples/use_cases/use_case_09/main.py:19-21 | a loop of `add_node` calls adds no edge, keeps every adjacency list, and adds exactly the named nodes |
| GraphSteps.AllPutAttrs | project/examples/use_cases/use_case_04/src/main.py:23-24 | after a loop of `add_node` calls, every attribute is the last value written to it, else the value before the loop |
| GraphSteps.AllPutAppend | examples/use_cases/use_case_09/main.py:23-24 | adding two lists of nodes one after the other is the same as adding their concatenation |
| GraphSteps.PutNodesSnoc | project/examples/use_cases/use_case_04/src/main.py:23-24 | one more `add_node` appends its node to the node list unless the node is already there |
| GraphSteps.TwoPutNodes | project/examples/use_cases/use_case_04/src/main.py:23-24 | two `add_node` calls on different names, starting from an empty graph, give exactly those two nodes in call order |
| GraphSteps.Attached | project/examples/use_cases/use_case_07/src/main.py:24-26 | adding two nodes and the edge between them merges both attribute maps, in order, and adds exactly that edge |
| GraphSteps.AttachedNodes | project/examples/use_cases/use_case_07/src/main.py:24-26 | the node order grows by the first end, then the second, each only when new |
| GraphSteps.AttachedAdjacency | project/examples/use_cases/use_case_07/src/main.py:26 | a new edge appends the other end to the first end's neighbours; nodes not named keep their neighbours |
| GraphSteps.NodeAddedAdjacent | examples/knowledge_graph_example.py:32 | `add_node(n)` leaves the neighbours of every other node as they were |
| GraphSteps.EdgeAddedOther | examples/knowledge_graph_example.py:35 | `add_edge(u, v)` leaves the neighbours of every node other than `u` and `v` as they were |
| GraphSteps.EdgeAddedEnd | examples/knowledge_graph_example.py:35 | `add_edge(u, v)` appends `u` to the neighbours of `v` unless they are joined already |
| GraphSteps.AllAttachedShape | project/examples/use_cases/use_case_07/src/main.py:22-26 | after the loop an edge exists exactly when it existed before or some record joins its ends, and a node exists exactly when it existed before or some record names it |
| GraphSteps.AllAttachedAttrs | project/examples/use_cases/use_case_07/src/main.py:22-26 | after the loop every attribute is the last value written to it, else the value before the loop |
| GraphSteps.RepeatAddsNothing | project/examples/use_cases/use_case_07/src/main.py:24-26 | a record whose edge already exists adds no node and no edge |
| NeighbourOrder.NewNeighbour | project/examples/use_cases/use_case_07/src/main.py:26 | a record joining `a` to a node it is not yet adjacent to appends that node to the neighbours of `a` |
| NeighbourOrder.Untouched | project/examples/use_cases/use_case_07/src/main.py:24-26 | a record naming neither end leaves a node's neighbours unchanged |
| NeighbourOrder.ReturningEnd | project/examples/use_cases/use_case_07/src/main.py:35-38 | when the first and third of three records join `a` to two nodes and the middle one does not name them, the neighbours of `a` are those two nodes in record order |
| NeighbourOrder.TwoEnds | project/examples/use_cases/use_case_08/src/main.py:31-33 | when two records join the same `a` to two different nodes, the neighbours of `a` are those nodes in record order |
| NeighbourOrder.TwoNodes | project/examples/use_cases/use_case_08/src/main.py:31-33 | two new records sharing `a` append `a` and their two other ends to the node order, in that order |
| NeighbourOrder.TwoApart | examples/use_cases/use_case_10/src/main.py:41-44 | two records naming four new, different nodes append them in the order named |
| NeighbourOrder.TwoAttrs | project/examples/use_cases/use_case_08/src/main.py:24-26 | two records write their attributes in order: the first record's two ends, then the second's |
| KeywordGraph.Tokens | examples/knowledge_graph_example.py:33 | `set(content.lower().split())` holds non-empty, space-free, lower-case words, and is empty exactly when the content is all whitespace |
| KeywordGraph.TokensOfJoin | examples/knowledge_graph_example.py:33 | the tokens of plain lower-case words joined by spaces are exactly those words |
| KeywordGraph.CapitalNotToken | examples/knowledge_graph_example.py:33 | a string starting with a capital letter is never a token |
| KeywordGraph.KnowledgeGraphAgent.constructor | examples/knowledge_graph_example.py:26-27 | the agent starts with an empty graph and the token type of its use case ("keyword", or "method" in use case 5) |
| KeywordGraph.KnowledgeGraphAgent.AddDocument | examples/knowledge_graph_example.py:31-35 | one document types its title "document", types each distinct token and links the title to it, whatever order the set is walked in; every node other than the title gains the title as its last neighbour when it is a token of the document and not yet joined to the title, and otherwise keeps its neighbours |
| KeywordGraph.KnowledgeGraphAgent.AddTokens | examples/knowledge_graph_example.py:33-35 | the token loop takes each token of the set exactly once |
| KeywordGraph.KnowledgeGraphAgent.Ingest | examples/knowledge_graph_example.py:29-35 | the graph after `ingest` has the order-free view `IngestView` of the documents, and the old node order is a prefix of the new one; a node that is no document's title ends with its old neighbours followed by the titles of the documents that mention it, in document order, each once |
| KeywordGraph.TokenAddedAdjacent | examples/knowledge_graph_example.py:34-35 | one pass of the token loop gives a node other than the title the title as a new last neighbour when the word is that node and the two were not yet joined, and otherwise leaves its neighbours alone |
| KeywordGraph.WalkedAdjacent | examples/knowledge_graph_example.py:33-35 | whatever order the token set is walked in, a node other than the title gains the title as a neighbour, at the end, exactly when it is one of the tokens |
| KeywordGraph.TitlesMentioningMembers | examples/knowledge_graph_example.py:31-35 | the neighbours `ingest` leaves a non-title node are its old ones and the titles of the documents that mention it, without repeats |
| KeywordGraph.IngestEdges | examples/knowledge_graph_example.py:29-35 | after `ingest` an edge exists exactly when it existed before or links a title to one of that document's tokens |
| KeywordGraph.IngestAttrs | examples/knowledge_graph_example.py:32-34 | after `ingest` a node's `type` is the last value written to it, else it is unchanged |
| KeywordGraph.LaterTokenWins | examples/knowledge_graph_example.py:32-34 | a token not used as a later title ends typed as a token |
| KeywordGraph.LaterTitleWins | examples/knowledge_graph_example.py:32-34 | a title that no later document has as a token ends typed "document" |
| KeywordGraph.IngestIdempotent | examples/knowledge_graph_example.py:29-35 | ingesting the same documents twice gives the same edges and types as once |
| KeywordGraph.Reingested | project/examples/use_cases/use_case_01/src/main.py:22-27 | re-ingesting the same documents leaves nodes, node order, edges and types unchanged |
| KeywordGraph.BlankDocument | project/examples/use_cases/use_case_01/src/main.py:24-25 | a document with empty or whitespace-only content adds its title node and no edge |
| KeywordGraph.TitleFound | project/examples/use_cases/use_case_02/src/main.py:22-32 | a title still typed "document" is linked to every token of its content |
| KeywordGraph.KnowledgeGraphAgent.Query | examples/knowledge_graph_example.py:37-41 | an absent keyword gives `[]`; the result holds exactly the neighbours typed "document", each once; the argument is not lower-cased |
| KeywordGraph.Keywords | examples/use_cases/use_case_03/main.py:29 | the keyword list holds exactly the keyword-typed nodes, each once |
| KeywordGraph.RowMembers | examples/use_cases/use_case_03/main.py:31-33 | the inner loop yields exactly the pairs `(a, b)` with `b` a later keyword and no edge, at most one per candidate, with no duplicates |
| KeywordGraph.PairsMembers | examples/use_cases/use_case_03/main.py:30-33 | the double loop yields exactly the pairs of keywords `(ks[i], ks[j])`, `i < j`, with no edge between them |
| KeywordGraph.PairsCount | examples/use_cases/use_case_03/main.py:30-34 | the pairs are distinct, and there are at most as many as there are keyword pairs, with equality when no two keywords are linked |
| KeywordGraph.MissingLinksMembers | examples/use_cases/use_case_03/main.py:27-34 | a suggestion is exactly a keyword pair, in node order, without an edge |
| KeywordGraph.MissingLinksShape | examples/use_cases/use_case_03/main.py:29-33 | suggestions are distinct, never self-pairs, never reversed, never already linked, and join two keyword-typed nodes |
| KeywordGraph.MissingLinksCount | examples/use_cases/use_case_03/main.py:29-34 | for k keywords there are at most k(k-1)/2 suggestions, and exactly that many when no two keywords are linked |
| KeywordGraph.KnowledgeGraphAgent.SuggestNewLinks | examples/use_cases/use_case_03/main.py:27-34 | the double loop returns `MissingLinks` of the graph and does not change the graph |
| KeywordGraph.KnowledgeGraphAgent.RecommendMethods | project/examples/use_cases/use_case_05/src/main.py:29-31 | the result is strictly ascending and holds exactly the method-typed nodes |
| KeywordExamples.NeighbourAfterIngest | examples/knowledge_graph_example.py:29-41 | from an empty graph, a node is a document neighbour of a keyword exactly when some document links them and the node's last type is "document" |
| KeywordExamples.TypedAfterIngest | examples/knowledge_graph_example.py:32-34 | from an empty graph, a node has a type exactly when it was last written with that type |
| KeywordExamples.BothLink | examples/use_cases/use_case_06/main.py:26-39 | when both documents contain the topic and their titles are capitalised, the references are exactly the two titles |
| KeywordExamples.SecondOnly | examples/knowledge_graph_example.py:44-54 | when only the second document contains the keyword, the answer is exactly its title |
| KeywordExamples.TokenTyped | project/examples/use_cases/use_case_05/src/main.py:22-27 | with capitalised titles, a node is method-typed exactly when it is a token of one of the documents |
| KeywordExamples.KnowledgeGraphExample | examples/knowledge_graph_example.py:44-54 | `main` finds `["Research Agents"]` for "research" |
| KeywordExamples.GrantProposalExample | examples/use_cases/use_case_06/main.py:32-39 | `main` prints `["Funding Strategies", "Knowledge Graph Benefits"]` for "research", in that order |
| KeywordExamples.ExperimentDesignExample | project/examples/use_cases/use_case_05/src/main.py:34-41 | `main` prints `["and", "apply", "centrality", "cnn", "networkx", "torch", "use"]` |
| KeywordExamples.SuggestedSorted | project/examples/use_cases/use_case_05/src/main.py:31 | the expected method list is strictly ascending |
| LiteratureReview.Snippet | project/examples/use_cases/use_case_04/src/main.py:27 | `content[:50]` is a prefix of the content of length min(50, len) |
| LiteratureReview.StoredWrites | project/examples/use_cases/use_case_04/src/main.py:23-24 | a node is written exactly when some document has that title; its `type` is "document" and its `content` is that of the last document with that title |
| LiteratureReview.IngestResult | project/examples/use_cases/use_case_04/src/main.py:23-24 | `ingest` adds no edge, adds exactly the titles, types them "document" and stores the last content written; other nodes keep their attributes |
| LiteratureReview.KnowledgeGraphAgent.Ingest | project/examples/use_cases/use_case_04/src/main.py:22-24 | the graph after `ingest` is the node-adding loop over the documents |
| LiteratureReview.Summary | project/examples/use_cases/use_case_04/src/main.py:26-27 | one item per document-typed node, in node order, with distinct keys; a node is a key exactly when it is typed "document"; each value is a prefix of the stored content of length min(50, len) |
| LiteratureReview.KnowledgeGraphAgent.Summarize | project/examples/use_cases/use_case_04/src/main.py:26-27 | `summarize()` is the summary of the agent's current graph, so its items come in node order |
| LiteratureReview.TwoContents | project/examples/use_cases/use_case_04/src/main.py:24 | of two documents, a title's content is the second's when it is the second title, else the first's |
| LiteratureReview.TwoStored | project/examples/use_cases/use_case_04/src/main.py:22-24 | ingesting two documents with different titles into an empty graph gives exactly their two title nodes, in document order, each typed "document" with its own content |
| LiteratureReview.ShortSummaries | project/examples/use_cases/use_case_04/src/main.py:26-27 | a graph of two document nodes whose contents are shorter than 50 is summarised as those two nodes, in node order, each with its whole content |
| LiteratureReview.LiteratureReviewExample | project/examples/use_cases/use_case_04/src/main.py:30-39 | `main` prints the two titles in ingest order, each with its full content, which is shorter than 50 |
| Collaboration.RoleWrites | project/examples/use_cases/use_case_07/src/main.py:24-25 | the only attribute written is `type`, and its last value is the role of the last record naming the node |
| Collaboration.IngestResult | project/examples/use_cases/use_case_07/src/main.py:22-26 | after `ingest` an edge exists exactly when it existed before or a record joins its ends, a node exists exactly when it existed before or a record names it, and its `type` is the last role written |
| Collaboration.EveryRecordLinked | project/examples/use_cases/use_case_07/src/main.py:26 | every researcher is adjacent to every institution it was recorded with, both ways |
| Collaboration.RepeatedRecord | project/examples/use_cases/use_case_07/src/main.py:24-26 | a repeated record adds no node and no edge |
| Collaboration.CollaborationAgent.Ingest | project/examples/use_cases/use_case_07/src/main.py:22-26 | the graph after `ingest` is the record loop over the old graph |
| Collaboration.CollaborationAgent.AddRecord | project/examples/use_cases/use_case_07/src/main.py:24-26 | one iteration adds the researcher, the institution and the edge between them |
| Collaboration.CollaborationAgent.FindInstitutions | project/examples/use_cases/use_case_07/src/main.py:28-31 | an unknown researcher gives `[]`; the result holds exactly the institution-typed neighbours, each once |
| Collaboration.ThreeRecords | project/examples/use_cases/use_case_07/src/main.py:35-39 | with the shape of `main`'s records, the neighbours of the first researcher are its two institutions in record order |
| Collaboration.InstitutionRoles | project/examples/use_cases/use_case_07/src/main.py:25 | both institutions of `main` end typed "institution" |
| Collaboration.ThreeInstitutions | project/examples/use_cases/use_case_07/src/main.py:31-39 | for `main`'s shape, filtering the researcher's neighbours by type gives the two institutions in record order |
| Collaboration.CollaborationExample | project/examples/use_cases/use_case_07/src/main.py:34-42 | `main` prints `["University A", "Research Lab X"]` for Alice |
| Ontology.EntryWrites | project/examples/use_cases/use_case_08/src/main.py:25-26 | the last `dataset` written to a node is that of the last entry with that term; a node named as a dataset gets `type` "dataset"; nothing else is written |
| Ontology.IngestResult | project/examples/use_cases/use_case_08/src/main.py:23-27 | after `ingest` an edge exists exactly when it existed before or an entry joins its ends, a node exists exactly when it existed before or an entry names it, and its attributes are the last ones written |
| Ontology.EveryEntryLinked | project/examples/use_cases/use_case_08/src/main.py:27 | every entry's term is adjacent to its dataset, both ways |
| Ontology.DatasetTyped | project/examples/use_cases/use_case_08/src/main.py:26 | every dataset node has `type` "dataset" |
| Ontology.IdIgnored | project/examples/use_cases/use_case_08/src/main.py:23-27 | two entry lists that differ only in `id` build the same graph |
| Ontology.TermNeighbour | project/examples/use_cases/use_case_08/src/main.py:25-27 | from an empty graph, a term that is never a dataset is adjacent exactly to the datasets of its entries |
| Ontology.SharedTerm | project/examples/use_cases/use_case_08/src/main.py:25-27 | a term shared by n distinct datasets, and never itself a dataset, is a single node with exactly those n neighbours |
| Ontology.OntologyAgent.Ingest | project/examples/use_cases/use_case_08/src/main.py:23-27 | the graph after `ingest` is the entry loop over the old graph |
| Ontology.OntologyAgent.AddEntry | project/examples/use_cases/use_case_08/src/main.py:25-27 | one iteration adds the term and the dataset and joins them; `add_edge(dataset, term)` has the same effect as joining term to dataset |
| Ontology.PairNodes | project/examples/use_cases/use_case_08/src/main.py:31-36 | two entries sharing a term with two different datasets give the node order term, first dataset, second dataset |
| Ontology.PairData | project/examples/use_cases/use_case_08/src/main.py:31-36 | for those two entries the term's `dataset` is the second dataset and both datasets are typed "dataset" |
| Ontology.PairNeighbours | project/examples/use_cases/use_case_08/src/main.py:31-36 | for those two entries the term's neighbours are the two datasets in entry order |
| Ontology.MainEntries | project/examples/use_cases/use_case_08/src/main.py:31-34 | `main`'s entries build nodes protein, bio, chem, with protein's dataset "chem" and neighbours bio then chem |
| Ontology.OntologyExample | project/examples/use_cases/use_case_08/src/main.py:30-37 | `main` prints the nodes protein `{dataset: chem}`, bio `{type: dataset}`, chem `{type: dataset}`, in that order |
| CrossField.FiledWrites | examples/use_cases/use_case_10/src/main.py:22-23 | the last `field` written to a node is that of the last document with that title; a node named as a field gets `type` "field"; nothing else is written |
| CrossField.IngestResult | examples/use_cases/use_case_10/src/main.py:20-24 | after `ingest` edges, nodes and attributes are those written by the documents, on top of the old graph |
| CrossField.EveryDocumentFiled | examples/use_cases/use_case_10/src/main.py:22-24 | every title is adjacent to its field, both ways, and the field node is typed "field" |
| CrossField.FiledFielded | examples/use_cases/use_case_10/src/main.py:22-23 | every node not typed "field" has a `field` attribute before and after one document, so `data1["field"]` never fails |
| CrossField.RowMember | examples/use_cases/use_case_10/src/main.py:32-36 | the inner loop yields exactly the pairs `(doc1, doc2)` with `doc2` not a field, different from `doc1`, and with a different `field` |
| CrossField.RowsMember | examples/use_cases/use_case_10/src/main.py:29-36 | the outer loop yields exactly the rows of the non-field nodes |
| CrossField.LinksMember | examples/use_cases/use_case_10/src/main.py:26-37 | `(a, b)` is a link exactly when both are nodes, `a != b`, neither is typed "field" and their `field` attributes differ |
| CrossField.LinksSymmetric | examples/use_cases/use_case_10/src/main.py:29-36 | `(a, b)` is a link exactly when `(b, a)` is |
| CrossField.OneField | examples/use_cases/use_case_10/src/main.py:35 | when every document has the same field there are no links |
| CrossField.AppendRow | examples/use_cases/use_case_10/src/main.py:32-36 | the inner loop appends exactly the row of `doc1` to the links |
| CrossField.ConnectionAgent.CrossFieldLinks | examples/use_cases/use_case_10/src/main.py:26-37 | the double loop returns `Links` over the node order and attributes |
| CrossField.ConnectionAgent.Ingest | examples/use_cases/use_case_10/src/main.py:20-24 | the graph after `ingest` is the document loop over the old graph, and every non-field node keeps a `field` attribute |
| CrossField.ConnectionAgent.AddDocument | examples/use_cases/use_case_10/src/main.py:22-24 | one iteration adds the title, the field and the edge between them |
| CrossField.ApartGraph | examples/use_cases/use_case_10/src/main.py:41-46 | two documents with four different names give node order title, field, title, field and their attributes |
| CrossField.ApartLinks | examples/use_cases/use_case_10/src/main.py:29-36 | over title, field, title, field with different fields the links are the two titles in both orders |
| CrossField.CrossFieldExample | examples/use_cases/use_case_10/src/main.py:40-47 | `main` prints `[("Graph Mining", "Protein Analysis"), ("Protein Analysis", "Graph Mining")]` |
| ResearchUpdates.AddedWrites | examples/use_cases/use_case_09/main.py:19-21 | a node is written exactly when it is a title, and only its `type`, as "document" |
| ResearchUpdates.IngestResult | examples/use_cases/use_case_09/main.py:19-21 | `ingest` adds no edge, keeps the old node order as a prefix, adds exactly the titles typed "document", and leaves every other attribute as it was |
| ResearchUpdates.ContentIgnored | examples/use_cases/use_case_09/main.py:21 | two document lists with the same titles build the same graph |
| ResearchUpdates.ReAdd | examples/use_cases/use_case_09/main.py:21 | re-adding an existing title leaves the node order unchanged, and the whole graph when it is already typed "document" |
| ResearchUpdates.MonitorAfterIngest | examples/use_cases/use_case_09/main.py:23-24 | ingesting, then `monitor_and_add(d)`, equals ingesting the documents followed by `d` |
| ResearchUpdates.UpdateAgent.Ingest | examples/use_cases/use_case_09/main.py:19-21 | the graph after `ingest` is the node-adding loop over the documents |
| ResearchUpdates.UpdateAgent.MonitorAndAdd | examples/use_cases/use_case_09/main.py:23-24 | `monitor_and_add(d)` changes the graph exactly as `ingest([d])` |
| ResearchUpdates.ResearchUpdatesExample | examples/use_cases/use_case_09/main.py:28-33 | `main` ends with the nodes `["Start", "New Research"]` |

## Left out

- Streamlit rendering is not modelled: page configuration, the sidebar, forms, spinner, result display and footer of ui/app.py. Only the session-state transitions and the input assembly are.
- `os.listdir`, `os.path`, file reads and writes and `os.walk` are inputs, as listed above. A README that exists but cannot be opened or decoded as UTF-8 is not modelled. In the program, `open` or `read` at ui/core.py:34-35 raises, the `except` at ui/core.py:54-55 prints an error, and the directory gets no entry at all. The model's input has no such case: a README is either read text or absent. If such a directory were given to the model as having no README, it would store an entry with the inherited title and "No description available", which the program never produces.
- `importlib.import_module`, `importlib.reload` and `redirect_stdout` are inputs: an `Import` outcome and the captured output carried by a `CallOutcome`. An exception of a subclass of `Exception` raised inside `run` or `kickoff` is a `Raised` outcome.
- UseCaseCore.Execute: the `except Exception` at ui/core.py:110 does not catch `BaseException` subclasses such as `SystemExit` or `KeyboardInterrupt`; those propagate out of the runner, and the model, which has no outcome for them, does not capture that.
- The error messages that `_load_use_cases`, `fix_file` and `monitor_and_add` print, and every print in the `main` functions, are not modelled. Each example method instead returns the value that `main` prints, in the order it prints it. For use case 4 that is the list of (title, snippet) items that `summarize()` returns and `main` prints one per line.
- The crewai and Ollama use-case scripts under projects/ and the top-level use-case directories are not modelled. Their result comes from `crew.kickoff()`, which is outside the repository. The same goes for projects/utils.py, run_ui.py and the tests.
- Strings are ASCII: `lower()`, `split()`, `strip()` and `title()` are modelled on ASCII letters and on the ASCII characters `str.isspace()` accepts. Python's Unicode rules for them are not.
- Python's set iteration order in `ingest` depends on string hashes. `KeywordGraph.KnowledgeGraphAgent.Ingest` takes the tokens in an unspecified order. It states its result on the order-free view of the graph: node set, attributes and edge set, with the old node order kept as a prefix. The order of the new nodes, and of the neighbour lists of nodes that are document titles, is therefore not stated. The neighbour list of a node that is no document's title is stated: the titles of the documents that mention it come in document order, whatever the set order. For the same reason the `main` functions of use cases 1 and 3 have no example member: they print node, edge and suggestion lists in that order.
- KeywordGraph.KnowledgeGraphAgent.Query: it states which neighbours are returned, not their order. That order is the neighbour order. For a keyword that is no document's title it is document order, as `Ingest` states. For a node that is itself a title it depends on the set order above.
- The loop bodies of `_load_use_cases` and of the graph agents are factored into methods of their own (`LoadEntry`, `AddDocument`, `AddTokens`, `AddToken`, `AddRecord`, `AddEntry`, `AppendRow`). Each is called once per iteration, as in the source.
- Ontology.OntologyAgent.AddEntry: the source calls `add_edge(dataset, term)`. The model joins term to dataset, which `Graphs.EdgeAddedSwap` shows has the same effect once both nodes exist.
- The `fields` list built at examples/use_cases/use_case_10/src/main.py:27 is never used, and the model does not build it.
- Ontology.SharedTerm: stated for a term that is never also a dataset name. When it is, the term's neighbours also include the terms whose dataset it is.
- The networkx graph class is modelled only as far as these scripts use it: `add_node`, `add_edge`, `neighbors`, `has_edge`, `nodes` and `nodes[n]`. The networkx library itself is not part of this model.
