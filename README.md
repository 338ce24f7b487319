# BeTransparent core, modelled in Dafny

This project models the deterministic logic of the YANA requirement-to-UI pipeline. In that pipeline a requirement text goes through a chain of LLM calls and ends up as a normalised bundle of flows, steps, UI components, links and transitions. That bundle is turned into a UI graph, and a SQLite store of embeddings supplies retrieval context. The LLM and embedding calls are opaque. What can be modelled and proved is the code around them:

- **UI graph builder** (`build_ui_graph`, module `UiGraph`):
  - a step index and a component index, both with Python `dict` ordering (module `Dicts`);
  - the step-component lists, with placeholders and the `"primary"` default role;
  - flow attribution through `node_id[` tokens;
  - one node per step, with its description;
  - one edge per resolvable transition;
  - the merged Mermaid text, either the LLM blocks under a single `flowchart TD` header or a fallback diagram built from the nodes and edges.
- **Embedding seeding** (`ensure_embeddings_for_all`, module `Seeding`):
  - a class `EmbeddingStore` holding the records of the `embeddings` table;
  - one pass over documents, flows, steps and components;
  - the canonical content strings and their skip rules;
  - insert-only-what-is-missing and idempotence.
- **Retrieval** (`semantic_search_context_for_brd` and `semantic_search_components`, modules `Ranking` and `Retrieval`):
  - the content-type filter;
  - scoring with an opaque similarity;
  - a stable descending sort;
  - the `[:top_k]` slice;
  - the `[KIND CODE:NAME] (similarity=X) :: content` line grammar joined by `"\n"`.
- **SQL construction in the MCP tools** (module `Tools`):
  - the `list_ui_components` query and its parameters;
  - the `IN (?,?,…)` placeholder lists of `get_flow_bundle` and `get_step_details`, with their `[-1]` fallback;
  - the component pairing of `get_step_details`.
  - The rows these queries return are records in module `Tables`.
- **Web front ends** (module `Cleaners`):
  - `clean_html_response`;
  - `clean_llm_json_response`, including the `\{.*\}` search;
  - the `~~~\n\n` report splitting;
  - the default-query guard of `/api/search`.

Seeding and search are duplicated between `yana.py` and `yana_pipeline.py`: seeding at yana.py:400-654 and yana_pipeline.py:265-519, the search at yana.py:658-729 and yana_pipeline.py:523-594. The two copies have the same logic, so they are modelled once, and the table cites the `yana_pipeline.py` copy. The same `/api/search` guard appears at server/app.py:129-133 and server/application.py:121-123.

External effects become parameters of the model:
- `embed_text` becomes `embed: string -> seq<real>`;
- `cosine_similarity` becomes `sim`;
- `json.loads` becomes `parse`;
- `%.3f` becomes `fmt`;
- the pipeline run behind `/api/search` becomes `runPipeline`.

## Model

| member | source | states |
|---|---|---|
| Dicts.Put | yana.py:871 | assigning `d[k] = v` stores `v` under `k`; a new key is appended to the key order, an existing one keeps its position |
| Dicts.FromItemsKeys | yana.py:861 | a dict built by a loop over items iterates its keys in order of first occurrence, each key once |
| Dicts.FromItemsHas | yana.py:861 | a key is present exactly when some item carries it |
| Dicts.FromItemsLast | yana.py:861 | the value stored under a key is the one built from the last item carrying that key |
| UiGraph.StepsBySlugContents | yana.py:861 | `steps_by_slug` has the distinct slugs in first-occurrence order, and maps each slug to the last step with that slug |
| UiGraph.IndexComponents | yana.py:864-871 | the loop builds exactly the component index `ComponentIndex` |
| UiGraph.ComponentIndexContents | yana.py:864-871 | a key is indexed exactly when some component has it as its non-empty `slug`, or failing that its non-empty `key`; later duplicates overwrite earlier ones; every indexed component has a `key` field |
| UiGraph.LinkEntries | yana.py:887-896 | one entry per component key of the link |
| UiGraph.LinkEntriesShape | yana.py:881-896 | a `component_slugs` list gives one entry per listed key and takes precedence over `component_key`; a link with neither gives no entries; the role defaults to `"primary"`; an unindexed key gives a placeholder whose key and name are the key and whose description is empty; an indexed key gives that component's `key` and its name, or the key when it has none |
| UiGraph.LinkComponents | yana.py:874-896 | `step_to_components` has exactly the known step slugs as keys; each slug's list holds the entries of that slug's links, in link order; a link to an unknown step contributes nothing |
| UiGraph.AddFlow | yana.py:914-918 | the flow is added to exactly those steps whose `node_id[` token occurs in the diagram; other entries stay as they were |
| UiGraph.AttributeFlows | yana.py:898-918 | each step's set holds exactly the flow slugs of the entries that read as objects with a non-empty flow slug and diagram, where the diagram contains the step's token |
| UiGraph.SortFlows | yana.py:925 | `sorted(...)` of a set of flows is the strictly ascending list of exactly its members |
| UiGraph.ComponentLines | yana.py:932-935 | one `- name: description.strip()` bullet per component, in order |
| UiGraph.NonEmpty | yana.py:941 | the filter `p for p in parts if p` keeps no empty part |
| UiGraph.DescriptionPartsFilled | yana.py:927-939 | no description part is empty; there is none exactly when the step has no description, no components and no normalisation notes |
| UiGraph.NodeDescriptionShape | yana.py:927-941 | a node's description is its parts joined by `"\n\n"`, and it is `""` exactly when the step has no description, no components and no notes |
| UiGraph.BuildNode | yana.py:922-952 | the loop body builds the node of a step: its id, slug, title, sorted flows, description and components |
| UiGraph.BuildNodes | yana.py:921-952 | one node per key of the step index, in index order, each built from that step |
| UiGraph.BuildEdges | yana.py:954-976 | the loop builds exactly `Edges(steps, transitions)` |
| UiGraph.EdgesConcat | yana.py:956-976 | edges are emitted per transition, in input order; a concatenation of transitions gives the concatenation of their edges |
| UiGraph.EdgesOfTransitions | yana.py:956-976 | a transition gives an edge exactly when both its slugs are non-empty and known steps; that edge maps the slugs to node ids and defaults trigger and condition to `""`; there are never more edges than transitions |
| UiGraph.BodyLines | yana.py:988 | a line is kept exactly when it is a line of the diagram whose stripped form does not start with `flowchart ` |
| UiGraph.BodyLinesConcat | yana.py:988 | the filter keeps the diagram's order: the body lines of two runs of lines are those of the first, then those of the second |
| UiGraph.MergeBlocks | yana.py:980-990 | the merge loop collects exactly `Blocks(read, entries)` |
| UiGraph.BlockLines | yana.py:983-990 | a block splits at `"\n"` into the diagram's non-header lines; it keeps at least one line and no header line |
| UiGraph.BlocksPresentIff | yana.py:980-992 | there are merged blocks exactly when some entry has a diagram that keeps a line after header removal; every block comes from such an entry |
| UiGraph.FallbackLines | yana.py:997-1019 | the fallback has one header line, one line per node and one line per edge |
| UiGraph.BuildFallbackLines | yana.py:997-1021 | the fallback loops build `flowchart TD`, then one `id["title"]` declaration per node with quotes escaped, then one arrow line per edge, labelled with its non-empty trigger and condition joined by a bar, or unlabelled (`from --> to`) when both are empty |
| UiGraph.FallbackDeclaresNodes | yana.py:997-1021 | the fallback text starts with `flowchart TD`; line 1+k declares node k, and line 1+n+k is edge k; every node's `id[` token occurs in the text |
| UiGraph.IndexedComponents | yana.py:1027 | `list(comps_by_key.values())` lists the indexed components in key order |
| UiGraph.GraphOf | yana.py:844-1032 | the reference value of the builder: the indexed components, one node per distinct step slug, one edge per resolvable transition, and the merged or fallback Mermaid text, with diagram entries read one way for flow attribution and another for the merge |
| UiGraph.BuildUiGraphAsWritten | yana.py:898-990 | the builder as written: attribution reads an entry through `json.loads`, which skips an object entry, and the merge reads it with `.get`, so only bundles whose entries are all objects return |
| UiGraph.BuildUiGraph | yana.py:844-1032 | the builder, reading every diagram entry as an object (a JSON text parsed, an object taken as is), returns `GraphOf` of the bundle |
| UiGraph.GraphNodesFollowSteps | yana.py:861-952 | exactly one node per distinct step slug, in first-occurrence order; each node shows the last step with its slug; the id is `mermaid_node_id` when truthy, else the slug; the title is the name, else the slug; the components are that slug's link entries |
| UiGraph.GraphNodeFlows | yana.py:898-925 | a node's `flows` is strictly sorted and holds flow f exactly when some entry reads as an object with flow slug f whose non-empty diagram contains the node's token |
| UiGraph.GraphMermaid | yana.py:992-1021 | the text starts with `flowchart TD`; with blocks it is that header, a newline and the blocks joined by `"\n"`; without blocks, every node's token occurs in it |
| UiGraph.AsWrittenAttributesNoFlows | yana.py:901-907 | as written (the merge succeeds only on object entries, and `json.loads` rejects objects), no node is ever given a flow |
| UiGraph.AsWrittenDropsDeclaredFlow | yana.py:901-918 | on a one-step bundle whose single diagram `a[A]` declares flow `f`, the as-written builder gives the node no flows, while the corrected builder gives it `["f"]` |
| Seeding.DocContentType | yana_pipeline.py:302-307 | a document's content type is `brd_summary` or `guideline_summary` |
| Seeding.DocContentTypeIsBrd | yana_pipeline.py:302-307 | the type is `brd_summary` exactly when `doc_type` (missing counts as `""`) begins with b, r, d in either case |
| Seeding.BlankDocumentHasNoContent | yana_pipeline.py:312-317 | a document with blank title and body has empty content, so it is skipped |
| Seeding.FlowContentParts | yana_pipeline.py:362-368 | a flow's content parts start with `Flow slug (name)` |
| Seeding.FlowContentNonEmpty | yana_pipeline.py:357-372 | a flow's content is never empty, since it starts with `F`, so a missing flow is always inserted |
| Seeding.StepContentNonEmpty | yana_pipeline.py:415-430 | a step's content is never empty, since it starts with `S` |
| Seeding.ComponentContentNonEmpty | yana_pipeline.py:470-486 | a component's content is never empty, since it starts with `C` |
| Seeding.RecordOf | yana_pipeline.py:319-341 | an inserted record carries the candidate's (source type, source id, content type) and its content |
| Seeding.Plan | yana_pipeline.py:295-510 | the records one intended pass inserts: candidates in loop order, each inserted unless its triple is already present or was inserted earlier in the pass, or its content is empty |
| Seeding.PlanInsertsOnlyMissing | yana_pipeline.py:309-317 | a pass inserts only records whose triple was absent and whose content is non-empty, and never the same triple twice |
| Seeding.PlanCoversCandidates | yana_pipeline.py:265-271 | after a pass, every candidate with non-empty content has its triple present |
| Seeding.PlanRecordsFromCandidates | yana_pipeline.py:319-341 | every inserted record is the record of some candidate |
| Seeding.PlanOfCoveredIsEmpty | yana_pipeline.py:309-310 | a pass over a store that already covers every candidate inserts nothing |
| Seeding.SeedingIdempotent | yana_pipeline.py:266-271 | a second pass over the store left by a first pass inserts nothing |
| Seeding.PassCoversDocuments | yana_pipeline.py:295-341 | every document with non-empty content has its `documents` triple, with the right content type, after a pass |
| Seeding.PassCoversFlows | yana_pipeline.py:347-396 | every flow has its `flow_summary` triple after a pass |
| Seeding.PassCoversSteps | yana_pipeline.py:402-454 | every step has its `step_description` triple after a pass |
| Seeding.PassCoversComponents | yana_pipeline.py:460-510 | every component has its `component_description` triple after a pass |
| Seeding.EmbeddingStore.HasEmbedding | yana_pipeline.py:275-287 | true exactly when a stored record has the triple |
| Seeding.EmbeddingStore.SeedCandidate | yana_pipeline.py:309-341 | it inserts exactly when the triple is absent and the content is non-empty, appending that one record and changing nothing else |
| Seeding.EmbeddingStore.SeedDocuments | yana_pipeline.py:295-341 | the corrected document loop, over every row, appends exactly the plan's records for the document candidates, and counts them |
| Seeding.EmbeddingStore.SeedFlows | yana_pipeline.py:347-396 | the corrected flow loop, over every row, appends exactly the plan's records for the flow candidates, and counts them |
| Seeding.EmbeddingStore.SeedSteps | yana_pipeline.py:402-454 | the corrected step loop, over every row, appends exactly the plan's records for the step candidates, and counts them |
| Seeding.EmbeddingStore.SeedComponents | yana_pipeline.py:460-510 | the corrected component loop, over every row, appends exactly the plan's records for the component candidates, and counts them |
| Seeding.EmbeddingStore.EnsureEmbeddingsForAll | yana_pipeline.py:265-512 | the corrected pass: the store gains exactly the plan's records over every row of the four tables, `created` is their number, and there is exactly one commit, after all four loops |
| Seeding.FirstRow | yana_pipeline.py:275-310 | the rows a loop over the shared cursor visits: only the first, because `has_embedding` re-executes the cursor being iterated |
| Seeding.AsWrittenCandidates | yana_pipeline.py:295-460 | the candidates the four loops as written visit: the first row of each table, in loop order |
| Seeding.EmbeddingStore.SeedTableAsWritten | yana_pipeline.py:275-341 | one row loop as written: after its first row the cursor has nothing more to yield, so the store gains exactly the plan's records for at most that row's candidate |
| Seeding.EmbeddingStore.SeedDocumentsAndFlowsAsWritten | yana_pipeline.py:295-396 | the documents and flows loops as written append exactly the plan's records for the first document and the first flow |
| Seeding.EmbeddingStore.SeedStepsAndComponentsAsWritten | yana_pipeline.py:402-510 | the steps and components loops as written then append exactly the plan's records for the first step and the first component |
| Seeding.EmbeddingStore.EnsureEmbeddingsForAllAsWritten | yana_pipeline.py:265-512 | as written, the store gains exactly the plan's records for the first row of each table, `created` is their number, and there is one commit |
| Seeding.AsWrittenSkipsSecondDocument | yana_pipeline.py:275-341 | as written, a second document with content and a new triple is left without its embedding by a pass over any store lacking it, so no later call seeds it; the corrected pass seeds it |
| Ranking.InsertRanked | yana_pipeline.py:560 | inserting into a ranked list adds exactly the one element |
| Ranking.Ranked | yana_pipeline.py:560 | sorting keeps the length and is a permutation of its input |
| Ranking.RankedIsNonIncreasing | yana_pipeline.py:560 | `sort(key=score, reverse=True)` orders scores non-increasingly |
| Ranking.RankedIsStable | yana_pipeline.py:560 | the sort is stable: it is the sort of the input numbered by position, and equal scores keep input order |
| Ranking.TopKProperties | yana_pipeline.py:560-561 | `[:top_k]` keeps `min(top_k, n)` items for a non-negative `top_k`; the kept items are a non-increasing prefix of the ranking, and none scores below an item left out |
| Ranking.TopKOutranks | yana_pipeline.py:560-561 | an input item that `[:top_k]` does not keep scores no higher than any kept item |
| Retrieval.Searched | yana_pipeline.py:544-552 | the kept rows are exactly the table rows with one of the five searched content types |
| Retrieval.ScoreOf | yana_pipeline.py:555-558 | a row scores exactly when its cell reads as a JSON vector (a string, or a blob that decodes), then carrying itself and its similarity to the query; otherwise its `BadEmbedding` error escapes |
| Retrieval.ScoreRow | yana_pipeline.py:555-558 | the scoring loop's body, one row at a time, as `ScoreOf` |
| Retrieval.Prefix | yana_pipeline.py:565-590 | the prefix is an error exactly when the source type is one of the four known tables and the row with that id is missing from it, and then the error names the source type and id |
| Retrieval.PrefixShape | yana_pipeline.py:565-590 | a successful prefix is one bracketed tag: for the four base tables it is `[DOC `, `[FLOW `, `[STEP ` or `[COMP ` followed by the looked-up row's code, `:` and name (`None` for a NULL column), and it is `[st id=sid]` for any other source type |
| Retrieval.LineOf | yana_pipeline.py:565-592 | a context line fails exactly when its prefix does, with the missing row's error; otherwise it opens with the prefix, then ` (similarity=` with the formatted score and `) :: `, and ends with the row's content |
| Retrieval.RenderLine | yana_pipeline.py:565-592 | the rendering loop's body, one kept row at a time, as `LineOf` |
| Retrieval.SearchContext | yana_pipeline.py:523-594 | the search as one value; it succeeds only when every searched row scores, and a `BadEmbedding` error is that of some searched row |
| Retrieval.SemanticSearchContextForBrd | yana_pipeline.py:523-594 | the scoring and rendering loops compute `SearchContext`, failing at the first unparsable embedding or missing row |
| Retrieval.SearchKeepsTopRows | yana_pipeline.py:544-561 | `min(top_k, n)` searched rows are kept, in non-increasing score order, each a table row with a searched content type |
| Retrieval.SearchContextIsJoinedLines | yana_pipeline.py:564-594 | the context is the rendered lines joined by `"\n"` with no trailing separator, one line per kept row; when no line holds a line break, splitting it at `"\n"` gives the lines back |
| Retrieval.ComponentJoin | yana_tools.py:249-257 | the join pairs exactly the component-description embeddings of `ui_components` with the components whose id is their source id |
| Retrieval.UsableHit | yana_tools.py:260-271 | a joined row yields a hit exactly when its stored embedding is a string that parses to a vector; the hit is the component's four columns scored by similarity to the query |
| Retrieval.RowHit | yana_tools.py:260-273 | the loop body raises exactly for a string embedding that does not parse to a vector or JSON null, with that row's error; otherwise it yields the row's usable hit, and a row whose embedding is not a string is skipped |
| Retrieval.Hits | yana_tools.py:259-273 | the loop succeeds exactly when no row raises, and then the hits are exactly one per usable joined row, in row order |
| Retrieval.SearchComponents | yana_tools.py:232-276 | the reference value of the component search: join, collect the usable rows' hits, rank, then `[:top_k]`; `SearchComponentsShape` states its properties |
| Retrieval.SemanticSearchComponents | yana_tools.py:232-276 | the hit loop, sort and slice compute `SearchComponents` |
| Retrieval.SearchComponentsShape | yana_tools.py:249-276 | `min(top_k, n)` of the `n` usable rows' hits for a non-negative `top_k`, in non-increasing similarity order, each from a joined component description with a string embedding; a usable row whose hit is not kept scores no higher than any kept hit |
| Retrieval.UsableRowsOutranked | yana_tools.py:259-276 | every usable joined row's hit is kept, or scores no higher than every kept hit |
| Retrieval.HitsFromJoin | yana_tools.py:249-273 | every collected hit comes from a joined component description whose stored embedding is a string |
| Tools.ListQuery | yana_tools.py:202-219 | the query text: the base `SELECT`, then the type clause for a truthy `type_filter`, then the three-way `LIKE` clause for a truthy `search` |
| Tools.ListParams | yana_tools.py:203-219 | the parameters: a truthy `type_filter`, then three `%search%` values for a truthy `search` |
| Tools.ListUiComponentsQuery | yana_tools.py:202-219 | the imperative query and parameter building equals `ListQuery` and `ListParams` |
| Tools.ListQueryBalanced | yana_tools.py:202-219 | the query has exactly as many `?` as there are parameters, and it extends the base query |
| Tools.ListParamsByFilter | yana_tools.py:203-219 | no filter means no parameters; a truthy `type_filter` adds exactly itself, first; a truthy `search` adds three identical `%search%` values |
| Tools.OrSentinel | yana_tools.py:72 | `ids or [-1]` is never empty, and is `[-1]` exactly for no ids |
| Tools.PlaceholdersMarks | yana_tools.py:81 | `",".join("?" * n)` holds n marks and has length 2n-1 |
| Tools.PlaceholdersAlternate | yana_tools.py:81 | the placeholder list alternates `?` and `,` |
| Tools.InQueryBalanced | yana_tools.py:86-93 | an `IN (...)` query binds exactly one value per `?` |
| Tools.TransitionsQueryBalanced | yana_tools.py:75-83 | the transitions query binds the flow id plus one step id per `?` |
| Tools.FlowBundleQueriesBalanced | yana_tools.py:72-104 | all three `get_flow_bundle` queries are balanced |
| Tools.FlowBundleBoundIds | yana_tools.py:72-104 | every `IN` list gets at least one id; the step ids, or `[-1]`, follow the flow id; the component ids are bound each exactly once, exactly the referenced ones, or `[-1]` |
| Tools.StepDetailsComponentQueryBalanced | yana_tools.py:146-155 | the step-details component query is balanced and binds every step-component id, or `[-1]` |
| Tools.EntriesFor | yana_tools.py:173-181 | the entries for one link are exactly the components with its id, each with its role |
| Tools.PairComponents | yana_tools.py:173-181 | an entry appears exactly when its component matches some step-component row and carries that row's role |
| Tools.EntriesForUnique | yana_tools.py:178-180 | with unique ids, a matching component gives exactly one entry |
| Tools.PairingFollowsStepOrder | yana_tools.py:172-181 | with unique ids and resolvable rows, one entry per step-component row, in that order, with that row's role |
| Cleaners.CleanHtmlResponse | server/app.py:59-66 | missing or empty text gives `""`; the result never contains a fence and has no surrounding whitespace |
| Cleaners.CleanHtmlResponseIdempotent | server/app.py:63-65 | cleaning a cleaned response changes nothing |
| Cleaners.Unfenced | server/application.py:67 | the fence-stripped, trimmed text holds no fence and has no surrounding whitespace |
| Cleaners.BraceSpanIsLeftmostLongest | server/application.py:71-73 | `\{.*\}` with DOTALL matches exactly when some `{` precedes some `}`; the match is the leftmost start and, from there, the longest |
| Cleaners.CleanLlmJsonResponse | server/application.py:61-74 | the result never contains a fence |
| Cleaners.CleanLlmJsonResponseFindsObject | server/application.py:67-73 | with a `{` before a later `}`, the result is exactly the text from the first `{` to the last `}` |
| Cleaners.CleanLlmJsonResponseWithoutObject | server/application.py:67-74 | otherwise the result is the fence-stripped, trimmed text itself |
| Cleaners.SplitReportParts | server/application.py:105-107 | each `~~~\n\n` part loses its first 7 characters and the last also its final 3; the parts are rejoined with `"\n\n"` |
| Cleaners.SplitReportRecoversBodies | server/application.py:105-107 | a report of `~~~html` screens, the last closed by `~~~`, comes back as the bare screen bodies separated by blank lines |
| Cleaners.SearchRoute | server/app.py:129-137 | a missing query or the query `"112"` gets the default reply without running the pipeline; any other query runs it on that query |
| Cleaners.ReplyBody | server/app.py:129-137 | the response body: the fixed default message, or `str(result)` of the pipeline |
| Strings.SortedOf | yana.py:925 | the strictly ascending sequence of exactly a set's members |
| Strings.Distinct | yana_tools.py:95 | no duplicates, and exactly the input's members |

## Left out

- I/O is not modelled: SQLite connections, cursors, SQL execution, logging, file writes and `__main__` blocks. Tables are sequences of records in module `Tables`. Query results arrive in the order the model receives them, so SQL row order is an input.
- LLM, embedding and chat calls are not modelled. `embed_text`, `cosine_similarity`, `call_structured`, the agent functions, `generate_ui_from_normalized_bundle` and the CodeMie client become parameters or are absent. Floating-point arithmetic and `%.3f` formatting are opaque (`sim`, `fmt`), and no numeric bound is proved.
- JSON is not modelled. `json.loads` and `json.dumps` are the parameter `parse`. A bundle value is either absent (`None`) or a string; JSON `null` and non-string field values are not modelled.
- The orchestration in `run_yana_pipeline` and `run_yana_pipeline_with_screens` is not modelled. It only chains opaque calls: seeding runs before stage 1, and retrieval is called with `top_k` 20, then 30.
- Flask routes other than the `/api/search` guard are not modelled. The FastMCP wrappers in server/mcp_yana_server.py are thin re-exports and are not part of this model.
- UiGraph.Graph does not hold the `service` and `flows` entries of the result. These are copied unchanged from the bundle.
- UiGraph.Component holds only the `slug`, `key`, `name` and `description` fields. The builder copies every other field of a component into `ui_components` unchanged (`dict(c)`). Those fields are not modelled.
- A BLOB embedding is modelled by the text `json.loads` decodes it to, or by no text when its bytes are not UTF-8, UTF-16 or UTF-32. The decoding itself is not modelled.
- The `DEBUG` log line inside the merge loop is not modelled.
- UiGraph.BuildUiGraph: a step without a `slug` makes the source raise `KeyError`. The model's `Step.slug` is a required field, so that case cannot be written.
- Seeding.EmbeddingStore.EnsureEmbeddingsForAll states the corrected pass over every row. The pass as written, which ends each loop after its first row, is EnsureEmbeddingsForAllAsWritten (see Findings).
- SeedDocuments: the corrected loop over every document. The loop as written, which stops after the first row, is SeedTableAsWritten.
- SeedFlows: the corrected loop over every flow. The loop as written, which stops after the first row, is SeedTableAsWritten.
- SeedSteps: the corrected loop over every step. The loop as written, which stops after the first row, is SeedTableAsWritten.
- SeedComponents: the corrected loop over every component. The loop as written, which stops after the first row, is SeedTableAsWritten.
- The cursor is modelled only as far as the loops depend on it: after `has_embedding` runs, the cursor yields no more of the table's rows. The rows of its own `SELECT 1` query are not modelled.
- Seeding.EmbeddingStore.EnsureEmbeddingsForAll does not model the final `COUNT(*)` query, which only feeds a log message.
- Strings.Distinct keeps first occurrences in order. The source's `list({...})` has an order Python leaves unspecified. Only membership and uniqueness are used from it.
- The `lower()` in the document-type test is modelled as ASCII lower-casing.
- Ranking.Ranked is an insertion sort, stated as Python's stable `sort(reverse=True)`. Scores are `real`s, so NaN is not modelled.

## Findings

| source | as written | input that shows it | evidently intended | confidence | as-written member | corrected member |
|---|---|---|---|---|---|---|
| yana.py:901-918 | The attribution loop calls `json.loads` on every diagram entry, and an entry that is already an object raises `TypeError` and is skipped. The merge loop calls `fm.get` on every entry, which raises for a string entry. So whenever the builder returns, every entry is an object and no node gets a flow. | steps `[a]` with one diagram entry, the object `{flow_slug: "f", mermaid_diagram: "a[A]"}`: node `a` gets `flows == []` | each node lists the flows whose diagram declares it, with entries accepted in either form: here `["f"]` | not executed | UiGraph.AsWrittenDropsDeclaredFlow | UiGraph.GraphNodeFlows |
| yana_pipeline.py:275-341 | Each `for row in cur.execute(...)` loop iterates the cursor `cur`, and `has_embedding` runs `cur.execute` on that same cursor for every row. That replaces the result being iterated, so each of the four loops ends after its first row. The same holds at lines 347, 402 and 460. | two documents, both with content and without embeddings: only the first gets its record; on every later call the first is found and the loop stops again, so the second is never seeded | every row of each table is visited, so every document with content and every flow, step and component has its embedding after one call | not executed | Seeding.AsWrittenSkipsSecondDocument | Seeding.PassCoversDocuments |
