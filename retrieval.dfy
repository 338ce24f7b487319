/**
 * Vector search over the `embeddings` table: the context builder the
 * retrieval agent injects into its prompt (`semantic_search_context_for_brd`)
 * and the component search tool (`semantic_search_components`). The query
 * embedding, the similarity function, `json.loads` on the stored vector and
 * the `%.3f` rendering of a score are parameters.
 */
module Retrieval {
  import opened Wrappers
  import opened Strings
  import opened Tables
  import opened Ranking

  /**
   * The `embedding` column as read back: a string, a BLOB (sqlite3 returns its
   * bytes, which `json.loads` decodes as UTF-8, UTF-16 or UTF-32; `decoded` is
   * that text, or `None` when the bytes are not one of these encodings), or
   * anything else (NULL, a number).
   */
  datatype Cell = TextCell(text: string) | BlobCell(decoded: Option<string>) | OtherCell

  /** The text `json.loads` reads from a cell: a string as is, a blob decoded; `None` when it raises first. */
  function JsonText(c: Cell): (r: Option<string>)
    ensures c.OtherCell? ==> r.None?
    ensures c.TextCell? ==> r == Some(c.text)
    ensures c.BlobCell? ==> r == c.decoded
  {
    match c
    case TextCell(t) => Some(t)
    case BlobCell(d) => d
    case OtherCell => None
  }

  /** What `json.loads` makes of a stored string: a vector, JSON `null`, or something the caller cannot use. */
  datatype Loaded = Vector(v: seq<real>) | JsonNull | Unusable

  /** A row of `embeddings` as a `SELECT` returns it. */
  datatype StoredEmbedding = StoredEmbedding(
    sourceType: string, sourceId: int,
    serviceId: Option<int>, flowId: Option<int>, stepId: Option<int>,
    contentType: string, content: string, embedding: Cell)

  /** The exceptions the loops let escape. */
  datatype SearchError =
    | BadEmbedding(sourceType: string, sourceId: int)
    | MissingRow(sourceType: string, sourceId: int)

  // ---------------------------------------------------------------------------
  // semantic_search_context_for_brd
  // ---------------------------------------------------------------------------

  /** The content types the retrieval agent searches. */
  const SearchedTypes: set<string> :=
    {"brd_summary", "guideline_summary", "flow_summary", "step_description", "component_description"}

  /** The `WHERE content_type IN (...)` filter, in table order. */
  function Searched(rows: seq<StoredEmbedding>): (r: seq<StoredEmbedding>)
    ensures |r| <= |rows|
    ensures forall e :: e in r <==> e in rows && e.contentType in SearchedTypes
    decreases |rows|
  {
    if rows == [] then []
    else
      assert rows == [rows[0]] + rows[1..];
      (if rows[0].contentType in SearchedTypes then [rows[0]] else []) + Searched(rows[1..])
  }

  /**
   * `json.loads(r["embedding"])` and `cosine_similarity(query_vec, vec)` for one
   * row: the row scores exactly when its cell reads as a JSON vector, and then
   * it carries itself and its similarity to the query; otherwise the exception
   * escapes, named by the row's source.
   */
  function ScoreOf(queryVec: seq<real>, sim: (seq<real>, seq<real>) -> real, parse: string -> Loaded,
                   e: StoredEmbedding): (r: Result<Scored<StoredEmbedding>, SearchError>)
    ensures r.Success? <==> JsonText(e.embedding).Some? && parse(JsonText(e.embedding).value).Vector?
    ensures r.Success? ==> r.value == Scored(sim(queryVec, parse(JsonText(e.embedding).value).v), e)
    ensures r.Failure? ==> r.error == BadEmbedding(e.sourceType, e.sourceId)
  {
    match JsonText(e.embedding)
    case None => Failure(BadEmbedding(e.sourceType, e.sourceId))
    case Some(t) =>
      match parse(t)
      case Vector(v) => Success(Scored(sim(queryVec, v), e))
      case _ => Failure(BadEmbedding(e.sourceType, e.sourceId))
  }

  /** The scoring loop's body as a function of the row. */
  function ScoreRow(queryVec: seq<real>, sim: (seq<real>, seq<real>) -> real, parse: string -> Loaded)
    : StoredEmbedding -> Result<Scored<StoredEmbedding>, SearchError>
  {
    (e: StoredEmbedding) => ScoreOf(queryVec, sim, parse, e)
  }

  /** Python's f-string rendering of a nullable text column. */
  function Show(v: Option<string>): (r: string)
    ensures v.None? ==> r == "None"
    ensures v.Some? ==> r == v.value
  {
    if v.None? then "None" else v.value
  }

  function Tag(kind: string, code: Option<string>, name: Option<string>): (r: string)
    ensures |r| >= 2 && r[0] == '[' && r[|r| - 1] == ']'
    ensures "[" + kind + " " <= r
  {
    "[" + kind + " " + Show(code) + ":" + Show(name) + "]"
  }

  /**
   * The bracketed prefix of a context line: the looked-up code and name for
   * the four base tables (a row that is missing makes the source subscript
   * `None`, which raises), and `[source_type id=source_id]` for anything else.
   */
  function Prefix(db: Database, e: StoredEmbedding): (r: Result<string, SearchError>)
    ensures r.Failure? <==>
      || (e.sourceType == "documents" && FindDocument(db.documents, e.sourceId).None?)
      || (e.sourceType == "flows" && FindFlow(db.flows, e.sourceId).None?)
      || (e.sourceType == "steps" && FindStep(db.steps, e.sourceId).None?)
      || (e.sourceType == "ui_components" && FindComponent(db.components, e.sourceId).None?)
    ensures r.Failure? ==> r.error == MissingRow(e.sourceType, e.sourceId)
  {
    var missing := Failure(MissingRow(e.sourceType, e.sourceId));
    if e.sourceType == "documents" then
      match FindDocument(db.documents, e.sourceId)
      case None => missing
      case Some(d) => Success(Tag("DOC", d.docType, d.title))
    else if e.sourceType == "flows" then
      match FindFlow(db.flows, e.sourceId)
      case None => missing
      case Some(f) => Success(Tag("FLOW", f.slug, f.name))
    else if e.sourceType == "steps" then
      match FindStep(db.steps, e.sourceId)
      case None => missing
      case Some(s) => Success(Tag("STEP", s.slug, s.name))
    else if e.sourceType == "ui_components" then
      match FindComponent(db.components, e.sourceId)
      case None => missing
      case Some(c) => Success(Tag("COMP", c.key, c.name))
    else
      Success("[" + e.sourceType + " id=" + IntToString(e.sourceId) + "]")
  }

  /** `[` … `]`. */
  predicate Bracketed(p: string) {
    |p| >= 2 && p[0] == '[' && p[|p| - 1] == ']'
  }

  /**
   * A prefix is bracketed and is the tag of its source type: `DOC`, `FLOW`,
   * `STEP` or `COMP` with the looked-up row's code and name, or for any other
   * type the type and the id.
   */
  lemma PrefixShape(db: Database, e: StoredEmbedding)
    requires Prefix(db, e).Success?
    ensures var p := Prefix(db, e).value;
      && Bracketed(p)
      && (e.sourceType == "documents" ==> "[DOC " <= p)
      && (e.sourceType == "flows" ==> "[FLOW " <= p)
      && (e.sourceType == "steps" ==> "[STEP " <= p)
      && (e.sourceType == "ui_components" ==> "[COMP " <= p)
      && (e.sourceType == "documents" ==> var d := FindDocument(db.documents, e.sourceId).value;
            p == "[DOC " + Show(d.docType) + ":" + Show(d.title) + "]")
      && (e.sourceType == "flows" ==> var f := FindFlow(db.flows, e.sourceId).value;
            p == "[FLOW " + Show(f.slug) + ":" + Show(f.name) + "]")
      && (e.sourceType == "steps" ==> var st := FindStep(db.steps, e.sourceId).value;
            p == "[STEP " + Show(st.slug) + ":" + Show(st.name) + "]")
      && (e.sourceType == "ui_components" ==> var c := FindComponent(db.components, e.sourceId).value;
            p == "[COMP " + Show(c.key) + ":" + Show(c.name) + "]")
      && (e.sourceType !in {"documents", "flows", "steps", "ui_components"}
          ==> p == "[" + e.sourceType + " id=" + IntToString(e.sourceId) + "]")
  {
    PrefixOfDocument(db, e);
    PrefixOfFlow(db, e);
    PrefixOfStep(db, e);
    PrefixOfComponent(db, e);
    PrefixOfOther(db, e);
  }

  lemma PrefixOfDocument(db: Database, e: StoredEmbedding)
    requires Prefix(db, e).Success?
    ensures e.sourceType == "documents" ==> Bracketed(Prefix(db, e).value) && "[DOC " <= Prefix(db, e).value
    ensures e.sourceType == "documents" ==>
      var row := FindDocument(db.documents, e.sourceId).value;
      Prefix(db, e).value == "[DOC " + Show(row.docType) + ":" + Show(row.title) + "]"
  {
    if e.sourceType == "documents" {
      var d := FindDocument(db.documents, e.sourceId).value;
      TagOpens(Prefix(db, e).value, "DOC", "[DOC ", d.docType, d.title);
    }
  }

  lemma PrefixOfFlow(db: Database, e: StoredEmbedding)
    requires Prefix(db, e).Success?
    ensures e.sourceType == "flows" ==> Bracketed(Prefix(db, e).value) && "[FLOW " <= Prefix(db, e).value
    ensures e.sourceType == "flows" ==>
      var row := FindFlow(db.flows, e.sourceId).value;
      Prefix(db, e).value == "[FLOW " + Show(row.slug) + ":" + Show(row.name) + "]"
  {
    if e.sourceType == "flows" {
      var f := FindFlow(db.flows, e.sourceId).value;
      TagOpens(Prefix(db, e).value, "FLOW", "[FLOW ", f.slug, f.name);
    }
  }

  lemma PrefixOfStep(db: Database, e: StoredEmbedding)
    requires Prefix(db, e).Success?
    ensures e.sourceType == "steps" ==> Bracketed(Prefix(db, e).value) && "[STEP " <= Prefix(db, e).value
    ensures e.sourceType == "steps" ==>
      var row := FindStep(db.steps, e.sourceId).value;
      Prefix(db, e).value == "[STEP " + Show(row.slug) + ":" + Show(row.name) + "]"
  {
    if e.sourceType == "steps" {
      var st := FindStep(db.steps, e.sourceId).value;
      TagOpens(Prefix(db, e).value, "STEP", "[STEP ", st.slug, st.name);
    }
  }

  lemma PrefixOfComponent(db: Database, e: StoredEmbedding)
    requires Prefix(db, e).Success?
    ensures e.sourceType == "ui_components" ==> Bracketed(Prefix(db, e).value) && "[COMP " <= Prefix(db, e).value
    ensures e.sourceType == "ui_components" ==>
      var row := FindComponent(db.components, e.sourceId).value;
      Prefix(db, e).value == "[COMP " + Show(row.key) + ":" + Show(row.name) + "]"
  {
    if e.sourceType == "ui_components" {
      var c := FindComponent(db.components, e.sourceId).value;
      TagOpens(Prefix(db, e).value, "COMP", "[COMP ", c.key, c.name);
    }
  }

  lemma PrefixOfOther(db: Database, e: StoredEmbedding)
    requires Prefix(db, e).Success?
    ensures e.sourceType !in {"documents", "flows", "steps", "ui_components"} ==>
      var p := Prefix(db, e).value;
      Bracketed(p) && p == "[" + e.sourceType + " id=" + IntToString(e.sourceId) + "]"
  {
  }

  lemma TagOpens(p: string, kind: string, opening: string, code: Option<string>, name: Option<string>)
    requires p == Tag(kind, code, name) && opening == "[" + kind + " "
    ensures Bracketed(p) && opening <= p
  {
  }

  /**
   * One context line, `prefix (similarity=X) :: content`: it fails exactly
   * when the prefix does, and otherwise opens with the prefix, shows the
   * formatted score between them, and ends with the row's content.
   */
  function LineOf(db: Database, fmt: real -> string, s: Scored<StoredEmbedding>): (r: Result<string, SearchError>)
    ensures r.Failure? <==> Prefix(db, s.item).Failure?
    ensures r.Failure? ==> r.error == MissingRow(s.item.sourceType, s.item.sourceId)
    ensures r.Success? ==> Prefix(db, s.item).value <= r.value
    ensures r.Success? ==> |s.item.content| <= |r.value| && r.value[|r.value| - |s.item.content|..] == s.item.content
    ensures r.Success? ==>
      var p := Prefix(db, s.item).value;
      && |p| + |s.item.content| <= |r.value|
      && r.value[|p|..|r.value| - |s.item.content|] == " (similarity=" + fmt(s.score) + ") :: "
  {
    match Prefix(db, s.item)
    case Failure(err) => Failure(err)
    case Success(p) =>
      var head := p + " (similarity=" + fmt(s.score) + ") :: ";
      assert (head + s.item.content)[|head|..] == s.item.content;
      Success(head + s.item.content)
  }

  /** The rendering loop's body as a function of the kept row. */
  function RenderLine(db: Database, fmt: real -> string): Scored<StoredEmbedding> -> Result<string, SearchError> {
    (s: Scored<StoredEmbedding>) => LineOf(db, fmt, s)
  }

  /** The whole search as one value: filter, score, rank, `[:top_k]`, render and join. */
  function SearchContext(db: Database, table: seq<StoredEmbedding>, queryVec: seq<real>,
                         sim: (seq<real>, seq<real>) -> real, parse: string -> Loaded,
                         fmt: real -> string, topK: int): (r: Result<string, SearchError>)
    ensures r.Success? ==> forall k | 0 <= k < |Searched(table)| :: ScoreOf(queryVec, sim, parse, Searched(table)[k]).Success?
    ensures r.Failure? && r.error.BadEmbedding? ==>
      exists k | 0 <= k < |Searched(table)| :: ScoreOf(queryVec, sim, parse, Searched(table)[k]) == Failure(r.error)
  {
    match MapAll(ScoreRow(queryVec, sim, parse), Searched(table))
    case Failure(err) => Failure(err)
    case Success(scored) =>
      match MapAll(RenderLine(db, fmt), TopK(scored, topK))
      case Failure(err) => Failure(err)
      case Success(lines) => Success(Join("\n", lines))
  }

  /**
   * `semantic_search_context_for_brd`: the scoring loop appends to `scored`,
   * which is sorted and sliced; the rendering loop appends one line per kept row.
   */
  method SemanticSearchContextForBrd(db: Database, table: seq<StoredEmbedding>, queryVec: seq<real>,
                                     sim: (seq<real>, seq<real>) -> real, parse: string -> Loaded,
                                     fmt: real -> string, topK: int)
    returns (context: Result<string, SearchError>)
    ensures context == SearchContext(db, table, queryVec, sim, parse, fmt, topK)
  {
    var rows := Searched(table);
    var score := ScoreRow(queryVec, sim, parse);
    var scored: seq<Scored<StoredEmbedding>> := [];
    for i := 0 to |rows|
      invariant MapAll(score, rows[..i]) == Success(scored)
    {
      MapAllStep(score, rows, i, scored);
      var s := score(rows[i]);
      if s.Failure? {
        MapAllFailsEarly(score, rows, i + 1);
        return Failure(s.error);
      }
      scored := scored + [s.value];
    }
    assert rows[..|rows|] == rows;
    var top := TopK(scored, topK);
    var render := RenderLine(db, fmt);
    var lines: seq<string> := [];
    for i := 0 to |top|
      invariant MapAll(render, top[..i]) == Success(lines)
    {
      MapAllStep(render, top, i, lines);
      var line := render(top[i]);
      if line.Failure? {
        MapAllFailsEarly(render, top, i + 1);
        return Failure(line.error);
      }
      lines := lines + [line.value];
    }
    assert top[..|top|] == top;
    return Success(Join("\n", lines));
  }

  /**
   * The rows a successful scoring pass ranks: `min(top_k, n)` of the `n`
   * searched rows are kept, in non-increasing order of score, and every kept
   * row is a row of the table with one of the searched content types.
   */
  lemma SearchKeepsTopRows(table: seq<StoredEmbedding>, queryVec: seq<real>,
                           sim: (seq<real>, seq<real>) -> real, parse: string -> Loaded,
                           topK: int, scored: seq<Scored<StoredEmbedding>>)
    requires MapAll(ScoreRow(queryVec, sim, parse), Searched(table)) == Success(scored)
    ensures 0 <= topK ==> |TopK(scored, topK)| == if topK <= |Searched(table)| then topK else |Searched(table)|
    ensures NonIncreasing(TopK(scored, topK))
    ensures forall k | 0 <= k < |TopK(scored, topK)| ::
      TopK(scored, topK)[k].item in table && TopK(scored, topK)[k].item.contentType in SearchedTypes
  {
    var rows := Searched(table);
    ScoredAreRows(rows, queryVec, sim, parse, scored);
    TopKProperties(scored, topK);
    var top := TopK(scored, topK);
    forall k | 0 <= k < |top|
      ensures top[k].item in rows
    {
      assert top[k] in multiset(scored);
      assert top[k] in scored;
    }
  }

  /** Each scored row carries the searched row it was scored from. */
  lemma ScoredAreRows(rows: seq<StoredEmbedding>, queryVec: seq<real>, sim: (seq<real>, seq<real>) -> real,
                      parse: string -> Loaded, scored: seq<Scored<StoredEmbedding>>)
    requires MapAll(ScoreRow(queryVec, sim, parse), rows) == Success(scored)
    ensures forall x | x in scored :: x.item in rows
  {
    forall x | x in scored
      ensures x.item in rows
    {
      var m :| 0 <= m < |scored| && scored[m] == x;
      assert ScoreRow(queryVec, sim, parse)(rows[m]) == Success(scored[m]);
    }
  }

  /**
   * A successful search returns its rendered lines joined by `"\n"`, one line
   * per kept row in ranked order, with no trailing separator: splitting
   * the text at `"\n"` gives the lines back when no line holds a line break.
   */
  lemma SearchContextIsJoinedLines(db: Database, table: seq<StoredEmbedding>, queryVec: seq<real>,
                                   sim: (seq<real>, seq<real>) -> real, parse: string -> Loaded,
                                   fmt: real -> string, topK: int,
                                   scored: seq<Scored<StoredEmbedding>>, lines: seq<string>)
    requires MapAll(ScoreRow(queryVec, sim, parse), Searched(table)) == Success(scored)
    requires MapAll(RenderLine(db, fmt), TopK(scored, topK)) == Success(lines)
    ensures SearchContext(db, table, queryVec, sim, parse, fmt, topK) == Success(Join("\n", lines))
    ensures |lines| == |TopK(scored, topK)|
    ensures lines != [] && (forall k | 0 <= k < |lines| :: '\n' !in lines[k]) ==>
      Split(Join("\n", lines), "\n") == lines
  {
    if lines != [] && forall k | 0 <= k < |lines| :: '\n' !in lines[k] {
      SplitOfJoinAtChar(lines, '\n');
    }
  }

  // ---------------------------------------------------------------------------
  // semantic_search_components
  // ---------------------------------------------------------------------------

  const ComponentSource := "ui_components"
  const ComponentContent := "component_description"

  /** The component rows the join pairs with one embedding, in table order. */
  function Matching(e: StoredEmbedding, comps: seq<ComponentRow>): (r: seq<(StoredEmbedding, ComponentRow)>)
    ensures forall p :: p in r <==> p.0 == e && p.1 in comps && p.1.id == e.sourceId
    decreases |comps|
  {
    if comps == [] then []
    else
      assert comps == [comps[0]] + comps[1..];
      (if comps[0].id == e.sourceId then [(e, comps[0])] else []) + Matching(e, comps[1..])
  }

  /**
   * `embeddings e JOIN ui_components c ON c.id = e.source_id` restricted to
   * component descriptions, in the order of the embeddings and then of the components.
   */
  function ComponentJoin(embs: seq<StoredEmbedding>, comps: seq<ComponentRow>): (r: seq<(StoredEmbedding, ComponentRow)>)
    ensures forall p :: p in r <==>
      && p.0 in embs && p.1 in comps && p.1.id == p.0.sourceId
      && p.0.sourceType == ComponentSource && p.0.contentType == ComponentContent
    decreases |embs|
  {
    if embs == [] then []
    else
      var e := embs[0];
      assert embs == [e] + embs[1..];
      (if e.sourceType == ComponentSource && e.contentType == ComponentContent then Matching(e, comps) else [])
        + ComponentJoin(embs[1..], comps)
  }

  /** The four component columns a hit carries; its similarity is the score. */
  datatype ComponentHit = ComponentHit(
    componentKey: Option<string>, componentName: Option<string>,
    description: Option<string>, usageNotes: Option<string>)

  function HitOf(c: ComponentRow): ComponentHit {
    ComponentHit(c.key, c.name, c.description, c.usageNotes)
  }

  /**
   * One joined row: skipped when the stored embedding is not a string or is
   * JSON `null`, a hit when it is a vector, an escaping exception otherwise.
   */
  function RowHit(queryVec: seq<real>, sim: (seq<real>, seq<real>) -> real, parse: string -> Loaded,
                  p: (StoredEmbedding, ComponentRow)): (r: Result<Option<Scored<ComponentHit>>, SearchError>)
    ensures r.Failure? <==> p.0.embedding.TextCell? && parse(p.0.embedding.text).Unusable?
    ensures r.Failure? ==> r.error == BadEmbedding(p.0.sourceType, p.0.sourceId)
    ensures r.Success? ==> r.value == UsableHit(queryVec, sim, parse, p)
  {
    if !p.0.embedding.TextCell? then Success(None)
    else match parse(p.0.embedding.text)
      case JsonNull => Success(None)
      case Unusable => Failure(BadEmbedding(p.0.sourceType, p.0.sourceId))
      case Vector(v) => Success(Some(Scored(sim(queryVec, v), HitOf(p.1))))
  }

  /**
   * The hit a joined row yields when its stored embedding is a string that
   * parses to a vector: the component's four columns scored by similarity to
   * the query. Any other row yields none.
   */
  function UsableHit(queryVec: seq<real>, sim: (seq<real>, seq<real>) -> real, parse: string -> Loaded,
                     p: (StoredEmbedding, ComponentRow)): (r: Option<Scored<ComponentHit>>)
    ensures r.Some? <==> p.0.embedding.TextCell? && parse(p.0.embedding.text).Vector?
    ensures r.Some? ==> r.value == Scored(sim(queryVec, parse(p.0.embedding.text).v), HitOf(p.1))
  {
    if p.0.embedding.TextCell? && parse(p.0.embedding.text).Vector?
    then Some(Scored(sim(queryVec, parse(p.0.embedding.text).v), HitOf(p.1)))
    else None
  }

  function HitOfRow(queryVec: seq<real>, sim: (seq<real>, seq<real>) -> real, parse: string -> Loaded)
    : ((StoredEmbedding, ComponentRow)) -> Option<Scored<ComponentHit>>
  {
    p => UsableHit(queryVec, sim, parse, p)
  }

  /**
   * The `hits` list the loop builds, up to the first exception: when no row
   * raises, exactly one hit per usable row, in row order.
   */
  function Hits(queryVec: seq<real>, sim: (seq<real>, seq<real>) -> real, parse: string -> Loaded,
                rows: seq<(StoredEmbedding, ComponentRow)>): (r: Result<seq<Scored<ComponentHit>>, SearchError>)
    ensures r.Success? <==> forall k | 0 <= k < |rows| :: RowHit(queryVec, sim, parse, rows[k]).Success?
    ensures r.Success? ==> r.value == Collect(HitOfRow(queryVec, sim, parse), rows)
    decreases |rows|
  {
    if rows == [] then Success([])
    else
      var init := rows[..|rows| - 1];
      assert forall k | 0 <= k < |init| :: init[k] == rows[k];
      match Hits(queryVec, sim, parse, init)
      case Failure(err) => Failure(err)
      case Success(hs) =>
        match RowHit(queryVec, sim, parse, rows[|rows| - 1])
        case Failure(err) => Failure(err)
        case Success(None) => Success(hs)
        case Success(Some(h)) => Success(hs + [h])
  }

  /** One more iteration of the loop over the joined rows. */
  lemma HitsNext(queryVec: seq<real>, sim: (seq<real>, seq<real>) -> real, parse: string -> Loaded,
                 rows: seq<(StoredEmbedding, ComponentRow)>, i: nat)
    requires i < |rows| && Hits(queryVec, sim, parse, rows[..i]).Success?
    ensures Hits(queryVec, sim, parse, rows[..i + 1]) ==
      match RowHit(queryVec, sim, parse, rows[i])
      case Failure(err) => Failure(err)
      case Success(None) => Hits(queryVec, sim, parse, rows[..i])
      case Success(Some(h)) => Success(Hits(queryVec, sim, parse, rows[..i]).value + [h])
  {
    assert rows[..i + 1][..i] == rows[..i];
  }

  /** Once a prefix of the rows fails, the whole loop fails the same way. */
  lemma {:induction false} HitsFailEarly(queryVec: seq<real>, sim: (seq<real>, seq<real>) -> real,
                                         parse: string -> Loaded, rows: seq<(StoredEmbedding, ComponentRow)>, i: nat)
    requires i <= |rows| && Hits(queryVec, sim, parse, rows[..i]).Failure?
    ensures Hits(queryVec, sim, parse, rows) == Hits(queryVec, sim, parse, rows[..i])
    decreases |rows|
  {
    if i < |rows| {
      var init := rows[..|rows| - 1];
      assert init[..i] == rows[..i];
      HitsFailEarly(queryVec, sim, parse, init, i);
    } else {
      assert rows[..i] == rows;
    }
  }

  /** The search as one value: join, collect hits, rank, `[:top_k]`. */
  function SearchComponents(embs: seq<StoredEmbedding>, comps: seq<ComponentRow>, queryVec: seq<real>,
                            sim: (seq<real>, seq<real>) -> real, parse: string -> Loaded, topK: int)
    : Result<seq<Scored<ComponentHit>>, SearchError>
  {
    match Hits(queryVec, sim, parse, ComponentJoin(embs, comps))
    case Failure(err) => Failure(err)
    case Success(hs) => Success(TopK(hs, topK))
  }

  /** `semantic_search_components`: the loop appends hits, which are sorted and sliced. */
  method SemanticSearchComponents(embs: seq<StoredEmbedding>, comps: seq<ComponentRow>, queryVec: seq<real>,
                                  sim: (seq<real>, seq<real>) -> real, parse: string -> Loaded, topK: int)
    returns (result: Result<seq<Scored<ComponentHit>>, SearchError>)
    ensures result == SearchComponents(embs, comps, queryVec, sim, parse, topK)
  {
    var rows := ComponentJoin(embs, comps);
    var hits: seq<Scored<ComponentHit>> := [];
    for i := 0 to |rows|
      invariant Hits(queryVec, sim, parse, rows[..i]) == Success(hits)
    {
      HitsNext(queryVec, sim, parse, rows, i);
      var (e, c) := rows[i];
      if !e.embedding.TextCell? {
        continue;
      }
      match parse(e.embedding.text)
      case JsonNull => continue;
      case Unusable =>
        HitsFailEarly(queryVec, sim, parse, rows, i + 1);
        return Failure(BadEmbedding(e.sourceType, e.sourceId));
      case Vector(v) =>
        hits := hits + [Scored(sim(queryVec, v), HitOf(c))];
    }
    assert rows[..|rows|] == rows;
    return Success(TopK(hits, topK));
  }

  /**
   * A successful component search returns `min(top_k, n)` of the `n` usable
   * joined rows' hits, in non-increasing order of similarity, each taken from a
   * joined component description whose stored embedding is a string; a usable
   * row whose hit is not kept scores no higher than any kept hit.
   */
  lemma SearchComponentsShape(embs: seq<StoredEmbedding>, comps: seq<ComponentRow>, queryVec: seq<real>,
                              sim: (seq<real>, seq<real>) -> real, parse: string -> Loaded, topK: int)
    requires SearchComponents(embs, comps, queryVec, sim, parse, topK).Success?
    ensures var hs := Collect(HitOfRow(queryVec, sim, parse), ComponentJoin(embs, comps));
      var top := SearchComponents(embs, comps, queryVec, sim, parse, topK).value;
      && (0 <= topK ==> |top| == if topK <= |hs| then topK else |hs|)
      && NonIncreasing(top)
      && (forall h | h in top :: FromJoinedComponent(embs, comps, h))
      && forall p | p in ComponentJoin(embs, comps) && UsableHit(queryVec, sim, parse, p).Some? ::
           KeptOrOutranked(UsableHit(queryVec, sim, parse, p).value, top)
  {
    var rows := ComponentJoin(embs, comps);
    var hs := Collect(HitOfRow(queryVec, sim, parse), rows);
    assert SearchComponents(embs, comps, queryVec, sim, parse, topK).value == TopK(hs, topK);
    TopKProperties(hs, topK);
    HitsFromJoin(embs, comps, queryVec, sim, parse);
    var top := TopK(hs, topK);
    forall h | h in top
      ensures FromJoinedComponent(embs, comps, h)
    {
      assert h in multiset(hs);
      assert h in hs;
    }
    UsableRowsOutranked(rows, queryVec, sim, parse, topK);
  }

  /** The hit carries the columns of a joined component description whose stored embedding is a string. */
  predicate FromJoinedComponent(embs: seq<StoredEmbedding>, comps: seq<ComponentRow>, h: Scored<ComponentHit>) {
    exists e, c ::
      && e in embs && c in comps && c.id == e.sourceId
      && e.sourceType == ComponentSource && e.contentType == ComponentContent
      && e.embedding.TextCell? && h.item == HitOf(c)
  }

  /** A hit is kept, or scores no higher than any kept hit. */
  predicate KeptOrOutranked(y: Scored<ComponentHit>, top: seq<Scored<ComponentHit>>) {
    y in top || forall i | 0 <= i < |top| :: y.score <= top[i].score
  }

  /** Each usable row's hit is kept by `[:top_k]` or outranked by every kept hit. */
  lemma UsableRowsOutranked(rows: seq<(StoredEmbedding, ComponentRow)>, queryVec: seq<real>,
                            sim: (seq<real>, seq<real>) -> real, parse: string -> Loaded, topK: int)
    ensures forall p | p in rows && UsableHit(queryVec, sim, parse, p).Some? ::
      KeptOrOutranked(UsableHit(queryVec, sim, parse, p).value, TopK(Collect(HitOfRow(queryVec, sim, parse), rows), topK))
  {
    var f := HitOfRow(queryVec, sim, parse);
    var hs := Collect(f, rows);
    CollectHas(f, rows);
    forall p | p in rows && UsableHit(queryVec, sim, parse, p).Some?
      ensures KeptOrOutranked(UsableHit(queryVec, sim, parse, p).value, TopK(hs, topK))
    {
      var y := UsableHit(queryVec, sim, parse, p).value;
      var k :| 0 <= k < |rows| && rows[k] == p;
      assert f(rows[k]).Some?;
      if y !in TopK(hs, topK) {
        forall i | 0 <= i < |TopK(hs, topK)|
          ensures y.score <= TopK(hs, topK)[i].score
        {
          TopKOutranks(hs, topK, y, i);
        }
      }
    }
  }

  /** Every collected hit comes from a joined component description whose stored embedding is a string. */
  lemma HitsFromJoin(embs: seq<StoredEmbedding>, comps: seq<ComponentRow>, queryVec: seq<real>,
                     sim: (seq<real>, seq<real>) -> real, parse: string -> Loaded)
    ensures forall h | h in Collect(HitOfRow(queryVec, sim, parse), ComponentJoin(embs, comps)) ::
      FromJoinedComponent(embs, comps, h)
  {
    var rows := ComponentJoin(embs, comps);
    var f := HitOfRow(queryVec, sim, parse);
    CollectFrom(f, rows);
    forall h | h in Collect(f, rows)
      ensures FromJoinedComponent(embs, comps, h)
    {
      var k :| 0 <= k < |rows| && f(rows[k]) == Some(h);
      assert rows[k] in rows;
    }
  }
}
