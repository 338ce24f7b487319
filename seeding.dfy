/**
 * Embedding seeding (`ensure_embeddings_for_all`): every document, flow, step
 * and UI component gets one row in the `embeddings` table unless a row with
 * the same (source type, source id, content type) is already there or its
 * canonical content text is empty.
 */
module Seeding {
  import opened Wrappers
  import opened Strings
  import opened Tables

  /** The triple `has_embedding` looks up. */
  datatype Key = Key(sourceType: string, sourceId: int, contentType: string)

  function KeyOf(r: EmbeddingRecord): Key {
    Key(r.sourceType, r.sourceId, r.contentType)
  }

  /** The keys of a sequence of records. */
  function KeysOf(rs: seq<EmbeddingRecord>): set<Key> {
    set r | r in rs :: KeyOf(r)
  }

  lemma KeysOfConcat(a: seq<EmbeddingRecord>, b: seq<EmbeddingRecord>)
    ensures KeysOf(a + b) == KeysOf(a) + KeysOf(b)
  {
  }

  // ---------------------------------------------------------------------------
  // Canonical content
  // ---------------------------------------------------------------------------

  /** `row[field] or ""`. */
  function OrEmpty(x: Option<string>): string {
    x.GetOr("")
  }

  /** `(row[field] or "").strip()`. */
  function Cleaned(x: Option<string>): string {
    Strip(OrEmpty(x))
  }

  /** `brd_summary` for a document whose lower-cased type starts with "brd", else `guideline_summary`. */
  function DocContentType(docType: Option<string>): (t: string)
    ensures t == "brd_summary" || t == "guideline_summary"
  {
    if "brd" <= LowerAscii(OrEmpty(docType)) then "brd_summary" else "guideline_summary"
  }

  /**
   * The lower-casing test spelled out: the type is a BRD summary exactly when
   * the document type begins with b, r, d in either case.
   */
  lemma DocContentTypeIsBrd(docType: Option<string>)
    ensures var s := OrEmpty(docType);
      DocContentType(docType) == "brd_summary" <==>
        |s| >= 3 && (s[0] == 'b' || s[0] == 'B') && (s[1] == 'r' || s[1] == 'R') && (s[2] == 'd' || s[2] == 'D')
  {
    var s := OrEmpty(docType);
    var l := LowerAscii(s);
    if |s| >= 3 {
      assert "brd" <= l <==> l[0] == 'b' && l[1] == 'r' && l[2] == 'd';
    }
  }

  /** `f"{title}. {body}".strip(". ").strip()` over the stripped title and body. */
  function DocContent(d: DocumentRow): string {
    Strip(StripBy(Cleaned(d.title) + ". " + Cleaned(d.body), IsDotOrSpace))
  }

  /** A document with neither title nor body text is skipped as empty. */
  lemma BlankDocumentHasNoContent(d: DocumentRow)
    requires Cleaned(d.title) == [] && Cleaned(d.body) == []
    ensures DocContent(d) == []
  {
    assert Cleaned(d.title) + ". " + Cleaned(d.body) == ". ";
    StripByEmptyIff(". ", IsDotOrSpace);
  }

  /** The parts of a flow's content: its heading, then the goal and notes when present. */
  function FlowContentParts(f: FlowRow): (parts: seq<string>)
    ensures parts != [] && parts[0] == "Flow " + OrEmpty(f.slug) + " (" + OrEmpty(f.name) + ")"
  {
    ["Flow " + OrEmpty(f.slug) + " (" + OrEmpty(f.name) + ")"]
      + (if Cleaned(f.goal) != [] then ["Goal: " + Cleaned(f.goal)] else [])
      + (if Cleaned(f.notes) != [] then ["Notes: " + Cleaned(f.notes)] else [])
  }

  /** `". ".join(content_parts).strip(". ").strip()`. */
  function FlowContent(f: FlowRow): string {
    Strip(StripBy(Join(". ", FlowContentParts(f)), IsDotOrSpace))
  }

  /** A flow's content never comes out empty: it always starts with the "F" of "Flow". */
  lemma FlowContentNonEmpty(f: FlowRow)
    ensures FlowContent(f) != [] && FlowContent(f)[0] == 'F'
  {
    var parts := FlowContentParts(f);
    var joined := Join(". ", parts);
    assert joined[0] == 'F' by {
      if |parts| > 1 {
        assert joined == parts[0] + ". " + Join(". ", parts[1..]);
      }
    }
    StripByKeepsHead(joined, IsDotOrSpace);
    StripByKeepsHead(StripBy(joined, IsDotOrSpace), IsSpace);
  }

  /** The step f-string, before its final strip. */
  function StepText(s: StepRow): string {
    "Step " + Cleaned(s.slug) + " (" + Cleaned(s.name) + "): "
      + "purpose=" + Cleaned(s.purpose) + ". "
      + "User_actions=" + Cleaned(s.userActions) + ". "
      + "Inputs=" + Cleaned(s.dataInputs) + ". "
      + "Outputs=" + Cleaned(s.dataOutputs) + ". "
      + "Conditions=" + Cleaned(s.conditions) + ". "
      + "UI=" + Cleaned(s.uiSummary) + ". "
      + "Notes=" + Cleaned(s.notes)
  }

  function StepContent(s: StepRow): string {
    Strip(StepText(s))
  }

  /** A step's content is never empty: it starts with "S". */
  lemma StepContentNonEmpty(s: StepRow)
    ensures StepContent(s) != [] && StepContent(s)[0] == 'S'
  {
    assert StepText(s)[0] == 'S';
    StripByKeepsHead(StepText(s), IsSpace);
  }

  /** The component f-string, before its final strip; key, name and type are not stripped. */
  function ComponentText(c: ComponentRow): string {
    "Component " + OrEmpty(c.key) + " (" + OrEmpty(c.name) + "): "
      + "type=" + OrEmpty(c.kind) + ". "
      + "Description=" + Cleaned(c.description) + ". "
      + "Usage=" + Cleaned(c.usageNotes) + ". "
      + "Process_code=" + Cleaned(c.processCode)
  }

  function ComponentContent(c: ComponentRow): string {
    Strip(ComponentText(c))
  }

  /** A component's content is never empty: it starts with "C". */
  lemma ComponentContentNonEmpty(c: ComponentRow)
    ensures ComponentContent(c) != [] && ComponentContent(c)[0] == 'C'
  {
    assert ComponentText(c)[0] == 'C';
    StripByKeepsHead(ComponentText(c), IsSpace);
  }

  // ---------------------------------------------------------------------------
  // Candidates: what each row would insert
  // ---------------------------------------------------------------------------

  /** The key, content and owner columns one row would be inserted with. */
  datatype Candidate = Candidate(
    key: Key, content: string,
    serviceId: Option<int>, flowId: Option<int>, stepId: Option<int>)

  function DocCandidate(d: DocumentRow): Candidate {
    Candidate(Key("documents", d.id, DocContentType(d.docType)), DocContent(d), d.serviceId, d.flowId, None)
  }

  function FlowCandidate(f: FlowRow): Candidate {
    Candidate(Key("flows", f.id, "flow_summary"), FlowContent(f), f.serviceId, Some(f.id), None)
  }

  function StepCandidate(s: StepRow): Candidate {
    Candidate(Key("steps", s.id, "step_description"), StepContent(s), s.serviceId, s.flowId, Some(s.id))
  }

  function ComponentCandidate(c: ComponentRow): Candidate {
    Candidate(Key("ui_components", c.id, "component_description"), ComponentContent(c), None, None, None)
  }

  /** The candidates of a table's rows, in row order. */
  function Candidates<R>(f: R -> Candidate, rows: seq<R>): (cs: seq<Candidate>)
    ensures |cs| == |rows| && forall k | 0 <= k < |rows| :: cs[k] == f(rows[k])
    decreases |rows|
  {
    if rows == [] then [] else Candidates(f, rows[..|rows| - 1]) + [f(rows[|rows| - 1])]
  }

  lemma EmptyConcat<T>(xs: seq<T>)
    ensures [] + xs == xs
  {
  }

  /** One more row visited adds its candidate at the end. */
  lemma CandidatesSnoc<R>(f: R -> Candidate, rows: seq<R>, i: nat, done: seq<Candidate>)
    requires i < |rows|
    ensures done + Candidates(f, rows[..i + 1]) == (done + Candidates(f, rows[..i])) + [f(rows[i])]
  {
    assert rows[..i + 1][..i] == rows[..i];
  }

  /** The rows in the order the four loops visit them. */
  function AllCandidates(db: Database): seq<Candidate> {
    Candidates(DocCandidate, db.documents) + Candidates(FlowCandidate, db.flows)
      + Candidates(StepCandidate, db.steps) + Candidates(ComponentCandidate, db.components)
  }

  /** The row `INSERT` writes for a candidate; `embed` is the embedding model. */
  function RecordOf(c: Candidate, embed: string -> seq<real>): (r: EmbeddingRecord)
    ensures KeyOf(r) == c.key && r.content == c.content
  {
    EmbeddingRecord(c.key.sourceType, c.key.sourceId, c.serviceId, c.flowId, c.stepId,
                    c.key.contentType, c.content, embed(c.content))
  }

  // ---------------------------------------------------------------------------
  // The reference definition of one pass
  // ---------------------------------------------------------------------------

  /**
   * The records one pass inserts when the table already holds the keys
   * `present`: candidates are visited in order and each is inserted unless its
   * key is present or was inserted earlier in the pass, or its content is empty.
   */
  function Plan(present: set<Key>, cands: seq<Candidate>, embed: string -> seq<real>): seq<EmbeddingRecord>
    decreases |cands|
  {
    if cands == [] then []
    else
      var before := Plan(present, cands[..|cands| - 1], embed);
      var c := cands[|cands| - 1];
      if c.key in present + KeysOf(before) || c.content == [] then before
      else before + [RecordOf(c, embed)]
  }

  /**
   * A pass inserts a record only for a key that was missing, never twice for
   * one key, and never with empty content.
   */
  lemma {:induction false} PlanInsertsOnlyMissing(present: set<Key>, cands: seq<Candidate>, embed: string -> seq<real>)
    ensures forall r | r in Plan(present, cands, embed) :: KeyOf(r) !in present && r.content != []
    ensures forall i, j | 0 <= i < j < |Plan(present, cands, embed)| ::
      KeyOf(Plan(present, cands, embed)[i]) != KeyOf(Plan(present, cands, embed)[j])
    decreases |cands|
  {
    if cands != [] {
      var before := Plan(present, cands[..|cands| - 1], embed);
      PlanInsertsOnlyMissing(present, cands[..|cands| - 1], embed);
      var c := cands[|cands| - 1];
      if !(c.key in present + KeysOf(before) || c.content == []) {
        var p := before + [RecordOf(c, embed)];
        assert Plan(present, cands, embed) == p;
        forall r | r in p
          ensures KeyOf(r) !in present && r.content != []
        {
          if r !in before {
            assert r == RecordOf(c, embed);
          }
        }
        forall i, j | 0 <= i < j < |p|
          ensures KeyOf(p[i]) != KeyOf(p[j])
        {
          if j == |before| {
            assert p[i] == before[i] && p[j] == RecordOf(c, embed);
            assert before[i] in before;
            assert KeyOf(before[i]) in KeysOf(before);
            assert KeyOf(p[j]) == c.key;
          } else {
            assert p[i] == before[i] && p[j] == before[j];
            assert KeyOf(before[i]) != KeyOf(before[j]);
          }
        }
      }
    }
  }

  /** After a pass, every candidate with content has its key in the table. */
  lemma {:induction false} PlanCoversCandidates(present: set<Key>, cands: seq<Candidate>, embed: string -> seq<real>)
    ensures forall k | 0 <= k < |cands| && cands[k].content != [] :: cands[k].key in present + KeysOf(Plan(present, cands, embed))
    decreases |cands|
  {
    if cands != [] {
      var init := cands[..|cands| - 1];
      var before := Plan(present, init, embed);
      PlanCoversCandidates(present, init, embed);
      var p := Plan(present, cands, embed);
      assert before <= p;
      assert KeysOf(before) <= KeysOf(p);
      forall k | 0 <= k < |cands| - 1 && cands[k].content != []
        ensures cands[k].key in present + KeysOf(p)
      {
        assert init[k] == cands[k];
      }
    }
  }

  /** Every inserted record is the record of one of the candidates. */
  lemma {:induction false} PlanRecordsFromCandidates(present: set<Key>, cands: seq<Candidate>, embed: string -> seq<real>)
    ensures forall r | r in Plan(present, cands, embed) :: exists k | 0 <= k < |cands| :: r == RecordOf(cands[k], embed)
    decreases |cands|
  {
    if cands != [] {
      var init := cands[..|cands| - 1];
      PlanRecordsFromCandidates(present, init, embed);
      forall r | r in Plan(present, init, embed)
        ensures exists k | 0 <= k < |cands| :: r == RecordOf(cands[k], embed)
      {
        var k :| 0 <= k < |init| && r == RecordOf(init[k], embed);
        assert init[k] == cands[k];
      }
    }
  }

  /** A pass over candidates whose non-empty keys are all present inserts nothing. */
  lemma {:induction false} PlanOfCoveredIsEmpty(present: set<Key>, cands: seq<Candidate>, embed: string -> seq<real>)
    requires forall k | 0 <= k < |cands| && cands[k].content != [] :: cands[k].key in present
    ensures Plan(present, cands, embed) == []
    decreases |cands|
  {
    if cands != [] {
      PlanOfCoveredIsEmpty(present, cands[..|cands| - 1], embed);
    }
  }

  /**
   * Idempotence: after one pass, a second pass over the same rows inserts
   * nothing.
   */
  lemma SeedingIdempotent(present: set<Key>, cands: seq<Candidate>, embed: string -> seq<real>)
    ensures Plan(present + KeysOf(Plan(present, cands, embed)), cands, embed) == []
  {
    PlanCoversCandidates(present, cands, embed);
    PlanOfCoveredIsEmpty(present + KeysOf(Plan(present, cands, embed)), cands, embed);
  }

  /** The keys held after one pass over all rows. */
  function KeysAfterPass(present: set<Key>, db: Database, embed: string -> seq<real>): set<Key> {
    present + KeysOf(Plan(present, AllCandidates(db), embed))
  }

  /** A candidate with content that a pass visits ends up with its key present. */
  lemma CandidateCovered(present: set<Key>, cands: seq<Candidate>, embed: string -> seq<real>, c: Candidate)
    requires c in cands && c.content != []
    ensures c.key in present + KeysOf(Plan(present, cands, embed))
  {
    PlanCoversCandidates(present, cands, embed);
    var k :| 0 <= k < |cands| && cands[k] == c;
  }

  /** A row's candidate is among its table's candidates. */
  lemma RowCandidateListed<R>(f: R -> Candidate, rows: seq<R>, r: R)
    requires r in rows
    ensures f(r) in Candidates(f, rows)
  {
    var k :| 0 <= k < |rows| && rows[k] == r;
    assert Candidates(f, rows)[k] == f(r);
  }

  /** After a pass every document whose content is not empty has an embedding row. */
  lemma PassCoversDocuments(present: set<Key>, db: Database, embed: string -> seq<real>, d: DocumentRow)
    requires d in db.documents && DocContent(d) != []
    ensures Key("documents", d.id, DocContentType(d.docType)) in KeysAfterPass(present, db, embed)
  {
    var c := DocCandidate(d);
    RowCandidateListed(DocCandidate, db.documents, d);
    assert c in AllCandidates(db);
    CandidateCovered(present, AllCandidates(db), embed, c);
  }

  /** After a pass every flow has an embedding row: flow content is never empty. */
  lemma PassCoversFlows(present: set<Key>, db: Database, embed: string -> seq<real>, f: FlowRow)
    requires f in db.flows
    ensures Key("flows", f.id, "flow_summary") in KeysAfterPass(present, db, embed)
  {
    FlowContentNonEmpty(f);
    var c := FlowCandidate(f);
    RowCandidateListed(FlowCandidate, db.flows, f);
    assert c in AllCandidates(db);
    CandidateCovered(present, AllCandidates(db), embed, c);
  }

  /** After a pass every step has an embedding row. */
  lemma PassCoversSteps(present: set<Key>, db: Database, embed: string -> seq<real>, s: StepRow)
    requires s in db.steps
    ensures Key("steps", s.id, "step_description") in KeysAfterPass(present, db, embed)
  {
    StepContentNonEmpty(s);
    var c := StepCandidate(s);
    RowCandidateListed(StepCandidate, db.steps, s);
    assert c in AllCandidates(db);
    CandidateCovered(present, AllCandidates(db), embed, c);
  }

  /** After a pass every UI component has an embedding row. */
  lemma PassCoversComponents(present: set<Key>, db: Database, embed: string -> seq<real>, c: ComponentRow)
    requires c in db.components
    ensures Key("ui_components", c.id, "component_description") in KeysAfterPass(present, db, embed)
  {
    ComponentContentNonEmpty(c);
    var cand := ComponentCandidate(c);
    RowCandidateListed(ComponentCandidate, db.components, c);
    assert cand in AllCandidates(db);
    CandidateCovered(present, AllCandidates(db), embed, cand);
  }

  // ---------------------------------------------------------------------------
  // The loops as written: one shared cursor
  // ---------------------------------------------------------------------------

  /**
   * The rows a `for row in cur.execute(...)` loop visits when its body runs
   * `cur.execute` again on the same cursor: only the first. Each loop body
   * starts with `has_embedding`, which re-executes the cursor and consumes the
   * one row of its `LIMIT 1` query, so the iteration finds nothing more.
   */
  function FirstRow<R>(rows: seq<R>): seq<R> {
    if rows == [] then [] else [rows[0]]
  }

  /** The candidates the documents and flows loops as written visit. */
  function FirstCandidates(db: Database): seq<Candidate> {
    Candidates(DocCandidate, FirstRow(db.documents)) + Candidates(FlowCandidate, FirstRow(db.flows))
  }

  /** The candidates the four loops as written visit: the first row of each table. */
  function AsWrittenCandidates(db: Database): seq<Candidate> {
    FirstCandidates(db) + Candidates(StepCandidate, FirstRow(db.steps)) + Candidates(ComponentCandidate, FirstRow(db.components))
  }

  /** The keys held after one pass of the loops as written. */
  function KeysAfterPassAsWritten(present: set<Key>, db: Database, embed: string -> seq<real>): set<Key> {
    present + KeysOf(Plan(present, AsWrittenCandidates(db), embed))
  }

  /** Every candidate of a table's rows has that table as its source type. */
  lemma CandidatesSourceType<R>(f: R -> Candidate, rows: seq<R>, st: string)
    requires forall r :: f(r).key.sourceType == st
    ensures forall x | x in Candidates(f, rows) :: x.key.sourceType == st
  {
    var cs := Candidates(f, rows);
    forall x | x in cs
      ensures x.key.sourceType == st
    {
      var j :| 0 <= j < |cs| && cs[j] == x;
    }
  }

  /** Every candidate the loops as written visit has another key than the second document. */
  lemma AsWrittenCandidateKeys(db: Database, k: Key)
    requires |db.documents| >= 2 && db.documents[1].id != db.documents[0].id
    requires k == Key("documents", db.documents[1].id, DocContentType(db.documents[1].docType))
    ensures forall c | c in AsWrittenCandidates(db) :: c.key != k
  {
    var a := Candidates(DocCandidate, FirstRow(db.documents));
    var b := Candidates(FlowCandidate, FirstRow(db.flows));
    assert FirstCandidates(db) == a + b;
    var c := Candidates(StepCandidate, FirstRow(db.steps));
    var d := Candidates(ComponentCandidate, FirstRow(db.components));
    assert a == [DocCandidate(db.documents[0])];
    CandidatesSourceType(FlowCandidate, FirstRow(db.flows), "flows");
    CandidatesSourceType(StepCandidate, FirstRow(db.steps), "steps");
    CandidatesSourceType(ComponentCandidate, FirstRow(db.components), "ui_components");
    assert "flows"[0] != k.sourceType[0] && "steps"[0] != k.sourceType[0] && "ui_components"[0] != k.sourceType[0];
    forall x | x in AsWrittenCandidates(db)
      ensures x.key != k
    {
      assert x in a || x in b || x in c || x in d;
    }
  }

  /**
   * As written, the second document is never seeded: whatever keys the table
   * already holds, a pass of the loops as written leaves its key missing, so
   * calling `ensure_embeddings_for_all` again does not help. The intended pass
   * over all rows seeds it.
   */
  lemma AsWrittenSkipsSecondDocument(present: set<Key>, db: Database, embed: string -> seq<real>)
    requires |db.documents| >= 2 && db.documents[1].id != db.documents[0].id
    requires DocContent(db.documents[1]) != []
    requires Key("documents", db.documents[1].id, DocContentType(db.documents[1].docType)) !in present
    ensures Key("documents", db.documents[1].id, DocContentType(db.documents[1].docType))
      !in KeysAfterPassAsWritten(present, db, embed)
    ensures Key("documents", db.documents[1].id, DocContentType(db.documents[1].docType))
      in KeysAfterPass(present, db, embed)
  {
    var d := db.documents[1];
    var k := Key("documents", d.id, DocContentType(d.docType));
    var cands := AsWrittenCandidates(db);
    var plan := Plan(present, cands, embed);
    AsWrittenCandidateKeys(db, k);
    PlanRecordsFromCandidates(present, cands, embed);
    forall r | r in plan
      ensures KeyOf(r) != k
    {
      var j :| 0 <= j < |cands| && r == RecordOf(cands[j], embed);
      assert cands[j] in cands;
    }
    PassCoversDocuments(present, db, embed, d);
  }

  // ---------------------------------------------------------------------------
  // The embeddings table
  // ---------------------------------------------------------------------------

  /** The `embeddings` table as the seeding pass sees it through one connection. */
  class EmbeddingStore {
    /** The rows, in insertion order. */
    var records: seq<EmbeddingRecord>
    /** The keys `has_embedding` can find. */
    var keys: set<Key>
    /** How many times the connection committed. */
    var commits: nat

    ghost predicate Valid()
      reads this
    {
      keys == KeysOf(records)
    }

    constructor(initial: seq<EmbeddingRecord>)
      ensures Valid() && records == initial && commits == 0
    {
      records := initial;
      keys := KeysOf(initial);
      commits := 0;
    }

    /** `has_embedding(source_type, source_id, content_type)`. */
    method HasEmbedding(k: Key) returns (found: bool)
      requires Valid()
      ensures found <==> exists r | r in records :: KeyOf(r) == k
    {
      found := k in keys;
    }

    /**
     * The body of one row loop: skip a present key, skip empty content,
     * otherwise insert the record (uncommitted).
     */
    method SeedCandidate(c: Candidate, embed: string -> seq<real>) returns (inserted: bool)
      requires Valid()
      modifies this
      ensures Valid()
      ensures inserted <==> c.key !in old(keys) && c.content != []
      ensures records == if inserted then old(records) + [RecordOf(c, embed)] else old(records)
      ensures commits == old(commits)
    {
      var present := HasEmbedding(c.key);
      if present {
        return false;
      }
      if c.content == [] {
        return false;
      }
      KeysOfConcat(records, [RecordOf(c, embed)]);
      records := records + [RecordOf(c, embed)];
      keys := keys + {c.key};
      inserted := true;
    }

    /** One step of a row loop agrees with one step of the reference pass. */
    static lemma PlanStep(k0: set<Key>, r0: seq<EmbeddingRecord>, before: seq<Candidate>, c: Candidate,
                          embed: string -> seq<real>,
                          recordsBefore: seq<EmbeddingRecord>, recordsAfter: seq<EmbeddingRecord>, inserted: bool)
      requires k0 == KeysOf(r0) && recordsBefore == r0 + Plan(k0, before, embed)
      requires inserted <==> c.key !in KeysOf(recordsBefore) && c.content != []
      requires recordsAfter == if inserted then recordsBefore + [RecordOf(c, embed)] else recordsBefore
      ensures recordsAfter == r0 + Plan(k0, before + [c], embed)
      ensures |Plan(k0, before + [c], embed)| == |Plan(k0, before, embed)| + if inserted then 1 else 0
    {
      assert (before + [c])[..|before|] == before;
      KeysOfConcat(r0, Plan(k0, before, embed));
    }

    /** The documents -> brd/guideline summary loop. */
    method SeedDocuments(rows: seq<DocumentRow>, embed: string -> seq<real>,
                      ghost k0: set<Key>, ghost r0: seq<EmbeddingRecord>, ghost done: seq<Candidate>)
      returns (created: nat)
      requires Valid() && k0 == KeysOf(r0) && records == r0 + Plan(k0, done, embed)
      modifies this
      ensures Valid() && commits == old(commits)
      ensures records == r0 + Plan(k0, done + Candidates(DocCandidate, rows), embed)
      ensures created + |Plan(k0, done, embed)| == |Plan(k0, done + Candidates(DocCandidate, rows), embed)|
    {
      created := 0;
      assert done + Candidates(DocCandidate, rows[..0]) == done;
      for i := 0 to |rows|
        invariant Valid() && commits == old(commits)
        invariant records == r0 + Plan(k0, done + Candidates(DocCandidate, rows[..i]), embed)
        invariant created + |Plan(k0, done, embed)| == |Plan(k0, done + Candidates(DocCandidate, rows[..i]), embed)|
      {
        ghost var before := done + Candidates(DocCandidate, rows[..i]);
        ghost var recordsBefore := records;
        var c := DocCandidate(rows[i]);
        var inserted := SeedCandidate(c, embed);
        PlanStep(k0, r0, before, c, embed, recordsBefore, records, inserted);
        if inserted {
          created := created + 1;
        }
        CandidatesSnoc(DocCandidate, rows, i, done);
      }
      assert rows[..|rows|] == rows;
    }

    /** The flows -> flow_summary loop. */
    method SeedFlows(rows: seq<FlowRow>, embed: string -> seq<real>,
                      ghost k0: set<Key>, ghost r0: seq<EmbeddingRecord>, ghost done: seq<Candidate>)
      returns (created: nat)
      requires Valid() && k0 == KeysOf(r0) && records == r0 + Plan(k0, done, embed)
      modifies this
      ensures Valid() && commits == old(commits)
      ensures records == r0 + Plan(k0, done + Candidates(FlowCandidate, rows), embed)
      ensures created + |Plan(k0, done, embed)| == |Plan(k0, done + Candidates(FlowCandidate, rows), embed)|
    {
      created := 0;
      assert done + Candidates(FlowCandidate, rows[..0]) == done;
      for i := 0 to |rows|
        invariant Valid() && commits == old(commits)
        invariant records == r0 + Plan(k0, done + Candidates(FlowCandidate, rows[..i]), embed)
        invariant created + |Plan(k0, done, embed)| == |Plan(k0, done + Candidates(FlowCandidate, rows[..i]), embed)|
      {
        ghost var before := done + Candidates(FlowCandidate, rows[..i]);
        ghost var recordsBefore := records;
        var c := FlowCandidate(rows[i]);
        var inserted := SeedCandidate(c, embed);
        PlanStep(k0, r0, before, c, embed, recordsBefore, records, inserted);
        if inserted {
          created := created + 1;
        }
        CandidatesSnoc(FlowCandidate, rows, i, done);
      }
      assert rows[..|rows|] == rows;
    }

    /** The steps -> step_description loop. */
    method SeedSteps(rows: seq<StepRow>, embed: string -> seq<real>,
                      ghost k0: set<Key>, ghost r0: seq<EmbeddingRecord>, ghost done: seq<Candidate>)
      returns (created: nat)
      requires Valid() && k0 == KeysOf(r0) && records == r0 + Plan(k0, done, embed)
      modifies this
      ensures Valid() && commits == old(commits)
      ensures records == r0 + Plan(k0, done + Candidates(StepCandidate, rows), embed)
      ensures created + |Plan(k0, done, embed)| == |Plan(k0, done + Candidates(StepCandidate, rows), embed)|
    {
      created := 0;
      assert done + Candidates(StepCandidate, rows[..0]) == done;
      for i := 0 to |rows|
        invariant Valid() && commits == old(commits)
        invariant records == r0 + Plan(k0, done + Candidates(StepCandidate, rows[..i]), embed)
        invariant created + |Plan(k0, done, embed)| == |Plan(k0, done + Candidates(StepCandidate, rows[..i]), embed)|
      {
        ghost var before := done + Candidates(StepCandidate, rows[..i]);
        ghost var recordsBefore := records;
        var c := StepCandidate(rows[i]);
        var inserted := SeedCandidate(c, embed);
        PlanStep(k0, r0, before, c, embed, recordsBefore, records, inserted);
        if inserted {
          created := created + 1;
        }
        CandidatesSnoc(StepCandidate, rows, i, done);
      }
      assert rows[..|rows|] == rows;
    }

    /** The ui_components -> component_description loop. */
    method SeedComponents(rows: seq<ComponentRow>, embed: string -> seq<real>,
                      ghost k0: set<Key>, ghost r0: seq<EmbeddingRecord>, ghost done: seq<Candidate>)
      returns (created: nat)
      requires Valid() && k0 == KeysOf(r0) && records == r0 + Plan(k0, done, embed)
      modifies this
      ensures Valid() && commits == old(commits)
      ensures records == r0 + Plan(k0, done + Candidates(ComponentCandidate, rows), embed)
      ensures created + |Plan(k0, done, embed)| == |Plan(k0, done + Candidates(ComponentCandidate, rows), embed)|
    {
      created := 0;
      assert done + Candidates(ComponentCandidate, rows[..0]) == done;
      for i := 0 to |rows|
        invariant Valid() && commits == old(commits)
        invariant records == r0 + Plan(k0, done + Candidates(ComponentCandidate, rows[..i]), embed)
        invariant created + |Plan(k0, done, embed)| == |Plan(k0, done + Candidates(ComponentCandidate, rows[..i]), embed)|
      {
        ghost var before := done + Candidates(ComponentCandidate, rows[..i]);
        ghost var recordsBefore := records;
        var c := ComponentCandidate(rows[i]);
        var inserted := SeedCandidate(c, embed);
        PlanStep(k0, r0, before, c, embed, recordsBefore, records, inserted);
        if inserted {
          created := created + 1;
        }
        CandidatesSnoc(ComponentCandidate, rows, i, done);
      }
      assert rows[..|rows|] == rows;
    }

    /**
     * A row loop as written: `for row in cur.execute(select)` on the cursor
     * that `has_embedding` and the `INSERT` also execute on. Fetching the first
     * row and running `has_embedding` leaves the cursor with no further row to
     * yield, so the loop ends after its first iteration whatever the body did.
     */
    method SeedTableAsWritten<R>(rows: seq<R>, f: R -> Candidate, embed: string -> seq<real>,
                                 ghost k0: set<Key>, ghost r0: seq<EmbeddingRecord>, ghost done: seq<Candidate>)
      returns (created: nat)
      requires Valid() && k0 == KeysOf(r0) && records == r0 + Plan(k0, done, embed)
      modifies this
      ensures Valid() && commits == old(commits)
      ensures records == r0 + Plan(k0, done + Candidates(f, FirstRow(rows)), embed)
      ensures created + |Plan(k0, done, embed)| == |Plan(k0, done + Candidates(f, FirstRow(rows)), embed)|
    {
      created := 0;
      var cursor := rows;
      ghost var visited: seq<R> := [];
      assert done + Candidates(f, visited) == done;
      while cursor != []
        invariant Valid() && commits == old(commits)
        invariant (visited == [] && cursor == rows) || (visited == FirstRow(rows) && cursor == [])
        invariant records == r0 + Plan(k0, done + Candidates(f, visited), embed)
        invariant created + |Plan(k0, done, embed)| == |Plan(k0, done + Candidates(f, visited), embed)|
        decreases |cursor|
      {
        var row := cursor[0];
        var c := f(row);
        // has_embedding executes on the iterated cursor and fetches its one row
        cursor := [];
        ghost var recordsBefore := records;
        var inserted := SeedCandidate(c, embed);
        PlanStep(k0, r0, done, c, embed, recordsBefore, records, inserted);
        if inserted {
          created := created + 1;
        }
        visited := [row];
        assert Candidates(f, visited) == [c];
      }
      if rows == [] {
        assert FirstRow(rows) == visited;
      }
    }

    /** The documents and flows loops as written. */
    method SeedDocumentsAndFlowsAsWritten(db: Database, embed: string -> seq<real>,
                                ghost k0: set<Key>, ghost r0: seq<EmbeddingRecord>)
      returns (created: nat)
      requires Valid() && k0 == KeysOf(r0) && records == r0
      modifies this
      ensures Valid() && commits == old(commits)
      ensures records == r0 + Plan(k0, FirstCandidates(db), embed)
      ensures created == |Plan(k0, FirstCandidates(db), embed)|
    {
      ghost var d1 := Candidates(DocCandidate, FirstRow(db.documents));
      EmptyConcat(d1);
      assert records == r0 + Plan(k0, [], embed);
      var n1 := SeedTableAsWritten(db.documents, DocCandidate, embed, k0, r0, []);
      var n2 := SeedTableAsWritten(db.flows, FlowCandidate, embed, k0, r0, d1);
      created := n1 + n2;
    }

    /** The steps and components loops as written, after the first two. */
    method SeedStepsAndComponentsAsWritten(db: Database, embed: string -> seq<real>,
                                ghost k0: set<Key>, ghost r0: seq<EmbeddingRecord>)
      returns (created: nat)
      requires Valid() && k0 == KeysOf(r0) && records == r0 + Plan(k0, FirstCandidates(db), embed)
      modifies this
      ensures Valid() && commits == old(commits)
      ensures records == r0 + Plan(k0, AsWrittenCandidates(db), embed)
      ensures created + |Plan(k0, FirstCandidates(db), embed)| == |Plan(k0, AsWrittenCandidates(db), embed)|
    {
      ghost var d2 := FirstCandidates(db);
      ghost var d3 := d2 + Candidates(StepCandidate, FirstRow(db.steps));
      var n3 := SeedTableAsWritten(db.steps, StepCandidate, embed, k0, r0, d2);
      var n4 := SeedTableAsWritten(db.components, ComponentCandidate, embed, k0, r0, d3);
      created := n3 + n4;
    }

    /**
     * `ensure_embeddings_for_all` as written: the four loops over the shared
     * cursor, then a single commit. Only the first row of each table is
     * visited.
     */
    method EnsureEmbeddingsForAllAsWritten(db: Database, embed: string -> seq<real>) returns (created: nat)
      requires Valid()
      modifies this
      ensures Valid()
      ensures records == old(records) + Plan(old(keys), AsWrittenCandidates(db), embed)
      ensures created == |Plan(old(keys), AsWrittenCandidates(db), embed)|
      ensures commits == old(commits) + 1
    {
      ghost var k0, r0 := keys, records;
      var n := SeedDocumentsAndFlowsAsWritten(db, embed, k0, r0);
      var m := SeedStepsAndComponentsAsWritten(db, embed, k0, r0);
      created := n + m;
      commits := commits + 1;
    }

    /**
     * `ensure_embeddings_for_all`: the four row loops, then a single commit.
     * The new rows are exactly the reference pass over the old keys, and
     * `created` counts them.
     */
    method EnsureEmbeddingsForAll(db: Database, embed: string -> seq<real>) returns (created: nat)
      requires Valid()
      modifies this
      ensures Valid()
      ensures records == old(records) + Plan(old(keys), AllCandidates(db), embed)
      ensures created == |Plan(old(keys), AllCandidates(db), embed)|
      ensures commits == old(commits) + 1
    {
      ghost var k0, r0 := keys, records;
      ghost var d0: seq<Candidate> := [];
      ghost var d1 := Candidates(DocCandidate, db.documents);
      EmptyConcat(d1);
      ghost var d2 := d1 + Candidates(FlowCandidate, db.flows);
      ghost var d3 := d2 + Candidates(StepCandidate, db.steps);
      ghost var d4 := d3 + Candidates(ComponentCandidate, db.components);
      assert records == r0 + Plan(k0, d0, embed);
      var n1 := SeedDocuments(db.documents, embed, k0, r0, d0);
      var n2 := SeedFlows(db.flows, embed, k0, r0, d1);
      var n3 := SeedSteps(db.steps, embed, k0, r0, d2);
      var n4 := SeedComponents(db.components, embed, k0, r0, d3);
      created := n1 + n2 + n3 + n4;
      commits := commits + 1;
    }
  }
}
