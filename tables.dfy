/**
 * The rows of the sqlite tables that seeding and retrieval read. A table is a
 * sequence of rows in the order a full `SELECT` returns them; a nullable column
 * is an `Option`, with `None` standing for SQL NULL.
 */
module Tables {
  import opened Wrappers

  datatype DocumentRow = DocumentRow(
    id: int, serviceId: Option<int>, flowId: Option<int>,
    docType: Option<string>, title: Option<string>, body: Option<string>)

  datatype FlowRow = FlowRow(
    id: int, serviceId: Option<int>,
    slug: Option<string>, name: Option<string>, goal: Option<string>, notes: Option<string>)

  datatype StepRow = StepRow(
    id: int, serviceId: Option<int>, flowId: Option<int>,
    slug: Option<string>, name: Option<string>, purpose: Option<string>,
    userActions: Option<string>, dataInputs: Option<string>, dataOutputs: Option<string>,
    conditions: Option<string>, uiSummary: Option<string>, notes: Option<string>)

  datatype ComponentRow = ComponentRow(
    id: int, key: Option<string>, kind: Option<string>, name: Option<string>,
    description: Option<string>, usageNotes: Option<string>, processCode: Option<string>)

  /**
   * A row of the `embeddings` table. The `tags` column is always NULL and the
   * `embedding` column holds the vector that `json.dumps` wrote.
   */
  datatype EmbeddingRecord = EmbeddingRecord(
    sourceType: string, sourceId: int,
    serviceId: Option<int>, flowId: Option<int>, stepId: Option<int>,
    contentType: string, content: string, vector: seq<real>)

  /** The four base tables. */
  datatype Database = Database(
    documents: seq<DocumentRow>, flows: seq<FlowRow>,
    steps: seq<StepRow>, components: seq<ComponentRow>)

  /** `SELECT ... FROM documents WHERE id = ?` then `fetchone()`: the first row with that id. */
  function FindDocument(rows: seq<DocumentRow>, id: int): (r: Option<DocumentRow>)
    ensures r.Some? ==> r.value in rows && r.value.id == id
    ensures r.None? <==> forall k | 0 <= k < |rows| :: rows[k].id != id
    decreases |rows|
  {
    if rows == [] then None
    else if rows[0].id == id then Some(rows[0])
    else FindDocument(rows[1..], id)
  }

  function FindFlow(rows: seq<FlowRow>, id: int): (r: Option<FlowRow>)
    ensures r.Some? ==> r.value in rows && r.value.id == id
    ensures r.None? <==> forall k | 0 <= k < |rows| :: rows[k].id != id
    decreases |rows|
  {
    if rows == [] then None
    else if rows[0].id == id then Some(rows[0])
    else FindFlow(rows[1..], id)
  }

  function FindStep(rows: seq<StepRow>, id: int): (r: Option<StepRow>)
    ensures r.Some? ==> r.value in rows && r.value.id == id
    ensures r.None? <==> forall k | 0 <= k < |rows| :: rows[k].id != id
    decreases |rows|
  {
    if rows == [] then None
    else if rows[0].id == id then Some(rows[0])
    else FindStep(rows[1..], id)
  }

  function FindComponent(rows: seq<ComponentRow>, id: int): (r: Option<ComponentRow>)
    ensures r.Some? ==> r.value in rows && r.value.id == id
    ensures r.None? <==> forall k | 0 <= k < |rows| :: rows[k].id != id
    decreases |rows|
  {
    if rows == [] then None
    else if rows[0].id == id then Some(rows[0])
    else FindComponent(rows[1..], id)
  }
}
