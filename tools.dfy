/**
 * The SQL text and bound parameters that the designer tools build, and the
 * component pairing of the step view: `list_ui_components`, the `IN (...)`
 * placeholder lists of `get_flow_bundle` and `get_step_details`, and the
 * component entries of `get_step_details`. Executing the SQL is not modelled;
 * the rows it returns are inputs.
 */
module Tools {
  import opened Wrappers
  import opened Strings
  import opened Tables

  /** The number of `?` placeholders in an SQL text. */
  function Marks(s: string): nat
    decreases |s|
  {
    if s == [] then 0
    else
      Marks(s[..|s| - 1]) + (if s[|s| - 1] == '?' then 1 else 0)
  }

  /** One placeholder. */
  const Mark := "?"

  lemma {:induction false} NoMarks(s: string)
    requires '?' !in s
    ensures Marks(s) == 0
    decreases |s|
  {
    if s != [] {
      NoMarks(s[..|s| - 1]);
    }
  }

  lemma {:induction false} MarksAppend(a: string, b: string)
    ensures Marks(a + b) == Marks(a) + Marks(b)
    decreases |b|
  {
    if b == [] {
      assert a + b == a;
    } else {
      var init := b[..|b| - 1];
      assert (a + b)[..|a + b| - 1] == a + init;
      MarksAppend(a, init);
    }
  }

  /** `n` spaces: the indentation inside a triple-quoted SQL text. */
  function Indent(n: nat): string {
    seq(n, _ => ' ')
  }

  lemma IndentMarks(n: nat)
    ensures Marks(Indent(n)) == 0
  {
    assert forall i | 0 <= i < n :: Indent(n)[i] == ' ';
    NoMarks(Indent(n));
  }

  /** One line of a triple-quoted SQL text. */
  function SqlLine(indent: nat, text: string): string {
    Indent(indent) + text + "\n"
  }

  lemma SqlLineMarks(indent: nat, text: string)
    ensures Marks(SqlLine(indent, text)) == Marks(text)
  {
    IndentMarks(indent);
    assert Marks("\n") == 0;
    MarksAppend(Indent(indent), text);
    MarksAppend(Indent(indent) + text, "\n");
  }

  lemma MarksAppend5(a: string, b: string, c: string, d: string, e: string)
    ensures Marks(a + b + c + d + e) == Marks(a) + Marks(b) + Marks(c) + Marks(d) + Marks(e)
  {
    MarksAppend(a, b);
    MarksAppend(a + b, c);
    MarksAppend(a + b + c, d);
    MarksAppend(a + b + c + d, e);
  }

  // ---------------------------------------------------------------------------
  // list_ui_components
  // ---------------------------------------------------------------------------

  const BaseQuery := "SELECT * FROM ui_components WHERE 1=1"

  function TypeClause(): string {
    " AND type = " + Mark
  }

  /** The triple-quoted `AND (name LIKE ? OR description LIKE ? OR usage_notes LIKE ?)` block. */
  function SearchClause(): string {
    "\n" + SqlLine(12, "AND (") + SqlLine(16, "name LIKE " + Mark) + SqlLine(16, "OR description LIKE " + Mark)
      + SqlLine(16, "OR usage_notes LIKE " + Mark) + SqlLine(12, ")") + Indent(8)
  }

  /** The search block with its literal lines abstracted: three marked lines give three marks. */
  lemma SearchClauseShape(nl: string, open: string, name: string, desc: string, usage: string, close: string)
    requires Marks(nl) == 0 && Marks(open) == 0 && Marks(name) == 0
    requires Marks(desc) == 0 && Marks(usage) == 0 && Marks(close) == 0
    ensures Marks(nl + SqlLine(12, open) + SqlLine(16, name + Mark) + SqlLine(16, desc + Mark)
      + SqlLine(16, usage + Mark) + SqlLine(12, close) + Indent(8)) == 3
  {
    assert Marks(Mark) == 1;
    SqlLineMarks(12, open);
    SqlLineMarks(16, name + Mark);
    SqlLineMarks(16, desc + Mark);
    SqlLineMarks(16, usage + Mark);
    SqlLineMarks(12, close);
    MarksAppend(name, Mark);
    MarksAppend(desc, Mark);
    MarksAppend(usage, Mark);
    IndentMarks(8);
    var head := nl + SqlLine(12, open);
    MarksAppend(nl, SqlLine(12, open));
    MarksAppend5(head, SqlLine(16, name + Mark), SqlLine(16, desc + Mark), SqlLine(16, usage + Mark), SqlLine(12, close));
    MarksAppend(head + SqlLine(16, name + Mark) + SqlLine(16, desc + Mark) + SqlLine(16, usage + Mark) + SqlLine(12, close),
                Indent(8));
  }

  lemma ListLiterals()
    ensures '?' !in BaseQuery && '?' !in " AND type = "
    ensures '?' !in "\n" && '?' !in "AND (" && '?' !in ")"
  {
  }

  lemma SearchLiterals()
    ensures '?' !in "name LIKE " && '?' !in "OR description LIKE " && '?' !in "OR usage_notes LIKE "
  {
  }

  lemma ClauseMarks()
    ensures Marks(BaseQuery) == 0
    ensures Marks(TypeClause()) == 1
    ensures Marks(SearchClause()) == 3
  {
    ListLiterals();
    SearchLiterals();
    NoMarks(BaseQuery);
    NoMarks(" AND type = ");
    NoMarks("\n");
    NoMarks("AND (");
    NoMarks(")");
    NoMarks("name LIKE ");
    NoMarks("OR description LIKE ");
    NoMarks("OR usage_notes LIKE ");
    assert Marks(Mark) == 1;
    MarksAppend(" AND type = ", Mark);
    SearchClauseShape("\n", "AND (", "name LIKE ", "OR description LIKE ", "OR usage_notes LIKE ", ")");
  }

  /** The query text `list_ui_components` sends for the given filters. */
  function ListQuery(typeFilter: Option<string>, search: Option<string>): string {
    Extended(Extended(BaseQuery, Truthy(typeFilter), TypeClause()), Truthy(search), SearchClause())
  }

  /** `query += clause` when `cond` holds. */
  function Extended(query: string, cond: bool, clause: string): string {
    if cond then query + clause else query
  }

  lemma ExtendedMarks(query: string, cond: bool, clause: string)
    ensures Marks(Extended(query, cond, clause)) == Marks(query) + (if cond then Marks(clause) else 0)
    ensures query <= Extended(query, cond, clause)
  {
    MarksAppend(query, clause);
  }

  /** The parameters it binds: the type, then the `LIKE` pattern once per searched column. */
  function ListParams(typeFilter: Option<string>, search: Option<string>): seq<string> {
    (if Truthy(typeFilter) then [typeFilter.value] else [])
      + (if Truthy(search) then ["%" + search.value + "%", "%" + search.value + "%", "%" + search.value + "%"] else [])
  }

  /**
   * `list_ui_components`: the query text and the parameter list grow
   * together, a clause and its parameters at a time.
   */
  method ListUiComponentsQuery(typeFilter: Option<string>, search: Option<string>)
    returns (query: string, params: seq<string>)
    ensures query == ListQuery(typeFilter, search) && params == ListParams(typeFilter, search)
  {
    query := BaseQuery;
    params := [];
    if Truthy(typeFilter) {
      query := query + TypeClause();
      params := params + [typeFilter.value];
    }
    if Truthy(search) {
      var like := "%" + search.value + "%";
      query := query + SearchClause();
      params := params + [like, like, like];
    }
  }

  /**
   * The query of `list_ui_components` has one `?` per parameter, and it
   * always starts with the unfiltered query.
   */
  lemma ListQueryBalanced(typeFilter: Option<string>, search: Option<string>)
    ensures Marks(ListQuery(typeFilter, search)) == |ListParams(typeFilter, search)|
    ensures BaseQuery <= ListQuery(typeFilter, search)
  {
    ClauseMarks();
    var typed := Extended(BaseQuery, Truthy(typeFilter), TypeClause());
    ExtendedMarks(BaseQuery, Truthy(typeFilter), TypeClause());
    ExtendedMarks(typed, Truthy(search), SearchClause());
  }

  /**
   * Without filters nothing is bound; a type filter binds exactly its value,
   * in front; a search binds three identical `%search%` patterns, at the end.
   */
  lemma ListParamsByFilter(typeFilter: Option<string>, search: Option<string>)
    ensures !Truthy(typeFilter) && !Truthy(search) ==>
      ListQuery(typeFilter, search) == BaseQuery && ListParams(typeFilter, search) == []
    ensures Truthy(typeFilter) ==> ListParams(typeFilter, search) == [typeFilter.value] + ListParams(None, search)
    ensures Truthy(search) ==> var like := "%" + search.value + "%";
      ListParams(typeFilter, search) == ListParams(typeFilter, None) + [like, like, like]
    ensures !Truthy(typeFilter) ==> ListParams(typeFilter, search) == ListParams(None, search)
    ensures !Truthy(search) ==> ListParams(typeFilter, search) == ListParams(typeFilter, None)
  {
  }

  // ---------------------------------------------------------------------------
  // IN (...) placeholder lists
  // ---------------------------------------------------------------------------

  /** `ids or [-1]`: an empty id list is replaced by an id no row has. */
  function OrSentinel(ids: seq<int>): (r: seq<int>)
    ensures r != []
    ensures ids != [] ==> r == ids
    ensures ids == [] ==> r == [-1]
  {
    if ids == [] then [-1] else ids
  }

  /** The characters of `"?" * n`, each a one-character string. */
  function MarkList(n: nat): (r: seq<string>)
    ensures |r| == n && forall k | 0 <= k < n :: r[k] == Mark
  {
    seq(n, _ => Mark)
  }

  /** `",".join("?" * n)`. */
  function Placeholders(n: nat): string {
    Join(",", MarkList(n))
  }

  /** `",".join("?" * n)` holds `n` marks separated by commas. */
  lemma {:induction false} PlaceholdersMarks(n: nat)
    ensures Marks(Placeholders(n)) == n
    ensures n > 0 ==> |Placeholders(n)| == 2 * n - 1
  {
    if n == 1 {
      assert Placeholders(1) == Mark;
    } else if n > 1 {
      PlaceholdersMarks(n - 1);
      assert MarkList(n) == [Mark] + MarkList(n - 1);
      JoinCons(",", Mark, MarkList(n - 1));
      MarksAppend(Mark + ",", Placeholders(n - 1));
    }
  }

  /** The placeholder list alternates `?` and `,`, starting and ending with `?`. */
  lemma {:induction false} PlaceholdersAlternate(n: nat)
    ensures forall k | 0 <= k < |Placeholders(n)| :: Placeholders(n)[k] == if k % 2 == 0 then '?' else ','
  {
    if n == 1 {
      assert Placeholders(1) == Mark;
    } else if n > 1 {
      PlaceholdersAlternate(n - 1);
      assert MarkList(n) == [Mark] + MarkList(n - 1);
      JoinCons(",", Mark, MarkList(n - 1));
      var rest := Placeholders(n - 1);
      assert Placeholders(n) == Mark + "," + rest;
      forall k | 2 <= k < |Placeholders(n)|
        ensures Placeholders(n)[k] == if k % 2 == 0 then '?' else ','
      {
        assert Placeholders(n)[k] == rest[k - 2];
      }
    }
  }

  /** `IN (` followed by the placeholders and `)`. */
  function InList(n: nat): string {
    "IN (" + Placeholders(n) + ")"
  }

  lemma InListMarks(n: nat)
    ensures Marks(InList(n)) == n
  {
    assert '?' !in "IN (" && '?' !in ")";
    NoMarks("IN (");
    NoMarks(")");
    PlaceholdersMarks(n);
    MarksAppend("IN (", Placeholders(n));
    MarksAppend("IN (" + Placeholders(n), ")");
  }

  /** SQL text with the values bound to its `?` marks. */
  datatype BoundQuery = BoundQuery(sql: string, params: seq<int>)

  /** A triple-quoted text of three lines, each indented by 8. */
  function ThreeLines(a: string, b: string, c: string): string {
    "\n" + SqlLine(8, a) + SqlLine(8, b) + SqlLine(8, c) + Indent(8)
  }

  /** A triple-quoted text of four lines, the last indented by `indent`. */
  function FourLines(a: string, b: string, c: string, d: string, indent: nat): string {
    "\n" + SqlLine(8, a) + SqlLine(8, b) + SqlLine(8, c) + SqlLine(indent, d) + Indent(8)
  }

  /** A triple-quoted `SELECT * FROM <table> WHERE <column> IN (...)` over the given ids. */
  function InQuery(table: string, column: string, ids: seq<int>): BoundQuery {
    BoundQuery(ThreeLines("SELECT *", "FROM " + table, "WHERE " + column + " " + InList(|ids|)), ids)
  }

  /** A triple-quoted query over `table` filtered by one key and by an `IN (...)` list of ids. */
  function KeyedInQuery(table: string, keyColumn: string, column: string, key: int, ids: seq<int>): BoundQuery {
    BoundQuery(FourLines("SELECT *", "FROM " + table, "WHERE " + keyColumn + " = " + Mark, "AND " + column + " " + InList(|ids|), 10),
               [key] + ids)
  }

  /** The transitions of a flow leaving any of its steps. */
  function TransitionsQuery(flowId: int, stepIds: seq<int>): BoundQuery {
    KeyedInQuery("transitions", "flow_id", "from_step_id", flowId, stepIds)
  }

  /** Every `?` of a query has a bound value. */
  predicate Balanced(q: BoundQuery) {
    Marks(q.sql) == |q.params|
  }

  /** A query of three lines after its opening line break holds the marks of its lines. */
  lemma ThreeLineMarks(a: string, b: string, c: string)
    ensures Marks(ThreeLines(a, b, c)) == Marks(a) + Marks(b) + Marks(c)
  {
    assert Marks("\n") == 0;
    SqlLineMarks(8, a);
    SqlLineMarks(8, b);
    SqlLineMarks(8, c);
    IndentMarks(8);
    MarksAppend5("\n", SqlLine(8, a), SqlLine(8, b), SqlLine(8, c), Indent(8));
  }

  /** The same for four lines, the last indented by `indent`. */
  lemma FourLineMarks(a: string, b: string, c: string, d: string, indent: nat)
    ensures Marks(FourLines(a, b, c, d, indent)) == Marks(a) + Marks(b) + Marks(c) + Marks(d)
  {
    assert Marks("\n") == 0;
    SqlLineMarks(8, a);
    SqlLineMarks(8, b);
    SqlLineMarks(8, c);
    SqlLineMarks(indent, d);
    IndentMarks(8);
    var head := "\n" + SqlLine(8, a);
    MarksAppend("\n", SqlLine(8, a));
    MarksAppend5(head, SqlLine(8, b), SqlLine(8, c), SqlLine(indent, d), Indent(8));
  }

  lemma QueryLiterals()
    ensures '?' !in "\n" && '?' !in "SELECT *" && '?' !in "FROM transitions" && '?' !in "WHERE flow_id = "
    ensures '?' !in "AND from_step_id " && '?' !in "FROM " && '?' !in "WHERE " && '?' !in " "
  {
  }

  lemma InQueryBalanced(table: string, column: string, ids: seq<int>)
    requires '?' !in table && '?' !in column
    ensures Balanced(InQuery(table, column, ids))
  {
    QueryLiterals();
    NoMarks("\n");
    NoMarks("SELECT *");
    NoMarks("FROM ");
    NoMarks("WHERE ");
    NoMarks(" ");
    NoMarks(table);
    NoMarks(column);
    MarksAppend("FROM ", table);
    MarksAppend("WHERE ", column);
    MarksAppend("WHERE " + column, " ");
    InListMarks(|ids|);
    MarksAppend("WHERE " + column + " ", InList(|ids|));
    ThreeLineMarks("SELECT *", "FROM " + table, "WHERE " + column + " " + InList(|ids|));
  }

  /** A text without marks followed by `k` marks holds `k` marks. */
  lemma MarkedLineMarks(p: string, s: string)
    requires '?' !in p
    ensures Marks(p + s) == Marks(s)
  {
    NoMarks(p);
    MarksAppend(p, s);
  }

  lemma KeyLineMarks(keyColumn: string)
    requires '?' !in keyColumn
    ensures Marks("WHERE " + keyColumn + " = " + Mark) == 1
  {
    assert '?' !in "WHERE " && '?' !in " = ";
    NoMarks(" = ");
    MarkedLineMarks("WHERE ", keyColumn);
    NoMarks(keyColumn);
    MarksAppend("WHERE " + keyColumn, " = ");
    assert Marks(Mark) == 1;
    MarksAppend("WHERE " + keyColumn + " = ", Mark);
  }

  lemma ColumnLineMarks(column: string, n: nat)
    requires '?' !in column
    ensures Marks("AND " + column + " " + InList(n)) == n
  {
    assert '?' !in "AND " && '?' !in " ";
    NoMarks(" ");
    MarkedLineMarks("AND ", column);
    NoMarks(column);
    MarksAppend("AND " + column, " ");
    InListMarks(n);
    MarksAppend("AND " + column + " ", InList(n));
  }

  lemma TableLineMarks(table: string)
    requires '?' !in table
    ensures Marks("SELECT *") == 0 && Marks("FROM " + table) == 0
  {
    assert '?' !in "SELECT *" && '?' !in "FROM ";
    NoMarks("SELECT *");
    NoMarks(table);
    MarkedLineMarks("FROM ", table);
  }

  /** The keyed query with its literal words abstracted: one mark for the key, `n` for the list. */
  lemma KeyedQueryShape(select: string, from: string, where: string, eq: string, and: string, space: string,
                        table: string, keyColumn: string, column: string, n: nat)
    requires '?' !in select && '?' !in from && '?' !in where && '?' !in eq && '?' !in and && '?' !in space
    requires '?' !in table && '?' !in keyColumn && '?' !in column
    ensures Marks(FourLines(select, from + table, where + keyColumn + eq + Mark, and + column + space + InList(n), 10)) == 1 + n
  {
    NoMarks(select);
    NoMarks(table);
    MarkedLineMarks(from, table);
    NoMarks(eq);
    NoMarks(keyColumn);
    MarkedLineMarks(where, keyColumn);
    MarksAppend(where + keyColumn, eq);
    assert Marks(Mark) == 1;
    MarksAppend(where + keyColumn + eq, Mark);
    NoMarks(space);
    NoMarks(column);
    MarkedLineMarks(and, column);
    MarksAppend(and + column, space);
    InListMarks(n);
    MarksAppend(and + column + space, InList(n));
    FourLineMarks(select, from + table, where + keyColumn + eq + Mark, and + column + space + InList(n), 10);
  }

  lemma KeyedInQueryBalanced(table: string, keyColumn: string, column: string, key: int, ids: seq<int>)
    requires '?' !in table && '?' !in keyColumn && '?' !in column
    ensures Balanced(KeyedInQuery(table, keyColumn, column, key, ids))
  {
    assert '?' !in "SELECT *" && '?' !in "FROM " && '?' !in "WHERE " && '?' !in " = " && '?' !in "AND " && '?' !in " ";
    KeyedQueryShape("SELECT *", "FROM ", "WHERE ", " = ", "AND ", " ", table, keyColumn, column, |ids|);
  }

  lemma TransitionsQueryBalanced(flowId: int, stepIds: seq<int>)
    ensures Balanced(TransitionsQuery(flowId, stepIds))
  {
    assert '?' !in "transitions" && '?' !in "flow_id" && '?' !in "from_step_id";
    KeyedInQueryBalanced("transitions", "flow_id", "from_step_id", flowId, stepIds);
  }

  /** A row of `step_components`. */
  datatype StepComponentRow = StepComponentRow(stepId: int, componentId: int, role: Option<string>)

  function StepIds(steps: seq<StepRow>): (r: seq<int>)
    ensures |r| == |steps| && forall k | 0 <= k < |steps| :: r[k] == steps[k].id
  {
    seq(|steps|, k requires 0 <= k < |steps| => steps[k].id)
  }

  function ComponentIds(scs: seq<StepComponentRow>): (r: seq<int>)
    ensures |r| == |scs| && forall k | 0 <= k < |scs| :: r[k] == scs[k].componentId
  {
    seq(|scs|, k requires 0 <= k < |scs| => scs[k].componentId)
  }

  /** The three queries of `get_flow_bundle` after the flow has been found. */
  datatype FlowBundleQueries = FlowBundleQueries(
    transitions: BoundQuery, stepComponents: BoundQuery, components: BoundQuery)

  /**
   * The queries for a flow with the given step rows; the component query is
   * built from the step-component rows the second query returned.
   */
  function FlowBundleQueriesFor(flowId: int, steps: seq<StepRow>, stepComponents: seq<StepComponentRow>)
    : FlowBundleQueries
  {
    var stepIds := OrSentinel(StepIds(steps));
    FlowBundleQueries(
      TransitionsQuery(flowId, stepIds),
      InQuery("step_components", "step_id", stepIds),
      InQuery("ui_components", "id", OrSentinel(Distinct(ComponentIds(stepComponents)))))
  }

  /** `get_flow_bundle`: each of its three queries binds one value per `?`. */
  lemma FlowBundleQueriesBalanced(flowId: int, steps: seq<StepRow>, stepComponents: seq<StepComponentRow>)
    ensures Balanced(FlowBundleQueriesFor(flowId, steps, stepComponents).transitions)
    ensures Balanced(FlowBundleQueriesFor(flowId, steps, stepComponents).stepComponents)
    ensures Balanced(FlowBundleQueriesFor(flowId, steps, stepComponents).components)
  {
    var stepIds := OrSentinel(StepIds(steps));
    assert '?' !in "step_components" && '?' !in "step_id" && '?' !in "ui_components" && '?' !in "id";
    TransitionsQueryBalanced(flowId, stepIds);
    InQueryBalanced("step_components", "step_id", stepIds);
    InQueryBalanced("ui_components", "id", OrSentinel(Distinct(ComponentIds(stepComponents))));
  }

  /**
   * The values `get_flow_bundle` binds: every `IN (...)` list gets at least
   * one id, the step queries bind the flow's step ids (or the sentinel `-1`
   * when it has none) after the flow id, and the component query binds each
   * referenced component id exactly once.
   */
  lemma FlowBundleBoundIds(flowId: int, steps: seq<StepRow>, stepComponents: seq<StepComponentRow>)
    ensures var q := FlowBundleQueriesFor(flowId, steps, stepComponents);
      && q.transitions.params == [flowId] + q.stepComponents.params
      && q.stepComponents.params != [] && q.components.params != []
      && q.stepComponents.params == (if steps == [] then [-1] else StepIds(steps))
    ensures var q := FlowBundleQueriesFor(flowId, steps, stepComponents);
      && (forall i, j | 0 <= i < j < |q.components.params| :: q.components.params[i] != q.components.params[j])
      && (stepComponents == [] ==> q.components.params == [-1])
      && (stepComponents != [] ==> forall x :: x in q.components.params <==> x in ComponentIds(stepComponents))
  {
    var scIds := ComponentIds(stepComponents);
    if stepComponents != [] {
      assert scIds[0] in Distinct(scIds);
    }
  }

  /** `get_step_details` binds the component id of every step-component row, or `-1` when there is none. */
  function StepDetailsComponentQuery(stepComponents: seq<StepComponentRow>): BoundQuery {
    InQuery("ui_components", "id", OrSentinel(ComponentIds(stepComponents)))
  }

  lemma StepDetailsComponentQueryBalanced(stepComponents: seq<StepComponentRow>)
    ensures Balanced(StepDetailsComponentQuery(stepComponents))
    ensures StepDetailsComponentQuery(stepComponents).params
      == if stepComponents == [] then [-1] else ComponentIds(stepComponents)
  {
    InQueryBalanced("ui_components", "id", OrSentinel(ComponentIds(stepComponents)));
  }

  // ---------------------------------------------------------------------------
  // get_step_details: components with their roles
  // ---------------------------------------------------------------------------

  /** A component row with the `role` of the step-component row that linked it. */
  datatype ComponentEntry = ComponentEntry(component: ComponentRow, role: Option<string>)

  function EntriesFor(sc: StepComponentRow, comps: seq<ComponentRow>): (r: seq<ComponentEntry>)
    ensures forall en :: en in r <==> en.component in comps && en.component.id == sc.componentId && en.role == sc.role
    decreases |comps|
  {
    if comps == [] then []
    else
      assert comps == [comps[0]] + comps[1..];
      (if comps[0].id == sc.componentId then [ComponentEntry(comps[0], sc.role)] else []) + EntriesFor(sc, comps[1..])
  }

  /** The nested comprehension: for each step-component row, each component with its id. */
  function PairComponents(scs: seq<StepComponentRow>, comps: seq<ComponentRow>): (r: seq<ComponentEntry>)
    ensures forall en :: en in r <==>
      en.component in comps && exists sc | sc in scs :: en.component.id == sc.componentId && en.role == sc.role
    decreases |scs|
  {
    if scs == [] then []
    else
      assert scs == [scs[0]] + scs[1..];
      EntriesFor(scs[0], comps) + PairComponents(scs[1..], comps)
  }

  /** Component ids are a primary key. */
  predicate UniqueIds(comps: seq<ComponentRow>) {
    forall i, j | 0 <= i < j < |comps| :: comps[i].id != comps[j].id
  }

  lemma {:induction false} EntriesForAbsent(sc: StepComponentRow, comps: seq<ComponentRow>)
    requires forall m | 0 <= m < |comps| :: comps[m].id != sc.componentId
    ensures EntriesFor(sc, comps) == []
    decreases |comps|
  {
    if comps != [] {
      EntriesForAbsent(sc, comps[1..]);
    }
  }

  lemma {:induction false} EntriesForUnique(sc: StepComponentRow, comps: seq<ComponentRow>, k: nat)
    requires UniqueIds(comps) && k < |comps| && comps[k].id == sc.componentId
    ensures EntriesFor(sc, comps) == [ComponentEntry(comps[k], sc.role)]
    decreases |comps|
  {
    if k == 0 {
      forall m | 0 <= m < |comps[1..]|
        ensures comps[1..][m].id != sc.componentId
      {
        assert comps[1..][m] == comps[m + 1];
      }
      EntriesForAbsent(sc, comps[1..]);
    } else {
      assert comps[0].id != comps[k].id;
      assert comps[1..][k - 1] == comps[k];
      EntriesForUnique(sc, comps[1..], k - 1);
    }
  }

  /** Every step-component row names an existing component. */
  predicate Resolved(scs: seq<StepComponentRow>, comps: seq<ComponentRow>) {
    forall i | 0 <= i < |scs| :: HasComponent(comps, scs[i].componentId)
  }

  /** Some component has the id. */
  predicate HasComponent(comps: seq<ComponentRow>, id: int) {
    exists c | c in comps :: c.id == id
  }

  /** `r` holds one entry per row of `scs`, in order: a component of `comps` with that row's id and role. */
  predicate PairedInOrder(scs: seq<StepComponentRow>, comps: seq<ComponentRow>, r: seq<ComponentEntry>) {
    && |r| == |scs|
    && forall i | 0 <= i < |scs| ::
         r[i].component in comps && r[i].component.id == scs[i].componentId && r[i].role == scs[i].role
  }

  lemma ResolvedTail(scs: seq<StepComponentRow>, comps: seq<ComponentRow>)
    requires scs != [] && Resolved(scs, comps)
    ensures Resolved(scs[1..], comps)
  {
    forall i | 0 <= i < |scs| - 1
      ensures HasComponent(comps, scs[1..][i].componentId)
    {
      assert scs[1..][i] == scs[i + 1];
    }
  }

  lemma PairedInOrderCons(scs: seq<StepComponentRow>, comps: seq<ComponentRow>, e: ComponentEntry, rest: seq<ComponentEntry>)
    requires scs != [] && PairedInOrder(scs[1..], comps, rest)
    requires e.component in comps && e.component.id == scs[0].componentId && e.role == scs[0].role
    ensures PairedInOrder(scs, comps, [e] + rest)
  {
    var r := [e] + rest;
    forall i | 1 <= i < |scs|
      ensures r[i].component in comps && r[i].component.id == scs[i].componentId && r[i].role == scs[i].role
    {
      assert r[i] == rest[i - 1] && scs[i] == scs[1..][i - 1];
    }
  }

  /**
   * When component ids are unique and every step-component row names an
   * existing component, the step view lists exactly one entry per
   * step-component row, in step-component order, with that row's role.
   */
  lemma {:induction false} PairingFollowsStepOrder(scs: seq<StepComponentRow>, comps: seq<ComponentRow>)
    requires UniqueIds(comps) && Resolved(scs, comps)
    ensures PairedInOrder(scs, comps, PairComponents(scs, comps))
    decreases |scs|
  {
    if scs != [] {
      assert HasComponent(comps, scs[0].componentId);
      var c :| c in comps && c.id == scs[0].componentId;
      var k :| 0 <= k < |comps| && comps[k] == c;
      EntriesForUnique(scs[0], comps, k);
      ResolvedTail(scs, comps);
      PairingFollowsStepOrder(scs[1..], comps);
      PairedInOrderCons(scs, comps, ComponentEntry(c, scs[0].role), PairComponents(scs[1..], comps));
    }
  }
}
