/**
 * The deterministic UI graph built from a normalised bundle (`build_ui_graph`):
 * one node per step, one edge per resolvable transition, and a merged
 * Mermaid text. The bundle's dictionaries become records whose optional
 * fields are `Option`s (`None` for an absent key); JSON parsing is a
 * parameter.
 */
module UiGraph {
  import opened Wrappers
  import opened Strings
  import opened Dicts

  // ---------------------------------------------------------------------------
  // The bundle
  // ---------------------------------------------------------------------------

  /** A step; every step has a slug (a step without one makes the builder raise `KeyError`). */
  datatype Step = Step(
    slug: string, name: Option<string>, mermaidNodeId: Option<string>,
    description: Option<string>, normalizationNotes: Option<string>)

  /** A UI component; current data names it by `slug`, older seed data by `key`. */
  datatype Component = Component(slug: Option<string>, key: Option<string>, name: Option<string>, description: Option<string>)

  /**
   * A step-component link. `componentSlugs` is `Some` exactly when the entry
   * holds a list under `component_slugs`.
   */
  datatype Link = Link(
    stepSlug: Option<string>, componentSlugs: Option<seq<string>>,
    componentKey: Option<string>, role: Option<string>)

  datatype Transition = Transition(
    fromStepSlug: Option<string>, toStepSlug: Option<string>,
    trigger: Option<string>, condition: Option<string>)

  /** The object form of a per-flow diagram entry. */
  datatype DiagramObject = DiagramObject(flowSlug: Option<string>, mermaidDiagram: Option<string>)

  /** A per-flow diagram entry: a JSON text or an already decoded object. */
  datatype DiagramEntry = Text(json: string) | Object(obj: DiagramObject)

  datatype Bundle = Bundle(
    steps: seq<Step>, components: seq<Component>, links: seq<Link>,
    transitions: seq<Transition>, diagrams: seq<DiagramEntry>)

  // ---------------------------------------------------------------------------
  // Indexes
  // ---------------------------------------------------------------------------

  function SlugOf(s: Step): Option<string> {
    Some(s.slug)
  }

  function Itself(s: Step, slug: string): Step {
    s
  }

  /** `steps_by_slug = {s["slug"]: s for s in steps}`. */
  function StepsBySlug(steps: seq<Step>): (d: Dict<Step>)
    ensures Valid(d)
  {
    FromItems(steps, SlugOf, Itself)
  }

  function Slugs(steps: seq<Step>): (r: seq<string>)
    ensures |r| == |steps| && forall k | 0 <= k < |steps| :: r[k] == steps[k].slug
  {
    seq(|steps|, k requires 0 <= k < |steps| => steps[k].slug)
  }

  lemma {:induction false} PresentSlugs(steps: seq<Step>)
    ensures PresentKeys(steps, SlugOf) == Slugs(steps)
    decreases |steps|
  {
    if steps != [] {
      PresentSlugs(steps[..|steps| - 1]);
      assert Slugs(steps) == Slugs(steps[..|steps| - 1]) + [steps[|steps| - 1].slug];
    }
  }

  /**
   * The step index: its keys are the distinct slugs in order of first
   * occurrence, and under each slug sits the last step with that slug.
   */
  lemma StepsBySlugContents(steps: seq<Step>)
    ensures StepsBySlug(steps).keys == Distinct(Slugs(steps))
    ensures forall slug | slug in StepsBySlug(steps).values ::
      exists i :: LastWithSlug(steps, slug, i) && steps[i] == StepsBySlug(steps).values[slug]
  {
    FromItemsKeys(steps, SlugOf, Itself);
    PresentSlugs(steps);
    forall slug | slug in StepsBySlug(steps).values
      ensures exists i :: LastWithSlug(steps, slug, i) && steps[i] == StepsBySlug(steps).values[slug]
    {
      FromItemsLast(steps, SlugOf, Itself, slug);
      var i :| LastWithKey(steps, SlugOf, slug, i) && StepsBySlug(steps).values[slug] == steps[i];
      assert LastWithSlug(steps, slug, i);
    }
  }

  /** `i` is the position of the last step with the slug. */
  predicate LastWithSlug(steps: seq<Step>, slug: string, i: int) {
    0 <= i < |steps| && steps[i].slug == slug && forall j | i < j < |steps| :: steps[j].slug != slug
  }

  /** `mermaid_node_id` when it is set and non-empty, else the slug. */
  function NodeId(step: Step, slug: string): string {
    if Truthy(step.mermaidNodeId) then step.mermaidNodeId.value else slug
  }

  /** `c.get("slug") or c.get("key")`, when that is non-empty. */
  function IndexKey(c: Component): Option<string> {
    if Truthy(c.slug) then c.slug else if Truthy(c.key) then c.key else None
  }

  /** `dict(c)` after `setdefault("key", key)`. */
  function Indexed(c: Component, key: string): Component {
    c.(key := Some(c.key.GetOr(key)))
  }

  function ComponentIndex(components: seq<Component>): (d: Dict<Component>)
    ensures Valid(d)
  {
    FromItems(components, IndexKey, Indexed)
  }

  /** The loop that fills `comps_by_key`. */
  method IndexComponents(components: seq<Component>) returns (index: Dict<Component>)
    ensures index == ComponentIndex(components)
  {
    index := Empty();
    for i := 0 to |components|
      invariant index == ComponentIndex(components[..i])
    {
      FromItemsStep(components, IndexKey, Indexed, i);
      var c := components[i];
      var key := IndexKey(c);
      if key.None? {
        continue;
      }
      var comp := Indexed(c, key.value);
      index := Put(index, key.value, comp);
    }
    assert components[..|components|] == components;
  }

  /**
   * The component index: a component is indexed under its slug, or its key
   * when the slug is missing or empty; components with neither are dropped;
   * a later component with the same key overwrites an earlier one; every
   * indexed component has a `key` field.
   */
  lemma ComponentIndexContents(components: seq<Component>, k: string)
    ensures k in ComponentIndex(components).values <==> exists i | 0 <= i < |components| :: IndexKey(components[i]) == Some(k)
    ensures k in ComponentIndex(components).values ==>
      && ComponentIndex(components).values[k].key.Some?
      && exists i :: LastWithKey(components, IndexKey, k, i) && ComponentIndex(components).values[k] == Indexed(components[i], k)
  {
    FromItemsHas(components, IndexKey, Indexed, k);
    if k in ComponentIndex(components).values {
      FromItemsLast(components, IndexKey, Indexed, k);
    }
  }

  // ---------------------------------------------------------------------------
  // Step-component links
  // ---------------------------------------------------------------------------

  /** A component as a node lists it. */
  datatype NodeComponent = NodeComponent(key: string, name: string, description: string, role: string)

  /** The component keys of a link: `component_slugs` when it is a list, else a non-empty `component_key`. */
  function LinkKeys(l: Link): seq<string> {
    match l.componentSlugs
    case Some(ks) => ks
    case None => if Truthy(l.componentKey) then [l.componentKey.value] else []
  }

  /** The entry for one key: the indexed component, or a placeholder named after the key. */
  function EntryFor(index: Dict<Component>, role: Option<string>, k: string): NodeComponent {
    var comp := Get(index, k).GetOr(Component(None, Some(k), Some(k), None));
    NodeComponent(comp.key.GetOr(k), comp.name.GetOr(k), comp.description.GetOr(""), role.GetOr("primary"))
  }

  function LinkEntries(index: Dict<Component>, l: Link): (r: seq<NodeComponent>)
    ensures |r| == |LinkKeys(l)|
  {
    seq(|LinkKeys(l)|, j requires 0 <= j < |LinkKeys(l)| => EntryFor(index, l.role, LinkKeys(l)[j]))
  }

  /**
   * A link's entries: one per key, in order, each carrying the link's role or
   * `"primary"`; a key the index lacks yields a placeholder whose key and name
   * are that key and whose description is empty.
   */
  lemma LinkEntriesShape(components: seq<Component>, l: Link)
    ensures var r := LinkEntries(ComponentIndex(components), l);
      && |r| == |LinkKeys(l)|
      && (l.componentSlugs.Some? ==> |r| == |l.componentSlugs.value|)
      && (l.componentSlugs.None? && !Truthy(l.componentKey) ==> r == [])
      && forall j | 0 <= j < |r| :: r[j].role == l.role.GetOr("primary")
    ensures var index := ComponentIndex(components);
      forall j | 0 <= j < |LinkKeys(l)| ::
        var k := LinkKeys(l)[j];
        var e := LinkEntries(index, l)[j];
        && (k !in index.values ==> e.key == k && e.name == k && e.description == "")
        && (k in index.values ==> Some(e.key) == index.values[k].key && e.name == index.values[k].name.GetOr(k))
  {
    var index := ComponentIndex(components);
    forall j | 0 <= j < |LinkKeys(l)|
      ensures LinkKeys(l)[j] in index.values ==> index.values[LinkKeys(l)[j]].key.Some?
    {
      ComponentIndexContents(components, LinkKeys(l)[j]);
    }
  }

  /** The entries that the links give the step `slug`, in link order. */
  function StepComponents(index: Dict<Component>, links: seq<Link>, slug: string): seq<NodeComponent>
    decreases |links|
  {
    if links == [] then []
    else
      var l := links[|links| - 1];
      StepComponents(index, links[..|links| - 1], slug) + (if l.stepSlug == Some(slug) then LinkEntries(index, l) else [])
  }

  lemma StepComponentsStep(index: Dict<Component>, links: seq<Link>, i: nat, slug: string)
    requires i < |links|
    ensures StepComponents(index, links[..i + 1], slug) ==
      StepComponents(index, links[..i], slug) + (if links[i].stepSlug == Some(slug) then LinkEntries(index, links[i]) else [])
  {
    assert links[..i + 1][..i] == links[..i];
  }

  /** After the first `i` links: every known slug holds the entries those links give it. */
  predicate ComponentsUpTo(steps: Dict<Step>, index: Dict<Component>, links: seq<Link>, m: map<string, seq<NodeComponent>>, i: nat)
    requires i <= |links|
  {
    && m.Keys == steps.values.Keys
    && forall slug | slug in m :: m[slug] == StepComponents(index, links[..i], slug)
  }

  /** A link naming no known step changes no entry. */
  lemma ComponentsSkip(steps: Dict<Step>, index: Dict<Component>, links: seq<Link>, m: map<string, seq<NodeComponent>>, i: nat)
    requires i < |links| && ComponentsUpTo(steps, index, links, m, i)
    requires links[i].stepSlug.None? || links[i].stepSlug.value !in steps.values
    ensures ComponentsUpTo(steps, index, links, m, i + 1)
  {
    forall slug | slug in m
      ensures m[slug] == StepComponents(index, links[..i + 1], slug)
    {
      StepComponentsStep(index, links, i, slug);
    }
  }

  /** A link naming a known step appends its entries to that step's, and to no other. */
  lemma ComponentsAdd(steps: Dict<Step>, index: Dict<Component>, links: seq<Link>,
                      m: map<string, seq<NodeComponent>>, m': map<string, seq<NodeComponent>>, i: nat)
    requires i < |links| && ComponentsUpTo(steps, index, links, m, i)
    requires links[i].stepSlug.Some? && links[i].stepSlug.value in m
    requires m'.Keys == m.Keys
    requires m'[links[i].stepSlug.value] == m[links[i].stepSlug.value] + LinkEntries(index, links[i])
    requires forall slug | slug in m && slug != links[i].stepSlug.value :: m'[slug] == m[slug]
    ensures ComponentsUpTo(steps, index, links, m', i + 1)
  {
    forall slug | slug in m'
      ensures m'[slug] == StepComponents(index, links[..i + 1], slug)
    {
      StepComponentsStep(index, links, i, slug);
    }
  }

  /** The inner loop: `step_to_components[slug].append(...)` once per key of the link. */
  method AppendEntries(m0: map<string, seq<NodeComponent>>, stepSlug: string, index: Dict<Component>, sc: Link)
    returns (m: map<string, seq<NodeComponent>>)
    requires stepSlug in m0
    ensures m.Keys == m0.Keys
    ensures m[stepSlug] == m0[stepSlug] + LinkEntries(index, sc)
    ensures forall slug | slug in m0 && slug != stepSlug :: m[slug] == m0[slug]
  {
    m := m0;
    var keys := LinkKeys(sc);
    for j := 0 to |keys|
      invariant m.Keys == m0.Keys
      invariant m[stepSlug] == m0[stepSlug] + LinkEntries(index, sc)[..j]
      invariant forall slug | slug in m0 && slug != stepSlug :: m[slug] == m0[slug]
    {
      assert LinkEntries(index, sc)[..j + 1] == LinkEntries(index, sc)[..j] + [EntryFor(index, sc.role, keys[j])];
      m := m[stepSlug := m[stepSlug] + [EntryFor(index, sc.role, keys[j])]];
    }
    assert LinkEntries(index, sc)[..|keys|] == LinkEntries(index, sc);
  }

  /**
   * The loop that fills `step_to_components`: every known slug starts with
   * no entries; links naming an unknown or missing step are skipped.
   */
  method LinkComponents(steps: Dict<Step>, index: Dict<Component>, links: seq<Link>)
    returns (m: map<string, seq<NodeComponent>>)
    ensures m.Keys == steps.values.Keys
    ensures forall slug | slug in m :: m[slug] == StepComponents(index, links, slug)
  {
    m := map slug | slug in steps.values :: [];
    for i := 0 to |links|
      invariant ComponentsUpTo(steps, index, links, m, i)
    {
      var sc := links[i];
      if sc.stepSlug.None? || sc.stepSlug.value !in steps.values {
        ComponentsSkip(steps, index, links, m, i);
        continue;
      }
      var m' := AppendEntries(m, sc.stepSlug.value, index, sc);
      ComponentsAdd(steps, index, links, m, m', i);
      m := m';
    }
    assert links[..|links|] == links;
  }

  // ---------------------------------------------------------------------------
  // Flow attribution
  // ---------------------------------------------------------------------------

  /**
   * How the attribution loop reads an entry as written: it `json.loads` every
   * entry, and an entry that is already an object raises `TypeError`, which
   * the loop catches and skips.
   */
  function AttributionRead(parse: string -> Option<DiagramObject>): DiagramEntry -> Option<DiagramObject> {
    (e: DiagramEntry) => match e case Text(s) => parse(s) case Object(_) => None
  }

  /** How the merge loop reads an entry as written: `fm.get` works on objects only. */
  function MergeRead(e: DiagramEntry): Option<DiagramObject> {
    match e case Text(_) => None case Object(o) => Some(o)
  }

  /** Either form read as an object: a text is parsed, an object is taken as it is. */
  function EntryObject(parse: string -> Option<DiagramObject>): DiagramEntry -> Option<DiagramObject> {
    (e: DiagramEntry) => match e case Text(s) => parse(s) case Object(o) => Some(o)
  }

  /** `{node_id}[`: how a Mermaid diagram declares the node. */
  function Token(nodeId: string): string {
    nodeId + "["
  }

  /** The object names a flow, has a diagram, and that diagram declares the node. */
  predicate References(o: DiagramObject, nodeId: string) {
    Truthy(o.flowSlug) && Truthy(o.mermaidDiagram) && Contains(o.mermaidDiagram.value, Token(nodeId))
  }

  /** The flows whose diagrams, read by `read`, reference the node. */
  function FlowsOf(read: DiagramEntry -> Option<DiagramObject>, entries: seq<DiagramEntry>, nodeId: string): set<string> {
    set i | 0 <= i < |entries| && read(entries[i]).Some? && References(read(entries[i]).value, nodeId) :: read(entries[i]).value.flowSlug.value
  }

  lemma FlowsOfStep(read: DiagramEntry -> Option<DiagramObject>, entries: seq<DiagramEntry>, i: nat, nodeId: string)
    requires i < |entries|
    ensures FlowsOf(read, entries[..i + 1], nodeId) == FlowsOf(read, entries[..i], nodeId) +
      (if read(entries[i]).Some? && References(read(entries[i]).value, nodeId) then {read(entries[i]).value.flowSlug.value} else {})
  {
    var a := entries[..i + 1];
    var b := entries[..i];
    assert forall k | 0 <= k < i :: a[k] == b[k] && a[k] == entries[k];
    assert a[i] == entries[i];
  }

  /** `slug` is one of the first `j` keys. */
  predicate AmongFirst(keys: seq<string>, j: nat, slug: string)
    requires j <= |keys|
  {
    slug in keys[..j]
  }

  lemma AmongFirstStep(keys: seq<string>, j: nat)
    requires j < |keys|
    ensures forall slug :: AmongFirst(keys, j + 1, slug) <==> AmongFirst(keys, j, slug) || slug == keys[j]
  {
    var a := keys[..j];
    assert keys[..j + 1] == a + [keys[j]];
    forall slug
      ensures AmongFirst(keys, j + 1, slug) <==> AmongFirst(keys, j, slug) || slug == keys[j]
    {
      assert slug in a + [keys[j]] <==> slug in a || slug in [keys[j]];
    }
  }

  /** The diagram declares the node of the step indexed under `slug`. */
  predicate Declares(steps: Dict<Step>, diagram: string, slug: string)
    requires slug in steps.values
  {
    Contains(diagram, Token(NodeId(steps.values[slug], slug)))
  }

  /** After the first `j` keys: the flow is added to exactly those of them that `hit` selects. */
  predicate FlowAddedUpTo(steps: Dict<Step>, m0: map<string, set<string>>, m: map<string, set<string>>,
                          hit: string -> bool, flow: string, j: nat)
    requires j <= |steps.keys|
  {
    && m.Keys == m0.Keys
    && forall slug | slug in m ::
         m[slug] == m0[slug] + (if AmongFirst(steps.keys, j, slug) && hit(slug) then {flow} else {})
  }

  lemma KeyNotAmongFirst(steps: Dict<Step>, j: nat)
    requires Valid(steps) && j < |steps.keys|
    ensures !AmongFirst(steps.keys, j, steps.keys[j]) && steps.keys[j] in steps.values
  {
    forall k | 0 <= k < j
      ensures steps.keys[..j][k] != steps.keys[j]
    {
      assert steps.keys[..j][k] == steps.keys[k];
    }
  }

  /** The map after one more iteration of the inner loop. */
  function FlowAddedNext(steps: Dict<Step>, m: map<string, set<string>>, hit: string -> bool, flow: string, j: nat)
    : map<string, set<string>>
    requires j < |steps.keys| && steps.keys[j] in m
  {
    var slug := steps.keys[j];
    if hit(slug) then m[slug := m[slug] + {flow}] else m
  }

  /** One entry of the map after one more iteration. */
  lemma FlowAddedEntry(steps: Dict<Step>, m0: map<string, set<string>>, m: map<string, set<string>>,
                       hit: string -> bool, flow: string, j: nat, other: string)
    requires Valid(steps) && j < |steps.keys| && steps.keys[j] in m
    requires FlowAddedUpTo(steps, m0, m, hit, flow, j)
    requires other in m
    ensures FlowAddedNext(steps, m, hit, flow, j)[other]
      == m0[other] + (if AmongFirst(steps.keys, j + 1, other) && hit(other) then {flow} else {})
  {
    AmongFirstStep(steps.keys, j);
    KeyNotAmongFirst(steps, j);
  }

  /** One iteration of the inner loop keeps FlowAddedUpTo. */
  lemma FlowAddedStep(steps: Dict<Step>, m0: map<string, set<string>>, m: map<string, set<string>>,
                      hit: string -> bool, flow: string, j: nat)
    requires Valid(steps) && j < |steps.keys| && m0.Keys == steps.values.Keys
    requires FlowAddedUpTo(steps, m0, m, hit, flow, j)
    ensures steps.keys[j] in m
    ensures FlowAddedUpTo(steps, m0, FlowAddedNext(steps, m, hit, flow, j), hit, flow, j + 1)
  {
    KeyNotAmongFirst(steps, j);
    var next := FlowAddedNext(steps, m, hit, flow, j);
    assert next.Keys == m.Keys;
    forall other | other in next
      ensures next[other] == m0[other] + (if AmongFirst(steps.keys, j + 1, other) && hit(other) then {flow} else {})
    {
      FlowAddedEntry(steps, m0, m, hit, flow, j, other);
    }
  }

  /** After all keys, FlowAddedUpTo selects every key. */
  lemma FlowAddedAll(steps: Dict<Step>, m0: map<string, set<string>>, m: map<string, set<string>>, hit: string -> bool, flow: string)
    requires Valid(steps) && m0.Keys == steps.values.Keys
    requires FlowAddedUpTo(steps, m0, m, hit, flow, |steps.keys|)
    ensures m.Keys == m0.Keys
    ensures forall slug | slug in m :: m[slug] == m0[slug] + (if hit(slug) then {flow} else {})
  {
    assert steps.keys[..|steps.keys|] == steps.keys;
  }

  /** The inner loop over the step index: every step whose token occurs in the diagram gets the flow. */
  method AddFlow(steps: Dict<Step>, m0: map<string, set<string>>, diagram: string, flow: string)
    returns (m: map<string, set<string>>)
    requires Valid(steps) && m0.Keys == steps.values.Keys
    ensures m.Keys == m0.Keys
    ensures forall slug | slug in m :: m[slug] == m0[slug] + (if Declares(steps, diagram, slug) then {flow} else {})
  {
    ghost var hit := (slug: string) => slug in steps.values && Declares(steps, diagram, slug);
    m := m0;
    for j := 0 to |steps.keys|
      invariant FlowAddedUpTo(steps, m0, m, hit, flow, j)
    {
      FlowAddedStep(steps, m0, m, hit, flow, j);
      ghost var next := FlowAddedNext(steps, m, hit, flow, j);
      var slug := steps.keys[j];
      var nodeId := NodeId(steps.values[slug], slug);
      if Contains(diagram, Token(nodeId)) {
        assert hit(slug);
        m := m[slug := m[slug] + {flow}];
      } else {
        assert !hit(slug);
      }
      assert m == next;
    }
    FlowAddedAll(steps, m0, m, hit, flow);
  }

  /** After the first `i` entries: every step holds the flows of the entries so far that reference its node. */
  predicate FlowsUpTo(steps: Dict<Step>, read: DiagramEntry -> Option<DiagramObject>, entries: seq<DiagramEntry>,
                      m: map<string, set<string>>, i: nat)
    requires i <= |entries|
  {
    && m.Keys == steps.values.Keys
    && forall slug | slug in m :: m[slug] == FlowsOf(read, entries[..i], NodeId(steps.values[slug], slug))
  }

  /** An entry that is not an object with a flow slug and a diagram references no node. */
  lemma FlowsSkip(steps: Dict<Step>, read: DiagramEntry -> Option<DiagramObject>, entries: seq<DiagramEntry>,
                  m: map<string, set<string>>, i: nat)
    requires i < |entries| && FlowsUpTo(steps, read, entries, m, i)
    requires read(entries[i]).None? || !Truthy(read(entries[i]).value.flowSlug) || !Truthy(read(entries[i]).value.mermaidDiagram)
    ensures FlowsUpTo(steps, read, entries, m, i + 1)
  {
    forall slug | slug in m
      ensures m[slug] == FlowsOf(read, entries[..i + 1], NodeId(steps.values[slug], slug))
    {
      FlowsOfStep(read, entries, i, NodeId(steps.values[slug], slug));
    }
  }

  /** An object with a flow slug and a diagram adds its flow to the steps whose node the diagram declares. */
  lemma FlowsAdd(steps: Dict<Step>, read: DiagramEntry -> Option<DiagramObject>, entries: seq<DiagramEntry>,
                 m: map<string, set<string>>, m': map<string, set<string>>, i: nat)
    requires i < |entries| && FlowsUpTo(steps, read, entries, m, i)
    requires read(entries[i]).Some? && Truthy(read(entries[i]).value.flowSlug) && Truthy(read(entries[i]).value.mermaidDiagram)
    requires m'.Keys == m.Keys
    requires forall slug | slug in m' ::
      m'[slug] == m[slug] + (if Declares(steps, read(entries[i]).value.mermaidDiagram.value, slug) then {read(entries[i]).value.flowSlug.value} else {})
    ensures FlowsUpTo(steps, read, entries, m', i + 1)
  {
    forall slug | slug in m'
      ensures m'[slug] == FlowsOf(read, entries[..i + 1], NodeId(steps.values[slug], slug))
    {
      FlowsOfStep(read, entries, i, NodeId(steps.values[slug], slug));
    }
  }

  /**
   * The loop that fills `step_to_flows`: for each entry that reads as an
   * object with a flow slug and a diagram, every step whose node token occurs
   * in the diagram gets that flow.
   */
  method AttributeFlows(steps: Dict<Step>, read: DiagramEntry -> Option<DiagramObject>, entries: seq<DiagramEntry>)
    returns (m: map<string, set<string>>)
    requires Valid(steps)
    ensures m.Keys == steps.values.Keys
    ensures forall slug | slug in m :: m[slug] == FlowsOf(read, entries, NodeId(steps.values[slug], slug))
  {
    m := map slug | slug in steps.values :: {};
    for i := 0 to |entries|
      invariant FlowsUpTo(steps, read, entries, m, i)
    {
      var fm := read(entries[i]);
      if fm.None? {
        FlowsSkip(steps, read, entries, m, i);
        continue;
      }
      var flowSlug := fm.value.flowSlug;
      var diagram := if Truthy(fm.value.mermaidDiagram) then fm.value.mermaidDiagram.value else "";
      if !Truthy(flowSlug) || diagram == "" {
        FlowsSkip(steps, read, entries, m, i);
        continue;
      }
      var m' := AddFlow(steps, m, diagram, flowSlug.value);
      FlowsAdd(steps, read, entries, m, m', i);
      m := m';
    }
    assert entries[..|entries|] == entries;
  }

  /** Python's `sorted` on the set of flows of one step. */
  method SortFlows(flows: set<string>) returns (r: seq<string>)
    ensures r == SortedOf(flows)
  {
    r := [];
    var rest := flows;
    while rest != {}
      invariant rest <= flows
      invariant StrictlySorted(r)
      invariant forall y :: y in r <==> y in flows && y !in rest
      decreases |rest|
    {
      var x :| x in rest;
      r := InsertSorted(x, r);
      rest := rest - {x};
    }
    SortedUnique(r, SortedOf(flows));
  }

  // ---------------------------------------------------------------------------
  // Nodes
  // ---------------------------------------------------------------------------

  const ComponentsHeading := "Компоненти екрану:\n"
  const NotesHeading := "Нотатки з нормалізації: "

  /** `- {name}: {description.strip()}`. */
  function Bullet(c: NodeComponent): string {
    "- " + c.name + ": " + Strip(c.description)
  }

  /** The loop that builds `comp_lines`. */
  method ComponentLines(components: seq<NodeComponent>) returns (lines: seq<string>)
    ensures |lines| == |components| && forall k | 0 <= k < |components| :: lines[k] == Bullet(components[k])
  {
    lines := [];
    for k := 0 to |components|
      invariant |lines| == k && forall j | 0 <= j < k :: lines[j] == Bullet(components[j])
    {
      lines := lines + [Bullet(components[k])];
    }
  }

  function Bullets(components: seq<NodeComponent>): (r: seq<string>)
    ensures |r| == |components| && forall k | 0 <= k < |components| :: r[k] == Bullet(components[k])
  {
    seq(|components|, k requires 0 <= k < |components| => Bullet(components[k]))
  }

  /** `parts`: the step description, the component block and the normalisation notes, each when present. */
  function DescriptionParts(step: Step, components: seq<NodeComponent>): seq<string> {
    (if Truthy(step.description) then [step.description.value] else [])
    + (if components != [] then [ComponentsHeading + Join("\n", Bullets(components))] else [])
    + (if Truthy(step.normalizationNotes) then [NotesHeading + step.normalizationNotes.value] else [])
  }

  /** `p for p in parts if p`. */
  function NonEmpty(parts: seq<string>): (r: seq<string>)
    ensures forall k | 0 <= k < |r| :: r[k] != ""
    decreases |parts|
  {
    if parts == [] then []
    else NonEmpty(parts[..|parts| - 1]) + (if parts[|parts| - 1] == "" then [] else [parts[|parts| - 1]])
  }

  function NodeDescription(step: Step, components: seq<NodeComponent>): string {
    Join("\n\n", NonEmpty(DescriptionParts(step, components)))
  }

  lemma {:induction false} NonEmptyKeepsFilled(parts: seq<string>)
    requires forall k | 0 <= k < |parts| :: parts[k] != ""
    ensures NonEmpty(parts) == parts
    decreases |parts|
  {
    if parts != [] {
      NonEmptyKeepsFilled(parts[..|parts| - 1]);
    }
  }

  lemma HeadingsFilled()
    ensures ComponentsHeading != "" && NotesHeading != ""
  {
    assert ComponentsHeading[0] == 'К' && NotesHeading[0] == 'Н';
  }

  /** Up to three parts, each present when its flag is set, and non-empty then. */
  lemma PresentPartsFilled(x: bool, xs: string, y: bool, ys: string, z: bool, zs: string)
    requires (x ==> xs != "") && (y ==> ys != "") && (z ==> zs != "")
    ensures var p := (if x then [xs] else []) + (if y then [ys] else []) + (if z then [zs] else []);
      && (forall k | 0 <= k < |p| :: p[k] != "")
      && (p == [] <==> !x && !y && !z)
  {
  }

  lemma DescriptionPartsFilled(step: Step, components: seq<NodeComponent>)
    ensures forall k | 0 <= k < |DescriptionParts(step, components)| :: DescriptionParts(step, components)[k] != ""
    ensures DescriptionParts(step, components) == [] <==>
      !Truthy(step.description) && components == [] && !Truthy(step.normalizationNotes)
  {
    HeadingsFilled();
    var block := ComponentsHeading + Join("\n", Bullets(components));
    var notes := NotesHeading + step.normalizationNotes.GetOr("");
    assert |block| >= |ComponentsHeading| && |notes| >= |NotesHeading|;
    PresentPartsFilled(Truthy(step.description), step.description.GetOr(""), components != [], block,
                       Truthy(step.normalizationNotes), notes);
  }

  /**
   * A node's description joins, with a blank line between them, the step's
   * description, the component block and the normalisation notes that are
   * present; it is empty exactly when none of them is.
   */
  lemma NodeDescriptionShape(step: Step, components: seq<NodeComponent>)
    ensures NodeDescription(step, components) == Join("\n\n", DescriptionParts(step, components))
    ensures NodeDescription(step, components) == "" <==>
      !Truthy(step.description) && components == [] && !Truthy(step.normalizationNotes)
  {
    var parts := DescriptionParts(step, components);
    DescriptionPartsFilled(step, components);
    NonEmptyKeepsFilled(parts);
    if parts != [] {
      assert |Join("\n\n", parts)| >= |parts[0]|;
    }
  }

  /** A node: one per step, keyed by the step's slug. */
  datatype Node = Node(
    id: string, stepSlug: string, title: string, flows: seq<string>,
    description: string, components: seq<NodeComponent>)

  /** The node of the step indexed under `slug`, given its components and the flows referencing it. */
  ghost function NodeOf(slug: string, step: Step, components: seq<NodeComponent>, flows: set<string>): Node {
    Node(NodeId(step, slug), slug, step.name.GetOr(slug), SortedOf(flows), NodeDescription(step, components), components)
  }

  /** The node for the `i`-th key of the step index. */
  ghost function NodeAt(steps: Dict<Step>, components: map<string, seq<NodeComponent>>, flows: map<string, set<string>>, i: nat): Node
    requires Valid(steps) && i < |steps.keys|
    requires components.Keys == steps.values.Keys && flows.Keys == steps.values.Keys
  {
    var slug := steps.keys[i];
    NodeOf(slug, steps.values[slug], components[slug], flows[slug])
  }

  /** The node loop's body for one step. */
  method BuildNode(slug: string, step: Step, stepComponents: seq<NodeComponent>, flows: set<string>) returns (node: Node)
    ensures node == NodeOf(slug, step, stepComponents, flows)
  {
    var nodeId := NodeId(step, slug);
    var flowsForStep := SortFlows(flows);
    ghost var a := if Truthy(step.description) then [step.description.value] else [];
    ghost var b := if stepComponents != [] then [ComponentsHeading + Join("\n", Bullets(stepComponents))] else [];
    ghost var c := if Truthy(step.normalizationNotes) then [NotesHeading + step.normalizationNotes.value] else [];
    var parts: seq<string> := [];
    if Truthy(step.description) {
      parts := parts + [step.description.value];
    }
    assert parts == a;
    if stepComponents != [] {
      var compLines := ComponentLines(stepComponents);
      assert compLines == Bullets(stepComponents);
      parts := parts + [ComponentsHeading + Join("\n", compLines)];
    }
    assert parts == a + b;
    if Truthy(step.normalizationNotes) {
      parts := parts + [NotesHeading + step.normalizationNotes.value];
    }
    assert parts == a + b + c;
    var fullDescription := Join("\n\n", NonEmpty(parts));
    node := Node(nodeId, slug, step.name.GetOr(slug), flowsForStep, fullDescription, stepComponents);
  }

  /** The loop that builds `nodes`, in the step index's order. */
  method BuildNodes(steps: Dict<Step>, components: map<string, seq<NodeComponent>>, flows: map<string, set<string>>)
    returns (nodes: seq<Node>)
    requires Valid(steps)
    requires components.Keys == steps.values.Keys && flows.Keys == steps.values.Keys
    ensures |nodes| == |steps.keys|
    ensures forall i | 0 <= i < |nodes| :: nodes[i] == NodeAt(steps, components, flows, i)
  {
    nodes := [];
    for i := 0 to |steps.keys|
      invariant |nodes| == i
      invariant forall k | 0 <= k < i :: nodes[k] == NodeAt(steps, components, flows, k)
    {
      var slug := steps.keys[i];
      var node := BuildNode(slug, steps.values[slug], components[slug], flows[slug]);
      nodes := nodes + [node];
    }
  }

  // ---------------------------------------------------------------------------
  // Edges
  // ---------------------------------------------------------------------------

  datatype Edge = Edge(
    from: string, to: string, fromStepSlug: string, toStepSlug: string,
    trigger: string, condition: string)

  /** The edge of a transition whose two slugs are non-empty and name known steps. */
  function EdgeOf(steps: Dict<Step>, t: Transition): Option<Edge> {
    if !Truthy(t.fromStepSlug) || !Truthy(t.toStepSlug) then None
    else
      var f := t.fromStepSlug.value;
      var g := t.toStepSlug.value;
      if f !in steps.values || g !in steps.values then None
      else Some(Edge(NodeId(steps.values[f], f), NodeId(steps.values[g], g), f, g,
                     t.trigger.GetOr(""), t.condition.GetOr("")))
  }

  function Edges(steps: Dict<Step>, transitions: seq<Transition>): seq<Edge>
    decreases |transitions|
  {
    if transitions == [] then []
    else
      var t := transitions[|transitions| - 1];
      Edges(steps, transitions[..|transitions| - 1]) + (match EdgeOf(steps, t) case None => [] case Some(e) => [e])
  }

  /** The loop that builds `edges`. */
  method BuildEdges(steps: Dict<Step>, transitions: seq<Transition>) returns (edges: seq<Edge>)
    ensures edges == Edges(steps, transitions)
  {
    edges := [];
    for i := 0 to |transitions|
      invariant edges == Edges(steps, transitions[..i])
    {
      assert transitions[..i + 1][..i] == transitions[..i];
      var tr := transitions[i];
      if !Truthy(tr.fromStepSlug) || !Truthy(tr.toStepSlug) {
        continue;
      }
      var fromSlug := tr.fromStepSlug.value;
      var toSlug := tr.toStepSlug.value;
      var fromStep := Get(steps, fromSlug);
      var toStep := Get(steps, toSlug);
      if fromStep.None? || toStep.None? {
        continue;
      }
      edges := edges + [Edge(NodeId(fromStep.value, fromSlug), NodeId(toStep.value, toSlug), fromSlug, toSlug,
                             tr.trigger.GetOr(""), tr.condition.GetOr(""))];
    }
    assert transitions[..|transitions|] == transitions;
  }

  /** Edges follow the transitions in order: the edges of two runs of transitions are the edges of each, concatenated. */
  lemma {:induction false} EdgesConcat(steps: Dict<Step>, a: seq<Transition>, b: seq<Transition>)
    ensures Edges(steps, a + b) == Edges(steps, a) + Edges(steps, b)
    decreases |b|
  {
    if b == [] {
      assert a + b == a;
    } else {
      var b0 := b[..|b| - 1];
      EdgesConcat(steps, a, b0);
      assert (a + b)[..|a + b| - 1] == a + b0;
    }
  }

  /**
   * One transition gives one edge exactly when both its slugs are non-empty
   * and name known steps; the edge joins those steps' node ids and carries the
   * trigger and condition, `""` when missing. So there are never more edges
   * than transitions.
   */
  lemma EdgesOfTransitions(steps: Dict<Step>, transitions: seq<Transition>, t: Transition)
    ensures |Edges(steps, [t])| <= 1
    ensures |Edges(steps, [t])| == 1 <==>
      Truthy(t.fromStepSlug) && Truthy(t.toStepSlug) && t.fromStepSlug.value in steps.values && t.toStepSlug.value in steps.values
    ensures |Edges(steps, [t])| == 1 ==> var e := Edges(steps, [t])[0];
      && e.fromStepSlug == t.fromStepSlug.value && e.toStepSlug == t.toStepSlug.value
      && e.from == NodeId(steps.values[e.fromStepSlug], e.fromStepSlug)
      && e.to == NodeId(steps.values[e.toStepSlug], e.toStepSlug)
      && e.trigger == t.trigger.GetOr("") && e.condition == t.condition.GetOr("")
    ensures |Edges(steps, transitions)| <= |transitions|
  {
    assert [t][..0] == [];
    EdgesAtMost(steps, transitions);
  }

  lemma {:induction false} EdgesAtMost(steps: Dict<Step>, transitions: seq<Transition>)
    ensures |Edges(steps, transitions)| <= |transitions|
    decreases |transitions|
  {
    if transitions != [] {
      EdgesAtMost(steps, transitions[..|transitions| - 1]);
    }
  }

  // ---------------------------------------------------------------------------
  // The merged Mermaid text
  // ---------------------------------------------------------------------------

  const Header := "flowchart TD"

  /** A line whose stripped form starts with `flowchart `. */
  predicate IsHeaderLine(line: string) {
    "flowchart " <= Strip(line)
  }

  /** The lines for which `drop` does not hold, in order. */
  function Without(lines: seq<string>, drop: string -> bool): (r: seq<string>)
    ensures forall k | 0 <= k < |r| :: !drop(r[k]) && r[k] in lines
    ensures forall x :: x in r <==> x in lines && !drop(x)
    decreases |lines|
  {
    if lines == [] then []
    else
      var init := lines[..|lines| - 1];
      var last := lines[|lines| - 1];
      var r := Without(init, drop);
      assert lines == init + [last];
      r + (if drop(last) then [] else [last])
  }

  /** The filter keeps order: filtering two runs of lines filters each in turn. */
  lemma {:induction false} WithoutConcat(a: seq<string>, b: seq<string>, drop: string -> bool)
    ensures Without(a + b, drop) == Without(a, drop) + Without(b, drop)
    decreases |b|
  {
    if b == [] {
      assert a + b == a;
    } else {
      var init := b[..|b| - 1];
      assert (a + b)[..|a + b| - 1] == a + init;
      assert (a + b)[|a + b| - 1] == b[|b| - 1];
      WithoutConcat(a, init, drop);
    }
  }

  /** `[ln for ln in lines if not ln.strip().startswith("flowchart ")]`. */
  function BodyLines(lines: seq<string>): (r: seq<string>)
    ensures forall k | 0 <= k < |r| :: !IsHeaderLine(r[k]) && r[k] in lines
    ensures forall x :: x in r <==> x in lines && !IsHeaderLine(x)
  {
    Without(lines, IsHeaderLine)
  }

  /** The filter keeps order: the body lines of two runs of lines are those of each in turn. */
  lemma BodyLinesConcat(a: seq<string>, b: seq<string>)
    ensures BodyLines(a + b) == BodyLines(a) + BodyLines(b)
  {
    WithoutConcat(a, b, IsHeaderLine);
  }

  /** The block one diagram object contributes: its diagram without header lines, when something is left. */
  function BlockOf(o: DiagramObject): Option<string> {
    var diag := if Truthy(o.mermaidDiagram) then o.mermaidDiagram.value else "";
    if diag == "" then None
    else
      var body := BodyLines(SplitLines(diag));
      if body == [] then None else Some(Join("\n", body))
  }

  /** The block an entry contributes, when it reads as an object. */
  function EntryBlock(read: DiagramEntry -> Option<DiagramObject>): DiagramEntry -> Option<string> {
    (e: DiagramEntry) => match read(e) case None => None case Some(o) => BlockOf(o)
  }

  function Blocks(read: DiagramEntry -> Option<DiagramObject>, entries: seq<DiagramEntry>): seq<string> {
    Collect(EntryBlock(read), entries)
  }

  /** The loop that collects `subgraph_blocks`. */
  method MergeBlocks(read: DiagramEntry -> Option<DiagramObject>, entries: seq<DiagramEntry>) returns (blocks: seq<string>)
    ensures blocks == Blocks(read, entries)
  {
    blocks := [];
    for i := 0 to |entries|
      invariant blocks == Blocks(read, entries[..i])
    {
      CollectStep(EntryBlock(read), entries, i);
      var fm := read(entries[i]);
      if fm.None? {
        continue;
      }
      var diag := if Truthy(fm.value.mermaidDiagram) then fm.value.mermaidDiagram.value else "";
      if diag == "" {
        continue;
      }
      var lines := SplitLines(diag);
      var linesNoHeader := BodyLines(lines);
      if linesNoHeader != [] {
        blocks := blocks + [Join("\n", linesNoHeader)];
      }
    }
    assert entries[..|entries|] == entries;
  }

  /**
   * Every block is the lines of one diagram that are not header lines, joined
   * by line breaks: splitting it at `\n` gives those lines back, at least one,
   * none of them a header line.
   */
  lemma BlockLines(o: DiagramObject)
    requires BlockOf(o).Some?
    ensures var lines := Split(BlockOf(o).value, "\n");
      && lines == BodyLines(SplitLines(o.mermaidDiagram.value))
      && lines != []
      && forall k | 0 <= k < |lines| :: !IsHeaderLine(lines[k]) && lines[k] in SplitLines(o.mermaidDiagram.value)
  {
    var all := SplitLines(o.mermaidDiagram.value);
    var body := BodyLines(all);
    SplitLinesHaveNoBreaks(o.mermaidDiagram.value);
    forall k | 0 <= k < |body|
      ensures '\n' !in body[k]
    {
      var j :| 0 <= j < |all| && all[j] == body[k];
      assert forall c | 0 <= c < |all[j]| :: !IsLineBreak(all[j][c]);
    }
    SplitOfJoinAtChar(body, '\n');
  }

  /** `{id}["{title}"]`, with the title's double quotes escaped. */
  function Declaration(n: Node): string {
    var title := if n.title != "" then n.title else if n.stepSlug != "" then n.stepSlug else n.id;
    n.id + "[\"" + Replace(title, "\"", "\\\"") + "\"]"
  }

  /** The non-empty trigger and condition of an edge. */
  function LabelParts(e: Edge): seq<string> {
    (if e.trigger != "" then [e.trigger] else []) + (if e.condition != "" then [e.condition] else [])
  }

  /** `from -->|label| to` when the edge has a label, else `from --> to`. */
  function EdgeLine(e: Edge): string {
    if LabelParts(e) != [] then
      e.from + " -->|" + Replace(Join(" | ", LabelParts(e)), "\"", "\\\"") + "| " + e.to
    else e.from + " --> " + e.to
  }

  function FallbackLines(nodes: seq<Node>, edges: seq<Edge>): (r: seq<string>)
    ensures |r| == 1 + |nodes| + |edges|
  {
    [Header] + seq(|nodes|, k requires 0 <= k < |nodes| => Declaration(nodes[k]))
      + seq(|edges|, k requires 0 <= k < |edges| => EdgeLine(edges[k]))
  }

  /** The fallback loops: the header, one declaration per node, one line per edge. */
  method BuildFallbackLines(nodes: seq<Node>, edges: seq<Edge>) returns (lines: seq<string>)
    ensures lines == FallbackLines(nodes, edges)
  {
    lines := [Header];
    for k := 0 to |nodes|
      invariant |lines| == 1 + k && lines[0] == Header
      invariant forall j | 0 <= j < k :: lines[1 + j] == Declaration(nodes[j])
    {
      lines := lines + [Declaration(nodes[k])];
    }
    for k := 0 to |edges|
      invariant |lines| == 1 + |nodes| + k && lines[0] == Header
      invariant forall j | 0 <= j < |nodes| :: lines[1 + j] == Declaration(nodes[j])
      invariant forall j | 0 <= j < k :: lines[1 + |nodes| + j] == EdgeLine(edges[j])
    {
      var e := edges[k];
      var labelParts: seq<string> := [];
      if e.trigger != "" {
        labelParts := labelParts + [e.trigger];
      }
      if e.condition != "" {
        labelParts := labelParts + [e.condition];
      }
      assert labelParts == LabelParts(e);
      if labelParts != [] {
        var labelText := Replace(Join(" | ", labelParts), "\"", "\\\"");
        lines := lines + [e.from + " -->|" + labelText + "| " + e.to];
      } else {
        lines := lines + [e.from + " --> " + e.to];
      }
    }
  }

  /** The LLM blocks under one header when there are any, else the diagram synthesised from nodes and edges. */
  function Mermaid(blocks: seq<string>, nodes: seq<Node>, edges: seq<Edge>): string {
    if blocks != [] then Header + "\n" + Join("\n", blocks)
    else Join("\n", FallbackLines(nodes, edges))
  }

  /**
   * The fallback diagram starts with `flowchart TD`, declares every node on a
   * line of its own after it, then has one line per edge; so every node's
   * attribution token occurs in it.
   */
  lemma FallbackDeclaresNodes(nodes: seq<Node>, edges: seq<Edge>)
    ensures Header <= Mermaid([], nodes, edges)
    ensures forall k | 0 <= k < |nodes| :: FallbackLines(nodes, edges)[1 + k] == Declaration(nodes[k])
    ensures forall k | 0 <= k < |edges| :: FallbackLines(nodes, edges)[1 + |nodes| + k] == EdgeLine(edges[k])
    ensures forall k | 0 <= k < |nodes| :: Contains(Mermaid([], nodes, edges), Token(nodes[k].id))
  {
    var lines := FallbackLines(nodes, edges);
    if |lines| > 1 {
      assert Join("\n", lines) == lines[0] + "\n" + Join("\n", lines[1..]);
    }
    forall k | 0 <= k < |nodes|
      ensures Contains(Mermaid([], nodes, edges), Token(nodes[k].id))
    {
      assert Token(nodes[k].id) <= lines[1 + k];
      JoinContainsPart("\n", lines, 1 + k, Token(nodes[k].id));
    }
  }

  /**
   * The merge applies exactly when some entry reads as an object whose
   * diagram keeps a line, and every block is the block of one such entry.
   */
  lemma BlocksPresentIff(read: DiagramEntry -> Option<DiagramObject>, entries: seq<DiagramEntry>)
    ensures Blocks(read, entries) != [] <==> exists k | 0 <= k < |entries| :: EntryBlock(read)(entries[k]).Some?
    ensures forall b | b in Blocks(read, entries) :: exists k | 0 <= k < |entries| :: EntryBlock(read)(entries[k]) == Some(b)
  {
    CollectPresentIff(EntryBlock(read), entries);
    CollectFrom(EntryBlock(read), entries);
  }

  // ---------------------------------------------------------------------------
  // The graph
  // ---------------------------------------------------------------------------

  /** The graph result, without the `service` and `flows` entries it copies from the bundle. */
  datatype Graph = Graph(components: seq<Component>, nodes: seq<Node>, edges: seq<Edge>, mermaid: string)

  /** `list(comps_by_key.values())`. */
  function IndexedComponents(index: Dict<Component>): (r: seq<Component>)
    requires Valid(index)
    ensures |r| == |index.keys| && forall k | 0 <= k < |r| :: r[k] == index.values[index.keys[k]]
  {
    seq(|index.keys|, k requires 0 <= k < |index.keys| => index.values[index.keys[k]])
  }

  /**
   * The graph of a bundle when the attribution loop reads entries with
   * `attribution` and the merge loop with `merge`.
   */
  ghost function GraphOf(b: Bundle, attribution: DiagramEntry -> Option<DiagramObject>, merge: DiagramEntry -> Option<DiagramObject>): Graph {
    var steps := StepsBySlug(b.steps);
    var nodes := GraphNodes(b, attribution);
    var edges := Edges(steps, b.transitions);
    Graph(IndexedComponents(ComponentIndex(b.components)), nodes, edges, Mermaid(Blocks(merge, b.diagrams), nodes, edges))
  }

  /** The graph's nodes: one per key of `steps_by_slug`, in key order. */
  ghost function GraphNodes(b: Bundle, attribution: DiagramEntry -> Option<DiagramObject>): seq<Node> {
    var steps := StepsBySlug(b.steps);
    seq(|steps.keys|, i requires 0 <= i < |steps.keys| => GraphNode(b, attribution, steps.keys[i]))
  }

  /** The node of one slug of `steps_by_slug`. */
  ghost function GraphNode(b: Bundle, attribution: DiagramEntry -> Option<DiagramObject>, slug: string): Node
    requires slug in StepsBySlug(b.steps).values
  {
    var step := StepsBySlug(b.steps).values[slug];
    NodeOf(slug, step, StepComponents(ComponentIndex(b.components), b.links, slug),
           FlowsOf(attribution, b.diagrams, NodeId(step, slug)))
  }

  /**
   * `build_ui_graph` with both loops reading an entry in either form: a JSON
   * text is parsed with `parse`, an object is used as it is.
   */
  method BuildUiGraph(b: Bundle, parse: string -> Option<DiagramObject>) returns (g: Graph)
    ensures g == GraphOf(b, EntryObject(parse), EntryObject(parse))
  {
    var read := EntryObject(parse);
    var steps := StepsBySlug(b.steps);
    var index := IndexComponents(b.components);
    var stepComponents := LinkComponents(steps, index, b.links);
    var stepFlows := AttributeFlows(steps, read, b.diagrams);
    var nodes := BuildNodes(steps, stepComponents, stepFlows);
    var edges := BuildEdges(steps, b.transitions);
    var blocks := MergeBlocks(read, b.diagrams);
    var mermaid: string;
    if blocks != [] {
      mermaid := Header + "\n" + Join("\n", blocks);
    } else {
      var lines := BuildFallbackLines(nodes, edges);
      mermaid := Join("\n", lines);
    }
    g := Graph(IndexedComponents(index), nodes, edges, mermaid);
    ghost var spec := GraphOf(b, read, read);
    assert g.nodes == spec.nodes by {
      forall i | 0 <= i < |nodes|
        ensures nodes[i] == spec.nodes[i]
      {
        assert nodes[i] == NodeAt(steps, stepComponents, stepFlows, i);
      }
    }
  }

  /**
   * Node `n` shows step `k`, the last step with the node's slug: the node id
   * is that step's `mermaid_node_id` when set, else the slug; the title is
   * the step's name, else the slug; the components are the slug's link entries.
   */
  predicate ShowsStep(b: Bundle, n: Node, k: int) {
    && LastWithSlug(b.steps, n.stepSlug, k)
    && n.id == NodeId(b.steps[k], n.stepSlug)
    && n.title == b.steps[k].name.GetOr(n.stepSlug)
    && n.components == StepComponents(ComponentIndex(b.components), b.links, n.stepSlug)
  }

  /** Node `n` shows the last step with its slug. */
  predicate ShowsLastStep(b: Bundle, n: Node) {
    exists k | 0 <= k < |b.steps| :: ShowsStep(b, n, k)
  }

  /** One node per distinct step slug, in order of the slugs' first occurrence, each showing the last step with its slug. */
  lemma GraphNodesFollowSteps(b: Bundle, attribution: DiagramEntry -> Option<DiagramObject>, merge: DiagramEntry -> Option<DiagramObject>)
    ensures var g := GraphOf(b, attribution, merge);
      && |g.nodes| == |Distinct(Slugs(b.steps))|
      && forall i | 0 <= i < |g.nodes| :: g.nodes[i].stepSlug == Distinct(Slugs(b.steps))[i]
    ensures var g := GraphOf(b, attribution, merge);
      forall i | 0 <= i < |g.nodes| :: ShowsLastStep(b, g.nodes[i])
  {
    GraphOfNodes(b, attribution, merge);
    GraphNodesOfSlugs(b, attribution);
    GraphNodesShowSteps(b, attribution);
  }

  lemma GraphOfNodes(b: Bundle, attribution: DiagramEntry -> Option<DiagramObject>, merge: DiagramEntry -> Option<DiagramObject>)
    ensures GraphOf(b, attribution, merge).nodes == GraphNodes(b, attribution)
  {
  }

  lemma GraphNodesOfSlugs(b: Bundle, attribution: DiagramEntry -> Option<DiagramObject>)
    ensures |GraphNodes(b, attribution)| == |Distinct(Slugs(b.steps))|
    ensures forall i | 0 <= i < |GraphNodes(b, attribution)| :: GraphNodes(b, attribution)[i].stepSlug == Distinct(Slugs(b.steps))[i]
  {
    StepsBySlugContents(b.steps);
  }

  lemma GraphNodesShowSteps(b: Bundle, attribution: DiagramEntry -> Option<DiagramObject>)
    ensures forall i | 0 <= i < |GraphNodes(b, attribution)| :: ShowsLastStep(b, GraphNodes(b, attribution)[i])
  {
    forall i | 0 <= i < |GraphNodes(b, attribution)|
      ensures ShowsLastStep(b, GraphNodes(b, attribution)[i])
    {
      GraphNodeShowsStep(b, attribution, i);
    }
  }

  lemma GraphNodeShowsStep(b: Bundle, attribution: DiagramEntry -> Option<DiagramObject>, i: int)
    requires 0 <= i < |GraphNodes(b, attribution)|
    ensures ShowsLastStep(b, GraphNodes(b, attribution)[i])
  {
    StepsBySlugContents(b.steps);
    var steps := StepsBySlug(b.steps);
    var slug := steps.keys[i];
    assert slug in steps.values;
    var k :| LastWithSlug(b.steps, slug, k) && b.steps[k] == steps.values[slug];
    var n := GraphNodes(b, attribution)[i];
    assert n == GraphNode(b, attribution, slug);
    assert ShowsStep(b, n, k);
  }

  /**
   * Each node's `flows` is sorted without repeats and holds exactly the flow
   * slugs of the entries that read as objects whose diagram declares the node.
   */
  lemma GraphNodeFlows(b: Bundle, attribution: DiagramEntry -> Option<DiagramObject>, merge: DiagramEntry -> Option<DiagramObject>, i: nat)
    requires i < |GraphOf(b, attribution, merge).nodes|
    ensures var n := GraphOf(b, attribution, merge).nodes[i];
      && StrictlySorted(n.flows)
      && forall f :: f in n.flows <==> exists k | 0 <= k < |b.diagrams| ::
           attribution(b.diagrams[k]).Some? && References(attribution(b.diagrams[k]).value, n.id)
           && attribution(b.diagrams[k]).value.flowSlug == Some(f)
  {
  }

  /**
   * The merged text starts with `flowchart TD`. With blocks, it is that header
   * and the blocks on the following lines; without, it is the fallback
   * diagram, in which every node's token occurs.
   */
  lemma GraphMermaid(b: Bundle, attribution: DiagramEntry -> Option<DiagramObject>, merge: DiagramEntry -> Option<DiagramObject>)
    ensures var g := GraphOf(b, attribution, merge);
      && Header <= g.mermaid
      && (Blocks(merge, b.diagrams) != [] ==> g.mermaid == Header + "\n" + Join("\n", Blocks(merge, b.diagrams)))
      && (Blocks(merge, b.diagrams) == [] ==> forall i | 0 <= i < |g.nodes| :: Contains(g.mermaid, Token(g.nodes[i].id)))
  {
    var g := GraphOf(b, attribution, merge);
    if Blocks(merge, b.diagrams) == [] {
      FallbackDeclaresNodes(g.nodes, g.edges);
    }
  }

  /**
   * `build_ui_graph` as written. The merge loop calls `.get` on every entry,
   * which raises for a JSON text, so the function returns only when every
   * entry is an object; the attribution loop then skips every entry.
   */
  ghost function BuildUiGraphAsWritten(b: Bundle, parse: string -> Option<DiagramObject>): Graph
    requires forall k | 0 <= k < |b.diagrams| :: b.diagrams[k].Object?
  {
    GraphOf(b, AttributionRead(parse), MergeRead)
  }

  /** As written, no node is ever attributed a flow. */
  lemma AsWrittenAttributesNoFlows(b: Bundle, parse: string -> Option<DiagramObject>)
    requires forall k | 0 <= k < |b.diagrams| :: b.diagrams[k].Object?
    ensures forall i | 0 <= i < |BuildUiGraphAsWritten(b, parse).nodes| :: BuildUiGraphAsWritten(b, parse).nodes[i].flows == []
  {
    var g := BuildUiGraphAsWritten(b, parse);
    var steps := StepsBySlug(b.steps);
    forall i | 0 <= i < |g.nodes|
      ensures g.nodes[i].flows == []
    {
      var slug := steps.keys[i];
      var flows := FlowsOf(AttributionRead(parse), b.diagrams, NodeId(steps.values[slug], slug));
      assert forall k | 0 <= k < |b.diagrams| :: AttributionRead(parse)(b.diagrams[k]).None?;
      assert flows == {};
    }
  }

  /** A one-step bundle whose only diagram declares the step's node. */
  function OneFlowBundle(): Bundle {
    Bundle([Step("a", None, None, None, None)], [], [], [], [Object(DiagramObject(Some("f"), Some("a[A]")))])
  }

  /** The input that shows it: the diagram declares `a[`, yet the node gets no flow; the corrected builder gives it `f`. */
  lemma AsWrittenDropsDeclaredFlow(parse: string -> Option<DiagramObject>)
    ensures |BuildUiGraphAsWritten(OneFlowBundle(), parse).nodes| == 1
    ensures BuildUiGraphAsWritten(OneFlowBundle(), parse).nodes[0].flows == []
    ensures GraphOf(OneFlowBundle(), EntryObject(parse), EntryObject(parse)).nodes[0].flows == ["f"]
  {
    var b := OneFlowBundle();
    var steps := StepsBySlug(b.steps);
    assert b.steps[..0] == [];
    assert steps.keys == ["a"];
    AsWrittenAttributesNoFlows(b, parse);
    var o := DiagramObject(Some("f"), Some("a[A]"));
    assert "a[" <= "a[A]";
    assert References(o, "a");
    var flows := FlowsOf(EntryObject(parse), b.diagrams, "a");
    assert EntryObject(parse)(b.diagrams[0]) == Some(o);
    assert "f" in flows;
    assert forall x | x in flows :: x == "f";
    assert flows == {"f"};
    var sorted := SortedOf(flows);
    assert "f" in sorted;
    assert |sorted| == 1 by {
      if |sorted| > 1 {
        assert sorted[1] in flows;
        BelowIrreflexive("f");
      }
    }
  }
}
