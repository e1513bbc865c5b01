/**
 * The component registry of the visual layout editor (layout-editor.js):
 * the placed components in insertion order, the id counter, the selected
 * id, and the layout kept in local storage. This module holds the state as
 * a value and the operations on it; `LayoutApp` updates the same state in
 * place.
 */
module Layout {
  import opened Wrappers
  import opened Text
  import opened Ordered

  /** A property value of a component: a string, a list of strings, or a table of them. */
  datatype PropValue = Str(s: string) | Strs(items: seq<string>) | Grid(rows: seq<seq<string>>)

  type Properties = map<string, PropValue>

  /** One placed component; `kind` is its `type`. */
  datatype Component = Component(id: string, kind: string, x: int, y: int, properties: Properties)

  /**
   * The editor's fields. `storage` is the `layoutEditorData` item: `None`
   * when it is absent or does not parse (both load nothing).
   */
  datatype Editor = Editor(components: seq<Component>, counter: nat, selected: Option<string>,
                           storage: Option<seq<Component>>)

  /** The id a counter value gives: `component_<n>`. */
  function IdOf(n: nat): string
  {
    "component_" + NatToString(n)
  }

  /** Different counter values give different ids. */
  lemma {:induction false} IdInjective(a: nat, b: nat)
    requires IdOf(a) == IdOf(b)
    ensures a == b
  {
    assert IdOf(a)[10..] == NatToString(a);
    assert IdOf(b)[10..] == NatToString(b);
    NatToStringInjective(a, b);
  }

  // ---------------------------------------------------------------------------
  // Default properties (layout-editor.js:93-141)

  const Kinds: set<string> := {"card", "table", "button", "input", "label", "divider"}

  /** `getDefaultProperties`: the fixed entry of a known kind, the empty object for any other. */
  function Defaults(kind: string): (r: Properties)
    ensures r == map[] <==> kind !in Kinds
  {
    if kind == "card" then
      var m := map["title" := Str("새 카드"), "content" := Str("카드 내용을 입력하세요"),
            "backgroundColor" := Str("#ffffff"), "textColor" := Str("#000000"),
            "borderRadius" := Str("8px"), "padding" := Str("20px"), "margin" := Str("10px")];
      assert "title" in m;
      m
    else if kind == "table" then
      var m := map["headers" := Strs(["제목1", "제목2", "제목3"]), "rows" := Grid([["데이터1", "데이터2", "데이터3"]]),
            "backgroundColor" := Str("#ffffff"), "borderColor" := Str("#dee2e6"), "textColor" := Str("#000000")];
      assert "headers" in m;
      m
    else if kind == "button" then
      var m := map["text" := Str("버튼"), "backgroundColor" := Str("#007bff"), "textColor" := Str("#ffffff"),
            "borderRadius" := Str("5px"), "padding" := Str("10px 20px"), "fontSize" := Str("14px")];
      assert "text" in m;
      m
    else if kind == "input" then
      var m := map["placeholder" := Str("입력하세요"), "type" := Str("text"), "width" := Str("200px"),
            "height" := Str("40px"), "borderColor" := Str("#ced4da"), "backgroundColor" := Str("#ffffff")];
      assert "placeholder" in m;
      m
    else if kind == "label" then
      var m := map["text" := Str("라벨"), "textColor" := Str("#495057"), "fontSize" := Str("14px"),
            "fontWeight" := Str("500")];
      assert "text" in m;
      m
    else if kind == "divider" then
      var m := map["height" := Str("1px"), "backgroundColor" := Str("#dee2e6"), "margin" := Str("15px 0")];
      assert "height" in m;
      m
    else map[]
  }

  // ---------------------------------------------------------------------------
  // Id invariants

  /** No two components share an id. */
  predicate UniqueIds(cs: seq<Component>)
  {
    forall i, j :: 0 <= i < j < |cs| ==> cs[i].id != cs[j].id
  }

  /** No component has the id of a counter value still to come. */
  ghost predicate Fresh(e: Editor)
  {
    forall c, n :: c in e.components && e.counter < n ==> c.id != IdOf(n)
  }

  /** The state the editor keeps: ids are unique and the counter is ahead of all of them. */
  ghost predicate Valid(e: Editor)
  {
    UniqueIds(e.components) && Fresh(e)
  }

  // ---------------------------------------------------------------------------
  // Selection (layout-editor.js:278-300)

  /** `deselectComponent`: clears a truthy selection. */
  function Deselect(e: Editor): (r: Editor)
    ensures r.selected.None? || r.selected == Some("")
    ensures r == e.(selected := r.selected)
    ensures e.selected.None? || e.selected == Some("") ==> r == e
  {
    if e.selected.Some? && e.selected.value != "" then e.(selected := None) else e
  }

  /** `selectComponent`: the id becomes the selection, whether or not a component has it. */
  function Select(e: Editor, id: string): (r: Editor)
    ensures r == e.(selected := Some(id))
  {
    Deselect(e).(selected := Some(id))
  }

  // ---------------------------------------------------------------------------
  // Adding, duplicating, deleting (layout-editor.js:76-91, 543-576)

  /** `addComponent`: the next id, the kind's defaults, appended and selected. */
  function Add(e: Editor, kind: string, x: int, y: int): (r: Editor)
    ensures r.counter == e.counter + 1
    ensures r.components == e.components + [Component(IdOf(r.counter), kind, x, y, Defaults(kind))]
    ensures r.selected == Some(IdOf(r.counter)) && r.storage == e.storage
  {
    var id := IdOf(e.counter + 1);
    Select(e.(counter := e.counter + 1, components := e.components + [Component(id, kind, x, y, Defaults(kind))]), id)
  }

  /** `components.find(c => c.id === id)`: the first component with that id. */
  function FindById(cs: seq<Component>, id: string): (r: Option<nat>)
    ensures r.Some? ==> r.value < |cs| && cs[r.value].id == id && forall t :: 0 <= t < r.value ==> cs[t].id != id
    ensures r.None? <==> forall t :: 0 <= t < |cs| ==> cs[t].id != id
  {
    if |cs| == 0 then None
    else if cs[0].id == id then Some(0)
    else
      match FindById(cs[1..], id)
      case None => None
      case Some(i) => Some(i + 1)
  }

  /** `duplicateComponent`: a copy of the first component with the id, 20 to the right and down, selected. */
  function Duplicate(e: Editor, id: string): (r: Editor)
    ensures FindById(e.components, id).None? ==> r == e
    ensures FindById(e.components, id).Some? ==>
      var orig := e.components[FindById(e.components, id).value];
      r.counter == e.counter + 1
      && r.components == e.components + [Component(IdOf(r.counter), orig.kind, orig.x + 20, orig.y + 20, orig.properties)]
      && r.selected == Some(IdOf(r.counter)) && r.storage == e.storage
  {
    match FindById(e.components, id)
    case None => e
    case Some(i) =>
      var orig := e.components[i];
      var newId := IdOf(e.counter + 1);
      var copy := Component(newId, orig.kind, orig.x + 20, orig.y + 20, orig.properties);
      Select(e.(counter := e.counter + 1, components := e.components + [copy]), newId)
  }

  /** The test `deleteComponent` filters with: `c => c.id !== id`. */
  function NotId(id: string): Component -> bool
  {
    (c: Component) => c.id != id
  }

  /** `deleteComponent`: every component with the id goes, the rest keep their order, the selection is cleared. */
  function Delete(e: Editor, id: string): (r: Editor)
    ensures forall c :: c in r.components <==> c in e.components && c.id != id
    ensures r.counter == e.counter && r.storage == e.storage
    ensures r.selected.None? || r.selected == Some("")
  {
    Deselect(e.(components := Filter(e.components, NotId(id))))
  }

  // ---------------------------------------------------------------------------
  // Persistence (layout-editor.js:586-637)

  /** `saveLayout`: the components go to storage. */
  function Save(e: Editor): (r: Editor)
    ensures r == e.(storage := Some(e.components))
  {
    e.(storage := Some(e.components))
  }

  /** `loadLayout`: the stored components replace the current ones and the counter becomes their number. */
  function Load(e: Editor): (r: Editor)
    ensures e.storage.None? ==> r == e
    ensures e.storage.Some? ==>
      r.components == e.storage.value && r.counter == |e.storage.value| && r.selected == e.selected
      && r.storage == e.storage
  {
    match e.storage
    case None => e
    case Some(cs) => e.(components := cs, counter := |cs|)
  }

  /** `resetLayout`; `confirmed` is the answer to the confirmation dialog. */
  function Reset(e: Editor, confirmed: bool): (r: Editor)
    ensures !confirmed ==> r == e
    ensures confirmed ==> r.components == [] && r.counter == 0 && r.storage.None?
                          && (r.selected.None? || r.selected == e.selected)
  {
    if confirmed then Deselect(e.(components := [], counter := 0, storage := None)) else e
  }

  /** The editor as `new LayoutEditor()` leaves it: empty, then loaded from storage. */
  function Initial(stored: Option<seq<Component>>): (r: Editor)
    ensures r.selected.None? && r.storage == stored
    ensures stored.None? ==> r.components == [] && r.counter == 0
    ensures stored.Some? ==> r.components == stored.value && r.counter == |stored.value|
  {
    Load(Editor([], 0, None, stored))
  }

  // ---------------------------------------------------------------------------
  // Properties

  /** Adding keeps ids unique and the counter ahead; the new id was used by no component. */
  lemma {:induction false} AddKeepsValid(e: Editor, kind: string, x: int, y: int)
    requires Valid(e)
    ensures var r := Add(e, kind, x, y);
      Valid(r) && forall c :: c in e.components ==> c.id != IdOf(r.counter)
  {
    var r := Add(e, kind, x, y);
    var id := IdOf(e.counter + 1);
    forall c, n | c in r.components && r.counter < n
      ensures c.id != IdOf(n)
    {
      if c !in e.components && c.id == IdOf(n) {
        IdInjective(e.counter + 1, n);
      }
    }
  }

  /** Duplicating keeps ids unique and the counter ahead, and copies kind and properties. */
  lemma {:induction false} DuplicateKeepsValid(e: Editor, id: string)
    requires Valid(e)
    ensures var r := Duplicate(e, id);
      Valid(r) && (FindById(e.components, id).Some? ==>
        var orig := e.components[FindById(e.components, id).value];
        var copy := r.components[|r.components| - 1];
        copy.kind == orig.kind && copy.properties == orig.properties && copy.id != orig.id)
  {
    var r := Duplicate(e, id);
    if FindById(e.components, id).Some? {
      forall c, n | c in r.components && r.counter < n
        ensures c.id != IdOf(n)
      {
        if c !in e.components && c.id == IdOf(n) {
          IdInjective(e.counter + 1, n);
        }
      }
      var orig := e.components[FindById(e.components, id).value];
      assert orig in e.components;
    }
  }

  /** Removing components from a list with unique ids leaves unique ids. */
  lemma {:induction false} FilterKeepsUnique(cs: seq<Component>, p: Component -> bool)
    requires UniqueIds(cs)
    ensures UniqueIds(Filter(cs, p))
  {
    if |cs| > 0 {
      var rest := cs[1..];
      FilterKeepsUnique(rest, p);
      assert forall c :: c in rest ==> c.id != cs[0].id;
    }
  }

  /** With unique ids, deleting an existing id removes exactly one component. */
  lemma {:induction false} FilterDropsOne(cs: seq<Component>, id: string)
    requires UniqueIds(cs)
    ensures |Filter(cs, NotId(id))| == |cs| - (if FindById(cs, id).Some? then 1 else 0)
  {
    if |cs| > 0 {
      var rest := cs[1..];
      FilterDropsOne(rest, id);
      if cs[0].id == id {
        assert forall t :: 0 <= t < |rest| ==> rest[t].id != id;
        assert FindById(rest, id).None?;
      }
    }
  }

  /** Deleting keeps the invariant and, with unique ids, removes at most one component. */
  lemma {:induction false} DeleteKeepsValid(e: Editor, id: string)
    requires Valid(e)
    ensures var r := Delete(e, id);
      Valid(r) && (forall c :: c in r.components ==> c.id != id)
      && |r.components| == |e.components| - (if FindById(e.components, id).Some? then 1 else 0)
  {
    FilterKeepsUnique(e.components, NotId(id));
    FilterDropsOne(e.components, id);
  }

  /** A confirmed reset leaves an empty editor that keeps the invariant. */
  lemma {:induction false} ResetIsEmpty(e: Editor)
    ensures var r := Reset(e, true);
      Valid(r) && r.components == [] && r.counter == 0 && r.storage.None? && !(r.selected.Some? && r.selected.value != "")
  {
  }

  /** Loading what was saved gives back the components, with the counter at their number. */
  lemma {:induction false} SaveLoadRoundTrip(e: Editor)
    ensures var r := Load(Save(e));
      r.components == e.components && r.counter == |e.components| && r.selected == e.selected
  {
  }

  /**
   * Loading sets the counter to the number of components, not past their
   * ids: after saving `component_2` alone and loading it, the next add
   * creates a second `component_2`.
   */
  lemma {:induction false} LoadCanReuseId(e: Editor, c: Component)
    requires c.id == IdOf(2) && e.storage == Some([c])
    ensures var r := Add(Load(e), "card", 0, 0);
      |r.components| == 2 && r.components[0].id == r.components[1].id && !UniqueIds(r.components)
  {
  }

  /** Loading keeps the invariant when the stored ids are unique and none is past their number. */
  lemma {:induction false} LoadKeepsValid(e: Editor)
    requires e.storage.Some? && UniqueIds(e.storage.value)
    requires forall c, n :: c in e.storage.value && |e.storage.value| < n ==> c.id != IdOf(n)
    ensures Valid(Load(e))
  {
  }
}
