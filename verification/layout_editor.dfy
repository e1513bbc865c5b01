/**
 * `LayoutEditor` as an object whose methods update its fields in place, each
 * proved to leave the state the `Layout` function of the same name
 * describes. Rendering, the property panel and drag-and-drop are left out.
 */
module LayoutApp {
  import opened Wrappers
  import opened Ordered
  import opened Layout

  class LayoutEditor {
    var components: seq<Component>
    var counter: nat
    var selected: Option<string>
    var storage: Option<seq<Component>>

    function State(): Editor
      reads this
    {
      Editor(components, counter, selected, storage)
    }

    /** `new LayoutEditor()`: empty fields, then `loadLayout` from what local storage holds. */
    constructor(stored: Option<seq<Component>>)
      ensures State() == Initial(stored)
    {
      components, counter, selected, storage := [], 0, None, stored;
      new;
      LoadLayout();
    }

    method DeselectComponent()
      modifies this
      ensures State() == Deselect(old(State()))
    {
      if selected.Some? && selected.value != "" {
        selected := None;
      }
    }

    method SelectComponent(id: string)
      modifies this
      ensures State() == Select(old(State()), id)
    {
      DeselectComponent();
      selected := Some(id);
    }

    method AddComponent(kind: string, x: int, y: int)
      modifies this
      ensures State() == Add(old(State()), kind, x, y)
      ensures Valid(old(State())) ==> Valid(State())
    {
      if Valid(State()) {
        AddKeepsValid(State(), kind, x, y);
      }
      counter := counter + 1;
      var id := IdOf(counter);
      components := components + [Component(id, kind, x, y, Defaults(kind))];
      SelectComponent(id);
    }

    method DuplicateComponent(id: string)
      modifies this
      ensures State() == Duplicate(old(State()), id)
      ensures Valid(old(State())) ==> Valid(State())
    {
      if Valid(State()) {
        DuplicateKeepsValid(State(), id);
      }
      var found := FindById(components, id);
      if found.None? {
        return;
      }
      var orig := components[found.value];
      counter := counter + 1;
      var newId := IdOf(counter);
      components := components + [Component(newId, orig.kind, orig.x + 20, orig.y + 20, orig.properties)];
      SelectComponent(newId);
    }

    method DeleteComponent(id: string)
      modifies this
      ensures State() == Delete(old(State()), id)
      ensures Valid(old(State())) ==> Valid(State())
    {
      if Valid(State()) {
        DeleteKeepsValid(State(), id);
      }
      components := Filter(components, NotId(id));
      DeselectComponent();
    }

    method SaveLayout()
      modifies this
      ensures State() == Save(old(State()))
    {
      storage := Some(components);
    }

    method LoadLayout()
      modifies this
      ensures State() == Load(old(State()))
    {
      if storage.Some? {
        components := storage.value;
        counter := |components|;
      }
    }

    /** `resetLayout`; `confirmed` is the answer to the confirmation dialog. */
    method ResetLayout(confirmed: bool)
      modifies this
      ensures State() == Reset(old(State()), confirmed)
      ensures confirmed ==> Valid(State())
    {
      if confirmed {
        components := [];
        counter := 0;
        DeselectComponent();
        storage := None;
      }
    }
  }
}
