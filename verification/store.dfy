/** The editor's document transforms. Each action of the editor builds the
    next document from the previous one with `filter`, `map` and object
    spread; this module gives each of them as a function and proves what it
    keeps and what it changes. The session state around the document
    (active tab, selection) is in module Session. */
module Store {
  import opened Wrappers
  import opened Types
  import opened Seqs
  import Numerals

  /** The window a new session starts with. The key system is off, yet the
      key settings record is filled in. */
  const DefaultWindow: Window := Window(
    "Rayfield UI", "Rayfield Interface Suite", "by Sirius",
    ConfigurationSaving(true, "Rayfield Interface Suite", "Big Hub"),
    false,
    KeySettings("Sirius Hub", "Key System", "Join the discord (discord.gg/sirius)",
                "SiriusKey", true, "Kopied Key", "Hello"))

  /** The default window carries the values the editor starts from: the
      Sirius hub names, saving switched on, and a complete key settings
      record although the key system itself is off. */
  lemma DefaultWindowValues()
    ensures DefaultWindow.name == "Rayfield UI"
    ensures DefaultWindow.loadingTitle == "Rayfield Interface Suite"
    ensures DefaultWindow.loadingSubtitle == "by Sirius"
    ensures DefaultWindow.configurationSaving ==
      ConfigurationSaving(true, "Rayfield Interface Suite", "Big Hub")
    ensures !DefaultWindow.keySystem
    ensures var ks := DefaultWindow.keySettings;
      && ks.title == "Sirius Hub" && ks.subtitle == "Key System"
      && ks.note == "Join the discord (discord.gg/sirius)" && ks.fileName == "SiriusKey"
      && ks.saveKey && ks.grabbingKey == "Kopied Key" && ks.key == "Hello"
  {
  }

  /** The document a new session starts with: the default window, no tabs. */
  const InitialDocument: Document := Document(DefaultWindow, [])

  /** JavaScript truthiness of a `string | null`: null and "" are both false. */
  predicate Truthy(s: Option<string>) {
    s.Some? && s.value != ""
  }

  // ---------------------------------------------------------------- tabs

  /** The name a new tab gets when the document already holds `count` tabs. */
  function NewTabName(count: nat): string {
    "Tab " + Numerals.NatToString(count + 1)
  }

  /** Appends a fresh, empty tab named after its position. */
  function AddTab(d: Document, newId: string): (r: Document)
    ensures r.window == d.window
    ensures |r.tabs| == |d.tabs| + 1 && r.tabs[..|d.tabs|] == d.tabs
    ensures var t := r.tabs[|d.tabs|];
      t.id == newId && t.icon == "" && t.elements == [] && t.name == NewTabName(|d.tabs|)
  {
    d.(tabs := d.tabs + [Tab(newId, NewTabName(|d.tabs|), "", [])])
  }

  /** The new tab's name is "Tab " followed by the decimal numeral of the new
      number of tabs. */
  lemma AddTabNameCountsTabs(d: Document, newId: string)
    ensures var r := AddTab(d, newId); var name := r.tabs[|r.tabs| - 1].name;
      && |name| > 4 && name[..4] == "Tab "
      && (forall i :: 4 <= i < |name| ==> Numerals.IsDigit(name[i]))
      && Numerals.DigitsValue(name[4..]) == |r.tabs|
  {
    var n := |d.tabs| + 1;
    var name := NewTabName(|d.tabs|);
    assert name[4..] == Numerals.NatToString(n);
    Numerals.NatToStringRoundTrip(n);
  }

  function KeepTab(id: string): Tab -> bool {
    (t: Tab) => t.id != id
  }

  /** Removes every tab with the given id (and with it all its widgets). */
  function DeleteTab(d: Document, id: string): (r: Document)
    ensures r.window == d.window
    ensures forall t :: t in r.tabs <==> t in d.tabs && t.id != id
  {
    d.(tabs := Filter(d.tabs, KeepTab(id)))
  }

  /** The tabs that survive a deletion keep their original relative order:
      the i-th survivor is the tab at the i-th surviving position, those
      positions increase, and a position survives iff its id differs. */
  lemma DeleteTabKeepsOrder(d: Document, id: string)
    ensures var r, ix := DeleteTab(d, id).tabs, KeptPositions(d.tabs, KeepTab(id));
      && |ix| == |r|
      && (forall i :: 0 <= i < |r| ==> ix[i] < |d.tabs| && r[i] == d.tabs[ix[i]])
      && (forall i, j :: 0 <= i < j < |ix| ==> ix[i] < ix[j])
      && (forall k :: 0 <= k < |d.tabs| ==> (k in ix <==> d.tabs[k].id != id))
  {
    FilterSelectsInOrder(d.tabs, KeepTab(id));
  }

  /** Deleting an id no tab carries changes nothing. */
  lemma DeleteAbsentTab(d: Document, id: string)
    requires forall t :: t in d.tabs ==> t.id != id
    ensures DeleteTab(d, id) == d
  {
    FilterKeepsAll(d.tabs, KeepTab(id));
  }

  /** Deleting the tab just added with a fresh id restores the document. */
  lemma AddTabThenDeleteTab(d: Document, newId: string)
    requires forall t :: t in d.tabs ==> t.id != newId
    ensures DeleteTab(AddTab(d, newId), newId) == d
  {
    var added := AddTab(d, newId).tabs;
    var newTab := added[|d.tabs|];
    assert added == d.tabs + [newTab];
    FilterAppend(d.tabs, [newTab], KeepTab(newId));
    FilterKeepsAll(d.tabs, KeepTab(newId));
    assert Filter([newTab], KeepTab(newId)) == [];
  }

  /** No two tabs share an id. */
  predicate TabIdsUnique(tabs: seq<Tab>) {
    forall i, j :: 0 <= i < j < |tabs| ==> tabs[i].id != tabs[j].id
  }

  /** Adding a tab under a fresh id keeps tab ids unique. */
  lemma AddTabKeepsTabIdsUnique(d: Document, newId: string)
    requires TabIdsUnique(d.tabs)
    requires forall t :: t in d.tabs ==> t.id != newId
    ensures TabIdsUnique(AddTab(d, newId).tabs)
  {
  }

  /** Overrides of a tab's fields, each optional. */
  datatype TabPatch = TabPatch(id: Option<string>, name: Option<string>, icon: Option<string>,
                               elements: Option<seq<Element>>)

  /** Object spread of a tab patch over a tab: given fields win. */
  function OverlayTab(t: Tab, p: TabPatch): (r: Tab)
    ensures r.id == p.id.GetOr(t.id) && r.name == p.name.GetOr(t.name)
    ensures r.icon == p.icon.GetOr(t.icon) && r.elements == p.elements.GetOr(t.elements)
  {
    Tab(p.id.GetOr(t.id), p.name.GetOr(t.name), p.icon.GetOr(t.icon), p.elements.GetOr(t.elements))
  }

  const NoTabChanges: TabPatch := TabPatch(None, None, None, None)

  /** The single patch that does what `p` then `q` do: a field `q` gives wins. */
  function MergeTabPatch(p: TabPatch, q: TabPatch): TabPatch {
    TabPatch(q.id.OrElse(p.id), q.name.OrElse(p.name), q.icon.OrElse(p.icon), q.elements.OrElse(p.elements))
  }

  /** An empty tab patch changes nothing. */
  lemma OverlayTabNoChanges(t: Tab)
    ensures OverlayTab(t, NoTabChanges) == t
  {
  }

  /** Spreading `p` and then `q` over a tab is spreading their merge once. */
  lemma OverlayTabCompose(t: Tab, p: TabPatch, q: TabPatch)
    ensures OverlayTab(OverlayTab(t, p), q) == OverlayTab(t, MergeTabPatch(p, q))
  {
  }

  function PatchTabIf(tabId: string, p: TabPatch): Tab -> Tab {
    (t: Tab) => if t.id == tabId then OverlayTab(t, p) else t
  }

  /** Overlays the patch on every tab with the given id; the list keeps its
      length and order and no other tab changes. */
  function UpdateTab(d: Document, tabId: string, p: TabPatch): (r: Document)
    ensures r.window == d.window
    ensures |r.tabs| == |d.tabs|
    ensures forall i :: 0 <= i < |d.tabs| && d.tabs[i].id != tabId ==> r.tabs[i] == d.tabs[i]
    ensures forall i :: 0 <= i < |d.tabs| && d.tabs[i].id == tabId ==> r.tabs[i] == OverlayTab(d.tabs[i], p)
  {
    d.(tabs := Map(d.tabs, PatchTabIf(tabId, p)))
  }

  /** Applying the same tab update twice is the same as applying it once,
      also when the patch renames the tab's id. */
  lemma UpdateTabIdempotent(d: Document, tabId: string, p: TabPatch)
    ensures UpdateTab(UpdateTab(d, tabId, p), tabId, p) == UpdateTab(d, tabId, p)
  {
  }

  /** Deleting tabs keeps tab ids unique. */
  lemma DeleteTabKeepsTabIdsUnique(d: Document, id: string)
    requires TabIdsUnique(d.tabs)
    ensures TabIdsUnique(DeleteTab(d, id).tabs)
  {
    FilterSelectsInOrder(d.tabs, KeepTab(id));
  }

  /** Deleting tabs keeps widget ids unique: the surviving tabs keep their
      order, so no two surviving widgets end up sharing a position. */
  lemma DeleteTabKeepsElementIdsUnique(d: Document, id: string)
    requires ElementIdsUnique(d)
    ensures ElementIdsUnique(DeleteTab(d, id))
  {
    var r := DeleteTab(d, id);
    FilterSelectsInOrder(d.tabs, KeepTab(id));
    var ix := KeptPositions(d.tabs, KeepTab(id));
    forall i1, j1, i2, j2 |
      && 0 <= i1 < |r.tabs| && 0 <= j1 < |r.tabs[i1].elements|
      && 0 <= i2 < |r.tabs| && 0 <= j2 < |r.tabs[i2].elements|
      && (i1 != i2 || j1 != j2)
      ensures r.tabs[i1].elements[j1].id != r.tabs[i2].elements[j2].id
    {
      assert r.tabs[i1] == d.tabs[ix[i1]] && r.tabs[i2] == d.tabs[ix[i2]];
      if i1 != i2 {
        assert ix[i1] != ix[i2];
      }
    }
  }

  /** Adding a tab, which starts empty, keeps widget ids unique. */
  lemma AddTabKeepsElementIdsUnique(d: Document, newId: string)
    requires ElementIdsUnique(d)
    ensures ElementIdsUnique(AddTab(d, newId))
  {
  }

  /** A tab update that does not rename keeps tab ids unique. */
  lemma UpdateTabKeepsTabIdsUnique(d: Document, tabId: string, p: TabPatch)
    requires TabIdsUnique(d.tabs) && p.id.None?
    ensures TabIdsUnique(UpdateTab(d, tabId, p).tabs)
  {
  }

  /** A tab update that does not replace the widget list keeps widget ids
      unique. */
  lemma UpdateTabKeepsElementIdsUnique(d: Document, tabId: string, p: TabPatch)
    requires ElementIdsUnique(d) && p.elements.None?
    ensures ElementIdsUnique(UpdateTab(d, tabId, p))
  {
  }

  // ------------------------------------------------------------ widgets

  /** The widget a palette button creates: the kind's default table, named
      "New <kind>". */
  function DefaultWidget(k: ElementType, id: string): (w: Widget)
    ensures KindOf(w) == k && w.id == id && w.name == "New " + KindName(k)
  {
    var name := "New " + KindName(k);
    match k
    case Button => RayfieldButton(id, name, "")
    case Toggle => RayfieldToggle(id, name, false, "")
    case Slider => RayfieldSlider(id, name, 0.0, 100.0, 50.0, "%", "")
    case Input => RayfieldInput(id, name, "Type here...", false, "")
    case Label => RayfieldLabel(id, name, Some("#FFFFFF"))
    case Paragraph => RayfieldParagraph(id, name, "This is a paragraph description.")
    case Keybind => RayfieldKeybind(id, name, "K", false, "")
    case Dropdown => RayfieldDropdown(id, name, ["Option 1", "Option 2"], "Option 1", false, "")
  }

  /** Builds the new widget's base object one property at a time, as the
      editor does, and yields exactly the default widget of that kind. */
  method BuildBase(k: ElementType, newId: string) returns (base: Element)
    ensures WellTyped(base) && ToWidget(base) == DefaultWidget(k, newId)
  {
    ghost var expected := FromWidget(DefaultWidget(k, newId));
    var props: map<Prop, Value> := map[];
    if k == Button {
      props := props[CallbackLogic := Str("")];
    }
    if k == Toggle {
      props := props[Default := Bool(false)];
      props := props[CallbackLogic := Str("")];
    }
    if k == Slider {
      props := props[Min := Num(0.0)];
      props := props[Max := Num(100.0)];
      props := props[Default := Num(50.0)];
      props := props[Suffix := Str("%")];
      props := props[CallbackLogic := Str("")];
    }
    if k == Input {
      props := props[Placeholder := Str("Type here...")];
      props := props[RemoveTextAfterFocusLost := Bool(false)];
      props := props[CallbackLogic := Str("")];
    }
    if k == Paragraph {
      props := props[Content := Str("This is a paragraph description.")];
    }
    if k == Label {
      props := props[Color := Str("#FFFFFF")];
    }
    if k == Keybind {
      props := props[DefaultKey := Str("K")];
      props := props[HoldToInteract := Bool(false)];
      props := props[CallbackLogic := Str("")];
    }
    if k == Dropdown {
      props := props[Options := StrList(["Option 1", "Option 2"])];
      props := props[DefaultOption := Str("Option 1")];
      props := props[MultiSelection := Bool(false)];
      props := props[CallbackLogic := Str("")];
    }
    assert props == expected.props;
    base := Element(newId, k, "New " + KindName(k), props);
    ToWidgetFromWidget(DefaultWidget(k, newId));
  }

  /** Caller-supplied overrides of a widget (`Partial<UIElement>`): the three
      shared fields, each optional, and any other properties. */
  datatype ElementPatch = ElementPatch(id: Option<string>, kind: Option<ElementType>, name: Option<string>,
                                       props: map<Prop, Value>)

  const NoChanges: ElementPatch := ElementPatch(None, None, None, map[])

  /** Object spread of a patch over a widget: every field the patch gives
      replaces the widget's, every other field is kept. */
  function Overlay(e: Element, p: ElementPatch): (r: Element)
    ensures r.id == p.id.GetOr(e.id) && r.kind == p.kind.GetOr(e.kind) && r.name == p.name.GetOr(e.name)
    ensures r.props.Keys == e.props.Keys + p.props.Keys
    ensures forall q :: q in p.props ==> r.props[q] == p.props[q]
    ensures forall q :: q in e.props && q !in p.props ==> r.props[q] == e.props[q]
  {
    Element(p.id.GetOr(e.id), p.kind.GetOr(e.kind), p.name.GetOr(e.name), e.props + p.props)
  }

  /** An empty patch changes nothing. */
  lemma OverlayNoChanges(e: Element)
    ensures Overlay(e, NoChanges) == e
  {
  }

  /** The single patch that does what `p` then `q` do: whatever `q` gives wins. */
  function MergePatch(p: ElementPatch, q: ElementPatch): ElementPatch {
    ElementPatch(q.id.OrElse(p.id), q.kind.OrElse(p.kind), q.name.OrElse(p.name), p.props + q.props)
  }

  /** Spreading `p` and then `q` over a widget is spreading their merge once. */
  lemma OverlayCompose(e: Element, p: ElementPatch, q: ElementPatch)
    ensures Overlay(Overlay(e, p), q) == Overlay(e, MergePatch(p, q))
  {
    assert (e.props + p.props) + q.props == e.props + (p.props + q.props);
  }

  /** Spreading the same patch twice is spreading it once. */
  lemma OverlayIdempotent(e: Element, p: ElementPatch)
    ensures Overlay(Overlay(e, p), p) == Overlay(e, p)
  {
  }

  /** The patch stays within kind `k`: it keeps the tag, and every property
      it gives is declared by `k` with the declared type. */
  predicate PatchFits(p: ElementPatch, k: ElementType) {
    && (p.kind.None? || p.kind.value == k)
    && forall q :: q in p.props ==> q in Schema(k) && TypeOf(p.props[q]) == Schema(k)[q]
  }

  /** A patch that fits the widget's kind keeps it one of the eight interfaces. */
  lemma OverlayKeepsTyping(e: Element, p: ElementPatch)
    requires WellTyped(e) && PatchFits(p, e.kind)
    ensures WellTyped(Overlay(e, p))
  {
  }

  /** Retagging a Button as a Slider through a patch (which the editor's
      untyped merge allows) leaves an object that is none of the eight
      interfaces: it has no `min`, `max`, `default` or `suffix`. */
  lemma RetaggingBreaksTyping(id: string, name: string, callback: string)
    ensures !WellTyped(Overlay(FromWidget(RayfieldButton(id, name, callback)), ElementPatch(None, Some(Slider), None, map[])))
  {
    var r := Overlay(FromWidget(RayfieldButton(id, name, callback)), ElementPatch(None, Some(Slider), None, map[]));
    assert Min in RequiredProps(Slider) && Min !in r.props;
  }

  /** The widget created for kind `k`: the default table, then the overrides
      spread over it (the id, tag and name included). */
  function NewElement(k: ElementType, overrides: ElementPatch, newId: string): (e: Element)
    ensures e.id == overrides.id.GetOr(newId)
    ensures e.kind == overrides.kind.GetOr(k)
    ensures e.name == overrides.name.GetOr("New " + KindName(k))
    ensures e.props.Keys == Schema(k).Keys + overrides.props.Keys
    ensures forall q :: q in overrides.props ==> e.props[q] == overrides.props[q]
    ensures forall q :: q in Schema(k) && q !in overrides.props ==>
      e.props[q] == FromWidget(DefaultWidget(k, newId)).props[q]
    ensures PatchFits(overrides, k) ==> WellTyped(e)
  {
    var base := FromWidget(DefaultWidget(k, newId));
    if PatchFits(overrides, k) then
      OverlayKeepsTyping(base, overrides);
      Overlay(base, overrides)
    else
      Overlay(base, overrides)
  }

  /** Without overrides the created widget is exactly the kind's default. */
  lemma NewElementIsDefault(k: ElementType, newId: string)
    ensures WellTyped(NewElement(k, NoChanges, newId))
    ensures ToWidget(NewElement(k, NoChanges, newId)) == DefaultWidget(k, newId)
  {
    OverlayNoChanges(FromWidget(DefaultWidget(k, newId)));
  }

  /** The defaults of a Slider: min 0, max 100, value 50, suffix "%", empty callback. */
  lemma NewSliderDefaults(newId: string)
    ensures ToWidget(NewElement(Slider, NoChanges, newId)) == RayfieldSlider(newId, "New Slider", 0.0, 100.0, 50.0, "%", "")
  {
  }

  function AppendTo(tabId: string, e: Element): Tab -> Tab {
    (t: Tab) => if t.id == tabId then t.(elements := t.elements + [e]) else t
  }

  /** Appends `e` to the widget list of every tab with the given id; every
      other tab is unchanged. */
  function AppendElement(d: Document, tabId: string, e: Element): (r: Document)
    ensures r.window == d.window && |r.tabs| == |d.tabs|
    ensures forall i :: 0 <= i < |d.tabs| && d.tabs[i].id != tabId ==> r.tabs[i] == d.tabs[i]
    ensures forall i :: 0 <= i < |d.tabs| && d.tabs[i].id == tabId ==>
      r.tabs[i] == d.tabs[i].(elements := d.tabs[i].elements + [e])
  {
    d.(tabs := Map(d.tabs, AppendTo(tabId, e)))
  }

  /** Adds a widget of kind `k` to the active tab. With no active tab (null
      or the empty id) the document is unchanged. Otherwise the new widget
      goes last in the tab(s) with the active id; every other tab, and the
      widgets already there, are unchanged. */
  function AddElement(d: Document, active: Option<string>, k: ElementType, overrides: ElementPatch,
                      newId: string): (r: Document)
    ensures !Truthy(active) ==> r == d
    ensures r.window == d.window && |r.tabs| == |d.tabs|
    ensures forall i :: 0 <= i < |d.tabs| && (!Truthy(active) || d.tabs[i].id != active.value) ==>
      r.tabs[i] == d.tabs[i]
    ensures forall i :: 0 <= i < |d.tabs| && Truthy(active) && d.tabs[i].id == active.value ==>
      r.tabs[i] == d.tabs[i].(elements := d.tabs[i].elements + [NewElement(k, overrides, newId)])
  {
    if !Truthy(active) then d
    else AppendElement(d, active.value, NewElement(k, overrides, newId))
  }

  /** When the active id names no tab (it was renamed or the tab deleted
      under it), adding a widget silently changes nothing. */
  lemma AddElementToMissingTab(d: Document, active: Option<string>, k: ElementType,
                               overrides: ElementPatch, newId: string)
    requires forall t :: t in d.tabs ==> active != Some(t.id)
    ensures AddElement(d, active, k, overrides, newId) == d
  {
  }

  /** The overrides a script library entry supplies: its name and its code
      as the callback of a Button. */
  function BloxPatch(name: string, script: string): ElementPatch {
    ElementPatch(None, None, Some(name), map[CallbackLogic := Str(script)])
  }

  /** A script from the library becomes a Button carrying that name and that
      code, with the fresh id. */
  lemma BloxScriptIsButton(name: string, script: string, newId: string)
    ensures WellTyped(NewElement(Button, BloxPatch(name, script), newId))
    ensures ToWidget(NewElement(Button, BloxPatch(name, script), newId)) == RayfieldButton(newId, name, script)
  {
  }

  function KeepElement(elId: string): Element -> bool {
    (e: Element) => e.id != elId
  }

  function DropFrom(tabId: string, elId: string): Tab -> Tab {
    (t: Tab) => if t.id == tabId then t.(elements := Filter(t.elements, KeepElement(elId))) else t
  }

  /** Removes the widgets with id `elId` from the tab(s) with id `tabId`.
      Tabs keep their number, order, ids, names and icons; other tabs are
      unchanged. */
  function DeleteElement(d: Document, tabId: string, elId: string): (r: Document)
    ensures r.window == d.window && |r.tabs| == |d.tabs|
    ensures forall i :: 0 <= i < |d.tabs| ==>
      r.tabs[i].id == d.tabs[i].id && r.tabs[i].name == d.tabs[i].name && r.tabs[i].icon == d.tabs[i].icon
    ensures forall i :: 0 <= i < |d.tabs| && d.tabs[i].id != tabId ==> r.tabs[i] == d.tabs[i]
    ensures forall i, e :: 0 <= i < |d.tabs| && d.tabs[i].id == tabId ==>
      (e in r.tabs[i].elements <==> e in d.tabs[i].elements && e.id != elId)
  {
    d.(tabs := Map(d.tabs, DropFrom(tabId, elId)))
  }

  /** Within a tab the surviving widgets keep their relative order. */
  lemma DeleteElementKeepsOrder(d: Document, tabId: string, elId: string, i: nat)
    requires i < |d.tabs| && d.tabs[i].id == tabId
    ensures var r, s, ix := DeleteElement(d, tabId, elId).tabs[i].elements, d.tabs[i].elements,
                            KeptPositions(d.tabs[i].elements, KeepElement(elId));
      && |ix| == |r|
      && (forall k :: 0 <= k < |r| ==> ix[k] < |s| && r[k] == s[ix[k]])
      && (forall k, m :: 0 <= k < m < |ix| ==> ix[k] < ix[m])
      && (forall m :: 0 <= m < |s| ==> (m in ix <==> s[m].id != elId))
  {
    FilterSelectsInOrder(d.tabs[i].elements, KeepElement(elId));
  }

  /** No widget of a tab with id `tabId` carries id `elId`. */
  predicate ElementIdUnusedIn(d: Document, tabId: string, elId: string) {
    forall t, e :: t in d.tabs && t.id == tabId && e in t.elements ==> e.id != elId
  }

  /** Deleting the widget just added under a fresh id (and without an id
      override) restores the document. */
  lemma AddElementThenDelete(d: Document, active: Option<string>, k: ElementType,
                             overrides: ElementPatch, newId: string)
    requires Truthy(active) && overrides.id.None?
    requires ElementIdUnusedIn(d, active.value, newId)
    ensures DeleteElement(AddElement(d, active, k, overrides, newId), active.value, newId) == d
  {
    var tabId := active.value;
    var e := NewElement(k, overrides, newId);
    var added := AddElement(d, active, k, overrides, newId);
    var r := DeleteElement(added, tabId, newId);
    forall i | 0 <= i < |d.tabs|
      ensures r.tabs[i] == d.tabs[i]
    {
      var t := d.tabs[i];
      if t.id == tabId {
        assert added.tabs[i].elements == t.elements + [e];
        FilterAppend(t.elements, [e], KeepElement(newId));
        assert t in d.tabs;
        FilterKeepsAll(t.elements, KeepElement(newId));
        assert Filter([e], KeepElement(newId)) == [];
        assert r.tabs[i].elements == t.elements;
      }
    }
  }

  /** No widget anywhere in the document carries id `x`. */
  predicate ElementIdUnused(d: Document, x: string) {
    forall t, e :: t in d.tabs && e in t.elements ==> e.id != x
  }

  /** Widget ids are unique across the whole document, not only per tab. */
  predicate ElementIdsUnique(d: Document) {
    forall i1, j1, i2, j2 ::
      && 0 <= i1 < |d.tabs| && 0 <= j1 < |d.tabs[i1].elements|
      && 0 <= i2 < |d.tabs| && 0 <= j2 < |d.tabs[i2].elements|
      && (i1 != i2 || j1 != j2)
      ==> d.tabs[i1].elements[j1].id != d.tabs[i2].elements[j2].id
  }

  /** Adding a widget under a fresh id, without an id override, keeps widget
      ids unique across the document, provided tab ids are unique (otherwise
      the widget would be appended to every tab sharing the active id). */
  lemma AddElementKeepsElementIdsUnique(d: Document, active: Option<string>, k: ElementType,
                                        overrides: ElementPatch, newId: string)
    requires TabIdsUnique(d.tabs) && ElementIdsUnique(d)
    requires ElementIdUnused(d, newId) && overrides.id.None?
    ensures ElementIdsUnique(AddElement(d, active, k, overrides, newId))
  {
    var r := AddElement(d, active, k, overrides, newId);
    if Truthy(active) {
      forall i1, j1, i2, j2 |
        && 0 <= i1 < |r.tabs| && 0 <= j1 < |r.tabs[i1].elements|
        && 0 <= i2 < |r.tabs| && 0 <= j2 < |r.tabs[i2].elements|
        && (i1 != i2 || j1 != j2)
        ensures r.tabs[i1].elements[j1].id != r.tabs[i2].elements[j2].id
      {
        var new1 := d.tabs[i1].id == active.value && j1 == |d.tabs[i1].elements|;
        var new2 := d.tabs[i2].id == active.value && j2 == |d.tabs[i2].elements|;
        if new1 && new2 {
          assert false;
        } else if new1 {
          assert r.tabs[i2].elements[j2] == d.tabs[i2].elements[j2];
          assert d.tabs[i2] in d.tabs && d.tabs[i2].elements[j2] in d.tabs[i2].elements;
        } else if new2 {
          assert r.tabs[i1].elements[j1] == d.tabs[i1].elements[j1];
          assert d.tabs[i1] in d.tabs && d.tabs[i1].elements[j1] in d.tabs[i1].elements;
        } else {
          assert r.tabs[i1].elements[j1] == d.tabs[i1].elements[j1];
          assert r.tabs[i2].elements[j2] == d.tabs[i2].elements[j2];
        }
      }
    }
  }

  /** Where the `j`-th widget of tab `i` stood before a deletion: at the
      `j`-th surviving position in the targeted tab, unmoved elsewhere. */
  lemma SurvivorOrigin(d: Document, tabId: string, elId: string, i: nat, j: nat) returns (k: nat)
    requires i < |d.tabs| && j < |DeleteElement(d, tabId, elId).tabs[i].elements|
    ensures k < |d.tabs[i].elements|
    ensures DeleteElement(d, tabId, elId).tabs[i].elements[j] == d.tabs[i].elements[k]
    ensures d.tabs[i].id == tabId ==> var ix := KeptPositions(d.tabs[i].elements, KeepElement(elId));
      j < |ix| && k == ix[j]
    ensures d.tabs[i].id != tabId ==> k == j
  {
    if d.tabs[i].id == tabId {
      FilterSelectsInOrder(d.tabs[i].elements, KeepElement(elId));
      k := KeptPositions(d.tabs[i].elements, KeepElement(elId))[j];
    } else {
      k := j;
    }
  }

  /** Deleting widgets leaves every tab id as it was, so tab ids stay unique. */
  lemma DeleteElementKeepsTabIdsUnique(d: Document, tabId: string, elId: string)
    requires TabIdsUnique(d.tabs)
    ensures TabIdsUnique(DeleteElement(d, tabId, elId).tabs)
  {
  }

  /** Deleting widgets keeps widget ids unique: the survivors of a tab keep
      their order, so no two of them come from the same position. */
  lemma DeleteElementKeepsElementIdsUnique(d: Document, tabId: string, elId: string)
    requires ElementIdsUnique(d)
    ensures ElementIdsUnique(DeleteElement(d, tabId, elId))
  {
    var r := DeleteElement(d, tabId, elId);
    forall i1, j1, i2, j2 |
      && 0 <= i1 < |r.tabs| && 0 <= j1 < |r.tabs[i1].elements|
      && 0 <= i2 < |r.tabs| && 0 <= j2 < |r.tabs[i2].elements|
      && (i1 != i2 || j1 != j2)
      ensures r.tabs[i1].elements[j1].id != r.tabs[i2].elements[j2].id
    {
      var k1 := SurvivorOrigin(d, tabId, elId, i1, j1);
      var k2 := SurvivorOrigin(d, tabId, elId, i2, j2);
      if i1 == i2 && d.tabs[i1].id == tabId {
        FilterSelectsInOrder(d.tabs[i1].elements, KeepElement(elId));
        assert k1 != k2;
      }
    }
  }

  /** Adding a widget leaves every tab id as it was, so tab ids stay unique. */
  lemma AddElementKeepsTabIdsUnique(d: Document, active: Option<string>, k: ElementType,
                                    overrides: ElementPatch, newId: string)
    requires TabIdsUnique(d.tabs)
    ensures TabIdsUnique(AddElement(d, active, k, overrides, newId).tabs)
  {
  }

  function PatchElementIf(elId: string, p: ElementPatch): Element -> Element {
    (e: Element) => if e.id == elId then Overlay(e, p) else e
  }

  function PatchElementsIn(tabId: string, elId: string, p: ElementPatch): Tab -> Tab {
    (t: Tab) => if t.id == tabId then t.(elements := Map(t.elements, PatchElementIf(elId, p))) else t
  }

  /** Overlays `p` on the widgets with id `elId` inside the tabs with id
      `tabId`. The number of tabs, each tab's id, name, icon and widget count,
      the order, and every other widget are unchanged. */
  function UpdateElement(d: Document, tabId: string, elId: string, p: ElementPatch): (r: Document)
    ensures r.window == d.window && |r.tabs| == |d.tabs|
    ensures forall i :: 0 <= i < |d.tabs| ==>
      && r.tabs[i].id == d.tabs[i].id && r.tabs[i].name == d.tabs[i].name && r.tabs[i].icon == d.tabs[i].icon
      && |r.tabs[i].elements| == |d.tabs[i].elements|
    ensures forall i, j :: 0 <= i < |d.tabs| && 0 <= j < |d.tabs[i].elements| ==>
      r.tabs[i].elements[j] ==
        if d.tabs[i].id == tabId && d.tabs[i].elements[j].id == elId
        then Overlay(d.tabs[i].elements[j], p) else d.tabs[i].elements[j]
  {
    d.(tabs := Map(d.tabs, PatchElementsIn(tabId, elId, p)))
  }

  /** Applying the same widget update twice is the same as applying it once,
      also when the patch renames the widget's id. */
  lemma UpdateElementIdempotent(d: Document, tabId: string, elId: string, p: ElementPatch)
    ensures UpdateElement(UpdateElement(d, tabId, elId, p), tabId, elId, p) == UpdateElement(d, tabId, elId, p)
  {
    var once := UpdateElement(d, tabId, elId, p);
    var twice := UpdateElement(once, tabId, elId, p);
    forall i | 0 <= i < |d.tabs|
      ensures twice.tabs[i] == once.tabs[i]
    {
      forall j | 0 <= j < |d.tabs[i].elements|
        ensures twice.tabs[i].elements[j] == once.tabs[i].elements[j]
      {
        var e := d.tabs[i].elements[j];
        if d.tabs[i].id == tabId && e.id == elId && once.tabs[i].elements[j].id == elId {
          OverlayIdempotent(e, p);
        }
      }
    }
  }

  /** A widget update that does not rename keeps widget ids unique. */
  lemma UpdateElementKeepsElementIdsUnique(d: Document, tabId: string, elId: string, p: ElementPatch)
    requires ElementIdsUnique(d) && p.id.None?
    ensures ElementIdsUnique(UpdateElement(d, tabId, elId, p))
  {
  }

  /** Updating a widget leaves every tab id as it was, so tab ids stay unique. */
  lemma UpdateElementKeepsTabIdsUnique(d: Document, tabId: string, elId: string, p: ElementPatch)
    requires TabIdsUnique(d.tabs)
    ensures TabIdsUnique(UpdateElement(d, tabId, elId, p).tabs)
  {
  }

  /** An update with an empty patch changes nothing. */
  lemma UpdateElementNoChanges(d: Document, tabId: string, elId: string)
    ensures UpdateElement(d, tabId, elId, NoChanges) == d
  {
    var r := UpdateElement(d, tabId, elId, NoChanges);
    forall i | 0 <= i < |d.tabs|
      ensures r.tabs[i] == d.tabs[i]
    {
      forall j | 0 <= j < |d.tabs[i].elements|
        ensures r.tabs[i].elements[j] == d.tabs[i].elements[j]
      {
        OverlayNoChanges(d.tabs[i].elements[j]);
      }
    }
  }

  /** An update whose patch fits the kind of every widget it reaches keeps
      every widget one of the eight interfaces. */
  lemma UpdateElementKeepsTyping(d: Document, tabId: string, elId: string, p: ElementPatch)
    requires WellTypedDoc(d)
    requires forall t, e :: t in d.tabs && t.id == tabId && e in t.elements && e.id == elId ==> PatchFits(p, e.kind)
    ensures WellTypedDoc(UpdateElement(d, tabId, elId, p))
  {
    var r := UpdateElement(d, tabId, elId, p);
    forall t, e | t in r.tabs && e in t.elements
      ensures WellTyped(e)
    {
      var i :| 0 <= i < |r.tabs| && r.tabs[i] == t;
      var j :| 0 <= j < |t.elements| && t.elements[j] == e;
      var old_e := d.tabs[i].elements[j];
      assert d.tabs[i] in d.tabs && old_e in d.tabs[i].elements;
      if d.tabs[i].id == tabId && old_e.id == elId {
        OverlayKeepsTyping(old_e, p);
      }
    }
  }

  // ------------------------------------------------------------- window

  /** Overrides of the window's top-level fields, each optional. A given
      sub-record replaces the whole sub-record. */
  datatype WindowPatch = WindowPatch(
    name: Option<string>, loadingTitle: Option<string>, loadingSubtitle: Option<string>,
    configurationSaving: Option<ConfigurationSaving>, keySystem: Option<bool>,
    keySettings: Option<KeySettings>)

  /** Object spread of a window patch over the window: given fields win. */
  function OverlayWindow(w: Window, p: WindowPatch): (r: Window)
    ensures r.name == p.name.GetOr(w.name)
    ensures r.loadingTitle == p.loadingTitle.GetOr(w.loadingTitle)
    ensures r.loadingSubtitle == p.loadingSubtitle.GetOr(w.loadingSubtitle)
    ensures r.configurationSaving == p.configurationSaving.GetOr(w.configurationSaving)
    ensures r.keySystem == p.keySystem.GetOr(w.keySystem)
    ensures r.keySettings == p.keySettings.GetOr(w.keySettings)
  {
    Window(p.name.GetOr(w.name), p.loadingTitle.GetOr(w.loadingTitle),
           p.loadingSubtitle.GetOr(w.loadingSubtitle),
           p.configurationSaving.GetOr(w.configurationSaving),
           p.keySystem.GetOr(w.keySystem), p.keySettings.GetOr(w.keySettings))
  }

  /** Changes only the window; the tabs are untouched. */
  function UpdateWindow(d: Document, p: WindowPatch): (r: Document)
    ensures r.tabs == d.tabs
    ensures r.window == OverlayWindow(d.window, p)
  {
    d.(window := OverlayWindow(d.window, p))
  }

  const NoWindowChanges: WindowPatch := WindowPatch(None, None, None, None, None, None)

  /** The single patch that does what `p` then `q` do: a field `q` gives wins. */
  function MergeWindowPatch(p: WindowPatch, q: WindowPatch): WindowPatch {
    WindowPatch(q.name.OrElse(p.name), q.loadingTitle.OrElse(p.loadingTitle),
                q.loadingSubtitle.OrElse(p.loadingSubtitle),
                q.configurationSaving.OrElse(p.configurationSaving),
                q.keySystem.OrElse(p.keySystem), q.keySettings.OrElse(p.keySettings))
  }

  /** An empty window patch changes nothing. */
  lemma OverlayWindowNoChanges(w: Window)
    ensures OverlayWindow(w, NoWindowChanges) == w
  {
  }

  /** Spreading `p` and then `q` over the window is spreading their merge once. */
  lemma OverlayWindowCompose(w: Window, p: WindowPatch, q: WindowPatch)
    ensures OverlayWindow(OverlayWindow(w, p), q) == OverlayWindow(w, MergeWindowPatch(p, q))
  {
  }

  /** Applying the same window update twice is the same as applying it once. */
  lemma UpdateWindowIdempotent(d: Document, p: WindowPatch)
    ensures UpdateWindow(UpdateWindow(d, p), p) == UpdateWindow(d, p)
  {
  }

  /** Switching the key system off leaves the key settings as they were. */
  lemma KeySystemOffKeepsKeySettings(d: Document)
    ensures var r := UpdateWindow(d, WindowPatch(None, None, None, None, Some(false), None));
      !r.window.keySystem && r.window.keySettings == d.window.keySettings
  {
  }

  // --------------------------------------------------------------- load

  /** A parsed project file: the two sections the editor checks for, each
      possibly missing. */
  datatype ImportedProject = ImportedProject(window: Option<Window>, tabs: Option<seq<Tab>>)

  /** The document a project file yields: one exists exactly when the file
      parsed and has both a `window` and a `tabs` section (an empty tab list
      is accepted); it is those two sections. */
  function LoadedDocument(parsed: Option<ImportedProject>): (r: Option<Document>)
    ensures r.Some? <==> parsed.Some? && parsed.value.window.Some? && parsed.value.tabs.Some?
    ensures r.Some? ==> r.value.window == parsed.value.window.value && r.value.tabs == parsed.value.tabs.value
  {
    match parsed
    case None => None
    case Some(p) =>
      if p.window.Some? && p.tabs.Some? then Some(Document(p.window.value, p.tabs.value)) else None
  }

  /** The load guard accepts the two sections of any document and gives that
      document back. Serialisation is not modelled, so this is not a round
      trip through the saved text: it only says that the guard rejects no
      document the editor can hold. */
  lemma LoadGuardAcceptsEveryDocument(d: Document)
    ensures LoadedDocument(Some(ImportedProject(Some(d.window), Some(d.tabs)))) == Some(d)
  {
  }

  /** The active tab after a load: the first tab's id, or null when there is
      no tab or when that id is the empty string. */
  function FirstTabId(tabs: seq<Tab>): (r: Option<string>)
    ensures r.Some? <==> |tabs| > 0 && tabs[0].id != ""
    ensures r.Some? ==> r.value == tabs[0].id
  {
    if |tabs| > 0 && tabs[0].id != "" then Some(tabs[0].id) else None
  }

  /** After a load, a widget can be added exactly when the first tab has a
      non-empty id, and it then goes to a tab with that id. */
  lemma LoadedActiveTabIsFirstTab(tabs: seq<Tab>)
    ensures Truthy(FirstTabId(tabs)) <==> |tabs| > 0 && tabs[0].id != ""
    ensures Truthy(FirstTabId(tabs)) ==> exists t :: t in tabs && t.id == FirstTabId(tabs).value
  {
  }
}
