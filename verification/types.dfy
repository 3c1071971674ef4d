/** The editor's document model: a window configuration and an ordered list
    of tabs, each holding an ordered list of widgets of eight kinds.

    A widget is kept the way the editor holds it at run time: an object with an
    id, a `type` tag, a name and a bag of further properties. Object spread
    (`{ ...a, ...b }`) is then exactly map union, also when an override rewrites
    the tag. The eight typed variants of the union are the `Widget` datatype;
    `WellTyped` says when a property bag is one of them, and `ToWidget` /
    `FromWidget` convert between the two views. */
module Types {
  import opened Wrappers

  /** The `type` tag: a closed set of exactly eight kinds. */
  datatype ElementType = Button | Toggle | Slider | Input | Label | Paragraph | Keybind | Dropdown

  /** The tag as the string literal the program stores. */
  function KindName(k: ElementType): string {
    match k
    case Button => "Button"
    case Toggle => "Toggle"
    case Slider => "Slider"
    case Input => "Input"
    case Label => "Label"
    case Paragraph => "Paragraph"
    case Keybind => "Keybind"
    case Dropdown => "Dropdown"
  }

  /** The tag strings are pairwise distinct, so the stored string determines the kind. */
  lemma KindNameInjective(a: ElementType, b: ElementType)
    requires KindName(a) == KindName(b)
    ensures a == b
  {
  }

  /** The properties a widget may carry besides `id`, `type` and `name`. */
  datatype Prop =
    | CallbackLogic | Default | Min | Max | Suffix | Placeholder | RemoveTextAfterFocusLost
    | Color | Content | DefaultKey | HoldToInteract | Options | DefaultOption | MultiSelection

  /** A property value: a string, a number, a boolean or a list of strings. */
  datatype Value = Str(s: string) | Num(n: real) | Bool(b: bool) | StrList(items: seq<string>)

  datatype ValueType = TStr | TNum | TBool | TStrList

  function TypeOf(v: Value): ValueType {
    match v
    case Str(_) => TStr
    case Num(_) => TNum
    case Bool(_) => TBool
    case StrList(_) => TStrList
  }

  /** A widget object as the editor holds it. */
  datatype Element = Element(id: string, kind: ElementType, name: string, props: map<Prop, Value>)

  /** The properties each interface declares beyond the shared three, with their types. */
  function Schema(k: ElementType): (s: map<Prop, ValueType>)
    ensures CallbackLogic in s <==> k != Label && k != Paragraph
    ensures CallbackLogic in s ==> s[CallbackLogic] == TStr
    ensures Default in s <==> k == Toggle || k == Slider
  {
    match k
    case Button => map[CallbackLogic := TStr]
    case Toggle => map[Default := TBool, CallbackLogic := TStr]
    case Slider => map[Min := TNum, Max := TNum, Default := TNum, Suffix := TStr, CallbackLogic := TStr]
    case Input => map[Placeholder := TStr, RemoveTextAfterFocusLost := TBool, CallbackLogic := TStr]
    case Label => map[Color := TStr]
    case Paragraph => map[Content := TStr]
    case Keybind => map[DefaultKey := TStr, HoldToInteract := TBool, CallbackLogic := TStr]
    case Dropdown => map[Options := TStrList, DefaultOption := TStr, MultiSelection := TBool, CallbackLogic := TStr]
  }

  /** The declared properties an object of kind `k` may leave out. */
  function OptionalProps(k: ElementType): set<Prop> {
    if k == Label then {Color} else {}
  }

  function RequiredProps(k: ElementType): set<Prop> {
    Schema(k).Keys - OptionalProps(k)
  }

  /** The object is exactly one of the eight interfaces: every required
      property is present, nothing undeclared is present, and each value has
      its declared type. */
  predicate WellTyped(e: Element)
    ensures WellTyped(e) ==> e.props.Keys == Schema(e.kind).Keys || (e.kind == Label && e.props == map[])
  {
    && RequiredProps(e.kind) <= e.props.Keys <= Schema(e.kind).Keys
    && forall q :: q in e.props ==> TypeOf(e.props[q]) == Schema(e.kind)[q]
  }

  /** The eight interfaces of the union, one constructor each. */
  datatype Widget =
    | RayfieldButton(id: string, name: string, callbackLogic: string)
    | RayfieldToggle(id: string, name: string, defaultState: bool, callbackLogic: string)
    | RayfieldSlider(id: string, name: string, min: real, max: real, defaultValue: real, suffix: string, callbackLogic: string)
    | RayfieldInput(id: string, name: string, placeholder: string, removeTextAfterFocusLost: bool, callbackLogic: string)
    | RayfieldLabel(id: string, name: string, color: Option<string>)
    | RayfieldParagraph(id: string, name: string, content: string)
    | RayfieldKeybind(id: string, name: string, defaultKey: string, holdToInteract: bool, callbackLogic: string)
    | RayfieldDropdown(id: string, name: string, options: seq<string>, defaultOption: string, multiSelection: bool, callbackLogic: string)

  function KindOf(w: Widget): ElementType {
    match w
    case RayfieldButton(_, _, _) => Button
    case RayfieldToggle(_, _, _, _) => Toggle
    case RayfieldSlider(_, _, _, _, _, _, _) => Slider
    case RayfieldInput(_, _, _, _, _) => Input
    case RayfieldLabel(_, _, _) => Label
    case RayfieldParagraph(_, _, _) => Paragraph
    case RayfieldKeybind(_, _, _, _, _) => Keybind
    case RayfieldDropdown(_, _, _, _, _, _) => Dropdown
  }

  /** The object a typed widget is stored as. */
  function FromWidget(w: Widget): (e: Element)
    ensures e.id == w.id && e.kind == KindOf(w) && e.name == w.name
    ensures WellTyped(e)
  {
    var props := match w
      case RayfieldButton(_, _, cb) => map[CallbackLogic := Str(cb)]
      case RayfieldToggle(_, _, d, cb) => map[Default := Bool(d), CallbackLogic := Str(cb)]
      case RayfieldSlider(_, _, lo, hi, d, sfx, cb) =>
        map[Min := Num(lo), Max := Num(hi), Default := Num(d), Suffix := Str(sfx), CallbackLogic := Str(cb)]
      case RayfieldInput(_, _, ph, clear, cb) =>
        map[Placeholder := Str(ph), RemoveTextAfterFocusLost := Bool(clear), CallbackLogic := Str(cb)]
      case RayfieldLabel(_, _, c) => if c.Some? then map[Color := Str(c.value)] else map[]
      case RayfieldParagraph(_, _, body) => map[Content := Str(body)]
      case RayfieldKeybind(_, _, key, hold, cb) =>
        map[DefaultKey := Str(key), HoldToInteract := Bool(hold), CallbackLogic := Str(cb)]
      case RayfieldDropdown(_, _, opts, sel, multi, cb) =>
        map[Options := StrList(opts), DefaultOption := Str(sel), MultiSelection := Bool(multi), CallbackLogic := Str(cb)];
    Element(w.id, KindOf(w), w.name, props)
  }

  /** The typed reading of a well-typed object. */
  function ToWidget(e: Element): (w: Widget)
    requires WellTyped(e)
    ensures w.id == e.id && KindOf(w) == e.kind && w.name == e.name
  {
    var p := e.props;
    match e.kind
    case Button => RayfieldButton(e.id, e.name, p[CallbackLogic].s)
    case Toggle => RayfieldToggle(e.id, e.name, p[Default].b, p[CallbackLogic].s)
    case Slider => RayfieldSlider(e.id, e.name, p[Min].n, p[Max].n, p[Default].n, p[Suffix].s, p[CallbackLogic].s)
    case Input => RayfieldInput(e.id, e.name, p[Placeholder].s, p[RemoveTextAfterFocusLost].b, p[CallbackLogic].s)
    case Label => RayfieldLabel(e.id, e.name, if Color in p then Some(p[Color].s) else None)
    case Paragraph => RayfieldParagraph(e.id, e.name, p[Content].s)
    case Keybind => RayfieldKeybind(e.id, e.name, p[DefaultKey].s, p[HoldToInteract].b, p[CallbackLogic].s)
    case Dropdown =>
      RayfieldDropdown(e.id, e.name, p[Options].items, p[DefaultOption].s, p[MultiSelection].b, p[CallbackLogic].s)
  }

  /** Storing a typed widget and reading it back gives the same widget. */
  lemma ToWidgetFromWidget(w: Widget)
    ensures ToWidget(FromWidget(w)) == w
  {
  }

  lemma ButtonPropsRestored(e: Element)
    requires WellTyped(e) && e.kind == Button
    ensures FromWidget(ToWidget(e)) == e
  {
    var p := e.props;
    assert forall q :: q in p ==> TypeOf(p[q]) == Schema(Button)[q];
    assert p == map[CallbackLogic := Str(p[CallbackLogic].s)];
  }

  lemma TogglePropsRestored(e: Element)
    requires WellTyped(e) && e.kind == Toggle
    ensures FromWidget(ToWidget(e)) == e
  {
    var p := e.props;
    assert forall q :: q in p ==> TypeOf(p[q]) == Schema(Toggle)[q];
    assert p == map[Default := Bool(p[Default].b), CallbackLogic := Str(p[CallbackLogic].s)];
  }

  lemma SliderPropsRestored(e: Element)
    requires WellTyped(e) && e.kind == Slider
    ensures FromWidget(ToWidget(e)) == e
  {
    var p := e.props;
    assert forall q :: q in p ==> TypeOf(p[q]) == Schema(Slider)[q];
    assert p == map[Min := Num(p[Min].n), Max := Num(p[Max].n), Default := Num(p[Default].n),
                    Suffix := Str(p[Suffix].s), CallbackLogic := Str(p[CallbackLogic].s)];
  }

  lemma InputPropsRestored(e: Element)
    requires WellTyped(e) && e.kind == Input
    ensures FromWidget(ToWidget(e)) == e
  {
    var p := e.props;
    assert forall q :: q in p ==> TypeOf(p[q]) == Schema(Input)[q];
    assert p == map[Placeholder := Str(p[Placeholder].s),
                    RemoveTextAfterFocusLost := Bool(p[RemoveTextAfterFocusLost].b),
                    CallbackLogic := Str(p[CallbackLogic].s)];
  }

  lemma ParagraphPropsRestored(e: Element)
    requires WellTyped(e) && e.kind == Paragraph
    ensures FromWidget(ToWidget(e)) == e
  {
    var p := e.props;
    assert forall q :: q in p ==> TypeOf(p[q]) == Schema(Paragraph)[q];
    assert p == map[Content := Str(p[Content].s)];
  }

  lemma KeybindPropsRestored(e: Element)
    requires WellTyped(e) && e.kind == Keybind
    ensures FromWidget(ToWidget(e)) == e
  {
    var p := e.props;
    assert forall q :: q in p ==> TypeOf(p[q]) == Schema(Keybind)[q];
    assert p == map[DefaultKey := Str(p[DefaultKey].s), HoldToInteract := Bool(p[HoldToInteract].b),
                    CallbackLogic := Str(p[CallbackLogic].s)];
  }

  lemma DropdownPropsRestored(e: Element)
    requires WellTyped(e) && e.kind == Dropdown
    ensures FromWidget(ToWidget(e)) == e
  {
    var p := e.props;
    assert forall q :: q in p ==> TypeOf(p[q]) == Schema(Dropdown)[q];
    assert p == map[Options := StrList(p[Options].items), DefaultOption := Str(p[DefaultOption].s),
                    MultiSelection := Bool(p[MultiSelection].b), CallbackLogic := Str(p[CallbackLogic].s)];
  }

  lemma LabelPropsRestored(e: Element)
    requires WellTyped(e) && e.kind == Label
    ensures FromWidget(ToWidget(e)) == e
  {
    var p := e.props;
    if Color in p {
      assert TypeOf(p[Color]) == TStr;
      assert p == map[Color := Str(p[Color].s)];
    } else {
      assert p == map[];
    }
  }

  /** Reading a well-typed object and storing it again gives the same object:
      the typed view loses nothing. */
  lemma FromWidgetToWidget(e: Element)
    requires WellTyped(e)
    ensures FromWidget(ToWidget(e)) == e
  {
    match e.kind
    case Button => ButtonPropsRestored(e);
    case Toggle => TogglePropsRestored(e);
    case Slider => SliderPropsRestored(e);
    case Input => InputPropsRestored(e);
    case Label => LabelPropsRestored(e);
    case Paragraph => ParagraphPropsRestored(e);
    case Keybind => KeybindPropsRestored(e);
    case Dropdown => DropdownPropsRestored(e);
  }

  /** An object is well typed exactly when it is the stored form of one of
      the eight interfaces. */
  lemma WellTypedIffWidget(e: Element)
    ensures WellTyped(e) <==> exists w :: FromWidget(w) == e
  {
    if WellTyped(e) {
      FromWidgetToWidget(e);
    }
  }

  /** Button, Toggle, Slider, Input, Keybind and Dropdown carry a callback
      body; Label and Paragraph do not. */
  lemma CallbackCarriers(e: Element)
    requires WellTyped(e)
    ensures CallbackLogic in e.props <==> e.kind != Label && e.kind != Paragraph
    ensures CallbackLogic in e.props ==> e.props[CallbackLogic].Str?
  {
  }

  /** A property name means the same type in every interface that declares
      it, except `default`: a boolean in Toggle, a number in Slider. */
  lemma SchemaTypesAgree(k1: ElementType, k2: ElementType, q: Prop)
    requires q in Schema(k1) && q in Schema(k2)
    ensures Schema(k1)[q] == Schema(k2)[q] <==> q != Default || k1 == k2
  {
  }

  /** The properties alone decide the interface: an object that is well
      typed under one tag is well typed under no other. */
  lemma WellTypedDeterminesKind(e: Element, k: ElementType)
    requires WellTyped(e) && WellTyped(e.(kind := k))
    ensures k == e.kind
  {
    if e.props == map[] {
      assert CallbackLogic !in RequiredProps(e.kind) && Content !in RequiredProps(e.kind);
      assert CallbackLogic !in RequiredProps(k) && Content !in RequiredProps(k);
    } else {
      SchemaKeysInjective(e.kind, k);
    }
  }

  /** No two interfaces declare the same set of properties. */
  lemma SchemaKeysInjective(k1: ElementType, k2: ElementType)
    requires Schema(k1).Keys == Schema(k2).Keys
    ensures k1 == k2
  {
    assert Min in Schema(k1) <==> Min in Schema(k2);
    assert Placeholder in Schema(k1) <==> Placeholder in Schema(k2);
    assert Color in Schema(k1) <==> Color in Schema(k2);
    assert Content in Schema(k1) <==> Content in Schema(k2);
    assert DefaultKey in Schema(k1) <==> DefaultKey in Schema(k2);
    assert Options in Schema(k1) <==> Options in Schema(k2);
  }

  /** Label's colour is the only optional property: every other kind must
      carry all it declares, and a Label without colour is still well typed. */
  lemma OnlyLabelHasOptionalProps(k: ElementType, id: string, name: string)
    ensures RequiredProps(k) == Schema(k).Keys <==> k != Label
    ensures WellTyped(Element(id, Label, name, map[]))
  {
  }

  /** A tab: an id, a name, an icon token (possibly empty) and its widgets in order. */
  datatype Tab = Tab(id: string, name: string, icon: string, elements: seq<Element>)

  datatype ConfigurationSaving = ConfigurationSaving(enabled: bool, folderName: string, fileName: string)

  datatype KeySettings = KeySettings(
    title: string, subtitle: string, note: string, fileName: string,
    saveKey: bool, grabbingKey: string, key: string)

  /** The window configuration. Both sub-records are always present,
      whatever `keySystem` says. */
  datatype Window = Window(
    name: string, loadingTitle: string, loadingSubtitle: string,
    configurationSaving: ConfigurationSaving,
    keySystem: bool, keySettings: KeySettings)

  /** The whole document: a window and the tabs in order. */
  datatype Document = Document(window: Window, tabs: seq<Tab>)

  /** Every widget of the document is one of the eight interfaces. */
  predicate WellTypedDoc(d: Document) {
    forall t :: t in d.tabs ==> forall e :: e in t.elements ==> WellTyped(e)
  }
}
