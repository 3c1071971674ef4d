# Rayfield UI Creator — document store model

This project models the document store of the Rayfield UI Creator editor.
A document (`AppState`) is a window configuration plus an ordered list of
tabs, and each tab holds an ordered list of widgets of eight kinds (Button,
Toggle, Slider, Input, Label, Paragraph, Keybind, Dropdown). The model covers
the editor actions that change the document: add or delete a tab, add a
widget (with per-kind defaults and caller overrides), update or delete a
widget, overlay window or tab fields, add a script-library snippet as a
Button, and accept or reject a loaded project. It also covers the small
session state around the document: the active tab and the selected widget.

Modules:

- `Types` (types.ts): the document's datatypes. A widget is held as the
  editor holds it at run time, as an `Element`: an id, a `type` tag, a name
  and a map of further properties. Object spread (`{ ...a, ...b }`) is then
  exactly map union, including when an override rewrites the tag, which the
  editor's untyped merge allows. The eight interfaces of the `UIElement`
  union are the `Widget` datatype. `Schema` is the per-kind property table.
  `WellTyped` says when an `Element` is exactly one of the eight interfaces,
  with no property of another kind. This is stricter than TypeScript's
  structural typing, which would accept a retagged Slider that keeps `min`
  and `max` as a `RayfieldButton`.
  `ToWidget` and `FromWidget` convert between the two views, and lemmas prove
  that neither loses anything.
- `Store` (App.tsx, the transforms): one function per action, each from the
  previous document to the next, built from `Seqs.Filter` (`Array.filter`),
  `Seqs.Map` (`Array.map`) and the overlay functions (object spread). Lemmas
  state what each action keeps. They cover order and "nothing else changes",
  inverse pairs (add then delete), idempotence, preservation of unique ids
  and of well-typedness, and the load guard.
- `Session` (App.tsx, the session): class `Editor` with the fields `doc`,
  `activeTabId` and `selected`. Each method applies the `Store` transform and
  updates the session fields the way the editor's setters do.
  `Editor.AddElement` builds the base object one property at a time through
  `Store.BuildBase`, which is proved to produce exactly the kind's default
  widget.
- `Seqs`, `Numerals`, `Wrappers`: `Array.filter` and `Array.map`, decimal
  rendering of a count (the `${n}` in a new tab's name), and `Option`.

JavaScript truthiness is kept where the code relies on it:

- `addElement` treats an active tab id of `""` like `null` (App.tsx:67).
- After a load, a first tab whose id is `""` leaves no tab active
  (App.tsx:194, `?.id || null`).

The model follows the code, including where it guarantees less than one
might expect:

- Widget and tab ids are not kept unique by the code. An id override, a
  renaming tab or widget patch, a tab patch that replaces the widget list, or
  a loaded file can set any id. The model proves, per action, which of the
  two predicates it keeps. `TabIdsUnique` (no two tabs share an id) is kept
  by adding a tab under a fresh id, by both deletions, by adding or updating
  a widget, and by a tab update that gives no id. `ElementIdsUnique` (no two
  widgets anywhere share an id) is kept by adding a tab, by both deletions,
  by adding a widget under a fresh id without an id override when tab ids
  are unique, by a widget update that gives no id, and by a tab update that
  gives no widget list.
- When two tabs share the active id, a new widget is appended to each of
  them (App.tsx:93-97).

## Model

| member | source | states |
|---|---|---|
| `Types.KindNameInjective` | types.ts:1 | the eight tag strings are pairwise distinct, so the stored tag determines the kind |
| `Types.FromWidget` | types.ts:61-69 | the stored object of any of the eight interfaces is well typed and keeps its id, name and kind |
| `Types.ToWidget` | types.ts:61-69 | reading a well-typed object keeps its id and name, and the interface read matches the tag |
| `Types.ToWidgetFromWidget` | types.ts:61-69 | storing a typed widget and reading it back gives the same widget |
| `Types.FromWidgetToWidget` | types.ts:3-59 | reading a well-typed object and storing it again gives the same object (the typed view loses no property) |
| `Types.WellTypedIffWidget` | types.ts:61-69 | an object satisfies the per-kind property table exactly when it is the stored form of one of the eight interfaces |
| `Types.CallbackCarriers` | types.ts:9-59 | in a well-typed object a string `callbackLogic` is present exactly for Button, Toggle, Slider, Input, Keybind and Dropdown |
| `Types.OnlyLabelHasOptionalProps` | types.ts:36-39 | Label is the only kind with an optional property, and a Label without `color` is well typed |
| `Types.Schema` | types.ts:9-59 | the property table of each interface: exactly the six kinds other than Label and Paragraph declare a string `callbackLogic`, and exactly Toggle and Slider declare `default` |
| `Types.WellTyped` | types.ts:9-69 | a well-typed object carries every property its interface declares, except that a Label may omit `color` |
| `Types.SchemaTypesAgree` | types.ts:9-59 | a property declared by two interfaces has the same type in both, except `default`, which is boolean in Toggle and numeric in Slider |
| `Types.WellTypedDeterminesKind` | types.ts:61-69 | the properties alone decide the interface: an object well typed under one tag is well typed under no other |
| `Numerals.NatToString` | App.tsx:51 | the decimal text of a count is non-empty, all digits, and has no leading zero unless it is "0" |
| `Numerals.NatToStringRoundTrip` | App.tsx:51 | reading back the decimal text of n gives n |
| `Numerals.NatToStringInjective` | App.tsx:51 | different counts render to different text |
| `Seqs.Filter` | App.tsx:61 | `filter` keeps exactly the elements that pass the test and never lengthens the list |
| `Seqs.Map` | App.tsx:93-98 | `map` keeps the length, and each result is the callback applied to the element at the same position |
| `Seqs.FilterSelectsInOrder` | App.tsx:61 | the i-th survivor is the element at the i-th kept position, kept positions increase, and a position is kept iff its element passes |
| `Seqs.FilterAppend` | App.tsx:122 | filtering a concatenation is the concatenation of the filtered parts |
| `Seqs.FilterKeepsAll` | App.tsx:122 | filtering a list whose elements all pass returns it unchanged |
| `Seqs.FilterIdempotent` | App.tsx:61 | filtering twice with the same test is filtering once |
| `Store.AddTab` | App.tsx:48-55 | the tab list grows by one; earlier tabs are unchanged and in order; the new last tab has the fresh id, icon "", no widgets and the name "Tab " + (old count + 1); the window is unchanged |
| `Store.DefaultWindowValues` | App.tsx:11-30 | the default window carries all sixteen values of the editor's default: its three titles, saving on with its folder and file names, the key system off, and a complete key settings record |
| `Store.AddTabNameCountsTabs` | App.tsx:51 | the new tab's name is "Tab " followed by digits whose value is the new number of tabs |
| `Store.DeleteTab` | App.tsx:60-61 | a tab survives exactly when it was present and its id differs; the window is unchanged |
| `Store.DeleteTabKeepsOrder` | App.tsx:61 | the surviving tabs are those at the positions whose id differs, in their original order |
| `Store.DeleteAbsentTab` | App.tsx:61 | deleting an id no tab carries leaves the document unchanged |
| `Store.AddTabThenDeleteTab` | App.tsx:48-61 | deleting a tab just added under a fresh id restores the document |
| `Store.AddTabKeepsTabIdsUnique` | App.tsx:49-55 | adding a tab under a fresh id keeps tab ids unique |
| `Store.AddTabKeepsElementIdsUnique` | App.tsx:49-55 | adding a tab, which starts with no widgets, keeps widget ids unique |
| `Store.DeleteTabKeepsTabIdsUnique` | App.tsx:61 | deleting tabs keeps tab ids unique |
| `Store.DeleteTabKeepsElementIdsUnique` | App.tsx:61 | deleting tabs keeps widget ids unique across the document |
| `Store.UpdateTabKeepsTabIdsUnique` | App.tsx:134-139 | a tab update that gives no id keeps tab ids unique |
| `Store.UpdateTabKeepsElementIdsUnique` | App.tsx:134-139 | a tab update that gives no widget list keeps widget ids unique |
| `Store.OverlayTab` | App.tsx:137 | each field given in the tab patch replaces the tab's field and every other field is kept |
| `Store.OverlayTabNoChanges` | App.tsx:137 | spreading an empty tab patch leaves the tab unchanged |
| `Store.OverlayTabCompose` | App.tsx:137 | spreading one tab patch and then another equals spreading once the merged patch, in which the later patch's fields win |
| `Store.UpdateTab` | App.tsx:134-139 | only tabs with the given id are overlaid; tab count, order, other tabs and the window are unchanged |
| `Store.UpdateTabIdempotent` | App.tsx:134-139 | applying the same tab update twice equals applying it once, also when it renames the tab id |
| `Store.DefaultWidget` | App.tsx:72-86 | the created widget has the requested kind, the fresh id and the name "New " + kind |
| `Store.BuildBase` | App.tsx:72-86 | building the base object property by property, as the editor does, yields a well-typed object that is exactly the kind's default widget |
| `Store.Overlay` | App.tsx:89 | spreading a patch over a widget: given id, tag, name and properties replace the widget's, all other properties are kept, the key set is the union |
| `Store.OverlayNoChanges` | App.tsx:109 | an empty patch changes nothing |
| `Store.OverlayIdempotent` | App.tsx:109 | spreading the same patch twice equals spreading it once |
| `Store.OverlayCompose` | App.tsx:109 | spreading one widget patch and then another equals spreading once the merged patch, in which the later patch's fields and properties win |
| `Store.OverlayKeepsTyping` | App.tsx:109 | a patch that keeps the tag and gives only declared, correctly typed properties keeps the widget one of the eight interfaces |
| `Store.RetaggingBreaksTyping` | App.tsx:89 | an override that retags a Button as a Slider yields an object that is none of the eight interfaces |
| `Store.NewElement` | App.tsx:72-89 | the created widget takes each overridden field (id, tag and name included) from the overrides and every other declared property from the kind's default; it is well typed when the overrides fit the kind |
| `Store.NewElementIsDefault` | App.tsx:72-89 | without overrides the created widget is exactly the kind's default widget |
| `Store.NewSliderDefaults` | App.tsx:81 | a new Slider has min 0, max 100, value 50, suffix "%" and an empty callback |
| `Store.AddElement` | App.tsx:66-100 | with no active tab (null or "") the document is unchanged; otherwise the new widget is appended last in the tab(s) with the active id and every other tab and existing widget is unchanged |
| `Store.AppendElement` | App.tsx:91-99 | the widget is appended last in every tab with the given id; every other tab and the window are unchanged and the tab count is kept |
| `Store.AddElementToMissingTab` | App.tsx:91-99 | when the active id names no tab, adding a widget changes nothing |
| `Store.BloxScriptIsButton` | App.tsx:147-152 | a script from the library becomes a well-typed Button with the fresh id, the script's name and its code as callback |
| `Store.DeleteElement` | App.tsx:117-126 | tab count, ids, names and icons are unchanged; other tabs are unchanged; in the targeted tab a widget survives exactly when its id differs |
| `Store.DeleteElementKeepsOrder` | App.tsx:122 | the surviving widgets of the targeted tab keep their original relative order |
| `Store.AddElementThenDelete` | App.tsx:91-126 | deleting a widget just added under a fresh id (without an id override) restores the document |
| `Store.AddElementKeepsElementIdsUnique` | App.tsx:72-99 | with unique tab ids, adding a widget under a fresh id keeps widget ids unique across the whole document |
| `Store.AddElementKeepsTabIdsUnique` | App.tsx:91-99 | adding a widget keeps tab ids unique |
| `Store.DeleteElementKeepsTabIdsUnique` | App.tsx:117-126 | deleting widgets keeps tab ids unique |
| `Store.DeleteElementKeepsElementIdsUnique` | App.tsx:117-126 | deleting widgets keeps widget ids unique across the document |
| `Store.UpdateElementKeepsElementIdsUnique` | App.tsx:102-115 | a widget update that gives no id keeps widget ids unique |
| `Store.UpdateElementKeepsTabIdsUnique` | App.tsx:102-115 | updating a widget keeps tab ids unique |
| `Store.UpdateElement` | App.tsx:102-115 | only widgets with the given id in tabs with the given id are overlaid; tab count, tab fields, widget counts, order and all other widgets are unchanged |
| `Store.UpdateElementIdempotent` | App.tsx:102-115 | applying the same widget update twice equals applying it once, also when it renames the widget id |
| `Store.UpdateElementNoChanges` | App.tsx:102-115 | an update with an empty patch leaves the document unchanged |
| `Store.UpdateElementKeepsTyping` | App.tsx:102-115 | an update whose patch fits the kind of every widget it reaches keeps every widget well typed |
| `Store.OverlayWindow` | App.tsx:131 | each top-level window field given in the patch replaces the window's, and every other field is kept |
| `Store.OverlayWindowNoChanges` | App.tsx:131 | spreading an empty window patch leaves the window unchanged |
| `Store.OverlayWindowCompose` | App.tsx:131 | spreading one window patch and then another equals spreading once the merged patch, in which the later patch's fields win |
| `Store.UpdateWindow` | App.tsx:130-132 | only the window changes; the tabs are untouched |
| `Store.UpdateWindowIdempotent` | App.tsx:130-132 | applying the same window update twice equals applying it once |
| `Store.KeySystemOffKeepsKeySettings` | types.ts:87-96 | switching `keySystem` off keeps the key settings record as it was |
| `Store.LoadedDocument` | App.tsx:190-193 | a loaded file yields a document exactly when it parsed and has both `window` and `tabs` (an empty tab list included), and the document is made from those two sections |
| `Store.LoadGuardAcceptsEveryDocument` | App.tsx:190-193 | the load guard accepts the two sections of any document and gives that document back (serialisation is not modelled, so this is not a round trip through the saved text) |
| `Store.FirstTabId` | App.tsx:194 | after a load the active tab is the first tab's id, or none when there are no tabs or that id is "" |
| `Store.LoadedActiveTabIsFirstTab` | App.tsx:194 | after a load a widget can be added exactly when the first tab has a non-empty id, and that id names a loaded tab |
| `Session.Editor.constructor` | App.tsx:33-39 | a session starts with the default window, no tabs, no active tab and no selection |
| `Session.Editor.AddTab` | App.tsx:48-58 | the document becomes `AddTab` of the old one, the new tab becomes active and the selection is cleared |
| `Session.Editor.DeleteTab` | App.tsx:60-64 | the document becomes `DeleteTab` of the old one, the active tab is reset only if it was the deleted id, and the selection is cleared |
| `Session.Editor.AddElement` | App.tsx:66-100 | the document becomes `AddElement` of the old one under the old active tab; active tab and selection are unchanged |
| `Session.Editor.AddScriptFromBlox` | App.tsx:147-152 | adds a Button carrying the script's name and code to the active tab |
| `Session.Editor.UpdateElement` | App.tsx:102-115 | the document becomes `UpdateElement` of the old one; session fields are unchanged |
| `Session.Editor.DeleteElement` | App.tsx:117-128 | the document becomes `DeleteElement` of the old one and the selection is cleared |
| `Session.Editor.UpdateWindow` | App.tsx:130-132 | the document becomes `UpdateWindow` of the old one; session fields are unchanged |
| `Session.Editor.UpdateTab` | App.tsx:134-139 | the document becomes `UpdateTab` of the old one; the active id is not updated when the tab's id is renamed |
| `Session.Editor.SelectTab` | App.tsx:258 | selecting a tab makes it active and clears the selection; the document is unchanged |
| `Session.Editor.SelectElement` | App.tsx:259 | selecting a widget records its tab and id; the document and the active tab are unchanged |
| `Session.Editor.LoadProjectFile` | App.tsx:180-208 | a file is accepted exactly when it parsed and has `window` and `tabs`; it then replaces the document, activates the first tab and clears the selection; a rejected file leaves document, active tab and selection untouched |

## Left out

- Lua script generation (`generateLuaScript`, App.tsx:142): `services/luaGenerator` is not part of this model, so no escaping or emission rule is modelled.
- `uuidv4`: fresh ids are parameters. Whether they are unused is a hypothesis of the lemmas that need it, not a precondition of the actions.
- `JSON.stringify` / `JSON.parse`: a load receives the already-parsed value, with `None` standing for a parse error. Sections of the wrong JSON type, and a `window` section with missing fields, are not modelled: a present section is a well-formed `Window` or tab list.
- File and browser I/O: the script and project downloads (App.tsx:156-174), `FileReader`, the file input and its reset (App.tsx:180-188, 205-207), the clipboard and `alert`. The model keeps only the effect on the state.
- React rendering, the canvas and property panels, the modal flags and the generated-code buffer. Of the JSX only the two selection handlers (App.tsx:258-259) are modelled, as `Editor.SelectTab` and `Editor.SelectElement`.
- React's deferred state updates: every action is applied to the current state in order. `addTab` reading the tab count from its render-time closure (App.tsx:51) is therefore the same as reading it from the state it updates.
- Numbers are modelled as `real`. No arithmetic happens on them; floating-point artefacts, `NaN` and infinities are not modelled.
- LoadedDocument: keys the model does not know are dropped. The editor stores the whole parsed object (App.tsx:193), so an unknown top-level key survives every later update and is written back on save (App.tsx:168). The same holds for unknown keys inside the window, tab and widget objects, which the closed `Window` record and `Prop` type cannot hold.
- `Partial<...>` fields given explicitly as `undefined` (which a spread copies) are not modelled: a patch field is either given or absent.
