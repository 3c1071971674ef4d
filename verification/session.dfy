/** The editor session: the live document plus the active tab and the
    selected widget, changed by the editor's actions. Each action replaces
    the document by the matching transform of module Store and updates the
    session fields the way the editor's setters do. Fresh ids, which the
    editor draws from a UUID generator, are parameters here. */
module Session {
  import opened Wrappers
  import opened Types
  import opened Store

  /** The selected widget: the tab holding it and its own id. */
  datatype Selection = Selection(tabId: string, elId: string)

  class Editor {
    var doc: Document
    var activeTabId: Option<string>
    var selected: Option<Selection>

    /** A new session: default window, no tabs, nothing active or selected. */
    constructor ()
      ensures doc == InitialDocument && doc.tabs == [] && !doc.window.keySystem
      ensures activeTabId == None && selected == None
    {
      doc := InitialDocument;
      activeTabId := None;
      selected := None;
    }

    /** Appends a new tab, makes it active and clears the selection. */
    method AddTab(newId: string)
      modifies this
      ensures doc == Store.AddTab(old(doc), newId)
      ensures activeTabId == Some(newId) && selected == None
    {
      doc := Store.AddTab(doc, newId);
      activeTabId := Some(newId);
      selected := None;
    }

    /** Deletes the tabs with id `id`. The active tab is reset when it was
        `id` and kept otherwise; the selection is always cleared. */
    method DeleteTab(id: string)
      modifies this
      ensures doc == Store.DeleteTab(old(doc), id)
      ensures activeTabId == if old(activeTabId) == Some(id) then None else old(activeTabId)
      ensures selected == None
    {
      doc := Store.DeleteTab(doc, id);
      if activeTabId == Some(id) {
        activeTabId := None;
      }
      selected := None;
    }

    /** Adds a widget of kind `k` to the active tab: nothing happens without
        an active tab; otherwise the base object is built from the defaults,
        the overrides are spread over it and the result is appended. The
        active tab and the selection stay as they were. */
    method AddElement(k: ElementType, overrides: ElementPatch, newId: string)
      modifies this
      ensures doc == Store.AddElement(old(doc), old(activeTabId), k, overrides, newId)
      ensures activeTabId == old(activeTabId) && selected == old(selected)
    {
      if !Truthy(activeTabId) {
        return;
      }
      var base := BuildBase(k, newId);
      FromWidgetToWidget(base);
      var finalElement := Overlay(base, overrides);
      doc := AppendElement(doc, activeTabId.value, finalElement);
    }

    /** Adds a script from the script library as a Button named after it. */
    method AddScriptFromBlox(name: string, script: string, newId: string)
      modifies this
      ensures doc == Store.AddElement(old(doc), old(activeTabId), Button, BloxPatch(name, script), newId)
      ensures activeTabId == old(activeTabId) && selected == old(selected)
    {
      AddElement(Button, BloxPatch(name, script), newId);
    }

    /** Overlays a patch on a widget; the session fields are untouched. */
    method UpdateElement(tabId: string, elId: string, p: ElementPatch)
      modifies this
      ensures doc == Store.UpdateElement(old(doc), tabId, elId, p)
      ensures activeTabId == old(activeTabId) && selected == old(selected)
    {
      doc := Store.UpdateElement(doc, tabId, elId, p);
    }

    /** Deletes a widget and clears the selection. */
    method DeleteElement(tabId: string, elId: string)
      modifies this
      ensures doc == Store.DeleteElement(old(doc), tabId, elId)
      ensures activeTabId == old(activeTabId) && selected == None
    {
      doc := Store.DeleteElement(doc, tabId, elId);
      selected := None;
    }

    /** Overlays a patch on the window. */
    method UpdateWindow(p: WindowPatch)
      modifies this
      ensures doc == Store.UpdateWindow(old(doc), p)
      ensures activeTabId == old(activeTabId) && selected == old(selected)
    {
      doc := Store.UpdateWindow(doc, p);
    }

    /** Overlays a patch on the tabs with id `tabId`. The active tab id is
        not followed when the patch renames that tab. */
    method UpdateTab(tabId: string, p: TabPatch)
      modifies this
      ensures doc == Store.UpdateTab(old(doc), tabId, p)
      ensures activeTabId == old(activeTabId) && selected == old(selected)
    {
      doc := Store.UpdateTab(doc, tabId, p);
    }

    /** Selects a tab on the canvas: it becomes active and the selection is
        cleared. */
    method SelectTab(id: string)
      modifies this
      ensures doc == old(doc) && activeTabId == Some(id) && selected == None
    {
      activeTabId := Some(id);
      selected := None;
    }

    /** Selects a widget on the canvas; the active tab is not changed. */
    method SelectElement(tabId: string, elId: string)
      modifies this
      ensures doc == old(doc) && activeTabId == old(activeTabId)
      ensures selected == Some(Selection(tabId, elId))
    {
      selected := Some(Selection(tabId, elId));
    }

    /** Loads a project file (`None` when it did not parse). It is accepted
        exactly when it has both a `window` and a `tabs` section; then it
        replaces the document, its first tab becomes active and the selection
        is cleared. A rejected file leaves the whole session untouched. */
    method LoadProjectFile(parsed: Option<ImportedProject>) returns (accepted: bool)
      modifies this
      ensures accepted <==> parsed.Some? && parsed.value.window.Some? && parsed.value.tabs.Some?
      ensures accepted ==>
        doc == LoadedDocument(parsed).value && activeTabId == FirstTabId(doc.tabs) && selected == None
      ensures !accepted ==> doc == old(doc) && activeTabId == old(activeTabId) && selected == old(selected)
    {
      var loaded := LoadedDocument(parsed);
      if loaded.None? {
        return false;
      }
      doc := loaded.value;
      activeTabId := FirstTabId(doc.tabs);
      selected := None;
      return true;
    }
  }
}
