/**
 * The earlier tab store of src/stores/counter.ts: one list of tabs and the
 * id of the active tab, filled from the gathered browser tabs and kept in
 * step by the browser's tab events. Each listener is one atomic step.
 */
module CounterStore {
  import opened Wrappers
  import opened TabModel
  import opened ArrayBuiltins

  /** This store's tab record: its own id, an optional custom title and the browser snapshot. */
  datatype CounterTab = CounterTab(id: string, customTitle: Option<string>, originalTab: BrowserTab)

  function HasChromeId(chromeId: int): CounterTab -> bool {
    (t: CounterTab) => t.originalTab.id == chromeId
  }

  function IsActive(t: CounterTab): bool {
    t.originalTab.active
  }

  /**
   * The mapping step of gatherTabs: one record per browser tab, in order,
   * each with its own fresh id (one UUID per tab) and no custom title.
   */
  function GatherTabs(snapshot: seq<BrowserTab>, freshIds: seq<string>): (r: seq<CounterTab>)
    requires |freshIds| == |snapshot|
    ensures |r| == |snapshot|
    ensures forall i :: 0 <= i < |r| ==> r[i].originalTab == snapshot[i] && r[i].id == freshIds[i]
    ensures forall i :: 0 <= i < |r| ==> r[i].customTitle == None
  {
    seq(|snapshot|, i requires 0 <= i < |snapshot| => CounterTab(freshIds[i], None, snapshot[i]))
  }

  /**
   * A tab appended by onCreated is the one a later onRemoved or onUpdated
   * for its browser id finds exactly when no earlier tab has that browser id.
   */
  lemma CreatedTabFoundLastIffUnseen(tabs: seq<CounterTab>, created: CounterTab)
    ensures FindIndex(tabs + [created], HasChromeId(created.originalTab.id)) == |tabs|
            <==> NoMatch(tabs, HasChromeId(created.originalTab.id))
  {
    FindIndexAppend(tabs, created, HasChromeId(created.originalTab.id));
  }

  /** Removing the tab just created, when its browser id was new, restores the list. */
  lemma RemovingCreatedTabRestores(tabs: seq<CounterTab>, created: CounterTab)
    requires NoMatch(tabs, HasChromeId(created.originalTab.id))
    ensures var k := FindIndex(tabs + [created], HasChromeId(created.originalTab.id));
            k != -1 && RemoveAt(tabs + [created], k) == tabs
  {
    CreatedTabFoundLastIffUnseen(tabs, created);
    assert RemoveAt(tabs + [created], |tabs|) == tabs;
  }

  class Store {
    var tabs: seq<CounterTab>
    var activeTabId: Option<string>

    constructor ()
      ensures tabs == [] && activeTabId == None
    {
      tabs, activeTabId := [], None;
    }

    /** Apply `update` to the first tab with this browser id; a miss changes nothing. */
    method MutateTabByOriginalId(originalTabId: int, update: CounterTab -> CounterTab)
      modifies this
      ensures var k := FindIndex(old(tabs), HasChromeId(originalTabId));
              tabs == if k == -1 then old(tabs) else old(tabs)[k := update(old(tabs)[k])]
      ensures activeTabId == old(activeTabId)
    {
      var tabIndex := FindIndex(tabs, HasChromeId(originalTabId));
      if tabIndex == -1 {
        return;
      }
      tabs := tabs[tabIndex := update(tabs[tabIndex])];
    }

    /**
     * The body run when the gathered tabs arrive: they become the list, and
     * the first active one, if any, becomes the active tab.
     */
    method OnGathered(newTabs: seq<CounterTab>)
      modifies this
      ensures tabs == newTabs
      ensures activeTabId == match Find(newTabs, IsActive)
                             case None => old(activeTabId)
                             case Some(tab) => Some(tab.id)
    {
      tabs := newTabs;
      var activeTab := Find(tabs, IsActive);
      if activeTab.Some? {
        activeTabId := Some(activeTab.value.id);
      }
    }

    /** onCreated: append exactly one tab, with the fresh id and the event's snapshot. */
    method OnCreated(tab: BrowserTab, freshId: string)
      modifies this
      ensures tabs == old(tabs) + [CounterTab(freshId, None, tab)]
      ensures activeTabId == old(activeTabId)
    {
      tabs := tabs + [CounterTab(freshId, None, tab)];
    }

    /** onRemoved: splice out the first tab with this browser id only; a miss changes nothing. */
    method OnRemoved(tabId: int)
      modifies this
      ensures var k := FindIndex(old(tabs), HasChromeId(tabId));
              tabs == if k == -1 then old(tabs) else RemoveAt(old(tabs), k)
      ensures activeTabId == old(activeTabId)
    {
      var tabIndex := FindIndex(tabs, HasChromeId(tabId));
      if tabIndex == -1 {
        return;
      }
      tabs := RemoveAt(tabs, tabIndex);
    }

    /**
     * onUpdated: the first tab with this browser id gets the new snapshot;
     * the length and every other tab stay as they were, and a miss changes
     * nothing.
     */
    method OnUpdated(tabId: int, originalTab: BrowserTab)
      modifies this
      ensures |tabs| == |old(tabs)| && activeTabId == old(activeTabId)
      ensures var k := FindIndex(old(tabs), HasChromeId(tabId));
              && (k != -1 ==> tabs[k] == old(tabs)[k].(originalTab := originalTab))
              && (forall i :: 0 <= i < |tabs| && i != k ==> tabs[i] == old(tabs)[i])
    {
      MutateTabByOriginalId(tabId, (t: CounterTab) => t.(originalTab := originalTab));
    }

    /** onActivated: the active id becomes that of the first tab with this browser id; a miss leaves it. */
    method OnActivated(tabId: int)
      modifies this
      ensures tabs == old(tabs)
      ensures activeTabId == match Find(old(tabs), HasChromeId(tabId))
                             case None => old(activeTabId)
                             case Some(tab) => Some(tab.id)
    {
      var tab := Find(tabs, HasChromeId(tabId));
      if tab.None? {
        return;
      }
      activeTabId := Some(tab.value.id);
    }
  }
}
