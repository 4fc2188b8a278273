/**
 * The tab store of src/stores/tabs.ts: a pinned list and an unpinned list,
 * their concatenation `tabs`, the id of the active tab, and the browser
 * event listeners and pin toggle that update them. Each listener is one
 * atomic step; the browser calls and the persistence of the two lists are
 * not part of this model.
 */
module TabsStore {
  import opened Wrappers
  import opened TabModel
  import opened ArrayBuiltins

  /**
   * What this store actually keeps per tab: the object its code builds,
   * `{ id, originalTab }`, plus the `isPinned` flag that the pin toggle
   * flips. A tab that never had the flag set reads as false.
   */
  datatype StoredTab = StoredTab(id: string, originalTab: BrowserTab, isPinned: bool)

  function HasId(tabId: string): StoredTab -> bool {
    (t: StoredTab) => t.id == tabId
  }

  function LacksId(tabId: string): StoredTab -> bool {
    (t: StoredTab) => t.id != tabId
  }

  function HasChromeId(chromeId: int): StoredTab -> bool {
    (t: StoredTab) => t.originalTab.id == chromeId
  }

  function LacksChromeId(chromeId: int): StoredTab -> bool {
    (t: StoredTab) => t.originalTab.id != chromeId
  }

  function IsActive(t: StoredTab): bool {
    t.originalTab.active
  }

  ghost predicate UniqueIds(s: seq<StoredTab>) {
    forall i, j :: 0 <= i < j < |s| ==> s[i].id != s[j].id
  }

  ghost predicate UniqueChromeIds(s: seq<StoredTab>) {
    forall i, j :: 0 <= i < j < |s| ==> s[i].originalTab.id != s[j].originalTab.id
  }

  /** In a partitioned pair of lists, a tab's flag tells which half of `pinned + unpinned` it sits in. */
  lemma FlagNamesList(pinned: seq<StoredTab>, unpinned: seq<StoredTab>, k: int)
    requires forall t :: t in pinned ==> t.isPinned
    requires forall t :: t in unpinned ==> !t.isPinned
    requires 0 <= k < |pinned| + |unpinned|
    ensures (pinned + unpinned)[k].isPinned <==> k < |pinned|
  {
    if k < |pinned| {
      assert (pinned + unpinned)[k] == pinned[k];
    } else {
      assert (pinned + unpinned)[k] == unpinned[k - |pinned|];
    }
  }

  /** Both halves of a list with unique ids have unique ids. */
  lemma UniqueIdsSplit(pinned: seq<StoredTab>, unpinned: seq<StoredTab>)
    requires UniqueIds(pinned + unpinned)
    ensures UniqueIds(pinned) && UniqueIds(unpinned)
  {
    var all := pinned + unpinned;
    forall i, j | 0 <= i < j < |unpinned| ensures unpinned[i].id != unpinned[j].id {
      assert all[i + |pinned|] == unpinned[i] && all[j + |pinned|] == unpinned[j];
    }
    forall i, j | 0 <= i < j < |pinned| ensures pinned[i].id != pinned[j].id {
      assert all[i] == pinned[i] && all[j] == pinned[j];
    }
  }

  /** With unique ids, filtering an id out removes exactly the one tab holding it. */
  lemma UniqueIdFilteredOnce(s: seq<StoredTab>, tabId: string, k: int)
    requires UniqueIds(s) && 0 <= k < |s| && s[k].id == tabId
    ensures Filter(s, LacksId(tabId)) == RemoveAt(s, k)
  {
    forall j | 0 <= j < |s| && j != k ensures LacksId(tabId)(s[j]) {
      if j < k { assert s[j].id != s[k].id; } else { assert s[k].id != s[j].id; }
    }
    FilterDropsOne(s, LacksId(tabId), k);
  }

  /**
   * Ids stay unique when every position of `b` takes its tab's id from a
   * distinct position of `a`.
   */
  lemma UniqueUnderInjection(a: seq<StoredTab>, b: seq<StoredTab>, from: int -> int)
    requires UniqueIds(a)
    requires forall x :: 0 <= x < |b| ==> 0 <= from(x) < |a| && b[x].id == a[from(x)].id
    requires forall x, y :: 0 <= x < y < |b| ==> from(x) != from(y)
    ensures UniqueIds(b)
  {
    forall x, y | 0 <= x < y < |b| ensures b[x].id != b[y].id {
      if from(x) < from(y) {
        assert a[from(x)].id != a[from(y)].id;
      } else {
        assert a[from(y)].id != a[from(x)].id;
      }
    }
  }

  /** Moving a pinned tab to the end of the unpinned list keeps the ids unique. */
  lemma UnpinKeepsIdsUnique(pinned: seq<StoredTab>, unpinned: seq<StoredTab>, k: int, moved: StoredTab)
    requires UniqueIds(pinned + unpinned) && 0 <= k < |pinned| && moved.id == pinned[k].id
    ensures UniqueIds(RemoveAt(pinned, k) + (unpinned + [moved]))
  {
    var a, b := pinned + unpinned, RemoveAt(pinned, k) + (unpinned + [moved]);
    var from := (x: int) => if x < k then x else if x < |b| - 1 then x + 1 else k;
    forall x | 0 <= x < |b| ensures 0 <= from(x) < |a| && b[x].id == a[from(x)].id {
      if x < k {
        assert b[x] == pinned[x] && a[x] == pinned[x];
      } else if x < |pinned| - 1 {
        assert b[x] == pinned[x + 1] && a[x + 1] == pinned[x + 1];
      } else if x < |b| - 1 {
        assert b[x] == unpinned[x - |pinned| + 1] && a[x + 1] == unpinned[x - |pinned| + 1];
      } else {
        assert b[x] == moved && a[k] == pinned[k];
      }
    }
    UniqueUnderInjection(a, b, from);
  }

  /** Moving an unpinned tab to the end of the pinned list keeps the ids unique. */
  lemma PinKeepsIdsUnique(pinned: seq<StoredTab>, unpinned: seq<StoredTab>, i: int, moved: StoredTab)
    requires UniqueIds(pinned + unpinned) && 0 <= i < |unpinned| && moved.id == unpinned[i].id
    ensures UniqueIds((pinned + [moved]) + RemoveAt(unpinned, i))
  {
    var a, b := pinned + unpinned, (pinned + [moved]) + RemoveAt(unpinned, i);
    var n := |pinned|;
    var from := (x: int) => if x < n then x else if x == n then n + i else if x <= n + i then x - 1 else x;
    forall x | 0 <= x < |b| ensures 0 <= from(x) < |a| && b[x].id == a[from(x)].id {
      if x < n {
        assert b[x] == pinned[x] && a[x] == pinned[x];
      } else if x == n {
        assert b[x] == moved && a[n + i] == unpinned[i];
      } else if x <= n + i {
        assert b[x] == unpinned[x - n - 1] && a[x - 1] == unpinned[x - n - 1];
      } else {
        assert b[x] == unpinned[x - n] && a[x] == unpinned[x - n];
      }
    }
    UniqueUnderInjection(a, b, from);
  }

  /** The pin toggle of a pinned tab, on unique ids: a move that keeps the count and the uniqueness. */
  lemma UnpinIsAMove(pinned: seq<StoredTab>, unpinned: seq<StoredTab>, k: int, moved: StoredTab)
    requires UniqueIds(pinned + unpinned) && 0 <= k < |pinned| && moved.id == pinned[k].id
    ensures var after := Filter(pinned, LacksId(moved.id)) + (unpinned + [moved]);
            |after| == |pinned + unpinned| && UniqueIds(after)
  {
    UniqueIdsSplit(pinned, unpinned);
    UniqueIdFilteredOnce(pinned, moved.id, k);
    UnpinKeepsIdsUnique(pinned, unpinned, k, moved);
  }

  /** The pin toggle of an unpinned tab, on unique ids: a move that keeps the count and the uniqueness. */
  lemma PinIsAMove(pinned: seq<StoredTab>, unpinned: seq<StoredTab>, i: int, moved: StoredTab)
    requires UniqueIds(pinned + unpinned) && 0 <= i < |unpinned| && moved.id == unpinned[i].id
    ensures var after := (pinned + [moved]) + Filter(unpinned, LacksId(moved.id));
            |after| == |pinned + unpinned| && UniqueIds(after)
  {
    UniqueIdsSplit(pinned, unpinned);
    UniqueIdFilteredOnce(unpinned, moved.id, i);
    PinKeepsIdsUnique(pinned, unpinned, i, moved);
  }

  class Store {
    var pinnedTabs: seq<StoredTab>
    var unpinnedTabs: seq<StoredTab>
    var activeTabId: Option<string>

    /** Each list holds exactly the tabs whose flag names it. */
    ghost predicate Valid()
      reads this
    {
      && (forall t :: t in pinnedTabs ==> t.isPinned)
      && (forall t :: t in unpinnedTabs ==> !t.isPinned)
    }

    /** The `tabs` view: the pinned tabs followed by the unpinned ones. */
    function Tabs(): (r: seq<StoredTab>)
      reads this
      ensures |r| == |pinnedTabs| + |unpinnedTabs|
      ensures r[..|pinnedTabs|] == pinnedTabs && r[|pinnedTabs|..] == unpinnedTabs
    {
      pinnedTabs + unpinnedTabs
    }

    constructor ()
      ensures Valid()
      ensures pinnedTabs == [] && unpinnedTabs == [] && activeTabId == None
    {
      pinnedTabs, unpinnedTabs, activeTabId := [], [], None;
    }

    /**
     * Apply `update` to the first tab, in either list, whose browser id is
     * `originalTabId`; a miss changes nothing. The callback sees the tab as
     * a CommonTab, so it leaves the pin flag alone.
     */
    method MutateTabByOriginalId(originalTabId: int, update: StoredTab -> StoredTab)
      requires Valid()
      requires forall t :: update(t).isPinned == t.isPinned
      modifies this
      ensures Valid()
      ensures var k := FindIndex(old(Tabs()), HasChromeId(originalTabId));
              Tabs() == if k == -1 then old(Tabs()) else old(Tabs())[k := update(old(Tabs())[k])]
      ensures |pinnedTabs| == |old(pinnedTabs)| && activeTabId == old(activeTabId)
    {
      var k := FindIndex(Tabs(), HasChromeId(originalTabId));
      if k == -1 {
        return;
      }
      if k < |pinnedTabs| {
        pinnedTabs := pinnedTabs[k := update(pinnedTabs[k])];
      } else {
        var i := k - |pinnedTabs|;
        unpinnedTabs := unpinnedTabs[i := update(unpinnedTabs[i])];
      }
      assert Tabs() == old(Tabs())[k := update(old(Tabs())[k])];
    }

    /**
     * changePinState: move the first tab with this id to the end of the
     * other list and flip its flag. Every entry with the id leaves the
     * list it came from; an unknown id changes nothing; and when ids are
     * unique no tab is lost or duplicated and the ids stay unique.
     */
    method ChangePinState(tabId: string)
      requires Valid()
      modifies this
      ensures Valid()
      ensures activeTabId == old(activeTabId)
      ensures match Find(old(Tabs()), HasId(tabId))
              case None => pinnedTabs == old(pinnedTabs) && unpinnedTabs == old(unpinnedTabs)
              case Some(tab) =>
                if tab.isPinned then
                  && pinnedTabs == Filter(old(pinnedTabs), LacksId(tabId))
                  && unpinnedTabs == old(unpinnedTabs) + [tab.(isPinned := false)]
                else
                  && unpinnedTabs == Filter(old(unpinnedTabs), LacksId(tabId))
                  && pinnedTabs == old(pinnedTabs) + [tab.(isPinned := true)]
      ensures UniqueIds(old(Tabs())) ==> |Tabs()| == |old(Tabs())| && UniqueIds(Tabs())
    {
      var found := Find(Tabs(), HasId(tabId));
      if found.None? {
        return;
      }
      ghost var k := FindIndex(Tabs(), HasId(tabId));
      var tab := found.value;
      FlagNamesList(pinnedTabs, unpinnedTabs, k);
      // `tab.isPinned = !tab.isPinned` acts on the object just pushed: the
      // filter has taken every other reference to it out of the lists.
      if tab.isPinned {
        if UniqueIds(Tabs()) {
          UnpinIsAMove(pinnedTabs, unpinnedTabs, k, tab.(isPinned := false));
        }
        pinnedTabs := Filter(pinnedTabs, LacksId(tabId));
        unpinnedTabs := unpinnedTabs + [tab.(isPinned := false)];
      } else {
        if UniqueIds(Tabs()) {
          PinIsAMove(pinnedTabs, unpinnedTabs, k - |pinnedTabs|, tab.(isPinned := true));
        }
        unpinnedTabs := Filter(unpinnedTabs, LacksId(tabId));
        pinnedTabs := pinnedTabs + [tab.(isPinned := true)];
      }
    }

    /** onCreated: append one new tab, with the fresh id, to the unpinned list. */
    method OnCreated(tab: BrowserTab, freshId: string)
      requires Valid()
      modifies this
      ensures Valid()
      ensures unpinnedTabs == old(unpinnedTabs) + [StoredTab(freshId, tab, false)]
      ensures pinnedTabs == old(pinnedTabs) && activeTabId == old(activeTabId)
    {
      unpinnedTabs := unpinnedTabs + [StoredTab(freshId, tab, false)];
    }

    /**
     * onRemoved: find the first tab with this browser id and drop every tab
     * with that browser id from the list its flag names; the other list is
     * untouched and a miss changes nothing. With unique browser ids the
     * removed tab is then gone from both lists.
     */
    method OnRemoved(tabId: int)
      requires Valid()
      modifies this
      ensures Valid()
      ensures activeTabId == old(activeTabId)
      ensures match Find(old(Tabs()), HasChromeId(tabId))
              case None => pinnedTabs == old(pinnedTabs) && unpinnedTabs == old(unpinnedTabs)
              case Some(tab) =>
                if tab.isPinned then
                  pinnedTabs == Filter(old(pinnedTabs), LacksChromeId(tabId)) && unpinnedTabs == old(unpinnedTabs)
                else
                  unpinnedTabs == Filter(old(unpinnedTabs), LacksChromeId(tabId)) && pinnedTabs == old(pinnedTabs)
      ensures UniqueChromeIds(old(Tabs())) ==> forall t :: t in Tabs() ==> t.originalTab.id != tabId
    {
      var found := Find(Tabs(), HasChromeId(tabId));
      if found.None? {
        return;
      }
      ghost var k := FindIndex(Tabs(), HasChromeId(tabId));
      ghost var all := Tabs();
      FlagNamesList(pinnedTabs, unpinnedTabs, k);
      if found.value.isPinned {
        if UniqueChromeIds(all) {
          forall j | 0 <= j < |unpinnedTabs| ensures unpinnedTabs[j].originalTab.id != tabId {
            assert all[j + |pinnedTabs|] == unpinnedTabs[j];
          }
        }
        pinnedTabs := Filter(pinnedTabs, LacksChromeId(tabId));
      } else {
        if UniqueChromeIds(all) {
          forall j | 0 <= j < |pinnedTabs| ensures pinnedTabs[j].originalTab.id != tabId {
            assert all[j] == pinnedTabs[j];
          }
        }
        unpinnedTabs := Filter(unpinnedTabs, LacksChromeId(tabId));
      }
    }

    /** onUpdated: replace the browser snapshot of the first tab with this browser id. */
    method OnUpdated(tabId: int, originalTab: BrowserTab)
      requires Valid()
      modifies this
      ensures Valid()
      ensures var k := FindIndex(old(Tabs()), HasChromeId(tabId));
              Tabs() == if k == -1 then old(Tabs()) else old(Tabs())[k := old(Tabs())[k].(originalTab := originalTab)]
      ensures |pinnedTabs| == |old(pinnedTabs)| && activeTabId == old(activeTabId)
    {
      MutateTabByOriginalId(tabId, (t: StoredTab) => t.(originalTab := originalTab));
    }

    /** onActivated: the active id becomes that of the first tab with this browser id, or is cleared on a miss. */
    method OnActivated(tabId: int)
      requires Valid()
      modifies this
      ensures Valid()
      ensures pinnedTabs == old(pinnedTabs) && unpinnedTabs == old(unpinnedTabs)
      ensures activeTabId == match Find(old(Tabs()), HasChromeId(tabId))
                             case None => None
                             case Some(tab) => Some(tab.id)
    {
      var tab := Find(Tabs(), HasChromeId(tabId));
      if tab.None? {
        activeTabId := None;
        return;
      }
      activeTabId := Some(tab.value.id);
    }

    /**
     * The body run when the gathered browser tabs arrive: they replace the
     * unpinned list, and the first active one, if any, becomes the active tab.
     */
    method OnGathered(newTabs: seq<StoredTab>)
      requires Valid()
      requires forall t :: t in newTabs ==> !t.isPinned
      modifies this
      ensures Valid()
      ensures unpinnedTabs == newTabs && pinnedTabs == old(pinnedTabs)
      ensures activeTabId == match Find(newTabs, IsActive)
                             case None => old(activeTabId)
                             case Some(tab) => Some(tab.id)
    {
      unpinnedTabs := newTabs;
      var activeTab := Find(unpinnedTabs, IsActive);
      if activeTab.Some? {
        activeTabId := Some(activeTab.value.id);
      }
    }
  }
}
