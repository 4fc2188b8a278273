/**
 * Conversions between tab shapes (src/mappers/tabs.ts): a browser snapshot
 * to a domain tab, and pinned to unpinned and back. All are total.
 */
module TabMappers {
  import opened Wrappers
  import opened TabModel

  /**
   * chromeTabToCustomTab: build a domain tab from a browser snapshot. The
   * previous domain tab, when there is one, supplies the identity, the
   * custom title and the pin state; `freshId` stands for the random UUID
   * drawn when there is no previous tab.
   */
  function ChromeTabToCustomTab(chromeTab: BrowserTab, previousTab: Option<Tab>, freshId: string): (r: Tab)
    // identity and user intent survive the update; a new tab gets the fresh id and no custom title
    ensures previousTab.Some? ==> r.common.id == previousTab.value.common.id
    ensures previousTab.Some? ==> r.common.customTitle == previousTab.value.common.customTitle
    ensures previousTab.None? ==> r.common.id == freshId && r.common.customTitle == None
    // every observed field comes from the browser snapshot, never from the previous tab
    ensures r.common.title == chromeTab.title && r.common.url == chromeTab.url
    ensures r.common.faviconUrl == chromeTab.favIconUrl && r.common.chromeId == chromeTab.id
    ensures r.common.originalTab == chromeTab
    // a pinned previous tab gives a pinned tab with the same pinned url, whatever the new url
    ensures r.IsPinned() <==> previousTab.Some? && previousTab.value.IsPinned()
    ensures r.IsPinned() ==> r.pinnedUrl == previousTab.value.pinnedUrl
  {
    var common := CommonTab(
      id := if previousTab.Some? then previousTab.value.common.id else freshId,
      title := chromeTab.title,
      customTitle := if previousTab.Some? then previousTab.value.common.customTitle else None,
      chromeId := chromeTab.id,
      url := chromeTab.url,
      faviconUrl := chromeTab.favIconUrl,
      originalTab := chromeTab);
    if previousTab.Some? && previousTab.value.Pinned? then
      Pinned(common, previousTab.value.pinnedUrl)
    else
      Unpinned(common)
  }

  /** unpinnedTabToPinnedTab: pin a tab, taking its current url as the pinned url. */
  function UnpinnedTabToPinnedTab(unpinnedTab: UnpinnedTab): (r: PinnedTab)
    ensures r.common == unpinnedTab.common
    ensures r.pinnedUrl == unpinnedTab.common.url
  {
    Pinned(unpinnedTab.common, unpinnedTab.common.url)
  }

  /** pinnedTabToUnpinnedTab: unpin a tab, keeping every common field. */
  function PinnedTabToUnpinnedTab(pinnedTab: PinnedTab): (r: UnpinnedTab)
    ensures r.common == pinnedTab.common && !r.IsPinned()
  {
    Unpinned(pinnedTab.common)
  }

  /** Mapping the same snapshot again over its own result changes nothing. */
  lemma RemapIsIdempotent(chromeTab: BrowserTab, previousTab: Option<Tab>, freshId: string, otherId: string)
    ensures var r := ChromeTabToCustomTab(chromeTab, previousTab, freshId);
            ChromeTabToCustomTab(chromeTab, Some(r), otherId) == r
  {
  }

  /** Pinning and then unpinning gives the original tab back. */
  lemma PinThenUnpin(t: UnpinnedTab)
    ensures PinnedTabToUnpinnedTab(UnpinnedTabToPinnedTab(t)) == t
  {
  }

  /**
   * Unpinning and then pinning keeps the common fields but re-takes the
   * pinned url from the current url: the tab comes back unchanged exactly
   * when it had not navigated away from its pinned url.
   */
  lemma UnpinThenPin(t: PinnedTab)
    ensures UnpinnedTabToPinnedTab(PinnedTabToUnpinnedTab(t)).common == t.common
    ensures UnpinnedTabToPinnedTab(PinnedTabToUnpinnedTab(t)) == t <==> t.pinnedUrl == t.common.url
  {
  }

  /** The previous tab's migration snapshot has no influence on the mapped tab. */
  lemma PreviousOriginalTabIsIgnored(chromeTab: BrowserTab, a: Tab, b: Tab, freshId: string)
    requires SameExceptOriginalTab(a, b)
    ensures ChromeTabToCustomTab(chromeTab, Some(a), freshId) == ChromeTabToCustomTab(chromeTab, Some(b), freshId)
  {
  }

  /** The pin conversions carry the migration snapshot along and read nothing from it. */
  lemma ConversionsIgnoreOriginalTab(a: Tab, b: Tab)
    requires SameExceptOriginalTab(a, b)
    ensures a.Unpinned? ==> SameExceptOriginalTab(UnpinnedTabToPinnedTab(a), UnpinnedTabToPinnedTab(b))
    ensures a.Pinned? ==> SameExceptOriginalTab(PinnedTabToUnpinnedTab(a), PinnedTabToUnpinnedTab(b))
  {
  }
}
