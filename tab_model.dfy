/**
 * The domain tab of the sidebar (src/models/tab.ts): a tagged union of a
 * pinned and an unpinned tab over the fields every tab has in common.
 */
module TabModel {
  import opened Wrappers

  /**
   * The browser's own tab snapshot (`chrome.tabs.Tab`), reduced to the
   * fields the core reads. Its `id` is the browser's numeric tab id.
   */
  datatype BrowserTab = BrowserTab(
    id: int,
    title: string,
    url: string,
    favIconUrl: Option<string>,
    active: bool)

  /**
   * Fields shared by both tab variants. `id` is the extension's own id,
   * `chromeId` the browser's; `customTitle` and `faviconUrl` are optional;
   * `originalTab` is the last browser snapshot, kept only for migration.
   */
  datatype CommonTab = CommonTab(
    id: string,
    title: string,
    customTitle: Option<string>,
    url: string,
    faviconUrl: Option<string>,
    chromeId: int,
    originalTab: BrowserTab)

  /**
   * A tab is pinned or unpinned; only the pinned variant carries
   * `pinnedUrl`, the url the tab had when it was pinned.
   */
  datatype Tab = Pinned(common: CommonTab, pinnedUrl: string) | Unpinned(common: CommonTab)
  {
    /** The `isPinned` discriminant. */
    predicate IsPinned() {
      Pinned?
    }
  }

  const BlankCommon := CommonTab("", "", None, "", None, 0, BrowserTab(0, "", "", None, false))

  type PinnedTab = t: Tab | t.Pinned? witness Pinned(BlankCommon, "")

  type UnpinnedTab = t: Tab | t.Unpinned? witness Unpinned(BlankCommon)

  /** `a` and `b` are the same tab except, perhaps, for the migration snapshot. */
  ghost predicate SameExceptOriginalTab(a: Tab, b: Tab) {
    a.(common := a.common.(originalTab := b.common.originalTab)) == b
  }
}
