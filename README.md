# Tab bookkeeping of a browser sidebar extension, in Dafny

This project models the tab bookkeeping of a browser side-panel extension
that mirrors the browser's tabs into its own list of tabs, which a user can
rename and pin. The model covers:

- the domain tab: a tagged union of a pinned tab, which carries the url it
  had when it was pinned, and an unpinned tab, over a common record. The
  record holds the extension's own id, the title, an optional custom title,
  the url, an optional favicon url, the browser's tab id and the raw browser
  snapshot, which is kept only for migration;
- the three pure mappers: a browser tab to a domain tab (keeping the identity
  and custom title of the previous tab), unpinned to pinned, and pinned to
  unpinned;
- the utilities: delete the first occurrence of an item from an array in
  place, run a callback on the first matching element, and swap all the
  properties of an object in place while keeping its identity;
- two draft versions of the tab store, each as a class whose methods are the
  browser event listeners:
  - `stores/counter.ts`, with one list of tabs;
  - `stores/tabs.ts`, with a pinned and an unpinned list, their
    concatenation `tabs`, and the pin toggle.

The JavaScript array built-ins these rely on (`findIndex`, `find`,
`indexOf`, `filter`, `splice(i, 1)`) are functions on sequences in
module `ArrayBuiltins`. The properties proved about them are what the store
contracts rest on.

Modules: `Wrappers` (Option), `TabModel`, `TabMappers`, `ArrayBuiltins`,
`Arrays`, `Objects`, `TabsStore`, `CounterStore`.

Modelling choices:

- `crypto.randomUUID()` becomes a `freshId` parameter. The gathered list of
  browser tabs is an input, and so is every event's payload.
- The tabs held by the two stores are values in `seq` fields. A listener that
  mutates a tab object in place replaces the element at that index instead.
  This is exact because no tab object is ever reachable twice from a store's
  lists: every push adds either a new object or one the same step has just
  filtered out.
- `stores/tabs.ts` declares its lists as `PinnedTab[]` and `UnpinnedTab[]`,
  but its own code pushes `{ id, originalTab }` objects and flips `isPinned`
  in place. The model keeps what the code builds:
  `StoredTab(id, originalTab, isPinned)`, where a missing flag, which is
  falsy in JavaScript, is `false`. `Valid()` is the partition invariant: the
  pinned list holds only flagged tabs and the unpinned list only unflagged
  ones. Every method preserves it.
- The two draft stores differ, and each model follows its own file:
  - on an `onActivated` miss, `stores/tabs.ts` clears the active id
    (src/stores/tabs.ts:139), while `stores/counter.ts` returns and leaves
    it unchanged (src/stores/counter.ts:79-81);
  - `changePinState` in `stores/tabs.ts` filters out *every* tab with the
    id, not only the one it moves, and flips the flag on the tab object
    itself (src/stores/tabs.ts:93-101). It does not convert the tab through
    the mappers, so no `pinnedUrl` is taken.
- `swapObjectProperties(o, o)` empties `o`, because the delete loop runs
  before the copy (src/utils/objects.ts:6-10); the model follows that.

## Model

| member | source | states |
|---|---|---|
| `TabMappers.ChromeTabToCustomTab` | src/mappers/tabs.ts:6-28 | with a previous tab the result keeps its id and custom title, otherwise it gets the fresh id and no custom title; title, url, favicon url, browser id and snapshot always come from the browser tab; the result is pinned exactly when the previous tab is, and then keeps its pinned url whatever the new url |
| `TabMappers.UnpinnedTabToPinnedTab` | src/mappers/tabs.ts:30-36 | the result is pinned, its common fields are unchanged, and its pinned url is the tab's current url |
| `TabMappers.PinnedTabToUnpinnedTab` | src/mappers/tabs.ts:38-43 | the result is unpinned and its common fields are unchanged |
| `TabMappers.RemapIsIdempotent` | src/mappers/tabs.ts:6-28 | mapping the same browser tab again, with the result as the previous tab, gives the same tab, whatever fresh id is offered |
| `TabMappers.PinThenUnpin` | src/mappers/tabs.ts:30-43 | pinning and then unpinning an unpinned tab gives back exactly that tab |
| `TabMappers.UnpinThenPin` | src/mappers/tabs.ts:30-43 | unpinning and re-pinning keeps the common fields; the tab comes back unchanged if and only if its pinned url equals its current url |
| `TabMappers.PreviousOriginalTabIsIgnored` | src/models/tab.ts:19-24 | two previous tabs that differ only in the migration snapshot map to the same tab |
| `TabMappers.ConversionsIgnoreOriginalTab` | src/models/tab.ts:19-24 | pin conversions of two tabs that differ only in the migration snapshot again differ only in it |
| `ArrayBuiltins.FindIndex` | src/stores/counter.ts:28 | the result is -1 exactly when no element matches, and otherwise the first matching index |
| `ArrayBuiltins.Find` | src/stores/tabs.ts:73 | absent exactly when no element matches, otherwise the element at the first matching index |
| `ArrayBuiltins.IndexOf` | src/utils/arrays.ts:2 | -1 exactly when the item is absent, otherwise an index holding it with no earlier occurrence |
| `ArrayBuiltins.Filter` | src/stores/tabs.ts:94 | every element of the result is an element of the input that passes the test; every passing input element appears in the result; the result never grows, and nothing changes when all elements pass (copies and order are stated by the next two lemmas) |
| `ArrayBuiltins.FilterCounts` | src/stores/tabs.ts:94 | filtering keeps every copy of a value that passes the test and no copy of one that fails |
| `ArrayBuiltins.FilterAppend` | src/stores/tabs.ts:94 | filtering keeps the order: the filter of a concatenation is the concatenation of the filters |
| `ArrayBuiltins.RemoveAt` | src/stores/counter.ts:68 | one element shorter; the elements before the index stay, the later ones shift down by one, and the multiset loses that one element |
| `ArrayBuiltins.FilterDropsOne` | src/stores/tabs.ts:94-97 | when only one element fails the test, filtering is splicing out that element |
| `ArrayBuiltins.FindIndexAppend` | src/stores/counter.ts:57-64 | after an append, the first match stays where it was, or is the new last element if only that one matches, or is still missing |
| `Arrays.DeleteFirst` | src/utils/arrays.ts:1-6 | an absent item leaves the sequence unchanged; otherwise exactly the element at the first index holding the item is removed, with later duplicates kept, and the multiset loses one copy of the item |
| `Arrays.DeleteFromArrayByReference` | src/utils/arrays.ts:1-6 | it returns the same array, changed in place to `DeleteFirst` of its old contents |
| `Arrays.WithElementAsWritten` | src/utils/arrays.ts:8-13 | as written, the callback runs at most once, only on the first matching element, and only when that element is truthy |
| `Arrays.WithElement` | src/utils/arrays.ts:8-13 | the callback runs at most once, on the first matching element, and runs whenever some element matches |
| `Arrays.WithElementAsync` | src/utils/arrays.ts:15-20 | same first-match, at-most-once call as `WithElement` |
| `Arrays.FalsyFirstMatchIsSkipped` | src/utils/arrays.ts:11 | for `[0]` and the test `x == 0`, the as-written helper never calls back, while the intended one calls back with 0 |
| `Arrays.AsWrittenAgreesOnTruthyElements` | src/utils/arrays.ts:10-11 | when every element is truthy, as every tab object is, the as-written and intended helpers agree |
| `Objects.SwapObjectProperties` | src/utils/objects.ts:5-13 | returns the same object; afterwards its properties are exactly the other object's, so no old key survives, and the other object is not modified; swapping an object with itself empties it |
| `Objects.SwapTwiceIsSwapOnce` | src/utils/objects.ts:5-13 | swapping in the same properties twice leaves what a single swap does: the other object's properties when the two objects differ, and an empty object for a self-swap |
| `TabsStore.UniqueIdFilteredOnce` | src/stores/tabs.ts:94-97 | with unique ids, filtering an id out of a list removes exactly the one tab with that id |
| `TabsStore.UnpinIsAMove` | src/stores/tabs.ts:93-95 | with unique ids, moving a pinned tab out of the pinned list and onto the end of the unpinned list keeps the number of tabs and the uniqueness of ids |
| `TabsStore.PinIsAMove` | src/stores/tabs.ts:96-98 | the mirror move of an unpinned tab keeps the number of tabs and the uniqueness of ids |
| `TabsStore.Store.Tabs` | src/stores/tabs.ts:70 | `tabs` is the pinned list followed by the unpinned list |
| `TabsStore.Store.constructor` | src/stores/tabs.ts:66-68 | both lists start empty, with no active tab, and the partition holds |
| `TabsStore.Store.MutateTabByOriginalId` | src/stores/tabs.ts:72-75 | only the first tab in `tabs` with the browser id is replaced by the callback's result; it stays in its list, and a miss changes nothing |
| `TabsStore.Store.ChangePinState` | src/stores/tabs.ts:89-102 | an unknown id changes nothing; a pinned tab is moved to the end of the unpinned list with its flag cleared, and every tab with that id leaves the pinned list; an unpinned tab makes the mirror move; the partition is kept, and with unique ids the number of tabs is unchanged and the ids stay unique |
| `TabsStore.Store.OnCreated` | src/stores/tabs.ts:113-118 | appends exactly one unflagged tab with the fresh id and the event's snapshot to the unpinned list; the pinned list is unchanged |
| `TabsStore.Store.OnRemoved` | src/stores/tabs.ts:120-129 | a miss changes nothing; otherwise every tab with the browser id leaves the list named by the found tab's flag and the other list is unchanged; with unique browser ids the tab is gone from both lists |
| `TabsStore.Store.OnUpdated` | src/stores/tabs.ts:131-135 | only the first tab with the browser id gets the new snapshot; a miss changes nothing |
| `TabsStore.Store.OnActivated` | src/stores/tabs.ts:137-141 | the active id becomes the id of the first tab with the browser id, and is cleared on a miss; the lists are unchanged |
| `TabsStore.Store.OnGathered` | src/stores/tabs.ts:105-111 | the unpinned list becomes the gathered tabs; the active id becomes the first active one's, or is kept if none is active |
| `CounterStore.GatherTabs` | src/stores/counter.ts:15-20 | one record per browser tab, in order, each with its own fresh id and no custom title |
| `CounterStore.CreatedTabFoundLastIffUnseen` | src/stores/counter.ts:56-69 | the lookup by browser id finds a freshly appended tab if and only if no earlier tab has that browser id |
| `CounterStore.RemovingCreatedTabRestores` | src/stores/counter.ts:56-69 | removing, by its browser id, a tab just created with a new browser id restores the previous list |
| `CounterStore.Store.constructor` | src/stores/counter.ts:24-25 | the list starts empty, with no active tab |
| `CounterStore.Store.MutateTabByOriginalId` | src/stores/counter.ts:27-33 | only the first tab with the browser id is replaced by the callback's result; a miss changes nothing |
| `CounterStore.Store.OnGathered` | src/stores/counter.ts:48-54 | the list becomes the gathered tabs; the active id becomes the first active one's, or is kept if none is active |
| `CounterStore.Store.OnCreated` | src/stores/counter.ts:56-61 | appends exactly one tab at the end, with the fresh id and the event's snapshot |
| `CounterStore.Store.OnRemoved` | src/stores/counter.ts:63-69 | splices out only the first tab with the browser id; a miss leaves the list unchanged |
| `CounterStore.Store.OnUpdated` | src/stores/counter.ts:71-75 | the first tab with the browser id gets the new snapshot; the length and every other tab are unchanged, and a miss changes nothing |
| `CounterStore.Store.OnActivated` | src/stores/counter.ts:77-83 | the active id becomes the id of the first tab with the browser id; a miss leaves it unchanged |

## Left out

- `activateTab`, `removeTab` and `newTab` in both stores (src/stores/tabs.ts:77-87, src/stores/counter.ts:35-45): each only forwards a request to the browser (`chrome.tabs.update/remove/create`) and changes no local state.
- `chrome.tabs.query` inside `gatherTabs`: the gathered tabs are an input. src/stores/tabs.ts:45-63 is left out as well. Its local `chromeTabToCustomTab` returns nothing, and its `gatherTabs` builds the same `{ id, originalTab }` records that `OnGathered` takes.
- The persistence of both lists through `useStorageAsync` and src/utils/storage.ts, and Vue/Pinia reactivity: these are a library and asynchronous storage. Both lists start empty, which is the default the store passes to the storage hook.
- public/sw.js, which opens the side panel: browser I/O only.
- The order and interleaving of asynchronous listeners: each listener is one atomic method.
- The awaiting in `withElementAsync`: it is modelled as a synchronous call.
- The callbacks of `withElement` and `withElementAsync` are not run. The model returns the element each would be called with, or nothing.
- `chrome.tabs.Tab` is reduced to `id`, `title`, `url`, `favIconUrl` and `active`. The mapper's `as number` and `as string` casts are taken at their word, so the browser tab's id, title and url are always present.
- `pinnedTabToUnpinnedTab` builds its result with an object spread. At run time the result therefore still has a `pinnedUrl` key, which its declared type `UnpinnedTab` does not have. The model follows the declared type, because no code reads that key.
- `indexOf` uses strict equality, under which `NaN` differs from itself. The model uses Dafny equality, which has no `NaN`.
- `swapObjectProperties` is modelled on own, enumerable, string-keyed properties. The inherited keys that `for..in` also visits, and the symbol keys that `Object.assign` also copies, are not modelled.

## Findings

| source | as written | input that shows it | evidently intended | confidence | as-written member | corrected member |
|---|---|---|---|---|---|---|
| src/utils/arrays.ts:11,18 | `if (elem) callback(elem)` tests the truthiness of the found element, so a matching element that is falsy never reaches the callback | `withElement(() => [0])((x) => x === 0, cb)`: `find` returns `0`, and `cb` is never called | call back whenever `find` located an element | medium (not executed; with the objects the stores hold, the two readings agree, see `Arrays.AsWrittenAgreesOnTruthyElements`) | `Arrays.WithElementAsWritten`, `Arrays.FalsyFirstMatchIsSkipped` | `Arrays.WithElement`, `Arrays.WithElementAsync` |
