# Porta client navigation engine in Dafny

This project models the client side of Porta (`scripts/porta-jymin.js`). That script turns same-domain link clicks and form submissions into JSON requests and renders each response with a named view. Around that it keeps several pieces of state:

- a request cache that coalesces concurrent loads and prefetches on hover;
- responses persisted to local storage with a TTL;
- a guard that drops responses for a destination the user has already left;
- a dot-path state store whose writes schedule a debounced re-render.

Everything is pure functions over immutable datatypes:

- `Values` holds JavaScript values as the engine sees them: truthiness, `===`, property reads, writes and deletes, and `x || {}`.
- `Urls` holds the URL string helpers and the `.json` wire marker.
- `Engine` holds the `Porta` globals as a `Context` record and the outside world as an `Env` record. The outside world is the base URL, `location`, `window._href`, the clock, the two URL exclusions and the views' code.
- `StateStore` holds `get` and `set` over nested objects.
- `Render` holds view resolution and `renderResponse`, plus `render`, `get` and `set` at the context level.
- `Dispatcher` holds `getJson`, `load`, `prefetch`, the network reply and the eviction timer as explicit events.
- `Interceptor` holds the browser events: registration, clicks, hover, inputs, form submission and the back button.

A cache slot is the tagged value `Absent | Pending(queue) | Resolved(payload)`. This replaces the script's test of "nothing / array / object". Dispatcher operations return the new context and a log of effects in order:

- `Fetch(url, jsonUrl, body)` is a request sent.
- `Called(handler, payload, url, result)` is a queued callback run, with what it painted or the eviction delay it armed.

Other inputs are handled as follows:

- The network reply is the event `Dispatcher.OnComplete`.
- The prefetch timer is `Dispatcher.EvictionFired`.
- The render debounce timer is `Render.RenderTimerFired`.
- Local storage is a map in the context.
- The clock, `location` and the views' code are parameters. A view is a registered name, and `Env.runView` gives the HTML it renders for a state.

## Model

| member | source | states |
|---|---|---|
| Urls.Before | scripts/porta-jymin.js:189-195 | `split(c)[0]` is a prefix of the input that contains no `c` and ends at the first `c` or at the end |
| Urls.BeforeUnique | scripts/porta-jymin.js:189-195 | that prefix is unique: any `c`-free prefix ending at a `c` or at the end is the result |
| Urls.IsSameDomain | scripts/porta-jymin.js:185-187 | a URL is same-domain iff it is the base followed by some rest |
| Urls.RemoveHash | scripts/porta-jymin.js:189-191 | the URL up to its first `#`, holding no `#` |
| Urls.RemoveQuery | scripts/porta-jymin.js:193-195 | the URL up to its first `?`, holding no `?` |
| Urls.AppendData | scripts/porta-jymin.js:201-203 | `url + "&" + data` when the URL has a `?`, `url + "?" + data` otherwise |
| Urls.AppendDataKeepsPath | scripts/porta-jymin.js:201-203 | appending data never changes the part before the query, and the result always has a query |
| Urls.AppendDataSameDomain | scripts/porta-jymin.js:185-203 | appending data keeps a URL under the application base |
| Urls.RemoveExtension | scripts/porta-jymin.js:205-207 | stripping only deletes: the result is never longer, and when no character was deleted it is the URL itself |
| Urls.RemoveExtensionShortens | scripts/porta-jymin.js:205-207 | the URL gets shorter exactly when some `.json` occurs in it |
| Urls.RemoveExtensionOfPlain | scripts/porta-jymin.js:205-207 | a URL with no `.json` comes back unchanged |
| Urls.RemoveExtensionSplice | scripts/porta-jymin.js:205-207 | one `.json` after a marker-free prefix is deleted and nothing before it moves |
| Urls.AppendExtension | scripts/porta-jymin.js:197-199 | the stripped URL with one `.json` inserted before its first `?`, or at its end: the query-free part, the marker, then the query unchanged |
| Urls.AppendExtensionShape | scripts/porta-jymin.js:197-199 | the marker lands right after the query-free part of the stripped URL, and the query follows unchanged |
| Urls.AppendExtensionRoundTrip | scripts/porta-jymin.js:197-207 | stripping the marker undoes adding it whenever the stripped URL has no spliced `.json` |
| Urls.AppendExtensionIdempotent | scripts/porta-jymin.js:197-199 | under the same condition, adding the marker twice equals adding it once |
| Urls.AppendExtensionSpliceCounterexample | scripts/porta-jymin.js:197-207 | the condition is needed: `.js.jsonon` strips to `.json`, and its marked form strips to the empty string |
| Urls.GetHref | scripts/porta-jymin.js:213-217 | the hash-free link, with a leading `file://` replaced by the external base |
| Urls.GetHrefHasNoHash | scripts/porta-jymin.js:213-217 | a resolved link carries no fragment unless the external base does |
| Engine.Initial | scripts/porta-jymin.js:162-183 | the script starts with an empty cache, no destination and only the two escaping views |
| StateStore.JoinSplit | scripts/porta-jymin.js:486 | splitting a path at dots loses nothing: joining the keys gives the path back |
| StateStore.SplitJoin | scripts/porta-jymin.js:505 | dot-free keys joined and split again are the same keys |
| StateStore.Get | scripts/porta-jymin.js:484-493 | `get` returns the value at the dotted path, or `{}` when that is falsy; both the state and the value are truthy |
| StateStore.GetIn | scripts/porta-jymin.js:488-491 | a walk of at least one key yields a truthy value; an object scope stays an object, and a primitive scope swallows the writes |
| StateStore.GetInResult | scripts/porta-jymin.js:484-493 | `get` returns the value at the path, or `{}` when it is falsy, and is never falsy |
| StateStore.GetInStores | scripts/porta-jymin.js:488-491 | on an object path, the value returned is the one now stored at the path |
| StateStore.GetInKeepsOthers | scripts/porta-jymin.js:488-491 | a `get` changes nothing at any path that parts ways with the one read |
| StateStore.GetInIdempotent | scripts/porta-jymin.js:484-493 | reading a path twice leaves the same state and value as reading it once |
| StateStore.Set | scripts/porta-jymin.js:501-502 | an empty path changes nothing and schedules nothing |
| StateStore.SetIn | scripts/porta-jymin.js:501-521 | an object scope stays an object, a primitive scope swallows the write, and every top-level key but the first on the path is untouched |
| StateStore.SetInSchedulesIffDifferent | scripts/porta-jymin.js:512-519 | a render is scheduled exactly when the old value is not `===` the new one |
| StateStore.SetInStores | scripts/porta-jymin.js:511-517 | afterwards the path holds the value, or nothing when `null` deleted it |
| StateStore.SetInKeepsOthers | scripts/porta-jymin.js:507-517 | sibling paths are untouched |
| StateStore.SetInMaterializes | scripts/porta-jymin.js:505-510 | every scope on the way to the last key is an object afterwards |
| StateStore.SetInUnchanged | scripts/porta-jymin.js:512 | writing the value already held changes nothing and schedules nothing |
| StateStore.SetInTwice | scripts/porta-jymin.js:512-519 | setting the same primitive twice schedules at most one render |
| StateStore.SetNullOnAbsentSchedules | scripts/porta-jymin.js:512-518 | `null` written where nothing is stored still schedules a render, because `undefined !== null` |
| StateStore.SetThenGetExample | scripts/porta-jymin.js:484-521 | `set("a.b.c", 5)` then `get("a.b")` yields an object whose `c` is 5 |
| Render.StripOrigin | scripts/porta-jymin.js:386-387 | removing scheme and host leaves a suffix of the URL |
| Render.StripOriginOfAbsolute | scripts/porta-jymin.js:386-387 | for `scheme//host/path` the strip leaves exactly `path` |
| Render.ResolveView | scripts/porta-jymin.js:369-404 | a given name, then `state.view`, wins; a view is found iff the name is registered; a response is offline iff neither name is given |
| Render.ResolveViewInfers | scripts/porta-jymin.js:384-403 | without a name, the first registered of path, `path/index` and the last view or `error0` is chosen; when none is registered the last one is kept, with no view |
| Render.CandidatesOfAbsolute | scripts/porta-jymin.js:384-395 | for `scheme//host/path?query` the candidates are `path`, then `path/index`, then the fallback |
| Render.HistoryFor | scripts/porta-jymin.js:463-465 | history is replaced iff the query-free URL is the current page's; otherwise it is pushed, always with the response URL |
| Render.RenderResponse | scripts/porta-jymin.js:368-476 | the stale guard: a response is dropped, leaving the context as it was, iff its stripped URL is not the destination; the destination, views and storage never change |
| Render.RenderResponsePrecedence | scripts/porta-jymin.js:422-445 | after the guard, HTML text is painted as is, then the found view's non-empty HTML; an empty view result paints nothing; no view navigates to the response URL |
| Render.RenderResponseRemembers | scripts/porta-jymin.js:376-413 | a rendering that passes the guard records view name, view and URL, and marks `_offline` exactly for an inferred view |
| Render.RenderResponsePublishes | scripts/porta-jymin.js:449-471 | a paint chooses history, deletes the request's cache slot and clears `_target`; anything else leaves the cache alone |
| Render.Render | scripts/porta-jymin.js:529-537 | re-rendering makes the current location the destination, and is stale iff the state's URL leads elsewhere |
| Render.SetPath | scripts/porta-jymin.js:501-521 | the debounced render is armed iff it already was or the old value at the path is not `===` the new one; on a walkable path the path then holds the value, or nothing when `null` deleted it |
| Render.GetPath | scripts/porta-jymin.js:484-493 | the value returned is the one at the path, or `{}` |
| Render.RenderTimerFired | scripts/porta-jymin.js:518 | the debounce timer disarms and re-renders at the current location |
| Dispatcher.GetLocalTtl | scripts/porta-jymin.js:209-211 | the storage TTL is the response's own, then the global one, then -1, and is never 0 |
| Dispatcher.Servable | scripts/porta-jymin.js:354-358 | only an object carrying a `cacheTime` field can be served from storage |
| Dispatcher.ServableIffFresh | scripts/porta-jymin.js:354-358 | the eternal branch never fires: a stored copy is served exactly when its numeric `cacheTime` plus its TTL reaches the clock |
| Dispatcher.Stamp | scripts/porta-jymin.js:340 | an object response gets `cacheTime` = now with every other field kept; a string response ignores the write |
| Dispatcher.StampedIsNotStorable | scripts/porta-jymin.js:339-341 | once stamped at a non-zero time, a response is never stored again |
| Dispatcher.Storable | scripts/porta-jymin.js:338-339 | a stored response has a positive TTL and no `cacheTime` stamp other than 0 |
| Dispatcher.StoredEntry | scripts/porta-jymin.js:352-353 | the stored copy is used only when present and truthy |
| Dispatcher.EvictionDelay | scripts/porta-jymin.js:236 | a prefetched response stays for its non-zero `ttl`, else 10000 ms |
| Dispatcher.RunHandler | scripts/porta-jymin.js:227-246 | a prefetch callback caches the response and arms eviction; a load callback renders, emptying the slot only when it paints; no other slot changes |
| Dispatcher.Drain | scripts/porta-jymin.js:333-335 | every queued callback runs exactly once, in queue order, with the response and URL; storage and destination stay |
| Dispatcher.Deliver | scripts/porta-jymin.js:333-342 | once the slot holds the response, the queue runs in order and the stamped response is stored iff its TTL is above -1 and it has no `cacheTime`; other slots are untouched |
| Dispatcher.OnComplete | scripts/porta-jymin.js:327-343 | the reply overwrites the slot and delivers the queue it held; a slot holding a response with fields makes the walk throw, so nothing runs and storage is untouched |
| Dispatcher.CompleteOne | scripts/porta-jymin.js:327-335 | the reply to a one-callback queue is that callback's run, and keeps the slot the callback left, stamped or not |
| Dispatcher.GetJson | scripts/porta-jymin.js:318-365 | one request to the marked URL unless excluded; with no servable stored copy, nothing else happens; the destination is restored |
| Dispatcher.GetJsonServesStored | scripts/porta-jymin.js:351-363 | a servable stored copy runs the waiting callbacks at once and empties the queue |
| Dispatcher.Load | scripts/porta-jymin.js:254-313 | the destination is always the stripped URL; a queue gets the callback appended with no request; a cached response is rendered at once; otherwise a request is sent |
| Dispatcher.LoadStartsRequest | scripts/porta-jymin.js:291-297 | on an empty slot with no servable stored copy, load creates a one-callback queue and sends exactly one request |
| Dispatcher.Prefetch | scripts/porta-jymin.js:219-249 | an occupied slot is left alone; otherwise a one-callback queue is made and the marked URL is requested |
| Dispatcher.EvictionFired | scripts/porta-jymin.js:237-245 | eviction deletes the slot unless it has become a queue again |
| Dispatcher.PrefetchLifecycle | scripts/porta-jymin.js:219-249 | with no servable stored copy, one prefetch means one request; the reply fills the slot and arms eviction after the TTL; then eviction empties the slot |
| Dispatcher.PrefetchServedReplyNotStored | scripts/porta-jymin.js:327-341 | a prefetch served from storage leaves the copy in the slot; the network reply then overwrites the slot, runs nothing and leaves storage as it was |
| Dispatcher.LoadAllCoalesces | scripts/porta-jymin.js:288-304 | any number of loads of a URL with an empty slot and no servable stored copy send exactly one request, and queue their callbacks in arrival order |
| Dispatcher.CoalescedReplyRunsAll | scripts/porta-jymin.js:327-335 | under the same condition, the one reply runs every coalesced load's callback exactly once, in load order |
| Dispatcher.ServedLoadsFetchAgain | scripts/porta-jymin.js:289-362 | with a servable stored copy, the first load is rendered from storage at once; when that rendering paints, the second load of the URL sends a second request |
| Interceptor.Pairs | scripts/porta-jymin.js:117-131 | an ignored control contributes nothing; a string gives one escaped pair; a list gives one pair per item |
| Interceptor.PushField | scripts/porta-jymin.js:123-131 | the pushing loop appends exactly the control's pairs |
| Interceptor.CollectFormData | scripts/porta-jymin.js:115-133 | the gathering loop computes the reference serialisation of all controls in order |
| Interceptor.SerializeAppend | scripts/porta-jymin.js:115-133 | serialising concatenated controls concatenates their data in order |
| Interceptor.SerializeOnlyKept | scripts/porta-jymin.js:117-123 | every pair comes from a named control that is not an empty radio or an unclicked submit button |
| Interceptor.SerializeExample | scripts/porta-jymin.js:115-133 | an empty radio is dropped and `q="a b"` gives one escaped pair |
| Interceptor.GetFormUrlAsWrittenDropsAddress | scripts/porta-jymin.js:138 | as written, the GET request URL does not depend on the form's address, and its query-free part is the joined data |
| Interceptor.GetFormUrlAsWritten | scripts/porta-jymin.js:138 | as written, the GET request URL is the joined data followed by `?undefined` (or `&undefined`) |
| Interceptor.GetFormUrlAsWrittenExample | scripts/porta-jymin.js:134-138 | as written, a form at `http://h/s` with `q=x` requests `q=x?undefined`, outside the base |
| Interceptor.GetFormUrlKeepsPage | scripts/porta-jymin.js:134-138 | corrected, a GET request keeps the form's address before the query and stays under the base |
| Interceptor.Submit | scripts/porta-jymin.js:102-145 | only same-domain, non-multipart forms are intercepted; an invalid form stops; GET (with line 138 corrected) keeps the page address with no body; other methods add the marker and send the joined data as the body |
| Interceptor.FormSubmitted | scripts/porta-jymin.js:147-148 | a sent submission loads its URL, which becomes the destination; otherwise nothing changes |
| Interceptor.LinkClicked | scripts/porta-jymin.js:48-75 | a left click on `#anchor` scrolls and replaces history; a same-domain left click loads; a non-left click on a link with no URL is blocked |
| Interceptor.LinkLoadHasNoHash | scripts/porta-jymin.js:48-70 | a link load never sends a fragment |
| Interceptor.LinkHovered | scripts/porta-jymin.js:79-87 | hovering prefetches exactly the same-domain links to another page that are not marked `_noPrefetch` |
| Interceptor.InputChanged | scripts/porta-jymin.js:90-92 | a named control's value is stored at its dotted name (deleted for `null`) on a walkable path, and a render is scheduled iff the old value differs |
| Interceptor.ButtonClicked | scripts/porta-jymin.js:95-99 | only submit buttons record their value |
| Interceptor.HistoryPopped | scripts/porta-jymin.js:153-158 | the back button always loads the address current at the pop |
| Interceptor.Listen | scripts/porta-jymin.js:38-46 | listening is switched on once and stays on |
| Interceptor.Register | scripts/porta-jymin.js:18-33 | listening starts iff it already had or the last entry was a view and history is available |
| Interceptor.AddEntries | scripts/porta-jymin.js:22-26 | registration keeps every existing view, a last view entry is registered, entries that are all views leave the state alone, and the cache, destination and listening flag do not change |
| Interceptor.AddEntriesViews | scripts/porta-jymin.js:22-26 | a name is a view afterwards iff it was one or some entry gave it a view function |
| Interceptor.AddEntriesLastWins | scripts/porta-jymin.js:22-26 | a state entry lands in the state, and the last entry for a name wins |

## Where the code is followed over its documentation

- History gets the response URL as is. The code does not strip a cache-busting query token before `historyPush`/`historyReplace` (lines 463-465).
- The `$` and `&` views are ordinary entries of `Porta.views`, and `Porta(...)` can overwrite them (lines 22-26). `Interceptor.AddEntries` treats them like any other name.
- When local storage answers first, its completion drains the queue. If the rendering painted, the slot is empty again, and the later network reply re-caches and re-stores the response but does not render again (lines 327-343, 360).
- If instead the slot still holds the stored copy (a prefetch, or a load whose rendering did not paint), the network reply's `Jymin.each` walks the copy's fields, as line 22 relies on for objects. It calls the first one as a callback, a TypeError after the slot write of line 329 and before the store of line 341 (`Dispatcher.PrefetchServedReplyNotStored`).
- Loads do not always coalesce into one request. With a servable stored copy, the first load is rendered at once. If that rendering paints, line 468 deletes the slot, so the next load of the same URL sends another request (`Dispatcher.ServedLoadsFetchAgain`).
- A load that finds a cached response renders it at once. If that rendering paints, `renderResponse` deletes the request's slot (line 468), so the cached response is used once rather than left in place (`Dispatcher.Load`).
- The back-button handler compares the `location` object with the destination string with `!==`. They are never identical, so every pop calls `Porta.load(location)` (lines 154-156). The model passes the address as it is at the pop; see `Interceptor.HistoryPopped` under "## Left out".
- Two identical writes do not always schedule at most one render. A `null` write deletes the key, and a second `null` write finds `undefined`, which is not `===` to `null`, so it schedules again (lines 512-518, `StateStore.SetNullOnAbsentSchedules`).
- `getLocalTtl` never returns 0, so the `isEternal` branch (line 356) is dead code (`Dispatcher.ServableIffFresh`).
- `Porta.update` is not defined in this client file and is not modelled.

## Left out

- DOM effects are not modelled beyond the outcomes recorded in `Paint` and `Click`: spinner and `_portaTarget` classes, `pushHtml`, `scrollToAnchor`, `document.title`, `window.location`, the `render` event and `stopEvent`/`preventDefault`. They are browser side effects.
- Network, timers and storage are events and maps. The request itself, `setTimeout`, `Jymin.setTimer`, `Jymin.store`/`fetch` and their serialisation are outside the model.
- Object identity and aliasing are not modelled. Two objects are never `===` here, and a payload is a value, so writes through one reference are not seen through another. The model does not show `cacheTime` reaching `Porta.state` when the state is the same object as the cached response, or `_offline`/`_target` edits reaching the cached copy. It also does not show a stale `Porta.render()` leaving `_offline` in `Porta.state`: lines 377-382 write it into the state object before the guard of line 407, while `Render.Render` returns the state unchanged when the render is stale.
- Interceptor.HistoryPopped: the script passes the live `Location` object to `Porta.load`, and each use converts it to a string again. These uses are the cache key when the reply arrives (lines 328-329), the `Jymin.store` key (line 341) and `requestUrl` in `renderResponse` (lines 373, 468). If the address changes while the request is in flight, through a second pop or an anchor click's `historyReplace`, the reply is filed under the new address. The popped URL's queue is then never drained, and later loads of that URL queue behind it without a request. The model uses the address at the time of the pop throughout, so it does not show this.
- Interceptor.Submit: the GET branch sends the corrected `Porta.appendData(url, data.join('&'))`, not line 138 as written. Line 138 itself is modelled by `Interceptor.GetFormUrlAsWritten`; see "## Findings".
- Dispatcher.OnComplete: states only that the slot ends up absent, holding the reply, or holding the stamped reply. Which one depends on what the callbacks painted.
- Dispatcher.GetJsonServesStored: states that storage is unchanged only for a `cacheTime` other than 0. A copy stamped at time 0 is both servable and storable and is stored again.
- Numbers are integers. A non-numeric `ttl`, `localStorageTtl` or `cacheTime` counts as absent, although JavaScript would use a truthy string in `||` and concatenate it in `+`. Likewise, a non-string `view` or `url` field counts as absent.
- Prototype keys such as `constructor` are not modelled, nor are line terminators inside URLs (the `.` of the origin regex does not match them) or `Jymin.trim` on non-strings.
- A payload that is `null` or `undefined` is not modelled. Jymin is not part of this model: `Jymin.each` is taken to run nothing on an absent slot, to visit an array's items, and to visit an object's fields or a string's characters. `Jymin.trim` is taken to strip JavaScript white space as `String.prototype.trim` does.
- `Porta.cacheTime` (line 355) is a global written and never read elsewhere, so it is not kept.
- The `//+debug` logging, `startTime`/`endTime`/`beamTimes` and the `Jymin.js` script injection (lines 542-544) are not modelled.
- The two hard-coded URL exclusions (lines 260 and 346) are the predicates `Env.loadExcluded` and `Env.fetchExcluded`.
- `Jymin.escape` and `Jymin.value` are parameters. The views' code is `Env.runView`, keyed by name, so re-registering a name with a different function is not distinguished.
- `Porta(viewsOrState)` on an undefined `Porta.state` (a TypeError in the script) is not modelled. `Put` on a primitive state ignores the write.
- porta.js, lib/http.js and plugins/google-analytics.js are not part of this model. They are server-side packaging, a response monkey-patch and a third-party snippet.

## Findings

| source | as written | input that shows it | evidently intended | confidence | as-written member | corrected member |
|---|---|---|---|---|---|---|
| scripts/porta-jymin.js:138 | `url = Porta.appendData(data.join('&'))` passes the joined data as the URL and `undefined` as the data, dropping the time-stamped form address | a GET form at `http://h/s` with field `q=x` requests `q=x?undefined` | `Porta.appendData(url, data.join('&'))` | not executed; high | Interceptor.GetFormUrlAsWrittenExample | Interceptor.GetFormUrlKeepsPage |
