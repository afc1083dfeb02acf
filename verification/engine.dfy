/**
 * The state the Porta client keeps in its global `Porta` object, made
 * explicit: the view registry, application state, last rendering, request
 * cache, navigation destination and local storage; plus the environment
 * the engine reads (base URL, current location, clock, the views' code)
 * and the observable outcomes of its handlers.
 */
module Engine {
  import opened Values
  import opened Urls

  /** A callback waiting in a pending cache slot. */
  datatype Handler =
    | RenderHandler(viewName: string, target: string)   // installed by `load`; "" is an absent annotation
    | PrefetchHandler                                   // installed by `prefetch`

  /** A request-cache slot: the source's "nothing / array / object" test as a tagged value. */
  datatype Slot = Absent | Pending(queue: seq<Handler>) | Resolved(payload: Payload)

  /** The `_portaTarget` and `_portaView` annotations of the link or form that started a load. */
  datatype Source = Source(target: string, viewName: string)

  /** What `Porta.view` refers to: the initial no-op, nothing, or the view registered under a name. */
  datatype ViewRef = NoopView | NoView | ViewOf(name: string)

  datatype History = Push(url: Url) | Replace(url: Url)

  /** What one call of `renderResponse` does to the page. */
  datatype Paint =
    | Stale                       // the response is not for the current destination: dropped
    | Navigate(url: Url)          // no HTML and no view: the browser loads the URL itself
    | Blank                       // the view produced no HTML: nothing is pushed
    | Painted(html: string, target: Value, title: Option<Value>, history: History)

  /** What one queued callback did. */
  datatype HandlerResult = Rendered(paint: Paint) | Evicts(delay: int)

  /** Observable effects of the dispatcher. */
  datatype Effect =
    | Fetch(url: Url, jsonUrl: Url, body: Option<string>)
    | Called(handler: Handler, payload: Payload, url: Url, result: HandlerResult)

  datatype Context = Context(
    views: set<string>,         // names registered in `Porta.views`
    state: Value,               // `Porta.state`
    viewName: string,           // `Porta.viewName`, the last view rendered
    view: ViewRef,              // `Porta.view`
    url: Url,                   // `Porta.url`, the last URL rendered
    cache: map<Url, Slot>,      // `Porta.cache`; a missing key is an absent slot
    destination: Option<Url>,   // `Porta.destination`; None is its initial `0`
    storage: map<Url, Payload>, // local storage as written by `Jymin.store`
    localStorageTtl: int,       // `Porta.localStorageTtl`
    renderScheduled: bool,      // the debounced `render` timer is armed
    listening: bool             // `Porta.isListening`
  )

  /** Everything the engine reads from outside: browser, clock, exclusions and the views' code. */
  datatype Env = Env(
    base: Url,                          // `Porta.base`
    location: Url,                      // `location.href`
    hrefBase: Url,                      // `window._href`, the external base of mobile builds
    now: nat,                           // `Jymin.getTime()`
    hasPushState: bool,                 // `history.pushState` is available
    loadExcluded: Url -> bool,          // URLs `load` refuses outright
    fetchExcluded: Url -> bool,         // JSON URLs `getJson` never requests
    runView: (string, Value) -> string  // the HTML the view registered under a name renders for a state
  )

  /** The two escaping helpers every registry starts with. */
  const BuiltinViews: set<string> := {"$", "&"}

  /** `Porta` as the script leaves it at load time. */
  function Initial(storage: map<Url, Payload>): (c: Context)
    ensures c.cache == map[] && c.destination == None && c.views == BuiltinViews
  {
    Context(BuiltinViews, Obj(map[]), "", NoopView, "", map[], None, storage, 1000000000, false, false)
  }

  function SlotOf(cache: map<Url, Slot>, url: Url): Slot {
    if url in cache then cache[url] else Absent
  }

  /** `!!Porta.cache[url]`: a queue, or a cached response that is truthy. */
  predicate Occupied(slot: Slot) {
    slot.Pending? || (slot.Resolved? && Truthy(slot.payload.AsValue()))
  }
}
