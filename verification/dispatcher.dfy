/**
 * The request cache of the Porta client (scripts/porta-jymin.js, lines
 * 209-211 and 219-365): `prefetch`, `load` and `getJson` over cache slots
 * that are absent, a queue of waiting callbacks, or a response. The network
 * reply and the eviction timer are explicit events; what happened is
 * returned as a log of effects in order.
 */
module Dispatcher {
  import opened Values
  import opened Urls
  import opened Engine
  import Render

  // ------------------------------------------------------ local storage TTL

  /** A numeric field as `||` sees it: the number, or 0 (falsy) when absent or not numeric. */
  function NumOrZero(v: Value, k: string): int {
    match NumField(v, k)
    case Some(n) => n
    case None => 0
  }

  /** `data.localStorageTtl || Porta.localStorageTtl || -1`. */
  function GetLocalTtl(data: Payload, globalTtl: int): (r: int)
    ensures r != 0
    ensures NumOrZero(data.AsValue(), "localStorageTtl") != 0 ==> r == NumOrZero(data.AsValue(), "localStorageTtl")
    ensures NumOrZero(data.AsValue(), "localStorageTtl") == 0 && globalTtl != 0 ==> r == globalTtl
    ensures NumOrZero(data.AsValue(), "localStorageTtl") == 0 && globalTtl == 0 ==> r == -1
  {
    var own := NumOrZero(data.AsValue(), "localStorageTtl");
    if own != 0 then own else if globalTtl != 0 then globalTtl else -1
  }

  /** The `cacheTime` stamp a stored response carries, when numeric. */
  function CacheTime(p: Payload): Option<int> {
    NumField(p.AsValue(), "cacheTime")
  }

  /** `isEternal || isFresh`: the stored copy may stand in for the network reply. */
  predicate Servable(p: Payload, globalTtl: int, now: nat)
    ensures Servable(p, globalTtl, now) ==> p.Json? && "cacheTime" in p.fields
  {
    var ttl := GetLocalTtl(p, globalTtl);
    ttl == 0 || (CacheTime(p).Some? && CacheTime(p).value + ttl >= now)
  }

  /**
   * The eternal branch never fires, since the TTL chain ends in -1: a stored
   * response is served exactly when its stamp plus its TTL reaches the clock.
   */
  lemma ServableIffFresh(p: Payload, globalTtl: int, now: nat)
    ensures Servable(p, globalTtl, now)
            <==> CacheTime(p).Some? && CacheTime(p).value + GetLocalTtl(p, globalTtl) >= now
  {
  }

  /** A completed response goes to local storage when its TTL allows and it was not stored before. */
  predicate Storable(p: Payload, globalTtl: int)
    ensures Storable(p, globalTtl) ==>
              GetLocalTtl(p, globalTtl) > 0 && (CacheTime(p).None? || CacheTime(p) == Some(0))
  {
    GetLocalTtl(p, globalTtl) > -1 && !Truthy(Prop(p.AsValue(), "cacheTime"))
  }

  /** `data.cacheTime = Jymin.getTime()`: an object is stamped, a string ignores the write. */
  function Stamp(p: Payload, now: nat): (r: Payload)
    ensures p.Json? ==> r.Json? && Prop(r.AsValue(), "cacheTime") == Num(now)
    ensures p.Json? ==> forall k :: k != "cacheTime" ==> Prop(r.AsValue(), k) == Prop(p.AsValue(), k)
    ensures p.Text? ==> r == p
  {
    match p
    case Json(m) => Json(m["cacheTime" := Num(now)])
    case Text(_) => p
  }

  /** Once stamped at a real clock reading, an object response is never stored again. */
  lemma StampedIsNotStorable(p: Payload, now: nat, globalTtl: int)
    requires p.Json? && now > 0
    ensures !Storable(Stamp(p, now), globalTtl)
  {
    assert Prop(Stamp(p, now).AsValue(), "cacheTime") == Num(now);
  }

  /** `Jymin.fetch(url)` followed by `if (data)`: a truthy stored response, if any. */
  function StoredEntry(storage: map<Url, Payload>, url: Url): (r: Option<Payload>)
    ensures r.Some? <==> url in storage && Truthy(storage[url].AsValue())
    ensures r.Some? ==> r.value == storage[url]
  {
    if url in storage && Truthy(storage[url].AsValue()) then Some(storage[url]) else None
  }

  /** `response.ttl || 1e4`: how long a prefetched response stays cached. */
  function EvictionDelay(p: Payload): (d: int)
    ensures d != 0
    ensures NumOrZero(p.AsValue(), "ttl") != 0 ==> d == NumOrZero(p.AsValue(), "ttl")
    ensures NumOrZero(p.AsValue(), "ttl") == 0 ==> d == 10000
  {
    var own := NumOrZero(p.AsValue(), "ttl");
    if own != 0 then own else 10000
  }

  // ------------------------------------------------------------- callbacks

  /** Slots other than `url` are the same in both caches. */
  ghost predicate OthersKept(c: map<Url, Slot>, c': map<Url, Slot>, url: Url) {
    forall u :: u != url ==> SlotOf(c', u) == SlotOf(c, u)
  }

  /** The context fields a callback never touches. */
  predicate FrameKept(ctx: Context, ctx': Context) {
    ctx'.storage == ctx.storage && ctx'.destination == ctx.destination
    && ctx'.localStorageTtl == ctx.localStorageTtl && ctx'.views == ctx.views
  }

  /** One queued callback invoked as `callback(data, url)`. */
  function RunHandler(ctx: Context, env: Env, h: Handler, data: Payload, url: Url): (r: (Context, Effect))
    ensures r.1.Called? && r.1.handler == h && r.1.payload == data && r.1.url == url
    ensures FrameKept(ctx, r.0) && OthersKept(ctx.cache, r.0.cache, url)
    ensures h.PrefetchHandler? ==> SlotOf(r.0.cache, url) == Resolved(data) && r.1.result == Evicts(EvictionDelay(data))
    ensures h.RenderHandler? ==> r.1.result.Rendered?
    ensures h.RenderHandler? && r.1.result.paint.Painted? ==> SlotOf(r.0.cache, url) == Absent
    ensures h.RenderHandler? && !r.1.result.paint.Painted? ==> r.0.cache == ctx.cache
  {
    match h
    case RenderHandler(viewName, target) =>
      var rr := Render.RenderResponse(ctx, env, viewName, data.AsValue(), target, url);
      Render.RenderResponsePublishes(ctx, env, viewName, data.AsValue(), target, url);
      (rr.0, Called(h, data, url, Rendered(rr.1)))
    case PrefetchHandler =>
      (ctx.(cache := ctx.cache[url := Resolved(data)]), Called(h, data, url, Evicts(EvictionDelay(data))))
  }

  /** `Jymin.each(queue, callback => callback(data, url))`: every callback once, in queue order. */
  function Drain(ctx: Context, env: Env, q: seq<Handler>, data: Payload, url: Url): (r: (Context, seq<Effect>))
    ensures |r.1| == |q|
    ensures forall i :: 0 <= i < |q| ==>
              r.1[i].Called? && r.1[i].handler == q[i] && r.1[i].payload == data && r.1[i].url == url
    ensures FrameKept(ctx, r.0) && OthersKept(ctx.cache, r.0.cache, url)
    ensures (forall i :: 0 <= i < |q| ==> q[i].PrefetchHandler?) && q != [] ==> SlotOf(r.0.cache, url) == Resolved(data)
    ensures SlotOf(ctx.cache, url) in {Absent, Resolved(data)} ==> SlotOf(r.0.cache, url) in {Absent, Resolved(data)}
    decreases |q|
  {
    if q == [] then (ctx, [])
    else
      var (c1, e) := RunHandler(ctx, env, q[0], data, url);
      var (c2, es) := Drain(c1, env, q[1..], data, url);
      (c2, [e] + es)
  }

  // ------------------------------------------------------------ completion

  /** The callbacks waiting at `url`; anything but a queue runs none. */
  function QueueAt(cache: map<Url, Slot>, url: Url): seq<Handler> {
    if SlotOf(cache, url).Pending? then SlotOf(cache, url).queue else []
  }

  /** A response `Jymin.each` would walk: an object with fields, or a non-empty string. */
  predicate HasEntries(p: Payload) {
    match p
    case Json(m) => m != map[]
    case Text(t) => t != ""
  }

  /**
   * The reply finds a response where a queue should be: `Jymin.each` hands
   * the response's first field to the loop body, which calls it as a
   * function, a TypeError once the slot has been overwritten.
   */
  predicate CompletionThrows(cache: map<Url, Slot>, url: Url) {
    SlotOf(cache, url).Resolved? && HasEntries(SlotOf(cache, url).payload)
  }

  /**
   * The rest of `onComplete` once the slot holds the response: the waiting
   * callbacks run in order, and a storable response is stamped and written
   * to local storage (the cached copy is the same object, so it carries the
   * stamp).
   */
  function Deliver(c0: Context, env: Env, url: Url, q: seq<Handler>, data: Payload): (r: (Context, seq<Effect>))
    requires SlotOf(c0.cache, url) == Resolved(data)
    ensures |r.1| == |q|
    ensures forall i :: 0 <= i < |q| ==>
              r.1[i].Called? && r.1[i].handler == q[i] && r.1[i].payload == data && r.1[i].url == url
    ensures Storable(data, c0.localStorageTtl) ==> r.0.storage == c0.storage[url := Stamp(data, env.now)]
    ensures !Storable(data, c0.localStorageTtl) ==> r.0.storage == c0.storage
    ensures OthersKept(c0.cache, r.0.cache, url)
    ensures r.0.destination == c0.destination && r.0.localStorageTtl == c0.localStorageTtl
    ensures var s := SlotOf(r.0.cache, url);
            s == Absent || s == Resolved(data) || (Storable(data, c0.localStorageTtl) && s == Resolved(Stamp(data, env.now)))
  {
    var (c1, effects) := Drain(c0, env, q, data, url);
    if Storable(data, c1.localStorageTtl) then
      var stamped := Stamp(data, env.now);
      var cache := if SlotOf(c1.cache, url) == Resolved(data) then c1.cache[url := Resolved(stamped)] else c1.cache;
      assert OthersKept(c1.cache, cache, url);
      (c1.(storage := c1.storage[url := stamped], cache := cache), effects)
    else (c1, effects)
  }

  /**
   * `onComplete(data)`: the slot takes the response, then the queue it held
   * is delivered. When the slot held a response instead of a queue, the walk
   * throws and nothing after the slot write happens.
   */
  function OnComplete(ctx: Context, env: Env, url: Url, data: Payload): (r: (Context, seq<Effect>))
    ensures var q := QueueAt(ctx.cache, url);
            && |r.1| == |q|
            && forall i :: 0 <= i < |q| ==>
                 r.1[i].Called? && r.1[i].handler == q[i] && r.1[i].payload == data && r.1[i].url == url
    ensures CompletionThrows(ctx.cache, url) ==> r == (ctx.(cache := ctx.cache[url := Resolved(data)]), [])
    ensures !CompletionThrows(ctx.cache, url) && Storable(data, ctx.localStorageTtl) ==>
              r.0.storage == ctx.storage[url := Stamp(data, env.now)]
    ensures CompletionThrows(ctx.cache, url) || !Storable(data, ctx.localStorageTtl) ==> r.0.storage == ctx.storage
    ensures OthersKept(ctx.cache, r.0.cache, url)
    ensures r.0.destination == ctx.destination && r.0.localStorageTtl == ctx.localStorageTtl
    ensures var s := SlotOf(r.0.cache, url);
            s == Absent || s == Resolved(data) || (Storable(data, ctx.localStorageTtl) && s == Resolved(Stamp(data, env.now)))
  {
    var c0 := ctx.(cache := ctx.cache[url := Resolved(data)]);
    if CompletionThrows(ctx.cache, url) then (c0, [])
    else Deliver(c0, env, url, QueueAt(ctx.cache, url), data)
  }

  /** A queue of one callback: the completion is that callback's run, and keeps the slot it leaves. */
  lemma CompleteOne(ctx: Context, env: Env, url: Url, h: Handler, data: Payload)
    requires SlotOf(ctx.cache, url) == Pending([h])
    ensures var c0 := ctx.(cache := ctx.cache[url := Resolved(data)]);
            var (d, e) := RunHandler(c0, env, h, data, url);
            var (c, es) := OnComplete(ctx, env, url, data);
            && es == [e]
            && (SlotOf(d.cache, url) == Absent ==> SlotOf(c.cache, url) == Absent)
            && (SlotOf(d.cache, url) == Resolved(data) ==>
                  SlotOf(c.cache, url) == Resolved(data) || SlotOf(c.cache, url) == Resolved(Stamp(data, env.now)))
  {
    var c0 := ctx.(cache := ctx.cache[url := Resolved(data)]);
    var (d, e) := RunHandler(c0, env, h, data, url);
    assert [h][0] == h && [h][1..] == [];
    assert Drain(d, env, [], data, url) == (d, []);
    assert [e] + [] == [e];
    assert Drain(c0, env, [h], data, url) == (d, [e]);
  }

  /** A completion consumes the queue: afterwards the slot is never a queue. */
  lemma OnCompleteEmptiesQueue(ctx: Context, env: Env, url: Url, data: Payload)
    ensures !SlotOf(OnComplete(ctx, env, url, data).0.cache, url).Pending?
  {
  }

  // ----------------------------------------------------------------- fetch

  /** Local storage holds a truthy copy of `url` fresh enough to serve. */
  predicate ServedFromStorage(ctx: Context, env: Env, url: Url) {
    var stored := StoredEntry(ctx.storage, url);
    stored.Some? && Servable(stored.value, ctx.localStorageTtl, env.now)
  }

  /**
   * `Porta.getJson(url, body)`: request the JSON form of the URL and, when
   * local storage holds a servable copy, complete with it at once without
   * disturbing the navigation destination.
   */
  function GetJson(ctx: Context, env: Env, url: Url, body: Option<string>): (r: (Context, seq<Effect>))
    ensures env.fetchExcluded(AppendExtension(url)) ==> r == (ctx, [])
    ensures !env.fetchExcluded(AppendExtension(url)) ==>
              |r.1| >= 1 && r.1[0] == Fetch(url, AppendExtension(url), body)
              && forall i :: 1 <= i < |r.1| ==> r.1[i].Called?
    ensures !ServedFromStorage(ctx, env, url) ==> r.0 == ctx && |r.1| <= 1
    ensures r.0.destination == ctx.destination && r.0.localStorageTtl == ctx.localStorageTtl
    ensures OthersKept(ctx.cache, r.0.cache, url)
  {
    var jsonUrl := AppendExtension(url);
    if env.fetchExcluded(jsonUrl) then (ctx, [])
    else
      var fetch := Fetch(url, jsonUrl, body);
      if ServedFromStorage(ctx, env, url) then
        var (c, es) := OnComplete(ctx, env, url, StoredEntry(ctx.storage, url).value);
        (c.(destination := ctx.destination), [fetch] + es)
      else (ctx, [fetch])
  }

  /**
   * Serving from local storage runs the waiting callbacks with the stored
   * copy and empties the queue; a copy stamped at a non-zero time is not
   * stored again.
   */
  lemma GetJsonServesStored(ctx: Context, env: Env, url: Url, body: Option<string>)
    requires !env.fetchExcluded(AppendExtension(url))
    requires url in ctx.storage && Truthy(ctx.storage[url].AsValue())
    requires Servable(ctx.storage[url], ctx.localStorageTtl, env.now)
    ensures var r := GetJson(ctx, env, url, body);
            var q := QueueAt(ctx.cache, url);
            && |r.1| == 1 + |q|
            && (forall i :: 0 <= i < |q| ==> r.1[i + 1].handler == q[i] && r.1[i + 1].payload == ctx.storage[url])
            && (CacheTime(ctx.storage[url]) != Some(0) ==> r.0.storage == ctx.storage)
            && !SlotOf(r.0.cache, url).Pending?
  {
    var p := ctx.storage[url];
    assert StoredEntry(ctx.storage, url) == Some(p);
    var (c, es) := OnComplete(ctx, env, url, p);
    OnCompleteEmptiesQueue(ctx, env, url, p);
    assert GetJson(ctx, env, url, body) == (c.(destination := ctx.destination), [Fetch(url, AppendExtension(url), body)] + es);
    if CacheTime(p) != Some(0) {
      ServableIffFresh(p, ctx.localStorageTtl, env.now);
      assert Truthy(Prop(p.AsValue(), "cacheTime"));
    }
  }

  // ------------------------------------------------------------------ load

  /** The callback `load` installs: render the response with the source's view and target. */
  function LoadHandler(source: Source): Handler {
    RenderHandler(source.viewName, source.target)
  }

  /** `Porta.load(url, body, sourceElement)`. */
  function Load(ctx: Context, env: Env, url: Url, body: Option<string>, source: Source): (r: (Context, seq<Effect>))
    ensures r.0.destination == Some(RemoveExtension(url))
    ensures env.loadExcluded(url) ==> r.1 == [] && r.0 == ctx.(destination := Some(RemoveExtension(url)))
    ensures !env.loadExcluded(url) && SlotOf(ctx.cache, url).Pending? ==>
              r.1 == [] && SlotOf(r.0.cache, url) == Pending(SlotOf(ctx.cache, url).queue + [LoadHandler(source)])
    ensures !env.loadExcluded(url) && Occupied(SlotOf(ctx.cache, url)) && SlotOf(ctx.cache, url).Resolved? ==>
              var p := SlotOf(ctx.cache, url).payload;
              && |r.1| == 1 && r.1[0].Called? && r.1[0].handler == LoadHandler(source)
              && r.1[0].payload == p && r.1[0].url == url
              && (SlotOf(r.0.cache, url) == Resolved(p) || SlotOf(r.0.cache, url) == Absent)
    ensures !env.loadExcluded(url) && !Occupied(SlotOf(ctx.cache, url)) && !env.fetchExcluded(AppendExtension(url)) ==>
              |r.1| >= 1 && r.1[0] == Fetch(url, AppendExtension(url), body)
              && forall i :: 1 <= i < |r.1| ==> r.1[i].Called?
    ensures OthersKept(ctx.cache, r.0.cache, url) && r.0.localStorageTtl == ctx.localStorageTtl
  {
    var c0 := ctx.(destination := Some(RemoveExtension(url)));
    if env.loadExcluded(url) then (c0, [])
    else
      var h := LoadHandler(source);
      var slot := SlotOf(c0.cache, url);
      if slot.Pending? then (c0.(cache := c0.cache[url := Pending(slot.queue + [h])]), [])
      else if Occupied(slot) then
        var (c1, e) := RunHandler(c0, env, h, slot.payload, url);
        (c1, [e])
      else
        GetJson(c0.(cache := c0.cache[url := Pending([h])]), env, url, body)
  }

  /** A load of a URL nobody is fetching queues its callback and requests the URL, unless storage answers at once. */
  lemma LoadStartsRequest(ctx: Context, env: Env, url: Url, body: Option<string>, source: Source)
    requires !env.loadExcluded(url) && !env.fetchExcluded(AppendExtension(url))
    requires !Occupied(SlotOf(ctx.cache, url)) && !ServedFromStorage(ctx, env, url)
    ensures var r := Load(ctx, env, url, body, source);
            && r.1 == [Fetch(url, AppendExtension(url), body)]
            && SlotOf(r.0.cache, url) == Pending([LoadHandler(source)])
            && r.0.storage == ctx.storage
  {
  }

  // -------------------------------------------------------------- prefetch

  /** `Porta.prefetch(url)`: request the URL ahead of a click unless its slot is already occupied. */
  function Prefetch(ctx: Context, env: Env, url: Url): (r: (Context, seq<Effect>))
    ensures Occupied(SlotOf(ctx.cache, url)) ==> r == (ctx, [])
    ensures !Occupied(SlotOf(ctx.cache, url)) && !env.fetchExcluded(AppendExtension(url)) ==>
              |r.1| >= 1 && r.1[0] == Fetch(url, AppendExtension(url), None)
    ensures !Occupied(SlotOf(ctx.cache, url)) && !ServedFromStorage(ctx, env, url) ==>
              SlotOf(r.0.cache, url) == Pending([PrefetchHandler])
    ensures r.0.destination == ctx.destination && OthersKept(ctx.cache, r.0.cache, url)
  {
    if Occupied(SlotOf(ctx.cache, url)) then (ctx, [])
    else GetJson(ctx.(cache := ctx.cache[url := Pending([PrefetchHandler])]), env, url, None)
  }

  /** The eviction timer: the slot is deleted unless it has become a queue again. */
  function EvictionFired(ctx: Context, url: Url): (r: Context)
    ensures SlotOf(ctx.cache, url).Pending? ==> r == ctx
    ensures !SlotOf(ctx.cache, url).Pending? ==> url !in r.cache && r == ctx.(cache := ctx.cache - {url})
    ensures OthersKept(ctx.cache, r.cache, url)
  {
    if SlotOf(ctx.cache, url).Pending? then ctx else ctx.(cache := ctx.cache - {url})
  }

  /**
   * A prefetch of a fresh URL issues one request; its reply fills the slot
   * and arms eviction after the response's TTL; when the timer fires the
   * slot is empty again.
   */
  lemma PrefetchLifecycle(ctx: Context, env: Env, url: Url, data: Payload)
    requires !Occupied(SlotOf(ctx.cache, url)) && !ServedFromStorage(ctx, env, url)
    requires !env.fetchExcluded(AppendExtension(url))
    ensures var (c1, e1) := Prefetch(ctx, env, url);
            var (c2, e2) := OnComplete(c1, env, url, data);
            && e1 == [Fetch(url, AppendExtension(url), None)]
            && SlotOf(c1.cache, url) == Pending([PrefetchHandler])
            && |e2| == 1 && e2[0].handler == PrefetchHandler && e2[0].result == Evicts(EvictionDelay(data))
            && SlotOf(c2.cache, url).Resolved?
            && SlotOf(EvictionFired(c2, url).cache, url) == Absent
  {
    var (c1, e1) := Prefetch(ctx, env, url);
    CompleteOne(c1, env, url, PrefetchHandler, data);
  }

  /**
   * A prefetch answered from storage leaves the stored copy in the slot. The
   * network reply then finds a response where the queue was: it overwrites
   * the slot, runs nothing, and never reaches local storage.
   */
  lemma PrefetchServedReplyNotStored(ctx: Context, env: Env, url: Url, data: Payload)
    requires !Occupied(SlotOf(ctx.cache, url)) && ServedFromStorage(ctx, env, url)
    requires !env.fetchExcluded(AppendExtension(url))
    ensures var (c1, e1) := Prefetch(ctx, env, url);
            var (c2, e2) := OnComplete(c1, env, url, data);
            && |e1| == 2 && e1[1].Called? && e1[1].handler == PrefetchHandler
            && CompletionThrows(c1.cache, url)
            && e2 == [] && c2.storage == c1.storage && SlotOf(c2.cache, url) == Resolved(data)
  {
    var p := StoredEntry(ctx.storage, url).value;
    assert p.Json? && "cacheTime" in p.fields;
    var cq := ctx.(cache := ctx.cache[url := Pending([PrefetchHandler])]);
    CompleteOne(cq, env, url, PrefetchHandler, p);
    var (c1, e1) := Prefetch(ctx, env, url);
    assert SlotOf(c1.cache, url) == Resolved(p) || SlotOf(c1.cache, url) == Resolved(Stamp(p, env.now));
    assert HasEntries(SlotOf(c1.cache, url).payload) by {
      assert "cacheTime" in SlotOf(c1.cache, url).payload.fields;
    }
  }

  // ------------------------------------------------------------ coalescing

  /** Handlers of a run of loads, in order. */
  function LoadHandlers(sources: seq<Source>): (hs: seq<Handler>)
    ensures |hs| == |sources|
    ensures forall i :: 0 <= i < |sources| ==> hs[i] == LoadHandler(sources[i])
  {
    if sources == [] then [] else LoadHandlers(sources[..|sources| - 1]) + [LoadHandler(sources[|sources| - 1])]
  }

  /** Several loads of the same URL in a row, with their effects concatenated. */
  function LoadAll(ctx: Context, env: Env, url: Url, sources: seq<Source>): (r: (Context, seq<Effect>))
    decreases |sources|
  {
    if sources == [] then (ctx, [])
    else
      var (c, es) := LoadAll(ctx, env, url, sources[..|sources| - 1]);
      var (c2, es2) := Load(c, env, url, None, sources[|sources| - 1]);
      (c2, es + es2)
  }

  /**
   * Loads of a URL nobody is fetching coalesce: however many arrive before
   * the reply, exactly one request goes out and every load's callback waits
   * in the queue in arrival order.
   */
  lemma {:induction false} LoadAllCoalesces(ctx: Context, env: Env, url: Url, sources: seq<Source>)
    requires sources != []
    requires !env.loadExcluded(url) && !env.fetchExcluded(AppendExtension(url))
    requires !Occupied(SlotOf(ctx.cache, url)) && !ServedFromStorage(ctx, env, url)
    ensures var r := LoadAll(ctx, env, url, sources);
            && r.1 == [Fetch(url, AppendExtension(url), None)]
            && SlotOf(r.0.cache, url) == Pending(LoadHandlers(sources))
            && r.0.storage == ctx.storage
    decreases |sources|
  {
    var init := sources[..|sources| - 1];
    var last := sources[|sources| - 1];
    if init == [] {
      LoadStartsRequest(ctx, env, url, None, last);
    } else {
      LoadAllCoalesces(ctx, env, url, init);
      var (c, es) := LoadAll(ctx, env, url, init);
      assert SlotOf(c.cache, url).Pending?;
      var (c2, es2) := Load(c, env, url, None, last);
      assert es2 == [];
      assert c2.storage == c.storage;
    }
  }

  /**
   * The one reply then runs every coalesced callback exactly once, in the
   * order the loads were made, each with the reply and the URL.
   */
  lemma CoalescedReplyRunsAll(ctx: Context, env: Env, url: Url, sources: seq<Source>, data: Payload)
    requires sources != []
    requires !env.loadExcluded(url) && !env.fetchExcluded(AppendExtension(url))
    requires !Occupied(SlotOf(ctx.cache, url)) && !ServedFromStorage(ctx, env, url)
    ensures var (c, _) := LoadAll(ctx, env, url, sources);
            var (_, es) := OnComplete(c, env, url, data);
            && |es| == |sources|
            && forall i :: 0 <= i < |sources| ==>
                 es[i].Called? && es[i].handler == LoadHandler(sources[i]) && es[i].payload == data && es[i].url == url
  {
    LoadAllCoalesces(ctx, env, url, sources);
  }

  /**
   * With a fresh copy in local storage, loads do not coalesce: the first load
   * is answered from storage at once, and when that rendering paints it
   * deletes the slot, so the next load of the URL sends a second request.
   */
  lemma ServedLoadsFetchAgain(ctx: Context, env: Env, url: Url, s1: Source, s2: Source)
    requires !env.loadExcluded(url) && !env.fetchExcluded(AppendExtension(url))
    requires !Occupied(SlotOf(ctx.cache, url)) && ServedFromStorage(ctx, env, url)
    ensures var (c1, e1) := Load(ctx, env, url, None, s1);
            var (c2, e2) := Load(c1, env, url, None, s2);
            && |e1| == 2 && e1[0] == Fetch(url, AppendExtension(url), None)
            && e1[1].Called? && e1[1].handler == LoadHandler(s1)
            && e1[1].payload == StoredEntry(ctx.storage, url).value
            && e1[1].result.Rendered?
            && (e1[1].result.paint.Painted? ==> |e2| >= 1 && e2[0] == Fetch(url, AppendExtension(url), None))
  {
    var p := StoredEntry(ctx.storage, url).value;
    var h := LoadHandler(s1);
    var c0 := ctx.(destination := Some(RemoveExtension(url)));
    var cq := c0.(cache := c0.cache[url := Pending([h])]);
    assert ServedFromStorage(cq, env, url);
    CompleteOne(cq, env, url, h, p);
  }
}
