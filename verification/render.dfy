/**
 * View resolution and rendering (scripts/porta-jymin.js, lines 368-476 and
 * 529-537): picking a view name for a response, the stale-response guard,
 * render precedence, the history choice and cache invalidation; plus the
 * context-level state store with its debounced re-render (lines 484-521).
 */
module Render {
  import opened Values
  import opened Urls
  import opened Engine
  import StateStore

  // ------------------------------------------------------- view resolution

  /** Index just before the first `//` of s, or |s| when there is none. */
  function PairStart(s: string): (i: nat)
    ensures i <= |s|
    ensures i + 1 < |s| ==> s[i] == '/' && s[i + 1] == '/'
    ensures forall k :: 0 <= k < i && k + 1 < |s| ==> !(s[k] == '/' && s[k + 1] == '/')
  {
    if |s| < 2 then |s|
    else if s[0] == '/' && s[1] == '/' then 0
    else 1 + PairStart(s[1..])
  }

  /** `url.replace(/.*?\/\/.*?\//, '')`: drop everything up to the first `/` after the first `//`. */
  function StripOrigin(url: Url): (r: Url)
    ensures |r| <= |url| && r == url[|url| - |r|..]
  {
    var i := PairStart(url);
    if i + 2 <= |url| then
      var rest := url[i + 2..];
      var host := Before(rest, '/');
      if |host| < |rest| then rest[|host| + 1..] else url
    else url
  }

  /** `PairStart` finds the first `//`: the one at i when no earlier pair exists. */
  lemma {:induction false} PairStartAt(s: string, i: nat)
    requires i + 1 < |s| && s[i] == '/' && s[i + 1] == '/'
    requires forall k :: 0 <= k < i ==> !(s[k] == '/' && s[k + 1] == '/')
    ensures PairStart(s) == i
  {
    if i > 0 {
      assert !(s[0] == '/' && s[1] == '/');
      var t := s[1..];
      forall k | 0 <= k < i - 1 ensures !(t[k] == '/' && t[k + 1] == '/') {
        assert t[k] == s[k + 1] && t[k + 1] == s[k + 2];
      }
      PairStartAt(t, i - 1);
    }
  }

  /** For `scheme//host/path` with no slash in scheme or host, the origin strip leaves exactly the path. */
  lemma StripOriginOfAbsolute(scheme: string, host: string, path: string)
    requires '/' !in scheme && '/' !in host
    ensures StripOrigin(scheme + "//" + host + "/" + path) == path
  {
    var u := scheme + "//" + host + "/" + path;
    assert u[|scheme|] == '/' && u[|scheme| + 1] == '/';
    forall k | 0 <= k < |scheme| ensures !(u[k] == '/' && u[k + 1] == '/') {
      assert u[k] == scheme[k];
    }
    PairStartAt(u, |scheme|);
    var rest := u[|scheme| + 2..];
    assert rest == host + "/" + path;
    BeforeUnique(rest, '/', host);
    assert rest[|host| + 1..] == path;
  }

  /** The view name guessed from a response URL: origin and query removed. */
  function InferredPath(responseUrl: Url): string {
    RemoveQuery(StripOrigin(responseUrl))
  }

  /** A main page's view: `path/index`, or `index` for the empty path. */
  function IndexName(path: string): string {
    (if path == "" then "" else path + "/") + "index"
  }

  /** The last rendered view name, or the designated error view. */
  function FallbackName(lastName: string): string {
    if lastName != "" then lastName else "error0"
  }

  datatype Resolution = Resolution(name: string, found: bool, offline: bool)

  /**
   * `viewName || state.view`; failing both, the response is taken to come
   * from a failed connection and the name is inferred from its URL.
   */
  function ResolveView(viewArg: string, state: Value, responseUrl: Url, lastName: string, views: set<string>): (r: Resolution)
    ensures r.found <==> r.name in views
    ensures r.offline <==> viewArg == "" && StrField(state, "view") == ""
    ensures viewArg != "" ==> r.name == viewArg
    ensures viewArg == "" && StrField(state, "view") != "" ==> r.name == StrField(state, "view")
  {
    var named := if viewArg != "" then viewArg else StrField(state, "view");
    if named != "" then Resolution(named, named in views, false)
    else
      var path := InferredPath(responseUrl);
      if path in views then Resolution(path, true, true)
      else
        var index := IndexName(path);
        if index in views then Resolution(index, true, true)
        else
          var fallback := FallbackName(lastName);
          Resolution(fallback, fallback in views, true)
  }

  /** The names an offline response tries, in order. */
  function Candidates(responseUrl: Url, lastName: string): seq<string> {
    var path := InferredPath(responseUrl);
    [path, IndexName(path), FallbackName(lastName)]
  }

  /** Reference definition: the first candidate that is registered. */
  function FirstRegistered(names: seq<string>, views: set<string>): (r: Option<string>)
    ensures r.Some? ==> r.value in names && r.value in views
    ensures r.None? <==> forall i :: 0 <= i < |names| ==> names[i] !in views
  {
    if names == [] then None
    else if names[0] in views then Some(names[0])
    else FirstRegistered(names[1..], views)
  }

  /**
   * Without a name, resolution stops at the first registered candidate among
   * path, `path/index` and the fallback; when none is registered it keeps
   * the fallback name without a view.
   */
  lemma ResolveViewInfers(state: Value, responseUrl: Url, lastName: string, views: set<string>)
    requires StrField(state, "view") == ""
    ensures var r := ResolveView("", state, responseUrl, lastName, views);
            var cs := Candidates(responseUrl, lastName);
            && r.offline
            && (FirstRegistered(cs, views).Some? ==> r.name == FirstRegistered(cs, views).value && r.found)
            && (FirstRegistered(cs, views).None? ==> r.name == cs[2] && !r.found)
  {
    var cs := Candidates(responseUrl, lastName);
    assert cs[1..][1..] == [cs[2]];
    assert cs[1..] == [cs[1], cs[2]];
  }

  /** For `scheme//host/path?query`, the candidates are `path`, `path/index` and the fallback. */
  lemma CandidatesOfAbsolute(scheme: string, host: string, path: string, query: string, lastName: string)
    requires '/' !in scheme && '/' !in host && '?' !in path
    ensures Candidates(scheme + "//" + host + "/" + path + "?" + query, lastName)
            == [path, IndexName(path), FallbackName(lastName)]
  {
    var u := scheme + "//" + host + "/" + path + "?" + query;
    assert u == scheme + "//" + host + "/" + (path + "?" + query);
    StripOriginOfAbsolute(scheme, host, path + "?" + query);
    assert (path + "?" + query)[|path|] == '?';
    BeforeUnique(path + "?" + query, '?', path);
  }

  // ------------------------------------------------------------- rendering

  /** White space as JavaScript's `trim` and `\s` see it: the ASCII blanks, no-break and byte-order spaces, the Unicode space separators and the two line separators. */
  predicate IsSpace(c: char) {
    c == ' ' || c == '\t' || c == '\n' || c == '\r'
    || c as int in {0x0B, 0x0C, 0xA0, 0x1680, 0x2028, 0x2029, 0x202F, 0x205F, 0x3000, 0xFEFF}
    || 0x2000 <= c as int <= 0x200A
  }

  function TrimStart(s: string): (r: string)
    ensures |r| <= |s| && r == s[|s| - |r|..]
    ensures r != [] ==> !IsSpace(r[0])
  {
    if s != [] && IsSpace(s[0]) then TrimStart(s[1..]) else s
  }

  /** `Jymin.trim(state)[0] === '<'`: the payload is literally an HTML string. */
  predicate IsHtmlText(state: Value) {
    state.Str? && TrimStart(state.s) != [] && TrimStart(state.s)[0] == '<'
  }

  /** `removeExtension(state.url || requestUrl)`. */
  function ResponseUrl(state: Value, requestUrl: Url): Url {
    var own := StrField(state, "url");
    RemoveExtension(if own != "" then own else requestUrl)
  }

  /** The state a view sees: `_offline` set for an inferred view, deleted otherwise. */
  function MarkOffline(state: Value, offline: bool): Value {
    if offline then Put(state, "_offline", Bool(true)) else Delete(state, "_offline")
  }

  /** The history call: replace when the query-stripped URL is the current page's, push otherwise. */
  function HistoryFor(responseUrl: Url, location: Url): (h: History)
    ensures h.Replace? <==> RemoveQuery(responseUrl) == RemoveQuery(location)
    ensures h.url == responseUrl
  {
    if RemoveQuery(responseUrl) == RemoveQuery(location) then Replace(responseUrl) else Push(responseUrl)
  }

  /** Push non-empty HTML: update history, drop the request's cache slot, clear the one-shot target. */
  function Publish(ctx: Context, env: Env, html: string, target: Value, responseUrl: Url, requestUrl: Url): (r: (Context, Paint))
    ensures r.1.Painted? || r.1.Blank?
    ensures r.0.destination == ctx.destination && r.0.views == ctx.views && r.0.storage == ctx.storage
    ensures r.0.localStorageTtl == ctx.localStorageTtl && r.0.renderScheduled == ctx.renderScheduled
    ensures r.0.listening == ctx.listening
    ensures r.0.viewName == ctx.viewName && r.0.url == ctx.url && r.0.view == ctx.view
    ensures Prop(r.0.state, "_offline") == Prop(ctx.state, "_offline")
  {
    if html == "" then (ctx, Blank)
    else
      var title := Prop(ctx.state, "_title");
      (ctx.(cache := ctx.cache - {requestUrl}, state := Delete(ctx.state, "_target")),
       Painted(html, target, if Truthy(title) then Some(title) else None, HistoryFor(responseUrl, env.location)))
  }

  /** The state a view sees and the context a rendering leaves, once the guard has passed. */
  function Adopt(ctx: Context, s1: Value, res: Resolution, responseUrl: Url): (c: Context)
    ensures c.viewName == res.name && c.url == responseUrl && c.state == s1
    ensures c.view == (if res.found then ViewOf(res.name) else NoView)
    ensures c.cache == ctx.cache && c.destination == ctx.destination && c.views == ctx.views
    ensures c.storage == ctx.storage && c.localStorageTtl == ctx.localStorageTtl
    ensures c.renderScheduled == ctx.renderScheduled && c.listening == ctx.listening
  {
    ctx.(state := s1, viewName := res.name, view := if res.found then ViewOf(res.name) else NoView, url := responseUrl)
  }

  /** Render precedence after the guard: HTML text, then the view, then a full navigation. */
  function Show(c1: Context, env: Env, s1: Value, res: Resolution, target: Value, responseUrl: Url, requestUrl: Url): (r: (Context, Paint))
    ensures r.1 != Stale
    ensures r.0.destination == c1.destination && r.0.views == c1.views && r.0.storage == c1.storage
    ensures r.0.localStorageTtl == c1.localStorageTtl && r.0.renderScheduled == c1.renderScheduled
    ensures r.0.listening == c1.listening
    ensures r.0.viewName == c1.viewName && r.0.url == c1.url && r.0.view == c1.view
    ensures Prop(r.0.state, "_offline") == Prop(c1.state, "_offline")
  {
    if IsHtmlText(s1) then Publish(c1, env, s1.s, target, responseUrl, requestUrl)
    else if res.found then Publish(c1, env, env.runView(res.name, s1), target, responseUrl, requestUrl)
    else (c1, Navigate(responseUrl))
  }

  /** What a shown response does to history, the cache and the one-shot target. */
  lemma ShowPublishes(c1: Context, env: Env, s1: Value, res: Resolution, target: Value, responseUrl: Url, requestUrl: Url)
    ensures var r := Show(c1, env, s1, res, target, responseUrl, requestUrl);
            && (r.1.Painted? ==> r.1.history == HistoryFor(responseUrl, env.location))
            && (r.1.Painted? ==> r.0.cache == c1.cache - {requestUrl} && Prop(r.0.state, "_target") == Undefined)
            && (!r.1.Painted? ==> r.0.cache == c1.cache)
  {
    if IsHtmlText(s1) {
      assert Show(c1, env, s1, res, target, responseUrl, requestUrl)
          == Publish(c1, env, s1.s, target, responseUrl, requestUrl);
    } else if res.found {
      assert Show(c1, env, s1, res, target, responseUrl, requestUrl)
          == Publish(c1, env, env.runView(res.name, s1), target, responseUrl, requestUrl);
    }
  }

  /** `Porta.renderResponse(viewName, state, target, requestUrl)`. */
  function RenderResponse(ctx: Context, env: Env, viewArg: string, state: Value, target: string, requestUrl: Url): (r: (Context, Paint))
    // stale-response guard: only a response for the current destination has any effect
    ensures r.1 == Stale <==> ctx.destination != Some(ResponseUrl(state, requestUrl))
    ensures r.1 == Stale ==> r.0 == ctx
    ensures r.0.destination == ctx.destination && r.0.views == ctx.views && r.0.storage == ctx.storage
    ensures r.0.localStorageTtl == ctx.localStorageTtl && r.0.renderScheduled == ctx.renderScheduled
    ensures r.0.listening == ctx.listening
  {
    var responseUrl := ResponseUrl(state, requestUrl);
    if ctx.destination != Some(responseUrl) then (ctx, Stale)
    else
      var res := ResolveView(viewArg, state, responseUrl, ctx.viewName, ctx.views);
      var s1 := MarkOffline(Vivify(state), res.offline);
      var targetValue := if target != "" then Str(target) else Prop(Vivify(state), "_target");
      Show(Adopt(ctx, s1, res, responseUrl), env, s1, res, targetValue, responseUrl, requestUrl)
  }

  /** Precedence: a payload that is HTML text is painted as is, then the resolved view's HTML, then a full navigation. */
  lemma RenderResponsePrecedence(ctx: Context, env: Env, viewArg: string, state: Value, target: string, requestUrl: Url)
    requires ctx.destination == Some(ResponseUrl(state, requestUrl))
    ensures var r := RenderResponse(ctx, env, viewArg, state, target, requestUrl);
            var res := ResolveView(viewArg, state, ResponseUrl(state, requestUrl), ctx.viewName, ctx.views);
            var html := env.runView(res.name, MarkOffline(Vivify(state), res.offline));
            && (IsHtmlText(state) ==> r.1.Painted? && r.1.html == state.s)
            && (!IsHtmlText(state) && res.found && html != "" ==> r.1.Painted? && r.1.html == html)
            && (!IsHtmlText(state) && res.found ==> (r.1.Blank? <==> html == ""))
            && (!IsHtmlText(state) && !res.found ==> r.1 == Navigate(ResponseUrl(state, requestUrl)))
  {
    var responseUrl := ResponseUrl(state, requestUrl);
    var res := ResolveView(viewArg, state, responseUrl, ctx.viewName, ctx.views);
    var s1 := MarkOffline(Vivify(state), res.offline);
    var targetValue := if target != "" then Str(target) else Prop(Vivify(state), "_target");
    var c1 := Adopt(ctx, s1, res, responseUrl);
    assert RenderResponse(ctx, env, viewArg, state, target, requestUrl)
        == Show(c1, env, s1, res, targetValue, responseUrl, requestUrl);
    if IsHtmlText(state) {
      assert s1 == state;
    } else {
      assert !IsHtmlText(s1);
    }
  }

  /** A rendering that passes the guard records its view name, view, URL and offline mark. */
  lemma RenderResponseRemembers(ctx: Context, env: Env, viewArg: string, state: Value, target: string, requestUrl: Url)
    requires ctx.destination == Some(ResponseUrl(state, requestUrl))
    ensures var r := RenderResponse(ctx, env, viewArg, state, target, requestUrl);
            var res := ResolveView(viewArg, state, ResponseUrl(state, requestUrl), ctx.viewName, ctx.views);
            && r.0.viewName == res.name
            && r.0.url == ResponseUrl(state, requestUrl)
            && r.0.view == (if res.found then ViewOf(res.name) else NoView)
            && (Vivify(state).Obj? ==> (Prop(r.0.state, "_offline") == Bool(true) <==> res.offline))
  {
    var responseUrl := ResponseUrl(state, requestUrl);
    var res := ResolveView(viewArg, state, responseUrl, ctx.viewName, ctx.views);
    var s1 := MarkOffline(Vivify(state), res.offline);
    var targetValue := if target != "" then Str(target) else Prop(Vivify(state), "_target");
    var c1 := Adopt(ctx, s1, res, responseUrl);
    var r := Show(c1, env, s1, res, targetValue, responseUrl, requestUrl);
    assert RenderResponse(ctx, env, viewArg, state, target, requestUrl) == r;
  }

  /**
   * A painted response pushes or replaces history by comparing query-free
   * URLs, invalidates the cache slot of its request and clears the one-shot
   * target; anything else leaves the cache alone.
   */
  lemma RenderResponsePublishes(ctx: Context, env: Env, viewArg: string, state: Value, target: string, requestUrl: Url)
    ensures var r := RenderResponse(ctx, env, viewArg, state, target, requestUrl);
            && (r.1.Painted? ==> r.1.history == HistoryFor(ResponseUrl(state, requestUrl), env.location))
            && (r.1.Painted? ==> r.0.cache == ctx.cache - {requestUrl} && Prop(r.0.state, "_target") == Undefined)
            && (!r.1.Painted? ==> r.0.cache == ctx.cache)
  {
    var responseUrl := ResponseUrl(state, requestUrl);
    if ctx.destination == Some(responseUrl) {
      var res := ResolveView(viewArg, state, responseUrl, ctx.viewName, ctx.views);
      var s1 := MarkOffline(Vivify(state), res.offline);
      var targetValue := if target != "" then Str(target) else Prop(Vivify(state), "_target");
      var c1 := Adopt(ctx, s1, res, responseUrl);
      assert RenderResponse(ctx, env, viewArg, state, target, requestUrl)
          == Show(c1, env, s1, res, targetValue, responseUrl, requestUrl);
      ShowPublishes(c1, env, s1, res, targetValue, responseUrl, requestUrl);
    } else {
      assert RenderResponse(ctx, env, viewArg, state, target, requestUrl) == (ctx, Stale);
    }
  }

  /**
   * `Porta.render(viewName, state)`: re-render at the current location, which
   * becomes the destination, defaulting to the last view and state.
   */
  function Render(ctx: Context, env: Env, viewArg: string, state: Value): (r: (Context, Paint))
    ensures r.0.destination == Some(env.location)
    ensures r.1 == Stale <==> ResponseUrl(if Truthy(state) then state else ctx.state, env.location) != env.location
  {
    RenderResponse(ctx.(destination := Some(env.location)), env,
                   if viewArg != "" then viewArg else ctx.viewName,
                   if Truthy(state) then state else ctx.state, "", env.location)
  }

  // ------------------------------------------------- state store in context

  /** `Porta.set(path, value)`: update the state and arm the debounced render when something changed. */
  function SetPath(ctx: Context, path: string, value: Value): (r: Context)
    ensures path == "" ==> r == ctx
    ensures path != "" ==>
              r.renderScheduled == (ctx.renderScheduled
                                    || !StrictEq(StateStore.Lookup(Vivify(ctx.state), StateStore.Split(path)), value))
    ensures path != "" && StateStore.Walkable(Vivify(ctx.state), StateStore.Split(path)) ==>
              var prior := StateStore.Lookup(Vivify(ctx.state), StateStore.Split(path));
              StateStore.Lookup(r.state, StateStore.Split(path)) == (if value.Null? && !prior.Null? then Undefined else value)
    ensures r.cache == ctx.cache && r.destination == ctx.destination && r.viewName == ctx.viewName
  {
    var (s, changed) := StateStore.Set(ctx.state, path, value);
    StateStore.SetInSchedulesIffDifferent(Vivify(ctx.state), StateStore.Split(path), value);
    var r := ctx.(state := s, renderScheduled := ctx.renderScheduled || changed);
    if path != "" && StateStore.Walkable(Vivify(ctx.state), StateStore.Split(path)) then
      StateStore.SetInStores(Vivify(ctx.state), StateStore.Split(path), value);
      r
    else r
  }

  /** `Porta.get(path)`: the value at the path, materialising it as `{}` when falsy. */
  function GetPath(ctx: Context, path: string): (r: (Context, Value))
    ensures r.1 == Vivify(StateStore.Lookup(Vivify(ctx.state), StateStore.Split(path)))
    ensures r.0.cache == ctx.cache && r.0.renderScheduled == ctx.renderScheduled
  {
    var (s, found) := StateStore.Get(ctx.state, path);
    StateStore.GetInResult(Vivify(ctx.state), StateStore.Split(path));
    (ctx.(state := s), found)
  }

  /** The debounced render timer fires: it disarms and re-renders with the last view and state. */
  function RenderTimerFired(ctx: Context, env: Env): (r: (Context, Paint))
    requires ctx.renderScheduled
    ensures !r.0.renderScheduled
    ensures r.0.destination == Some(env.location)
  {
    Render(ctx.(renderScheduled := false), env, "", Undefined)
  }
}
