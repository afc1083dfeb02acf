/**
 * The browser events the Porta client intercepts (scripts/porta-jymin.js,
 * lines 18-160): registration through `Porta(viewsOrState)`, link clicks,
 * hover prefetching, input changes, form submission with its field filter,
 * and the back button. The DOM is reduced to the few attributes each
 * handler reads.
 */
module Interceptor {
  import opened Values
  import opened Urls
  import opened Engine
  import Render
  import Dispatcher
  import StateStore

  // ------------------------------------------------------------ form data

  /** `Jymin.value(input)`: a string, a list (a multiple select), or nothing usable. */
  datatype FieldValue = Scalar(s: string) | Listed(items: seq<string>) | NoValue {
    /** JavaScript truthiness of the value: a list is an object and always truthy. */
    predicate Truthy() {
      match this
      case Scalar(s) => s != ""
      case Listed(_) => true
      case NoValue => false
    }
  }

  /** A form control as the submit handler sees it. */
  datatype Field = Field(name: string, kind: string, value: FieldValue, isClickedButton: bool)

  /** Controls left out of the submission: unnamed, an unselected radio, or a submit button not clicked. */
  predicate Ignored(f: Field) {
    f.name == ""
    || (f.kind == "radio" && !f.value.Truthy())
    || (f.kind == "submit" && !f.isClickedButton)
  }

  /** `escape(name) + '=' + escape(value)`. */
  function Pair(name: string, value: string, escape: string -> string): string {
    escape(name) + "=" + escape(value)
  }

  /** The pairs one control contributes: one for a string, one per item for a list. */
  function Pairs(f: Field, escape: string -> string): (ps: seq<string>)
    ensures Ignored(f) ==> ps == []
    ensures !Ignored(f) && f.value.Scalar? ==> ps == [Pair(f.name, f.value.s, escape)]
    ensures !Ignored(f) && f.value.Listed? ==>
              |ps| == |f.value.items|
              && forall i :: 0 <= i < |ps| ==> ps[i] == Pair(f.name, f.value.items[i], escape)
  {
    if Ignored(f) then []
    else match f.value
      case Scalar(s) => [Pair(f.name, s, escape)]
      case Listed(items) => seq(|items|, i requires 0 <= i < |items| => Pair(f.name, items[i], escape))
      case NoValue => []
  }

  /** Reference definition: every control's pairs, in document order. */
  function Serialize(fields: seq<Field>, escape: string -> string): seq<string>
  {
    if fields == [] then [] else Serialize(fields[..|fields| - 1], escape) + Pairs(fields[|fields| - 1], escape)
  }

  /** Serialising a concatenation serialises each part in order. */
  lemma {:induction false} SerializeAppend(a: seq<Field>, b: seq<Field>, escape: string -> string)
    ensures Serialize(a + b, escape) == Serialize(a, escape) + Serialize(b, escape)
    decreases |b|
  {
    if b != [] {
      var b' := b[..|b| - 1];
      assert (a + b)[..|a + b| - 1] == a + b';
      assert (a + b)[|a + b| - 1] == b[|b| - 1];
      SerializeAppend(a, b', escape);
    } else {
      assert a + b == a;
    }
  }

  /** Every pair comes from a control the filter keeps. */
  lemma {:induction false} SerializeOnlyKept(fields: seq<Field>, escape: string -> string, p: string)
    requires p in Serialize(fields, escape)
    ensures exists i :: 0 <= i < |fields| && !Ignored(fields[i]) && p in Pairs(fields[i], escape)
    decreases |fields|
  {
    var init := fields[..|fields| - 1];
    var last := fields[|fields| - 1];
    if p in Pairs(last, escape) {
      assert !Ignored(last);
    } else {
      assert p in Serialize(init, escape);
      SerializeOnlyKept(init, escape, p);
      var i :| 0 <= i < |init| && !Ignored(init[i]) && p in Pairs(init[i], escape);
      assert fields[i] == init[i];
    }
  }

  /** `pushFormValue` for one control: its pairs appended after what was gathered so far. */
  method PushField(data: seq<string>, f: Field, escape: string -> string) returns (d: seq<string>)
    ensures d == data + Pairs(f, escape)
  {
    d := data;
    if !Ignored(f) {
      match f.value {
        case Scalar(s) =>
          d := d + [Pair(f.name, s, escape)];
        case Listed(items) =>
          var j := 0;
          while j < |items|
            invariant 0 <= j <= |items|
            invariant d == data + Pairs(f, escape)[..j]
          {
            d := d + [Pair(f.name, items[j], escape)];
            j := j + 1;
          }
          assert Pairs(f, escape)[..j] == Pairs(f, escape);
        case NoValue =>
      }
    }
  }

  /** The gathering loop of the submit handler computes the reference serialisation. */
  method CollectFormData(fields: seq<Field>, escape: string -> string) returns (data: seq<string>)
    ensures data == Serialize(fields, escape)
  {
    data := [];
    var i := 0;
    while i < |fields|
      invariant 0 <= i <= |fields|
      invariant data == Serialize(fields[..i], escape)
    {
      data := PushField(data, fields[i], escape);
      assert fields[..i + 1][..i] == fields[..i];
      i := i + 1;
    }
    assert fields[..i] == fields;
  }

  /** An unselected radio is dropped and a text field contributes one escaped pair. */
  lemma SerializeExample(escape: string -> string)
    ensures Serialize([Field("r", "radio", Scalar(""), false), Field("q", "text", Scalar("a b"), false)], escape)
            == [Pair("q", "a b", escape)]
  {
    var fs := [Field("r", "radio", Scalar(""), false), Field("q", "text", Scalar("a b"), false)];
    assert fs[..1] == [fs[0]] && [fs[0]][..0] == [];
    assert Ignored(fs[0]) && !Ignored(fs[1]);
  }

  /** `data.join('&')`. */
  function JoinAmp(parts: seq<string>): string {
    if parts == [] then ""
    else if |parts| == 1 then parts[0]
    else parts[0] + "&" + JoinAmp(parts[1..])
  }

  /** Decimal rendering of a clock reading. */
  function NatToString(n: nat): (s: string)
    ensures s != [] && forall i :: 0 <= i < |s| ==> '0' <= s[i] <= '9'
  {
    var d := ['0', '1', '2', '3', '4', '5', '6', '7', '8', '9'];
    if n < 10 then [d[n]] else NatToString(n / 10) + [d[n % 10]]
  }

  // ------------------------------------------------------------ submission

  /** A form as the submit handler sees it. */
  datatype Form = Form(
    action: Url,            // `form.action`, "" when absent
    enctype: string,        // the `enctype` attribute
    httpMethod: string,     // `form.method`
    valid: bool,            // `form._validate()`, or true without a validator
    fields: seq<Field>,
    target: string,         // `_portaTarget`
    viewName: string        // `_portaView`
  )

  function LowerChar(c: char): char {
    if 'A' <= c <= 'Z' then (c as int + 32) as char else c
  }

  /** `Jymin.lower`: ASCII lower case. */
  function Lower(s: string): (r: string)
    ensures |r| == |s| && forall i :: 0 <= i < |s| ==> r[i] == LowerChar(s[i])
  {
    if s == [] then [] else [LowerChar(s[0])] + Lower(s[1..])
  }

  /** `t` occurs somewhere in `s`. */
  predicate Contains(s: string, t: string) {
    t <= s || (s != [] && Contains(s[1..], t))
  }

  /** `removeHash(form.action || removeQuery(location))`: where the form submits to. */
  function FormBase(form: Form, location: Url): Url {
    RemoveHash(if form.action != "" then form.action else RemoveQuery(location))
  }

  /** The handler takes over a same-domain form that is not a multipart upload. */
  predicate Intercepts(form: Form, env: Env) {
    IsSameDomain(FormBase(form, env.location), env.base)
    && !Contains(form.enctype, "multipart")
  }

  /** The request a GET form issues, as written: the data become the URL and the URL is dropped. */
  function GetFormUrlAsWritten(stamped: Url, data: seq<string>): (r: Url)
    ensures r == JoinAmp(data) + "&undefined" || r == JoinAmp(data) + "?undefined"
  {
    AppendData(JoinAmp(data), "undefined")
  }

  /** The request a GET form evidently intends: the data appended to the time-stamped URL. */
  function GetFormUrl(stamped: Url, data: seq<string>): (r: Url)
    ensures r == stamped + "&" + JoinAmp(data) || r == stamped + "?" + JoinAmp(data)
  {
    AppendData(stamped, JoinAmp(data))
  }

  /**
   * As written, a GET submission drops the form's address: the request URL
   * does not depend on it, and before its query it is just the joined data.
   */
  lemma GetFormUrlAsWrittenDropsAddress(stamped: Url, other: Url, data: seq<string>)
    ensures GetFormUrlAsWritten(stamped, data) == GetFormUrlAsWritten(other, data)
    ensures '?' !in JoinAmp(data) ==> RemoveQuery(GetFormUrlAsWritten(stamped, data)) == JoinAmp(data)
  {
    var j := JoinAmp(data);
    if '?' !in j {
      var r := GetFormUrlAsWritten(stamped, data);
      assert r == j + "?" + "undefined";
      assert r[|j|] == '?';
      BeforeUnique(r, '?', j);
    }
  }

  /** From `http://h/s` with the field `q=x`, the as-written request goes to `q=x?undefined`, outside the base. */
  lemma GetFormUrlAsWrittenExample()
    ensures GetFormUrlAsWritten("http://h/s?v=1", ["q=x"]) == "q=x?undefined"
    ensures !IsSameDomain(GetFormUrlAsWritten("http://h/s?v=1", ["q=x"]), "http://h/")
  {
    assert JoinAmp(["q=x"]) == "q=x";
    assert '?' !in "q=x";
    assert "q=x?undefined"[0] != "http://h/"[0];
  }

  /** Corrected, a GET submission stays on the form's page and keeps its address before the query. */
  lemma GetFormUrlKeepsPage(url: Url, now: nat, data: seq<string>, base: Url)
    requires IsSameDomain(url, base)
    ensures var r := GetFormUrl(AppendData(url, "v=" + NatToString(now)), data);
            && IsSameDomain(r, base)
            && RemoveQuery(r) == RemoveQuery(url)
            && '?' in r
  {
    var stamped := AppendData(url, "v=" + NatToString(now));
    AppendDataKeepsPath(url, "v=" + NatToString(now));
    AppendDataSameDomain(url, "v=" + NatToString(now), base);
    AppendDataKeepsPath(stamped, JoinAmp(data));
    AppendDataSameDomain(stamped, JoinAmp(data), base);
  }

  /** What submitting a form does: nothing special, stop, or load a URL with an optional body. */
  datatype Submission = Native | Halted | Sent(url: Url, body: Option<string>)

  /** The submit handler's decision, with the GET branch corrected. */
  function Submit(form: Form, env: Env, escape: string -> string): (s: Submission)
    ensures s.Native? <==> !Intercepts(form, env)
    ensures s.Halted? <==> Intercepts(form, env) && !form.valid
    ensures s.Sent? && Lower(form.httpMethod) == "get" ==>
              s.body.None? && IsSameDomain(s.url, env.base)
              && RemoveQuery(s.url) == RemoveQuery(FormBase(form, env.location))
    ensures s.Sent? && Lower(form.httpMethod) != "get" ==>
              s.body == Some(JoinAmp(Serialize(form.fields, escape)))
              && s.url == AppendExtension(AppendData(FormBase(form, env.location), "v=" + NatToString(env.now)))
  {
    if !Intercepts(form, env) then Native
    else if !form.valid then Halted
    else
      var url := FormBase(form, env.location);
      var data := Serialize(form.fields, escape);
      var stamped := AppendData(url, "v=" + NatToString(env.now));
      if Lower(form.httpMethod) == "get" then
        GetFormUrlKeepsPage(url, env.now, data, env.base);
        Sent(GetFormUrl(stamped, data), None)
      else Sent(AppendExtension(stamped), Some(JoinAmp(data)))
  }

  /** The submit event: a sent submission loads its URL with the form's target and view. */
  function FormSubmitted(ctx: Context, env: Env, form: Form, escape: string -> string): (r: (Context, Submission, seq<Effect>))
    ensures r.1 == Submit(form, env, escape)
    ensures !r.1.Sent? ==> r.0 == ctx && r.2 == []
    ensures r.1.Sent? ==> r.0.destination == Some(RemoveExtension(r.1.url))
  {
    var s := Submit(form, env, escape);
    if s.Sent? then
      var (c, es) := Dispatcher.Load(ctx, env, s.url, s.body, Source(form.target, form.viewName));
      (c, s, es)
    else (ctx, s, [])
  }

  // ---------------------------------------------------------------- links

  /** What a click on a link does. */
  datatype Click =
    | Passed                                    // the browser follows the link
    | Blocked                                   // default action prevented, nothing else
    | Scrolled(anchor: string, replaced: Url)   // in-page anchor: scroll and replace history
    | Loading(url: Url)                         // handled by `Porta.load`

  /**
   * A click or tap on a link: `hrefAttr` is the literal `href` attribute,
   * `href` the resolved address, `button` the `event.which` (0 when absent).
   */
  function LinkClicked(ctx: Context, env: Env, hrefAttr: string, href: Url, button: int, source: Source)
    : (r: (Context, Click, seq<Effect>))
    ensures var url := GetHref(href, env.hrefBase);
            var left := button == 0 || button == 1;
            && (left && "#" <= hrefAttr ==> r.1 == Scrolled(hrefAttr[1..], url + hrefAttr) && r.0 == ctx)
            && (left && !("#" <= hrefAttr) && url != "" && IsSameDomain(url, env.base) ==>
                  r.1 == Loading(url) && r.0.destination == Some(RemoveExtension(url)))
            && (left && !("#" <= hrefAttr) && !(url != "" && IsSameDomain(url, env.base)) ==> r.1 == Passed)
            && (!left ==> r.1 == (if url == "" then Blocked else Passed) && r.0 == ctx && r.2 == [])
  {
    var url := GetHref(href, env.hrefBase);
    if button == 0 || button == 1 then
      if "#" <= hrefAttr then (ctx, Scrolled(hrefAttr[1..], url + hrefAttr), [])
      else if url != "" && IsSameDomain(url, env.base) then
        var (c, es) := Dispatcher.Load(ctx, env, url, None, source);
        (c, Loading(url), es)
      else (ctx, Passed, [])
    else if url == "" then (ctx, Blocked, [])
    else (ctx, Passed, [])
  }

  /** A same-domain left click never sends a fragment to the server (given a fragment-free external base). */
  lemma LinkLoadHasNoHash(ctx: Context, env: Env, hrefAttr: string, href: Url, button: int, source: Source)
    requires '#' !in env.hrefBase
    ensures var r := LinkClicked(ctx, env, hrefAttr, href, button, source);
            r.1.Loading? ==> '#' !in r.1.url
  {
    GetHrefHasNoHash(href, env.hrefBase);
  }

  /** Hovering a link prefetches it when it is another same-domain page and prefetching is not disabled. */
  function LinkHovered(ctx: Context, env: Env, href: Url, noPrefetch: bool): (r: (Context, seq<Effect>))
    ensures var url := GetHref(href, env.hrefBase);
            !(!noPrefetch && url != RemoveHash(env.location) && IsSameDomain(url, env.base)) ==> r == (ctx, [])
    ensures var url := GetHref(href, env.hrefBase);
            !noPrefetch && url != RemoveHash(env.location) && IsSameDomain(url, env.base) ==>
              r == Dispatcher.Prefetch(ctx, env, url)
    ensures r.0.destination == ctx.destination
  {
    var url := GetHref(href, env.hrefBase);
    if !noPrefetch && url != RemoveHash(env.location) && IsSameDomain(url, env.base) then
      Dispatcher.Prefetch(ctx, env, url)
    else (ctx, [])
  }

  // ------------------------------------------------------- inputs, history

  /** A control changes: its value is written to the state under its name. */
  function InputChanged(ctx: Context, name: string, value: Value): (r: Context)
    ensures name == "" ==> r == ctx
    ensures name != "" ==>
              var prior := StateStore.Lookup(Vivify(ctx.state), StateStore.Split(name));
              r.renderScheduled == (ctx.renderScheduled || !StrictEq(prior, value))
    ensures name != "" && StateStore.Walkable(Vivify(ctx.state), StateStore.Split(name)) ==>
              var prior := StateStore.Lookup(Vivify(ctx.state), StateStore.Split(name));
              StateStore.Lookup(r.state, StateStore.Split(name)) == (if value.Null? && !prior.Null? then Undefined else value)
  {
    Render.SetPath(ctx, name, value)
  }

  /** A click on a submit button also records its value; other buttons record nothing. */
  function ButtonClicked(ctx: Context, kind: string, name: string, value: Value): (r: Context)
    ensures kind != "submit" ==> r == ctx
    ensures kind == "submit" ==> r == InputChanged(ctx, name, value)
  {
    if kind == "submit" then Render.SetPath(ctx, name, value) else ctx
  }

  /**
   * The back button. The handler compares the `location` object with the
   * destination string, which are never identical, so it always loads the
   * current address.
   */
  function HistoryPopped(ctx: Context, env: Env): (r: (Context, seq<Effect>))
    ensures r.0.destination == Some(RemoveExtension(env.location))
    ensures !env.loadExcluded(env.location) && SlotOf(ctx.cache, env.location).Pending? ==> r.1 == []
  {
    Dispatcher.Load(ctx, env, env.location, None, Source("", ""))
  }

  // ---------------------------------------------------------- registration

  /** An entry passed to `Porta(...)`: a view function, or a state value. */
  datatype Entry = ViewEntry | StateEntry(value: Value)

  /** `Porta.listen()`: idempotent. */
  function Listen(ctx: Context): (r: Context)
    ensures r.listening && r == ctx.(listening := true)
  {
    if ctx.listening then ctx else ctx.(listening := true)
  }

  /** Each entry goes to the views or to the state, in order. */
  function AddEntries(ctx: Context, entries: seq<(string, Entry)>): (r: Context)
    ensures r.cache == ctx.cache && r.destination == ctx.destination && r.listening == ctx.listening
    ensures ctx.views <= r.views
    ensures entries != [] && entries[|entries| - 1].1.ViewEntry? ==> entries[|entries| - 1].0 in r.views
    ensures (forall i :: 0 <= i < |entries| ==> entries[i].1.ViewEntry?) ==> r.state == ctx.state
    decreases |entries|
  {
    if entries == [] then ctx
    else
      var (name, e) := entries[|entries| - 1];
      var c := AddEntries(ctx, entries[..|entries| - 1]);
      match e
      case ViewEntry => c.(views := c.views + {name})
      case StateEntry(v) => c.(state := Put(c.state, name, v))
  }

  /** `Porta(viewsOrState)`: register entries, then listen when the last one was a view and history is available. */
  function Register(ctx: Context, env: Env, entries: seq<(string, Entry)>): (r: Context)
    ensures r.listening <==> ctx.listening || (entries != [] && entries[|entries| - 1].1.ViewEntry? && env.hasPushState)
  {
    var c := AddEntries(ctx, entries);
    if entries != [] && entries[|entries| - 1].1.ViewEntry? && env.hasPushState then Listen(c) else c
  }

  /** The views after registration: the old ones plus every name given a view function. */
  lemma {:induction false} AddEntriesViews(ctx: Context, entries: seq<(string, Entry)>, name: string)
    ensures name in AddEntries(ctx, entries).views
            <==> name in ctx.views || exists i :: 0 <= i < |entries| && entries[i] == (name, ViewEntry)
    decreases |entries|
  {
    if entries != [] {
      var init := entries[..|entries| - 1];
      AddEntriesViews(ctx, init, name);
      if exists i :: 0 <= i < |init| && init[i] == (name, ViewEntry) {
        var i :| 0 <= i < |init| && init[i] == (name, ViewEntry);
        assert entries[i] == init[i];
      }
      if exists i :: 0 <= i < |entries| && entries[i] == (name, ViewEntry) {
        var i :| 0 <= i < |entries| && entries[i] == (name, ViewEntry);
        if i < |init| {
          assert init[i] == entries[i];
        }
      }
    }
  }

  /** A state entry lands in the state (when it is an object), and the last write to a name wins. */
  lemma {:induction false} AddEntriesLastWins(ctx: Context, entries: seq<(string, Entry)>, k: nat)
    requires ctx.state.Obj? && k < |entries| && entries[k].1.StateEntry?
    requires forall j :: k < j < |entries| ==> entries[j].0 != entries[k].0 || entries[j].1.ViewEntry?
    ensures Prop(AddEntries(ctx, entries).state, entries[k].0) == entries[k].1.value
    ensures AddEntries(ctx, entries).state.Obj?
    decreases |entries|
  {
    var init := entries[..|entries| - 1];
    if k < |entries| - 1 {
      assert init[k] == entries[k];
      AddEntriesLastWins(ctx, init, k);
    } else {
      AddEntriesStaysObject(ctx, init);
    }
  }

  /** The state stays an object while entries are added. */
  lemma {:induction false} AddEntriesStaysObject(ctx: Context, entries: seq<(string, Entry)>)
    requires ctx.state.Obj?
    ensures AddEntries(ctx, entries).state.Obj?
    decreases |entries|
  {
    if entries != [] {
      AddEntriesStaysObject(ctx, entries[..|entries| - 1]);
    }
  }
}
