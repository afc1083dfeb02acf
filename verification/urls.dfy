/**
 * The URL string helpers of the Porta client (scripts/porta-jymin.js,
 * lines 185-216): same-domain test, hash and query removal, query-data
 * appending, the `.json` wire marker, and the `file://` rewrite used by
 * mobile builds.
 */
module Urls {

  type Url = string

  /** The marker inserted before the query string of every data request. */
  const JsonExt: string := ".json"

  /** `Jymin.startsWith(url, Porta.base)`: the URL is the base followed by something. */
  predicate IsSameDomain(url: Url, base: Url)
    ensures IsSameDomain(url, base) <==> exists rest :: url == base + rest
  {
    if base <= url then
      assert url == base + url[|base|..];
      true
    else false
  }

  /** `s.split(c)[0]`: the text before the first `c`, or all of `s`. */
  function Before(s: string, c: char): (r: string)
    ensures r <= s
    ensures c !in r
    ensures r == s || s[|r|] == c
  {
    if s == [] then []
    else if s[0] == c then []
    else [s[0]] + Before(s[1..], c)
  }

  /** `Before` is the unique prefix free of `c` that ends at `c` or at the end. */
  lemma {:induction false} BeforeUnique(s: string, c: char, p: string)
    requires p <= s && c !in p && (p == s || s[|p|] == c)
    ensures Before(s, c) == p
  {
    if s != [] && s[0] != c {
      assert p != [];
      BeforeUnique(s[1..], c, p[1..]);
    }
  }

  function RemoveHash(url: Url): (r: Url)
    ensures r <= url && '#' !in r
    ensures r == url || url[|r|] == '#'
  {
    Before(url, '#')
  }

  function RemoveQuery(url: Url): (r: Url)
    ensures r <= url && '?' !in r
    ensures r == url || url[|r|] == '?'
  {
    Before(url, '?')
  }

  /** Appends `data` after `?`, or after `&` when the URL already has a query. */
  function AppendData(url: Url, data: string): (r: Url)
    ensures '?' in url ==> r == url + "&" + data
    ensures '?' !in url ==> r == url + "?" + data
  {
    url + (if '?' in url then "&" else "?") + data
  }

  /** Appending data never changes what precedes the query string. */
  lemma AppendDataKeepsPath(url: Url, data: string)
    ensures RemoveQuery(AppendData(url, data)) == RemoveQuery(url)
    ensures '?' in AppendData(url, data)
  {
    var r := AppendData(url, data);
    var p := RemoveQuery(url);
    assert p <= r by { assert r[..|url|] == url; }
    if p == url {
      assert r[|p|] == '?';
    } else {
      assert r[|p|] == url[|p|];
    }
    BeforeUnique(r, '?', p);
  }

  /** Appending data keeps a same-domain URL same-domain. */
  lemma AppendDataSameDomain(url: Url, data: string, base: Url)
    requires IsSameDomain(url, base)
    ensures IsSameDomain(AppendData(url, data), base)
  {
    assert AppendData(url, data)[..|url|] == url;
  }

  /** `.json` occurs at index i of s. */
  predicate JsonAt(s: string, i: nat) {
    i + |JsonExt| <= |s| && s[i..i + |JsonExt|] == JsonExt
  }

  predicate NoJson(s: string) {
    forall i: nat :: i < |s| ==> !JsonAt(s, i)
  }

  /** `url.replace(/\.json/g, '')`: a left-to-right scan deleting each `.json`. */
  function RemoveExtension(url: Url): (r: Url)
    ensures |r| <= |url|
    ensures |r| == |url| ==> r == url
    decreases |url|
  {
    if JsonAt(url, 0) then RemoveExtension(url[|JsonExt|..])
    else if url == [] then []
    else [url[0]] + RemoveExtension(url[1..])
  }

  /** The scan shortens a URL exactly when some `.json` occurs in it. */
  lemma {:induction false} RemoveExtensionShortens(url: Url)
    ensures |RemoveExtension(url)| < |url| <==> !NoJson(url)
    decreases |url|
  {
    if JsonAt(url, 0) {
      assert !NoJson(url);
    } else if url != [] {
      NoJsonStep(url);
      RemoveExtensionShortens(url[1..]);
    }
  }

  /** Past a position where no marker starts, being free of `.json` is decided by the rest. */
  lemma NoJsonStep(s: string)
    requires s != [] && !JsonAt(s, 0)
    ensures NoJson(s) <==> NoJson(s[1..])
  {
    var t := s[1..];
    if NoJson(s) {
      NoJsonTail(s);
    } else {
      var i: nat :| i < |s| && JsonAt(s, i);
      assert i > 0;
      assert t[i - 1..i - 1 + |JsonExt|] == s[i..i + |JsonExt|];
      assert JsonAt(t, i - 1);
    }
  }

  /** Dropping the first character keeps a string free of `.json`. */
  lemma NoJsonTail(s: string)
    requires s != [] && NoJson(s)
    ensures NoJson(s[1..])
  {
    var t := s[1..];
    forall i: nat | i < |t| ensures !JsonAt(t, i) {
      assert !JsonAt(s, i + 1);
      if i + |JsonExt| <= |t| {
        assert t[i..i + |JsonExt|] == s[i + 1..i + 1 + |JsonExt|];
      }
    }
  }

  /** A URL without `.json` passes through unchanged. */
  lemma RemoveExtensionOfPlain(url: Url)
    requires NoJson(url)
    ensures RemoveExtension(url) == url
  {
    RemoveExtensionShortens(url);
  }

  /** No marker starts inside a plain non-empty prefix of a spliced marker. */
  lemma NoMarkBeforeSplice(a: string, b: string)
    requires a != [] && NoJson(a)
    ensures !JsonAt(a + JsonExt + b, 0)
  {
    var s := a + JsonExt + b;
    var n := |JsonExt|;
    if |a| >= n {
      assert !JsonAt(a, 0);
      assert s[0..n] == a[0..n];
    } else {
      // the spliced marker starts with a dot, which the marker never
      // repeats after its own first position
      assert s[0..n][|a|] == '.';
      assert JsonExt[|a|] != '.';
    }
  }

  /** One step of the scan when no marker starts at the front. */
  lemma RemoveExtensionStep(s: string)
    requires s != [] && !JsonAt(s, 0)
    ensures RemoveExtension(s) == [s[0]] + RemoveExtension(s[1..])
  {
  }

  /** Deleting a single `.json` spliced after a plain prefix: no match can straddle the splice. */
  lemma {:induction false} RemoveExtensionSplice(a: string, b: string)
    requires NoJson(a)
    ensures RemoveExtension(a + JsonExt + b) == a + RemoveExtension(b)
    decreases |a|
  {
    var s := a + JsonExt + b;
    if a == [] {
      assert s == JsonExt + b;
      assert JsonAt(s, 0);
      assert s[|JsonExt|..] == b;
    } else {
      var t := a[1..] + JsonExt + b;
      assert s[1..] == t;
      NoMarkBeforeSplice(a, b);
      RemoveExtensionStep(s);
      NoJsonTail(a);
      RemoveExtensionSplice(a[1..], b);
      assert RemoveExtension(t) == a[1..] + RemoveExtension(b);
      assert [a[0]] + (a[1..] + RemoveExtension(b)) == a + RemoveExtension(b);
    }
  }

  /** Position of the first `?` in s, or |s|. */
  function QueryStart(s: string): (i: nat)
    ensures i <= |s|
    ensures s[..i] == RemoveQuery(s)
  {
    |RemoveQuery(s)|
  }

  /**
   * `removeExtension(url).replace(/(\?|$)/, '.json$1')`: strip every marker,
   * then insert one immediately before the first `?`, or at the end.
   */
  function AppendExtension(url: Url): (r: Url)
    ensures var p := RemoveExtension(url);
            var i := QueryStart(p);
            && |r| == |p| + |JsonExt|
            && r[..i] == RemoveQuery(p)
            && JsonAt(r, i)
            && r[i + |JsonExt|..] == p[i..]
  {
    var p := RemoveExtension(url);
    var i := QueryStart(p);
    p[..i] + JsonExt + p[i..]
  }

  /** The marker lands right after the query-free part of the stripped URL, and nothing else moves. */
  lemma AppendExtensionShape(url: Url)
    ensures var p := RemoveExtension(url);
            var q := RemoveQuery(p);
            && RemoveQuery(AppendExtension(url)) == q + JsonExt
            && AppendExtension(url)[|q| + |JsonExt|..] == p[|q|..]
  {
    var p := RemoveExtension(url);
    var q := RemoveQuery(p);
    var r := AppendExtension(url);
    assert r == q + JsonExt + p[|q|..];
    assert '?' !in JsonExt;
    assert q + JsonExt <= r;
    assert '?' !in q + JsonExt;
    if |q| < |p| {
      assert r[|q + JsonExt|] == p[|q|] == '?';
    } else {
      assert r == q + JsonExt;
    }
    BeforeUnique(r, '?', q + JsonExt);
  }

  /** Stripping the marker undoes adding it, whenever the stripped URL holds no spliced `.json`. */
  lemma AppendExtensionRoundTrip(url: Url)
    requires NoJson(RemoveExtension(url))
    ensures RemoveExtension(AppendExtension(url)) == RemoveExtension(url)
  {
    var p := RemoveExtension(url);
    var i := QueryStart(p);
    var a, b := p[..i], p[i..];
    assert p == a + b;
    forall k: nat | k < |a| ensures !JsonAt(a, k) {
      assert !JsonAt(p, k);
      if k + |JsonExt| <= |a| {
        assert p[k..k + |JsonExt|] == a[k..k + |JsonExt|];
      }
    }
    forall k: nat | k < |b| ensures !JsonAt(b, k) {
      assert !JsonAt(p, k + i);
      if k + |JsonExt| <= |b| {
        assert p[k + i..k + i + |JsonExt|] == b[k..k + |JsonExt|];
      }
    }
    RemoveExtensionSplice(a, b);
    RemoveExtensionOfPlain(b);
  }

  /** Under the same condition, adding the marker twice is adding it once. */
  lemma AppendExtensionIdempotent(url: Url)
    requires NoJson(RemoveExtension(url))
    ensures AppendExtension(AppendExtension(url)) == AppendExtension(url)
  {
    AppendExtensionRoundTrip(url);
  }

  /** The tail of the example: one marker followed by `on`. */
  lemma MarkerThenOn()
    ensures RemoveExtension(".jsonon") == "on"
  {
    assert RemoveExtension("n") == "n";
    assert RemoveExtension("on") == "on";
    assert JsonAt(".jsonon", 0);
    assert ".jsonon"[5..] == "on";
  }

  /** Deleting the one marker in `.js.jsonon` splices a new one together. */
  lemma SplicedMarker()
    ensures RemoveExtension(".js.jsonon") == JsonExt
  {
    MarkerThenOn();
    assert "s.jsonon"[0..5][0] == 's';
    RemoveExtensionStep("s.jsonon");
    assert "s.jsonon"[1..] == ".jsonon";
    assert "js.jsonon"[0..5][0] == 'j';
    RemoveExtensionStep("js.jsonon");
    assert "js.jsonon"[1..] == "s.jsonon";
    assert ".js.jsonon"[0..5][3] == '.';
    RemoveExtensionStep(".js.jsonon");
    assert ".js.jsonon"[1..] == "js.jsonon";
  }

  /** Adding the marker to `.js.jsonon` strips it to `.json` first and then appends another. */
  lemma SplicedAppend()
    ensures AppendExtension(".js.jsonon") == JsonExt + JsonExt
  {
    SplicedMarker();
    BeforeUnique(".json", '?', ".json");
    assert QueryStart(".json") == 5;
    assert JsonExt[..5] == JsonExt && JsonExt[5..] == "";
  }

  /** Without the condition the round trip fails: `.js.jsonon` strips to `.json` but comes back as nothing. */
  lemma AppendExtensionSpliceCounterexample()
    ensures RemoveExtension(".js.jsonon") == JsonExt
    ensures RemoveExtension(AppendExtension(".js.jsonon")) == ""
  {
    SplicedMarker();
    SplicedAppend();
    DoubleMarker();
  }

  /** Two markers in a row are both deleted. */
  lemma DoubleMarker()
    ensures RemoveExtension(JsonExt + JsonExt) == ""
  {
    RemoveExtensionSplice("", JsonExt);
    assert "" + JsonExt + JsonExt == JsonExt + JsonExt;
    assert JsonAt(JsonExt, 0);
    assert RemoveExtension(JsonExt) == RemoveExtension("") == "";
  }

  /**
   * `removeHash(href).replace(/^file:\/\//, window._href)`: a link read from
   * a bundled `file://` page is redirected to the external base.
   */
  function GetHref(href: Url, hrefBase: Url): (r: Url)
    ensures "file://" <= RemoveHash(href) ==> r == hrefBase + RemoveHash(href)[7..]
    ensures !("file://" <= RemoveHash(href)) ==> r == RemoveHash(href)
  {
    var h := RemoveHash(href);
    if "file://" <= h then hrefBase + h[7..] else h
  }

  /** The resolved link never carries a fragment unless the external base does. */
  lemma GetHrefHasNoHash(href: Url, hrefBase: Url)
    requires '#' !in hrefBase
    ensures '#' !in GetHref(href, hrefBase)
  {
    var h := RemoveHash(href);
    if "file://" <= h {
      assert forall k | 0 <= k < |h[7..]| :: h[7..][k] == h[k + 7];
    }
  }
}
