/**
 * The request proxy in front of every page: it passes static files and API
 * routes through, redirects a path without a locale segment to the locale
 * chosen from the Accept-Language header, and gives a browser without a
 * `deviceId` cookie a fresh one.
 */
module Proxy {
  import opened Wrappers
  import opened Strings
  import LanguageSwitcher

  /** The proxy's own locale list; it knows only two of the switcher's five codes. */
  const Locales: seq<string> := ["en", "hi"]
  const DefaultLocale: string := "en"

  // ---------------------------------------------------------------------
  // getLocale

  /** One comma-separated entry reduced to a tag: cut at `;`, trimmed, first two characters. */
  function Tag(entry: string): (tag: string)
    ensures |tag| <= 2 && ';' !in tag
    ensures StartsWith(Trim(Split(entry, ';')[0]), tag)
    ensures |tag| == if |Trim(Split(entry, ';')[0])| < 2 then |Trim(Split(entry, ';')[0])| else 2
  {
    SplitParts(entry, ';');
    Take(Trim(Split(entry, ';')[0]), 2)
  }

  /** The tags of the header's entries, one per comma-separated entry, in header order. */
  function PreferredLocales(header: string): (tags: seq<string>)
    ensures |tags| == |Split(header, ',')|
    ensures forall k :: 0 <= k < |tags| ==> tags[k] == Tag(Split(header, ',')[k])
  {
    var entries := Split(header, ',');
    seq(|entries|, k requires 0 <= k < |entries| => Tag(entries[k]))
  }

  /** The first supported tag, if any. */
  function FirstSupported(tags: seq<string>): (r: Option<string>)
    ensures r.Some? ==> r.value in Locales && r.value in tags
  {
    if tags == [] then None
    else if tags[0] in Locales then Some(tags[0])
    else FirstSupported(tags[1..])
  }

  /** The locale `getLocale` answers for a header value (`None` when the header is absent). */
  function ChooseLocale(acceptLanguage: Option<string>): (locale: string)
    ensures locale in Locales
  {
    if acceptLanguage.None? || acceptLanguage.value == "" then DefaultLocale
    else
      match FirstSupported(PreferredLocales(acceptLanguage.value))
      case Some(l) => l
      case None => DefaultLocale
  }

  /** `getLocale`: the tags are computed, then searched in order with an early return. */
  method GetLocale(acceptLanguage: Option<string>) returns (locale: string)
    ensures locale == ChooseLocale(acceptLanguage)
    ensures locale in Locales
  {
    if acceptLanguage.None? || acceptLanguage.value == "" {
      return DefaultLocale;
    }
    var preferred := PreferredLocales(acceptLanguage.value);
    for i := 0 to |preferred|
      invariant FirstSupported(preferred[i..]) == FirstSupported(preferred)
    {
      assert preferred[i..][1..] == preferred[i + 1..];
      if preferred[i] in Locales {
        return preferred[i];
      }
    }
    return DefaultLocale;
  }

  /** The first supported tag in header order is the one chosen ... */
  lemma {:induction false} FirstSupportedIsFirst(tags: seq<string>, k: nat)
    requires k < |tags| && tags[k] in Locales
    requires forall j :: 0 <= j < k ==> tags[j] !in Locales
    ensures FirstSupported(tags) == Some(tags[k])
    decreases k
  {
    if k > 0 {
      FirstSupportedIsFirst(tags[1..], k - 1);
    }
  }

  /** ... and nothing is chosen exactly when no tag is supported. */
  lemma {:induction false} FirstSupportedNone(tags: seq<string>)
    ensures FirstSupported(tags).None? <==> forall k :: 0 <= k < |tags| ==> tags[k] !in Locales
    decreases |tags|
  {
    if tags != [] {
      FirstSupportedNone(tags[1..]);
      assert forall k :: 1 <= k < |tags| ==> tags[k] == tags[1..][k - 1];
    }
  }

  /** No header, or an empty one, gives the default. */
  lemma NoHeaderIsDefault()
    ensures ChooseLocale(None) == "en" && ChooseLocale(Some("")) == "en"
  {
  }

  /** A string that neither starts nor ends with whitespace is its own trim. */
  lemma TrimClean(s: string)
    requires s == [] || (!IsJsWhitespace(s[0]) && !IsJsWhitespace(s[|s| - 1]))
    ensures Trim(s) == s
  {
  }

  /** An entry `code` + `tail` whose first `;`-piece is clean and starts with a two-letter code has that code as tag. */
  lemma TagOfEntry(code: string, tail: string, params: string)
    requires |code| == 2 && ';' !in code + tail
    requires !IsJsWhitespace(code[0]) && ((tail == [] && !IsJsWhitespace(code[1])) || (tail != [] && !IsJsWhitespace(tail[|tail| - 1])))
    requires params == [] || params[0] == ';'
    ensures Tag(code + tail + params) == code
  {
    var f := code + tail;
    if params == [] {
      assert f + params == f;
      SplitNoSep(f, ';');
    } else {
      assert f + params == f + [';'] + params[1..];
      SplitCons(f, params[1..], ';');
    }
    TrimClean(f);
  }

  /** Whitespace before the code, as after the comma in `fr, hi`, is trimmed away. */
  lemma TagTrimsLeadingSpace(code: string, params: string)
    requires |code| == 2 && ';' !in code && !IsJsWhitespace(code[0]) && !IsJsWhitespace(code[1])
    requires params == [] || params[0] == ';'
    ensures Tag(" " + code + params) == code
  {
    var f := " " + code;
    assert ';' !in f;
    if params == [] {
      assert f + params == f;
      SplitNoSep(f, ';');
    } else {
      assert f + params == f + [';'] + params[1..];
      SplitCons(f, params[1..], ';');
    }
    assert f[1..] == code;
    assert TrimStart(f) == TrimStart(code) == code;
    TrimClean(code);
  }

  /** A header of one entry chooses that entry's tag when it is supported, and the default otherwise. */
  lemma ChooseSingleEntry(entry: string)
    requires entry != "" && ',' !in entry
    ensures ChooseLocale(Some(entry)) == if Tag(entry) in Locales then Tag(entry) else DefaultLocale
  {
    SplitNoSep(entry, ',');
    var tags := PreferredLocales(entry);
    assert tags == [Tag(entry)];
    FirstSupportedNone(tags);
    if Tag(entry) in Locales {
      FirstSupportedIsFirst(tags, 0);
    }
  }

  /** A supported tag in the first entry wins, whatever follows it. */
  lemma FirstEntryDecides(first: string, rest: string)
    requires ',' !in first && Tag(first) in Locales
    ensures ChooseLocale(Some(first + "," + rest)) == Tag(first)
  {
    var h := first + "," + rest;
    PreferredHead(first, rest);
    FirstSupportedIsFirst(PreferredLocales(h), 0);
    assert h != "";
  }

  lemma PreferredHead(first: string, rest: string)
    requires ',' !in first
    ensures PreferredLocales(first + "," + rest)[0] == Tag(first)
  {
    var h := first + "," + rest;
    assert h == first + [','] + rest;
    SplitCons(first, rest, ',');
  }

  /** A bare two-letter code is its own tag. */
  lemma TagOfCode(code: string)
    requires |code| == 2 && ';' !in code && !IsJsWhitespace(code[0]) && !IsJsWhitespace(code[1])
    ensures Tag(code) == code
  {
    TagOfEntry(code, [], []);
    assert code + [] + [] == code;
  }

  /** The header's order decides, not its q-values. */
  lemma OrderBeatsQuality(code: string, quality: string, second: string)
    requires code == "hi" && quality == ";q=0.1" && second == "en;q=0.9"
    ensures ChooseLocale(Some(code + quality + "," + second)) == "hi"
  {
    var first := code + quality;
    assert ',' !in first;
    TagOfEntry(code, [], quality);
    assert code + [] == code;
    FirstEntryDecides(first, second);
  }

  /** A regional tag is cut to its language. */
  lemma RegionalTag(code: string, region: string)
    requires code == "hi" && region == "-IN"
    ensures ChooseLocale(Some(code + region)) == "hi"
  {
    var entry := code + region;
    assert ',' !in entry;
    TagOfEntry(code, region, []);
    assert code + region + [] == entry;
    ChooseSingleEntry(entry);
  }

  /** A header naming only unsupported languages falls back to the default. */
  lemma UnsupportedIsDefault(code: string)
    requires code == "ms"
    ensures ChooseLocale(Some(code)) == "en"
  {
    assert ',' !in code && ';' !in code;
    TagOfCode(code);
    assert code !in Locales;
    ChooseSingleEntry(code);
  }

  // ---------------------------------------------------------------------
  // path decisions

  /** Static files (any `.`), API routes and Next.js internals pass through. */
  predicate IsSkipped(pathname: string)
  {
    '.' in pathname || StartsWith(pathname, "/api") || StartsWith(pathname, "/_next")
  }

  /** `locales.some(l => pathname.startsWith('/' + l + '/') || pathname === '/' + l)`. */
  predicate HasLocaleIn(pathname: string, locales: seq<string>)
  {
    exists k :: 0 <= k < |locales| && (StartsWith(pathname, "/" + locales[k] + "/") || pathname == "/" + locales[k])
  }

  predicate HasLocale(pathname: string)
  {
    HasLocaleIn(pathname, Locales)
  }

  /** The path carries a locale exactly when its whole first segment is `en` or `hi`. */
  lemma HasLocaleIsWholeSegment(p: string)
    ensures HasLocale(p) <==> |p| >= 3 && p[0] == '/' && p[1..3] in Locales && (|p| == 3 || p[3] == '/')
  {
    if |p| >= 3 && p[0] == '/' && (|p| == 3 || p[3] == '/') {
      if |p| == 3 {
        assert p == "/" + p[1..3];
      } else {
        assert p[..4] == "/" + p[1..3] + "/";
      }
    }
    if HasLocale(p) {
      var k :| 0 <= k < 2 && (StartsWith(p, "/" + Locales[k] + "/") || p == "/" + Locales[k]);
      LocaleMatchIsWholeSegment(p, Locales[k]);
    }
  }

  /** One locale's test in `hasLocale` pins down the first segment. */
  lemma LocaleMatchIsWholeSegment(p: string, code: string)
    requires |code| == 2
    requires StartsWith(p, "/" + code + "/") || p == "/" + code
    ensures |p| >= 3 && p[0] == '/' && p[1..3] == code && (|p| == 3 || p[3] == '/')
  {
    var q := "/" + code + "/";
    if StartsWith(p, q) {
      assert p[..4] == q;
      assert p[0] == q[0] && p[3] == q[3];
      assert p[1..3] == p[..4][1..3] == q[1..3];
    } else {
      assert p[1..3] == ("/" + code)[1..3];
    }
  }

  /** Every path the proxy lets through as localised also counts as localised for the switcher. */
  lemma HasLocaleAgreesWithSwitcher(p: string)
    requires HasLocale(p)
    ensures LanguageSwitcher.HasLocaleSegment(p)
  {
    HasLocaleIsWholeSegment(p);
  }

  /** `/locale` for the root path, `/locale` followed by the path otherwise. */
  function RedirectPath(pathname: string, locale: string): string
  {
    "/" + locale + (if pathname == "/" then "" else pathname)
  }

  /** The redirect keeps the original path after the new leading locale. */
  lemma RedirectKeepsPath(pathname: string, locale: string)
    requires locale in Locales
    ensures StartsWith(RedirectPath(pathname, locale), "/" + locale)
    ensures RedirectPath(pathname, locale)[3..] == if pathname == "/" then "" else pathname
  {
  }

  /** A redirected path, requested again, carries a locale and is not redirected a second time. */
  lemma RedirectTargetHasLocale(pathname: string, locale: string)
    requires locale in Locales
    requires pathname == "" || pathname[0] == '/'
    requires !IsSkipped(pathname)
    ensures HasLocale(RedirectPath(pathname, locale))
    ensures !IsSkipped(RedirectPath(pathname, locale))
  {
    var r := RedirectPath(pathname, locale);
    assert r[1..3] == locale;
    HasLocaleIsWholeSegment(r);
    assert !StartsWith(r, "/api") && !StartsWith(r, "/_next") by {
      assert r[1] == 'e' || r[1] == 'h';
    }
    assert forall j :: 0 <= j < |r| && r[j] == '.' ==> j >= 3 && pathname[j - 3] == '.';
  }

  // ---------------------------------------------------------------------
  // the proxy

  /** The cookie `proxy` sets: `deviceId`, site-wide, a year, HTTP only, SameSite=Lax. */
  datatype Cookie = Cookie(name: string, value: string, path: string, maxAge: int, httpOnly: bool, sameSite: string)

  const OneYear: int := 60 * 60 * 24 * 365

  function DeviceCookie(id: string): (c: Cookie)
    ensures c.name == "deviceId" && c.value == id && c.maxAge == 31536000
  {
    Cookie("deviceId", id, "/", OneYear, true, "lax")
  }

  datatype Action = Next | Redirect(target: string)

  datatype Response = Response(action: Action, setCookie: Option<Cookie>)

  /** `request.nextUrl`, of which the proxy reads and rewrites only the path. */
  class NextUrl {
    var pathname: string

    constructor (pathname: string)
      ensures this.pathname == pathname
    {
      this.pathname := pathname;
    }
  }

  /** The cookie rule on its own: a new `deviceId` only when the request has none (or an empty one). */
  function CookieFor(deviceCookie: Option<string>, freshId: string): (c: Option<Cookie>)
    ensures c.Some? <==> deviceCookie.None? || deviceCookie.value == ""
    ensures c.Some? ==> c.value == DeviceCookie(freshId)
  {
    if deviceCookie.None? || deviceCookie.value == "" then Some(DeviceCookie(freshId)) else None
  }

  /** What the proxy answers for a path, as a value. */
  function Route(pathname: string, acceptLanguage: Option<string>, deviceCookie: Option<string>, freshId: string): (r: Response)
    ensures IsSkipped(pathname) ==> r == Response(Next, None)
    ensures !IsSkipped(pathname) ==> r.setCookie == CookieFor(deviceCookie, freshId)
    ensures r.action.Redirect? <==> !IsSkipped(pathname) && !HasLocale(pathname)
  {
    if IsSkipped(pathname) then Response(Next, None)
    else if HasLocale(pathname) then Response(Next, CookieFor(deviceCookie, freshId))
    else Response(Redirect(RedirectPath(pathname, ChooseLocale(acceptLanguage))), CookieFor(deviceCookie, freshId))
  }

  /**
   * `proxy(request)`: `freshId` stands for `crypto.randomUUID()`. The URL object's
   * path is rewritten in place before the redirect is built from it.
   */
  method Handle(url: NextUrl, acceptLanguage: Option<string>, deviceCookie: Option<string>, freshId: string)
    returns (response: Response)
    modifies url
    ensures response == Route(old(url.pathname), acceptLanguage, deviceCookie, freshId)
    ensures url.pathname == if response.action.Redirect? then response.action.target else old(url.pathname)
  {
    var pathname := url.pathname;
    if '.' in pathname || StartsWith(pathname, "/api") || StartsWith(pathname, "/_next") {
      return Response(Next, None);
    }
    var action: Action;
    if HasLocale(pathname) {
      action := Next;
    } else {
      var locale := GetLocale(acceptLanguage);
      url.pathname := "/" + locale + (if pathname == "/" then "" else pathname);
      action := Redirect(url.pathname);
    }
    response := Response(action, None);
    var deviceId := deviceCookie;
    if deviceId.None? || deviceId.value == "" {
      response := response.(setCookie := Some(DeviceCookie(freshId)));
    }
  }

  /** An existing device id is never replaced, whatever the path. */
  lemma KeepsExistingDevice(pathname: string, acceptLanguage: Option<string>, id: string, freshId: string)
    requires id != ""
    ensures Route(pathname, acceptLanguage, Some(id), freshId).setCookie == None
  {
  }

  /** A new device id is set on every page response of a browser without one. */
  lemma MintsMissingDevice(pathname: string, acceptLanguage: Option<string>, freshId: string)
    requires !IsSkipped(pathname)
    ensures Route(pathname, acceptLanguage, None, freshId).setCookie == Some(DeviceCookie(freshId))
  {
  }

  /** Following the redirect leads to a plain pass-through: the proxy never loops. */
  lemma RedirectIsFinal(pathname: string, acceptLanguage: Option<string>, deviceCookie: Option<string>, freshId: string)
    requires pathname == "" || pathname[0] == '/'
    ensures match Route(pathname, acceptLanguage, deviceCookie, freshId).action
      case Next => true
      case Redirect(target) =>
        target == RedirectPath(pathname, ChooseLocale(acceptLanguage))
        && Route(target, acceptLanguage, deviceCookie, freshId).action == Next
  {
    if !IsSkipped(pathname) && !HasLocale(pathname) {
      RedirectTargetHasLocale(pathname, ChooseLocale(acceptLanguage));
    }
  }

  /** The root goes to `/en` or `/hi` without a trailing slash. */
  lemma RootRedirect(acceptLanguage: Option<string>, deviceCookie: Option<string>, freshId: string)
    ensures Route("/", acceptLanguage, deviceCookie, freshId).action == Redirect("/" + ChooseLocale(acceptLanguage))
  {
    assert !HasLocale("/") by {
      HasLocaleIsWholeSegment("/");
    }
  }
}
