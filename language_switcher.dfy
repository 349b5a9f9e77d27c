/**
 * The language switcher in the page header: which locale button is
 * highlighted, and the link each button points to.
 */
module LanguageSwitcher {
  import opened Wrappers
  import opened Strings

  /** The switcher's locale codes, in the order of its buttons and of its regex alternation. */
  const SwitcherLocales: seq<string> := ["en", "hi", "ms", "fr", "es"]

  predicate IsSwitcherLocale(s: string)
  {
    s in SwitcherLocales
  }

  /** `pathname.split('/')[1] || 'en'`: the code of the highlighted button. */
  function CurrentLang(pathname: string): string
  {
    var segments := Split(pathname, '/');
    if |segments| > 1 && segments[1] != "" then segments[1] else "en"
  }

  /**
   * The regex `^\/(en|hi|ms|fr|es)(\/|$)`, tried alternative by alternative as
   * the regex engine does: on a match, its two capture groups.
   */
  function MatchLocalePrefix(pathname: string, alternatives: seq<string>): (m: Option<(string, string)>)
    ensures m.Some? ==> m.value.0 in alternatives && StartsWith(pathname, "/" + m.value.0 + m.value.1)
  {
    if alternatives == [] then None
    else
      var head := "/" + alternatives[0];
      if StartsWith(pathname, head) && |pathname| > |head| && pathname[|head|] == '/' then
        Some((alternatives[0], "/"))
      else if StartsWith(pathname, head) && |pathname| == |head| then
        Some((alternatives[0], ""))
      else
        MatchLocalePrefix(pathname, alternatives[1..])
  }

  /**
   * `getLocalizedPath(lang)`: on a regex match, `pathname.replace(langRegex, '/' + lang + '$2')`;
   * otherwise the path with a leading `/` ensured, prefixed by `/lang`, and the first
   * `//` replaced by `/`. The component only ever passes one of its five codes.
   */
  function LocalizedPath(pathname: string, lang: string): string
    requires IsSwitcherLocale(lang)
  {
    match MatchLocalePrefix(pathname, SwitcherLocales)
    case Some((group1, group2)) =>
      "/" + lang + group2 + pathname[|"/" + group1 + group2|..]
    case None =>
      ReplaceFirst("/" + lang + RawPath(pathname), "//", "/")
  }

  /** `rawPath`: the path with a leading `/` ensured. */
  function RawPath(pathname: string): (raw: string)
    ensures StartsWith(raw, "/")
    ensures StartsWith(pathname, "/") ==> raw == pathname
    ensures !StartsWith(pathname, "/") ==> raw == "/" + pathname
  {
    if StartsWith(pathname, "/") then pathname else "/" + pathname
  }

  // ---------------------------------------------------------------------
  // what the regex accepts

  /** The path's first segment is exactly one of the switcher's codes. */
  predicate HasLocaleSegment(p: string)
  {
    |p| >= 3 && p[0] == '/' && IsSwitcherLocale(p[1..3]) && (|p| == 3 || p[3] == '/')
  }

  /** With two-letter alternatives, the regex matches exactly a whole leading segment from the list. */
  lemma {:induction false} MatchLocalePrefixExact(p: string, alternatives: seq<string>)
    requires forall k :: 0 <= k < |alternatives| ==> |alternatives[k]| == 2
    ensures MatchLocalePrefix(p, alternatives).Some? <==>
      |p| >= 3 && p[0] == '/' && p[1..3] in alternatives && (|p| == 3 || p[3] == '/')
    ensures MatchLocalePrefix(p, alternatives).Some? ==>
      MatchLocalePrefix(p, alternatives).value == (p[1..3], if |p| == 3 then "" else "/")
    decreases |alternatives|
  {
    if alternatives != [] {
      var head := "/" + alternatives[0];
      assert StartsWith(p, head) <==> |p| >= 3 && p[0] == '/' && p[1..3] == alternatives[0] by {
        if |p| >= 3 {
          assert p[..3] == [p[0]] + p[1..3];
        }
      }
      MatchLocalePrefixExact(p, alternatives[1..]);
      if |p| >= 3 && p[1..3] in alternatives && p[1..3] != alternatives[0] {
        assert p[1..3] in alternatives[1..];
      }
    }
  }

  lemma MatchIffLocaleSegment(p: string)
    ensures MatchLocalePrefix(p, SwitcherLocales).Some? <==> HasLocaleSegment(p)
    ensures MatchLocalePrefix(p, SwitcherLocales).Some? ==>
      MatchLocalePrefix(p, SwitcherLocales).value == (p[1..3], if |p| == 3 then "" else "/")
  {
    SwitcherCodesHaveTwoLetters();
    MatchLocalePrefixExact(p, SwitcherLocales);
  }

  lemma SwitcherCodesHaveTwoLetters()
    ensures forall k :: 0 <= k < |SwitcherLocales| ==> |SwitcherLocales[k]| == 2
  {
  }

  // ---------------------------------------------------------------------
  // the two branches of getLocalizedPath

  /** A leading locale segment is swapped for `lang`; the rest, trailing `/` included, is untouched. */
  lemma LocalizedPathSwaps(pathname: string, lang: string)
    requires IsSwitcherLocale(lang)
    requires HasLocaleSegment(pathname)
    ensures LocalizedPath(pathname, lang) == "/" + lang + pathname[3..]
  {
    MatchIffLocaleSegment(pathname);
    if |pathname| > 3 {
      assert pathname[3..] == "/" + pathname[4..];
    }
  }

  /**
   * Without a locale segment, `/lang` is put before the path (made to start with `/`),
   * and only the first `//` of that path becomes `/`.
   */
  lemma LocalizedPathPrefixes(pathname: string, lang: string)
    requires IsSwitcherLocale(lang)
    requires !HasLocaleSegment(pathname)
    ensures LocalizedPath(pathname, lang) == "/" + lang + ReplaceFirst(RawPath(pathname), "//", "/")
  {
    MatchIffLocaleSegment(pathname);
    LangPrefixHasNoDoubleSlash(lang, RawPath(pathname));
    ReplaceAfterPrefix("/" + lang, RawPath(pathname), "//", "/");
  }

  /** `//` cannot start inside the `/lang` prefix. */
  lemma LangPrefixHasNoDoubleSlash(lang: string, rawPath: string)
    requires IsSwitcherLocale(lang)
    ensures forall j :: 0 <= j < |"/" + lang| ==> !OccursAt("/" + lang + rawPath, "//", j)
  {
    SwitcherLocaleShape(lang);
    var t := "/" + lang + rawPath;
    assert t[1] == lang[0] && t[2] == lang[1];
    forall j | 0 <= j < 3
      ensures !OccursAt(t, "//", j)
    {
      if j + 2 <= |t| {
        assert t[j..j + 2][0] == t[j] && t[j..j + 2][1] == t[j + 1];
      }
    }
  }

  lemma SwitcherLocaleShape(lang: string)
    requires IsSwitcherLocale(lang)
    ensures |lang| == 2 && lang[0] != '/' && lang[1] != '/'
  {
    assert lang == "en" || lang == "hi" || lang == "ms" || lang == "fr" || lang == "es";
  }

  lemma ReplaceKeepsLeadingSlash(s: string)
    requires StartsWith(s, "/")
    ensures ReplaceFirst(s, "//", "/") != [] && ReplaceFirst(s, "//", "/")[0] == '/'
  {
  }

  // ---------------------------------------------------------------------
  // properties of every generated link

  /** Every link starts with `/lang` as a whole segment. */
  lemma LocalizedPathHasLocale(pathname: string, lang: string)
    requires IsSwitcherLocale(lang)
    ensures HasLocaleSegment(LocalizedPath(pathname, lang))
    ensures StartsWith(LocalizedPath(pathname, lang), "/" + lang)
  {
    var r := LocalizedPath(pathname, lang);
    if HasLocaleSegment(pathname) {
      LocalizedPathSwaps(pathname, lang);
    } else {
      LocalizedPathPrefixes(pathname, lang);
      ReplaceKeepsLeadingSlash(RawPath(pathname));
    }
    assert r[1..3] == lang;
  }

  /** Following a button's link and taking the same button's link again changes nothing. */
  lemma LocalizedPathIdempotent(pathname: string, lang: string)
    requires IsSwitcherLocale(lang)
    ensures LocalizedPath(LocalizedPath(pathname, lang), lang) == LocalizedPath(pathname, lang)
  {
    var r := LocalizedPath(pathname, lang);
    LocalizedPathHasLocale(pathname, lang);
    LocalizedPathSwaps(r, lang);
    assert r == r[..3] + r[3..];
  }

  /** The highlighted code is the segment after the first `/`, or `en` when that is empty or absent. */
  lemma CurrentLangIsFirstSegment(head: string, segment: string, rest: string)
    requires '/' !in head && '/' !in segment
    requires rest == [] || rest[0] == '/'
    ensures CurrentLang(head + "/" + segment + rest) == if segment == [] then "en" else segment
  {
    var p := head + "/" + segment + rest;
    assert p == head + ['/'] + (segment + rest);
    SplitCons(head, segment + rest, '/');
    var tail := Split(rest, '/');
    SplitPrefix(segment, rest, '/');
    RestSplitsEmptyFirst(rest);
    assert Split(p, '/')[1] == segment + tail[0];
    assert segment + tail[0] == segment;
  }

  /** Whatever follows the segment is empty or starts with `/`: its first part is empty. */
  lemma RestSplitsEmptyFirst(rest: string)
    requires rest == [] || rest[0] == '/'
    ensures Split(rest, '/')[0] == []
  {
  }

  /** A path with no `/` at all highlights `en`. */
  lemma CurrentLangWithoutSlash(pathname: string)
    requires '/' !in pathname
    ensures CurrentLang(pathname) == "en"
  {
    SplitParts(pathname, '/');
  }

  // ---------------------------------------------------------------------
  // concrete links

  lemma SwapExampleCourse(rest: string)
    requires rest == "/courses/dark-matter"
    ensures LocalizedPath("/en" + rest, "ms") == "/ms" + rest
  {
    var p := "/en" + rest;
    assert p[..3] == "/en" && p[3..] == rest;
    assert p[1..3] == "en" && p[3] == '/';
    LocalizedPathSwaps(p, "ms");
  }

  /** The root gets a trailing `/` after the locale. */
  lemma RootExample(root: string)
    requires root == "/"
    ensures LocalizedPath(root, "hi") == "/hi/"
  {
    LocalizedPathPrefixes(root, "hi");
    assert StartsWith(root, "/");
    assert RawPath(root) == root;
    assert IndexOf(root, "//") == None;
    assert ReplaceFirst(root, "//", "/") == root;
  }

  /** So does the empty path, which is first given its leading `/`. */
  lemma EmptyExample(empty: string)
    requires empty == ""
    ensures LocalizedPath(empty, "fr") == "/fr/"
  {
    LocalizedPathPrefixes(empty, "fr");
    assert !StartsWith(empty, "/");
    assert RawPath(empty) == "/";
    assert IndexOf("/", "//") == None;
    assert ReplaceFirst("/", "//", "/") == "/";
  }

  /** A code that is only the start of a segment is not a locale. */
  lemma PartialSegmentExample(p: string)
    requires p == "/es2"
    ensures LocalizedPath(p, "fr") == "/fr/es2"
  {
    assert p[1] == 'e' && p[2] == 's' && p[3] == '2';
    assert p[1..3] == "es";
    LocalizedPathPrefixes(p, "fr");
    assert StartsWith(p, "/");
    forall j: nat ensures !OccursAt(p, "//", j) {
      if j + 2 <= |p| {
        assert p[j..j + 2][1] == p[j + 1] != '/';
      }
    }
    assert IndexOf(p, "//") == None;
  }

  /** A path starting with `//` has only that first `//` collapsed: any later `//` in `rest` stays. */
  lemma LeadingDoubleSlash(rest: string, lang: string)
    requires IsSwitcherLocale(lang)
    ensures LocalizedPath("//" + rest, lang) == "/" + lang + "/" + rest
  {
    var p := "//" + rest;
    NoLocaleAfterEmptySegment(p);
    LocalizedPathPrefixes(p, lang);
    assert p[..1] == "/";
    assert RawPath(p) == p;
    CollapseLeadingDoubleSlash(rest);
  }

  /** An empty first segment is not a locale. */
  lemma NoLocaleAfterEmptySegment(p: string)
    requires |p| >= 2 && p[1] == '/'
    ensures !HasLocaleSegment(p)
  {
    if |p| >= 3 {
      assert p[1..3][0] == '/';
    }
  }

  lemma CollapseLeadingDoubleSlash(rest: string)
    ensures ReplaceFirst("//" + rest, "//", "/") == "/" + rest
  {
    var p := "//" + rest;
    assert p[0..2] == "//";
    assert IndexOf(p, "//") == Some(0);
    ReplaceAt(p, "//", "/", 0);
    assert p[..0] == [] && p[2..] == rest;
  }
}
