/**
 * The manual routing script: for each test path it splits the path on `/`,
 * makes sure there is an empty root segment, then either replaces segment 1
 * by the new locale (when it is a known locale) or inserts the new locale at
 * index 1, and logs `path => rewritten`.
 */
module TestRouting {
  import opened Wrappers
  import opened Strings
  import LanguageSwitcher

  const ExistingLangs: seq<string> := ["en", "hi", "ms", "fr", "es"]
  const TestCases: seq<string> := ["/en", "/hi", "/en/courses/dark-matter", "/ms/courses/dark-matter", "/fr"]
  /** The button the script simulates clicking. */
  const NewLang: string := "ms"

  /** The segments after the split and, when the first is not empty, the `unshift('')`. */
  function RootedSegments(pathname: string): (segments: seq<string>)
    ensures |segments| >= 1 && segments[0] == ""
    ensures forall k :: 0 <= k < |segments| ==> '/' !in segments[k]
  {
    var parts := Split(pathname, '/');
    SplitParts(pathname, '/');
    if parts[0] != "" then [""] + parts else parts
  }

  /** Segment 1 replaced by `newLang` when it is a known locale; `newLang` spliced in at 1 otherwise. */
  function Relocalised(segments: seq<string>, newLang: string): (r: seq<string>)
    requires |segments| >= 1
  {
    if |segments| > 1 && segments[1] in ExistingLangs then segments[1 := newLang]
    else segments[..1] + [newLang] + segments[1..]
  }

  /** The path the script logs for `pathname`. */
  function RoutedPath(pathname: string, newLang: string): string
  {
    Join(Relocalised(RootedSegments(pathname), newLang), '/')
  }

  /** The body of the script's loop for one path: the segment array changed step by step. */
  method RewritePath(pathname: string, newLang: string) returns (segments: seq<string>, output: string)
    ensures segments == Relocalised(RootedSegments(pathname), newLang)
    ensures |segments| >= 2 && segments[0] == "" && segments[1] == newLang
    ensures output == Join(segments, '/') && output == RoutedPath(pathname, newLang)
  {
    segments := Split(pathname, '/');
    if segments[0] != "" {
      segments := [""] + segments;  // unshift('')
    }
    if |segments| > 1 && segments[1] in ExistingLangs {
      segments := segments[1 := newLang];
    } else {
      segments := segments[..1] + [newLang] + segments[1..];  // splice(1, 0, newLang)
    }
    output := Join(segments, '/');
  }

  /** The line logged for one test path. */
  function LogLine(pathname: string, newLang: string): string
  {
    pathname + " => " + RoutedPath(pathname, newLang)
  }

  /** The whole script: one log line per test path, in order. */
  method RunScript(testCases: seq<string>) returns (log: seq<string>)
    ensures |log| == |testCases|
    ensures forall k :: 0 <= k < |testCases| ==> log[k] == LogLine(testCases[k], NewLang)
  {
    log := [];
    for k := 0 to |testCases|
      invariant |log| == k
      invariant forall j :: 0 <= j < k ==> log[j] == LogLine(testCases[j], NewLang)
    {
      var line := LogFor(testCases[k]);
      log := log + [line];
    }
  }

  /** `console.log(`${path} => ${output}`)` for one test path. */
  method LogFor(pathname: string) returns (line: string)
    ensures line == LogLine(pathname, NewLang)
  {
    var _, output := RewritePath(pathname, NewLang);
    line := pathname + " => " + output;
  }

  // ---------------------------------------------------------------------
  // properties of the rewrite

  /** A path always gets a root segment, and a root segment alone is kept as is. */
  lemma RootedSegmentsPrepends(pathname: string)
    ensures Split(pathname, '/')[0] != "" ==> RootedSegments(pathname) == [""] + Split(pathname, '/')
    ensures Split(pathname, '/')[0] == "" ==> RootedSegments(pathname) == Split(pathname, '/')
  {
  }

  /**
   * After the rewrite segment 1 is `newLang`; the count grows by one exactly when
   * segment 1 was not a known locale; every other segment keeps its value and place.
   */
  lemma RelocalisedShape(segments: seq<string>, newLang: string)
    requires |segments| >= 1
    ensures var r := Relocalised(segments, newLang);
      && |r| >= 2 && r[1] == newLang && r[0] == segments[0]
      && (|segments| > 1 && segments[1] in ExistingLangs ==> |r| == |segments| && r[2..] == segments[2..])
      && (!(|segments| > 1 && segments[1] in ExistingLangs) ==> |r| == |segments| + 1 && r[2..] == segments[1..])
  {
  }

  /** Taking out segment 1 of the result leaves the input, minus the replaced locale if there was one. */
  lemma RelocalisedDropsNothing(segments: seq<string>, newLang: string)
    requires |segments| >= 1
    ensures var r := Relocalised(segments, newLang);
      r[..1] + r[2..] == if |segments| > 1 && segments[1] in ExistingLangs then segments[..1] + segments[2..] else segments
  {
    var r := Relocalised(segments, newLang);
    RelocalisedShape(segments, newLang);
    if !(|segments| > 1 && segments[1] in ExistingLangs) {
      assert segments == segments[..1] + segments[1..];
    }
  }

  /** Rewriting a rewritten path to the same known locale changes nothing. */
  lemma RoutedPathIdempotent(pathname: string, newLang: string)
    requires newLang in ExistingLangs
    ensures RoutedPath(RoutedPath(pathname, newLang), newLang) == RoutedPath(pathname, newLang)
  {
    var r := Relocalised(RootedSegments(pathname), newLang);
    RelocalisedShape(RootedSegments(pathname), newLang);
    assert '/' !in newLang by {
      assert newLang == "en" || newLang == "hi" || newLang == "ms" || newLang == "fr" || newLang == "es";
    }
    assert forall k :: 0 <= k < |r| ==> '/' !in r[k];
    SplitJoin(r, '/');
    assert RootedSegments(Join(r, '/')) == r;
    assert r[1 := newLang] == r;
  }

  // ---------------------------------------------------------------------
  // the script's own test paths

  /** `/en`, `/hi` and `/fr` are each logged as `/ms`. */
  lemma ScriptOutputLocaleOnly(locale: string)
    requires locale == "en" || locale == "hi" || locale == "fr"
    ensures RoutedPath("/" + locale, NewLang) == "/ms"
  {
    RoutedPathOfLocalePath(locale, "", NewLang);
    assert "/" + locale + "" == "/" + locale;
  }

  /** The two course paths are both logged as the `ms` course path. */
  lemma ScriptOutputCourse(locale: string, course: string)
    requires locale == "en" || locale == "ms"
    requires course == "/courses/dark-matter"
    ensures RoutedPath("/" + locale + course, NewLang) == "/ms" + course
  {
    RoutedPathOfLocalePath(locale, course, NewLang);
  }

  // ---------------------------------------------------------------------
  // against the language switcher's regex version

  /** The segments after a whole first segment: none when `rest` is empty, else those of `rest` past its `/`. */
  function Tail(rest: string): seq<string>
  {
    if rest == [] then [] else Split(rest[1..], '/')
  }

  lemma SplitAfterRoot(locale: string, rest: string)
    requires '/' !in locale
    ensures Split("/" + locale + rest, '/') == [[]] + Split(locale + rest, '/')
  {
    assert "/" + locale + rest == [] + ['/'] + (locale + rest);
    SplitCons([], locale + rest, '/');
  }

  lemma SplitAfterSegment(locale: string, rest: string)
    requires '/' !in locale
    requires rest == [] || rest[0] == '/'
    ensures Split(locale + rest, '/') == [locale] + Tail(rest)
  {
    if rest == [] {
      assert locale + rest == locale;
      SplitNoSep(locale, '/');
    } else {
      assert locale + rest == locale + ['/'] + rest[1..];
      SplitCons(locale, rest[1..], '/');
    }
  }

  /** The segments of `/locale` followed by `rest`, where `rest` is empty or starts a new segment. */
  lemma SplitLocalePath(locale: string, rest: string)
    requires '/' !in locale
    requires rest == [] || rest[0] == '/'
    ensures Split("/" + locale + rest, '/') == ["", locale] + Tail(rest)
  {
    SplitAfterRoot(locale, rest);
    SplitAfterSegment(locale, rest);
    assert [[]] + ([locale] + Tail(rest)) == ["", locale] + Tail(rest);
  }

  /** A path whose first segment is a known locale keeps everything after that segment. */
  lemma RoutedPathOfLocalePath(locale: string, rest: string, newLang: string)
    requires locale in ExistingLangs && '/' !in locale && '/' !in newLang
    requires rest == [] || rest[0] == '/'
    ensures RoutedPath("/" + locale + rest, newLang) == "/" + newLang + rest
  {
    var segments := ["", locale] + Tail(rest);
    SplitLocalePath(locale, rest);
    assert RootedSegments("/" + locale + rest) == segments;
    assert segments[1] == locale;
    assert Relocalised(segments, newLang) == ["", newLang] + Tail(rest);
    JoinLocaleSegments(newLang, rest);
  }

  lemma JoinLocaleSegments(newLang: string, rest: string)
    requires rest == [] || rest[0] == '/'
    ensures Join(["", newLang] + Tail(rest), '/') == "/" + newLang + rest
  {
    var r := ["", newLang] + Tail(rest);
    assert r[0] == "" && r[1..] == [newLang] + Tail(rest);
    if rest == [] {
      assert r == ["", newLang] && r[1..] == [newLang];
      assert Join(r, '/') == "" + "/" + newLang;
    } else {
      JoinAfterLocale(newLang, rest);
    }
  }

  lemma JoinAfterLocale(newLang: string, rest: string)
    requires rest != [] && rest[0] == '/'
    ensures Join(["", newLang] + Split(rest[1..], '/'), '/') == "/" + newLang + rest
  {
    var tail := Split(rest[1..], '/');
    JoinSplit(rest[1..], '/');
    JoinCons(newLang, tail, '/');
    assert ["", newLang] + tail == [""] + ([newLang] + tail);
    JoinCons("", [newLang] + tail, '/');
    assert rest == "/" + rest[1..];
  }

  /** On a path that starts with a whole locale segment, the two versions give the same link. */
  lemma AgreesWithSwitcherOnLocalePaths(locale: string, rest: string, newLang: string)
    requires locale in ExistingLangs && newLang in ExistingLangs
    requires rest == [] || rest[0] == '/'
    ensures RoutedPath("/" + locale + rest, newLang) == "/" + newLang + rest
    ensures LanguageSwitcher.LocalizedPath("/" + locale + rest, newLang) == "/" + newLang + rest
  {
    var p := "/" + locale + rest;
    assert |locale| == 2 && '/' !in locale && '/' !in newLang by {
      assert locale == "en" || locale == "hi" || locale == "ms" || locale == "fr" || locale == "es";
      assert newLang == "en" || newLang == "hi" || newLang == "ms" || newLang == "fr" || newLang == "es";
    }
    assert p[1..3] == locale && p[3..] == rest;
    LanguageSwitcher.LocalizedPathSwaps(p, newLang);
    RoutedPathOfLocalePath(locale, rest, newLang);
  }

  /** The two versions differ on the empty path ... */
  lemma DiffersFromSwitcherOnEmpty()
    ensures RoutedPath("", "ms") == "/ms" && LanguageSwitcher.LocalizedPath("", "ms") == "/ms/"
  {
    assert Split("", '/') == [""];
    assert RootedSegments("") == [""];
    assert [""][..1] + ["ms"] + [""][1..] == ["", "ms"];
    assert Relocalised([""], "ms") == ["", "ms"];
    assert ["", "ms"][1..] == ["ms"];
    assert Join(["", "ms"], '/') == "" + "/" + "ms";
    LanguageSwitcher.LocalizedPathPrefixes("", "ms");
  }

  /** ... and on a path that starts with `//`: the script keeps the empty segment, the switcher collapses it. */
  lemma DiffersFromSwitcherOnDoubleSlash(segment: string, newLang: string)
    requires '/' !in segment && newLang in ExistingLangs
    ensures RoutedPath("//" + segment, newLang) == "/" + newLang + "//" + segment
    ensures LanguageSwitcher.LocalizedPath("//" + segment, newLang) == "/" + newLang + "/" + segment
    ensures RoutedPath("//" + segment, newLang) != LanguageSwitcher.LocalizedPath("//" + segment, newLang)
  {
    LanguageSwitcher.SwitcherLocaleShape(newLang);
    assert '/' !in newLang;
    RoutedDoubleSlash(segment, newLang);
    LanguageSwitcher.LeadingDoubleSlash(segment, newLang);
    var routed := "/" + newLang + "//" + segment;
    var switched := "/" + newLang + "/" + segment;
    assert |routed| == |switched| + 1;
  }

  lemma RoutedDoubleSlash(segment: string, newLang: string)
    requires '/' !in segment && '/' !in newLang
    ensures RoutedPath("//" + segment, newLang) == "/" + newLang + "//" + segment
  {
    var p := "//" + segment;
    var t := "/" + segment;
    assert p == [] + ['/'] + t;
    SplitCons([], t, '/');
    assert t == [] + ['/'] + segment;
    SplitCons([], segment, '/');
    SplitNoSep(segment, '/');
    var segments := ["", "", segment];
    assert Split(p, '/') == segments;
    assert RootedSegments(p) == segments;
    assert segments[1] !in ExistingLangs;
    assert Relocalised(segments, newLang) == [""] + ([newLang] + ([""] + [segment]));
    JoinCons("", [segment], '/');
    JoinCons(newLang, [""] + [segment], '/');
    JoinCons("", [newLang] + ([""] + [segment]), '/');
    assert Join([segment], '/') == segment;
  }
}
