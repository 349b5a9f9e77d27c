# A verified model of the physics site's sequential logic

The site is a physics course with lessons in several languages. Most of its
code draws animations. This project models the parts that follow exact
rules, and proves what those rules guarantee:

- **Locale paths.** Two separate implementations are modelled, because they
  differ at the edges:
  - the language switcher's regex rewrite (`LanguageSwitcher`);
  - the segment-array rewrite in the routing script (`TestRouting`).
- **The request proxy** (`Proxy`):
  - the Accept-Language choice between `en` and `hi`;
  - the pass-through rule for static files, `/api` and `/_next`;
  - the "already localised" test;
  - the redirect target;
  - the rule that a `deviceId` cookie is set only when the request has none.
- **The progress endpoint** (`ProgressRoute`):
  - the `deviceId` cookie regex and the 401 answer;
  - the field defaults;
  - the capped percentage and the completion flag.
- **Five widgets**, each modelled as a state machine or as predicates.
  Randomness is passed in as parameters.
  - `StandardModelSorter`: the Fisher-Yates shuffle, colour assignment, the padded hit test, the `sorted` map and the jar counts.
  - `QuantumCoin`: the single coin and the 100-coin observation wave.
  - `SchrodingersBox`: the observation counter and its percentages.
  - `CheckpointQuiz`: select, check and retry, plus option styling.
  - `Cyclotron`: the resonance and collision predicates, the spiral's clamps and the trail colour.

`Strings` gives the JavaScript string built-ins the code relies on:
`split`, `join`, `trim`, `substring`, `indexOf`, `replace` with a string
pattern, and `startsWith`. `Wrappers` gives `Option`, which stands for
`null`, `undefined` and a missing header.

The source's form is kept, file by file.
- Code that mutates step by step is a method with loops or a class with fields: the script's loop, `getLocale`'s search, `proxy`'s rewrite of `nextUrl`, `shuffleArray`'s in-place swaps, the hit-test `forEach`, and the widget state.
- Every such method is proved against a function, and the function's properties are proved as lemmas.
- Pure expressions are functions.

Three edge cases are modelled exactly as the code behaves, even where that looks unintended:
- The switcher leaves the trailing `/` on the site root: `/` becomes `/hi/`, and so does the empty path. The routing script maps `''` to `/ms`. `TestRouting.DiffersFromSwitcherOnEmpty` records the difference. `TestRouting.DiffersFromSwitcherOnDoubleSlash` records a second one (a leading `//`).
- The progress endpoint defaults `interactionCount` to 1 only when the field is absent. A falsy count such as `0` is stored as sent, unlike the two text fields (`ProgressRoute.FalsyCountIsKept`).
- The cookie regex has no word boundary, so it also matches inside `mydeviceId=`. A `deviceId=` with an empty value is skipped in favour of a later one (`ProgressRoute.NoWordBoundary`, `ProgressRoute.EmptyValueSkipped`).

## Model

| member | source | states |
|---|---|---|
| Strings.SplitParts | src/proxy.ts:13 | No piece of `split(sep)` contains `sep`, and there is more than one piece exactly when the string contains `sep` |
| Strings.JoinSplit | test-routing.js:5-15 | Joining the pieces of a split with the same separator gives back the original string |
| Strings.SplitJoin | test-routing.js:5-15 | Splitting a join of separator-free pieces gives back the pieces |
| Strings.FindFromIsFirst | src/components/client/LanguageSwitcher.tsx:24 | The index `indexOf` finds is the first occurrence; finding nothing means there is no occurrence |
| Strings.ReplaceAt | src/components/client/LanguageSwitcher.tsx:24 | `replace` with a string pattern cuts out the first occurrence only and puts the replacement in its place |
| Strings.Take | src/proxy.ts:13 | `substring(0, n)` is a prefix of length `min(n, length)` |
| Strings.TrimStart | src/proxy.ts:13 | The result is a suffix with no leading whitespace, and only whitespace was removed |
| Strings.TrimEnd | src/proxy.ts:13 | The result is a prefix with no trailing whitespace, and only whitespace was removed |
| LanguageSwitcher.CurrentLang | src/components/client/LanguageSwitcher.tsx:9 | `pathname.split('/')[1] \|\| 'en'`, the highlighted code; `CurrentLangIsFirstSegment` and `CurrentLangWithoutSlash` state what it is |
| LanguageSwitcher.LocalizedPath | src/components/client/LanguageSwitcher.tsx:11-25 | `getLocalizedPath(lang)`: the regex branch or the prefix branch; `LocalizedPathSwaps`, `LocalizedPathPrefixes`, `LocalizedPathHasLocale` and `LocalizedPathIdempotent` state what it gives |
| LanguageSwitcher.CurrentLangIsFirstSegment | src/components/client/LanguageSwitcher.tsx:9 | The highlighted code is the segment after the first `/`, or `en` when that segment is empty |
| LanguageSwitcher.CurrentLangWithoutSlash | src/components/client/LanguageSwitcher.tsx:9 | A path with no `/` has no segment 1, so `en` is highlighted |
| LanguageSwitcher.MatchLocalePrefix | src/components/client/LanguageSwitcher.tsx:15 | A regex match names one of the alternatives, and the path starts with `/`, that code and the second capture group |
| LanguageSwitcher.MatchLocalePrefixExact | src/components/client/LanguageSwitcher.tsx:15 | For two-letter codes the regex matches exactly when the whole first segment is one of them; group 2 is `/` or empty, as the path continues |
| LanguageSwitcher.MatchIffLocaleSegment | src/components/client/LanguageSwitcher.tsx:15 | The switcher's regex matches exactly the paths whose whole first segment is one of en, hi, ms, fr, es |
| LanguageSwitcher.RawPath | src/components/client/LanguageSwitcher.tsx:23 | The raw path starts with `/`; it is the path itself when that already starts with `/`, else `/` plus the path |
| LanguageSwitcher.LocalizedPathSwaps | src/components/client/LanguageSwitcher.tsx:17-19 | On a locale path the code is swapped for `lang` and everything after it, a trailing `/` included, is kept |
| LanguageSwitcher.LocalizedPathPrefixes | src/components/client/LanguageSwitcher.tsx:22-24 | Otherwise the link is `/lang` followed by the raw path with only its first `//` collapsed |
| LanguageSwitcher.LangPrefixHasNoDoubleSlash | src/components/client/LanguageSwitcher.tsx:24 | A `//` cannot start inside the `/lang` prefix, so the collapse only ever touches the raw path |
| LanguageSwitcher.SwitcherLocaleShape | src/components/client/LanguageSwitcher.tsx:15 | Every switcher code is two characters, neither of them `/` |
| LanguageSwitcher.ReplaceKeepsLeadingSlash | src/components/client/LanguageSwitcher.tsx:24 | Collapsing the first `//` of a path that starts with `/` keeps the leading `/` |
| LanguageSwitcher.LocalizedPathHasLocale | src/components/client/LanguageSwitcher.tsx:17-24 | Every link starts with `/lang` as a whole first segment |
| LanguageSwitcher.LocalizedPathIdempotent | src/components/client/LanguageSwitcher.tsx:15-24 | Taking a button's link from the page it already points to gives the same link |
| LanguageSwitcher.SwapExampleCourse | src/components/client/LanguageSwitcher.tsx:13 | `/en/courses/dark-matter` becomes `/ms/courses/dark-matter` for `ms` |
| LanguageSwitcher.RootExample | src/components/client/LanguageSwitcher.tsx:22-24 | The root `/` becomes `/hi/`: the trailing slash stays |
| LanguageSwitcher.EmptyExample | src/components/client/LanguageSwitcher.tsx:23-24 | The empty path first gets its `/` and also becomes `/fr/` |
| LanguageSwitcher.PartialSegmentExample | src/components/client/LanguageSwitcher.tsx:15 | `/es2` is not a locale path; it is prefixed and becomes `/fr/es2` |
| LanguageSwitcher.LeadingDoubleSlash | src/components/client/LanguageSwitcher.tsx:23-24 | A path `//rest` becomes `/lang/rest`: only its leading `//` collapses, and any later `//` stays |
| LanguageSwitcher.NoLocaleAfterEmptySegment | src/components/client/LanguageSwitcher.tsx:15 | A path whose first segment is empty is not a locale path |
| LanguageSwitcher.CollapseLeadingDoubleSlash | src/components/client/LanguageSwitcher.tsx:24 | Replacing the first `//` of `//rest` gives `/rest` |
| TestRouting.RootedSegments | test-routing.js:5-6 | The segments always start with an empty root segment, and no segment contains `/` |
| TestRouting.RootedSegmentsPrepends | test-routing.js:5-6 | An empty root segment is put in front exactly when the split's first element is not empty |
| TestRouting.RewritePath | test-routing.js:5-15 | The loop body's array edits give `Relocalised` of the rooted segments, with segment 1 equal to `newLang`, and the logged path is their join |
| TestRouting.RunScript | test-routing.js:4-16 | One log line per test path, in order, each `path => rewritten path` |
| TestRouting.LogFor | test-routing.js:15 | The line logged for one path is the path, ` => ` and its rewrite |
| TestRouting.Relocalised | test-routing.js:10-14 | The branch on `existingLangs.includes(segments[1])`: replace segment 1, or splice `newLang` in at 1; `RelocalisedShape` and `RelocalisedDropsNothing` state its effect |
| TestRouting.RoutedPath | test-routing.js:5-15 | The path the script logs: split, root, relocalise, join; `RoutedPathIdempotent` and `AgreesWithSwitcherOnLocalePaths` state its properties |
| TestRouting.RelocalisedShape | test-routing.js:10-14 | Segment 1 becomes `newLang`. A locale segment is replaced and the count stays; otherwise `newLang` is inserted and the count grows by one; the other segments keep their places |
| TestRouting.RelocalisedDropsNothing | test-routing.js:10-14 | Removing segment 1 of the result gives back the input, without the old locale when one was replaced: no segment is lost |
| TestRouting.RoutedPathIdempotent | test-routing.js:10-15 | Rewriting a rewritten path to the same known locale changes nothing |
| TestRouting.ScriptOutputLocaleOnly | test-routing.js:1-15 | `/en`, `/hi` and `/fr` are each logged as `/ms` |
| TestRouting.ScriptOutputCourse | test-routing.js:1-15 | `/en/courses/dark-matter` and `/ms/courses/dark-matter` are both logged as `/ms/courses/dark-matter` |
| TestRouting.SplitAfterRoot | test-routing.js:5 | Splitting `/segment...` gives an empty first piece and then the split of what follows |
| TestRouting.SplitAfterSegment | test-routing.js:5 | A whole segment splits off as one piece, followed by the pieces of the rest |
| TestRouting.SplitLocalePath | test-routing.js:5 | `/locale` followed by a new segment or nothing splits into `""`, the locale and the rest's pieces |
| TestRouting.RoutedPathOfLocalePath | test-routing.js:10-15 | A path whose first segment is a known locale is logged with that segment replaced and the rest kept |
| TestRouting.JoinLocaleSegments | test-routing.js:15 | Joining `""`, the new locale and the rest's pieces gives `/newLang` and the rest |
| TestRouting.JoinAfterLocale | test-routing.js:15 | The same join when the rest starts a new segment |
| TestRouting.AgreesWithSwitcherOnLocalePaths | test-routing.js:10-15 | On a path that starts with a whole known locale segment, the script and the switcher give the same link |
| TestRouting.DiffersFromSwitcherOnEmpty | test-routing.js:5-15 | On the empty path the script gives `/ms` and the switcher `/ms/` |
| TestRouting.DiffersFromSwitcherOnDoubleSlash | test-routing.js:5-15 | On `//segment` the script keeps the empty segment, giving `/lang//segment`, while the switcher gives `/lang/segment` |
| TestRouting.RoutedDoubleSlash | test-routing.js:5-15 | The script rewrites `//segment` to `/lang//segment` |
| Proxy.Tag | src/proxy.ts:13 | An entry's tag is the first two characters (or fewer) of the trimmed part before the first `;`, so it has no `;` |
| Proxy.TagTrimsLeadingSpace | src/proxy.ts:13 | Whitespace before a clean two-letter code, as after the comma in `fr, hi`, is trimmed, and the code is the tag |
| Proxy.PreferredLocales | src/proxy.ts:13 | One tag per comma-separated entry, in header order |
| Proxy.FirstSupported | src/proxy.ts:14-16 | A tag found is supported and comes from the header |
| Proxy.ChooseLocale | src/proxy.ts:8-19 | The chosen locale is always `en` or `hi` |
| Proxy.GetLocale | src/proxy.ts:8-19 | The map and the early-return search compute the chosen locale, which is one of `en` and `hi` |
| Proxy.FirstSupportedIsFirst | src/proxy.ts:14-16 | The first supported tag in header order is chosen, whatever follows it |
| Proxy.FirstSupportedNone | src/proxy.ts:14-18 | Nothing is found exactly when no tag is supported, and then the default applies |
| Proxy.NoHeaderIsDefault | src/proxy.ts:9-10 | A missing or empty header gives `en` |
| Proxy.TrimClean | src/proxy.ts:13 | A string that neither starts nor ends with whitespace is its own trim |
| Proxy.TagOfEntry | src/proxy.ts:13 | An entry starting with a clean two-letter code has that code as its tag, whatever parameters follow the `;` |
| Proxy.ChooseSingleEntry | src/proxy.ts:13-18 | A one-entry header chooses that entry's tag when supported and `en` otherwise |
| Proxy.FirstEntryDecides | src/proxy.ts:14-15 | A supported tag in the first entry wins whatever the rest of the header says |
| Proxy.PreferredHead | src/proxy.ts:13 | The first tag is the tag of the first entry |
| Proxy.TagOfCode | src/proxy.ts:13 | A bare two-letter code is its own tag |
| Proxy.OrderBeatsQuality | src/proxy.ts:13-15 | `hi;q=0.1,en;q=0.9` chooses `hi`: q-values are ignored and order decides |
| Proxy.RegionalTag | src/proxy.ts:13 | `hi-IN` is cut to `hi` |
| Proxy.UnsupportedIsDefault | src/proxy.ts:15-18 | A header naming only `ms` falls back to `en` |
| Proxy.IsSkipped | src/proxy.ts:26-32 | A path with a `.`, or starting with `/api` or `/_next`, passes through; `Proxy.Route` states that such a path gets no redirect and no cookie |
| Proxy.HasLocaleIn | src/proxy.ts:36-38 | `locales.some(...)` over a given locale list: some code is followed by `/` or ends the path |
| Proxy.HasLocale | src/proxy.ts:36-38 | `pathnameHasLocale` over `['en', 'hi']`; `HasLocaleIsWholeSegment` characterises it |
| Proxy.HasLocaleIsWholeSegment | src/proxy.ts:36-38 | A path has a locale exactly when its whole first segment is `en` or `hi` |
| Proxy.LocaleMatchIsWholeSegment | src/proxy.ts:36-38 | Either test for one two-letter code, `/code/` as a prefix or the path `/code`, makes `code` the whole first segment |
| Proxy.HasLocaleAgreesWithSwitcher | src/proxy.ts:36-38 | Every path the proxy treats as localised is also a locale path for the switcher |
| Proxy.RedirectPath | src/proxy.ts:45 | The redirect target; `RedirectKeepsPath` and `RedirectTargetHasLocale` state its properties |
| Proxy.RedirectKeepsPath | src/proxy.ts:45 | The target starts with `/locale`, followed by nothing for the root and by the whole path otherwise |
| Proxy.RedirectTargetHasLocale | src/proxy.ts:26-45 | A redirect target carries a locale and is not a skipped path |
| Proxy.DeviceCookie | src/proxy.ts:54-61 | The cookie is named `deviceId`, holds the new id and lasts 31536000 seconds |
| Proxy.NextUrl.constructor | src/proxy.ts:23 | The URL object holds the request path |
| Proxy.CookieFor | src/proxy.ts:50-62 | A cookie is set exactly when the request has no `deviceId` or an empty one, and it holds the fresh id |
| Proxy.Route | src/proxy.ts:21-65 | Skipped paths pass with no cookie; a redirect happens exactly for unskipped paths without a locale; every other response carries the cookie rule |
| Proxy.Handle | src/proxy.ts:21-65 | The handler answers `Route` for the original path, and has rewritten `nextUrl.pathname` to the target exactly when it redirects |
| Proxy.KeepsExistingDevice | src/proxy.ts:50-52 | A non-empty existing device id is never replaced |
| Proxy.MintsMissingDevice | src/proxy.ts:52-62 | A request without a device id gets the fresh one on every page response |
| Proxy.RedirectIsFinal | src/proxy.ts:40-47 | Requesting the redirect target again passes straight through: the proxy never redirects twice |
| Proxy.RootRedirect | src/proxy.ts:45 | The root goes to `/en` or `/hi` with no trailing slash, whatever the cookie and fresh id |
| ProgressRoute.FirstMatch | src/app/api/progress/route.ts:13 | The regex's leftmost match position: a match, with none before it, or none at all |
| ProgressRoute.RunBeforeSemicolon | src/app/api/progress/route.ts:13 | The greedy `[^;]+` is a prefix with no `;`, ending at the end of the string or at a `;` |
| ProgressRoute.DeviceId | src/app/api/progress/route.ts:12-14 | An extracted id is non-empty and contains no `;` |
| ProgressRoute.DeviceIdFoundIff | src/app/api/progress/route.ts:13-14 | An id is found exactly when the header has a match somewhere |
| ProgressRoute.DeviceIdIsLeftmostValue | src/app/api/progress/route.ts:13-14 | The id is the whole value of the leftmost `deviceId=` followed by a non-`;` character |
| ProgressRoute.RunOfValue | src/app/api/progress/route.ts:13 | The greedy run over a `;`-free value followed by `;` or nothing is that whole value |
| ProgressRoute.NoCookieNoDevice | src/app/api/progress/route.ts:12-14 | A missing or empty cookie header gives no id |
| ProgressRoute.EmptyValueSkipped | src/app/api/progress/route.ts:13 | An empty `deviceId=` is passed over for a later one |
| ProgressRoute.NoWordBoundary | src/app/api/progress/route.ts:13 | The key also matches inside the longer cookie name `mydeviceId` |
| ProgressRoute.FirstMatchIsLeftmost | src/app/api/progress/route.ts:13 | A match with no match before it is the one found |
| ProgressRoute.OrDefault | src/app/api/progress/route.ts:32-33 | `value \|\| fallback` keeps a present truthy value and gives the fallback otherwise |
| ProgressRoute.TopicOf | src/app/api/progress/route.ts:32 | The topic is always truthy: the sent one, or `standard-model` |
| ProgressRoute.RowFor | src/app/api/progress/route.ts:19-34 | The row has the device id and truthy topic and maths level; the interaction count is the sent one when present and 1 when missing |
| ProgressRoute.FalsyCountIsKept | src/app/api/progress/route.ts:19-34 | An empty topic and a missing level get their defaults, while a count of 0 is stored as 0 |
| ProgressRoute.Percentage | src/app/api/progress/route.ts:45-48 | The percentage is never above 100, and is either 100 or ten times the total |
| ProgressRoute.PercentageMonotone | src/app/api/progress/route.ts:47-48 | A larger total never shows less progress |
| ProgressRoute.CompleteIffTen | src/app/api/progress/route.ts:45-53 | The percentage reaches 100 exactly when the total reaches 10 |
| ProgressRoute.PercentageInRange | src/app/api/progress/route.ts:47-48 | From 0 to 10 interactions the percentage is ten times the total, from 0 upward |
| ProgressRoute.Post | src/app/api/progress/route.ts:9-60 | 401 exactly without an id; with an id, 500 exactly when the body cannot be read or a database call rejects; otherwise the row has the defaults, progress is `Percentage` of the sum (0 for a null sum), at most 100, and the flag holds exactly at 100 |
| ProgressRoute.UnauthorizedBeforeBody | src/app/api/progress/route.ts:16-18 | The device check comes before the body is read |
| ProgressRoute.NullSumIsZero | src/app/api/progress/route.ts:46 | A null aggregate sum answers as a sum of 0 |
| ProgressRoute.CompleteIffTenInteractions | src/app/api/progress/route.ts:45-53 | With a device id and a readable body, the answer is a success exactly when the database calls succeed, and then complete exactly when the topic's total is at least 10 |
| StandardModelSorter.SwapIndex | src/components/client/StandardModelSorter.tsx:60 | The swap partner `floor(r * (i + 1))` of step `i` lies in `0..i` |
| StandardModelSorter.Swap | src/components/client/StandardModelSorter.tsx:61 | A swap keeps the length and the multiset of elements |
| StandardModelSorter.Picks | src/components/client/StandardModelSorter.tsx:58-61 | One partner per step, each at or below its own step's position |
| StandardModelSorter.ShuffleSteps | src/components/client/StandardModelSorter.tsx:59-62 | The swaps done so far keep the length |
| StandardModelSorter.ShuffleStepsPermute | src/components/client/StandardModelSorter.tsx:59-62 | The swaps done so far only reorder the elements |
| StandardModelSorter.Shuffled | src/components/client/StandardModelSorter.tsx:57-64 | The shuffle is a permutation of its input |
| StandardModelSorter.ShuffleArray | src/components/client/StandardModelSorter.tsx:57-64 | `shuffleArray` copies its input into a new array, shuffles the copy in place and returns exactly `Shuffled(input, rolls)`; the input is untouched |
| StandardModelSorter.ShuffleInPlace | src/components/client/StandardModelSorter.tsx:59-62 | The descending loop leaves the array as the composed swaps of all its steps |
| StandardModelSorter.PickAt | src/components/client/StandardModelSorter.tsx:60 | Step `i`'s partner is drawn from roll `i` |
| StandardModelSorter.ShuffledIsPermutation | src/components/client/StandardModelSorter.tsx:57-64 | Every element occurs in the shuffle as often as in the input |
| StandardModelSorter.ShortListUnchanged | src/components/client/StandardModelSorter.tsx:59 | A list of length 0 or 1 takes no steps and is unchanged |
| StandardModelSorter.AssignColours | src/components/client/StandardModelSorter.tsx:68-72 | Particle `k` keeps its id and type and takes colour `colours[k % length]`, so its colour always comes from the list |
| StandardModelSorter.ColoursDistinct | src/components/client/StandardModelSorter.tsx:66-72 | With no more particles than colours, distinct colours give every particle a different colour |
| StandardModelSorter.ColourAt | src/components/client/StandardModelSorter.tsx:71 | Within the palette's length, particle `k` takes colour `k` |
| StandardModelSorter.PaletteDistinct | src/components/client/StandardModelSorter.tsx:51-54 | The eight palette colours are distinct, and there are more of them than particles |
| StandardModelSorter.Hits | src/components/client/StandardModelSorter.tsx:106-116 | The hit test: the point lies in the rectangle grown by 20 on every side, borders included; `PaddingExample` shows the edge |
| StandardModelSorter.LastHit | src/components/client/StandardModelSorter.tsx:130-142 | A jar found is one whose padded rectangle holds the point |
| StandardModelSorter.HitJar | src/components/client/StandardModelSorter.tsx:130-142 | The `forEach` over the refs, each hit overwriting the one before, finds `LastHit` |
| StandardModelSorter.LastHitWins | src/components/client/StandardModelSorter.tsx:99-116 | When several jars are hit, the last one visited wins |
| StandardModelSorter.RenderOrderHit | src/components/client/StandardModelSorter.tsx:130-142 | With the refs registered in render order (quarks, leptons, bosons), a point in overlapping jars lands in bosons before leptons before quarks, and in no jar when none holds it |
| StandardModelSorter.LastHitNone | src/components/client/StandardModelSorter.tsx:127-143 | No jar is found exactly when no mounted jar's padded rectangle holds the point |
| StandardModelSorter.PaddingExample | src/components/client/StandardModelSorter.tsx:106-113 | A point 20 outside a border still hits, and 21 outside does not |
| StandardModelSorter.ParticlesAreParticles | src/components/client/StandardModelSorter.tsx:21-28 | The six particles are particles of their own types |
| StandardModelSorter.Required | src/components/client/StandardModelSorter.tsx:177 | The number of particles of a type is at most the list's length |
| StandardModelSorter.Ghosts | src/components/client/StandardModelSorter.tsx:217 | The ghost slots and the sorted particles fill at least the jar, and there are never more ghosts than slots |
| StandardModelSorter.RequiredIsTwo | src/components/client/StandardModelSorter.tsx:21-28 | Each jar takes two of the six particles |
| StandardModelSorter.IdsOfParticles | src/components/client/StandardModelSorter.tsx:21-28 | A particle's id is among the ids of its type |
| StandardModelSorter.IdsOfHasTwo | src/components/client/StandardModelSorter.tsx:21-28 | Each type has two particle ids |
| StandardModelSorter.SortedValid | src/components/client/StandardModelSorter.tsx:146-148 | Every sorted id is mapped to its own particle's type, as the correct-drop guard ensures; `DroppedKeepsValid` shows drops keep it |
| StandardModelSorter.SortedCount | src/components/client/StandardModelSorter.tsx:177 | The count of ids sorted into a jar; `SortedCountBounded` and `GhostsFillTheJar` bound it |
| StandardModelSorter.IsFull | src/components/client/StandardModelSorter.tsx:178 | A jar's count equals its number of particles; `GhostsFillTheJar` and `CompleteIffAllFull` use it |
| StandardModelSorter.SortedInJar | src/components/client/StandardModelSorter.tsx:146-148 | Under the invariant, the ids sorted into a jar are ids of that jar's particles |
| StandardModelSorter.SortedCountBounded | src/components/client/StandardModelSorter.tsx:177-178 | Under the invariant, no jar shows more particles than it has slots |
| StandardModelSorter.GhostsFillTheJar | src/components/client/StandardModelSorter.tsx:177-217 | Ghosts plus sorted is exactly the jar's size, and a jar draws no ghosts exactly when it is full |
| StandardModelSorter.IsComplete | src/components/client/StandardModelSorter.tsx:323 | All six particles are sorted; `CompleteIffAllFull` characterises it by the three jars |
| StandardModelSorter.CompleteIffAllFull | src/components/client/StandardModelSorter.tsx:323 | Under the invariant, the puzzle is complete exactly when all three jars are full |
| StandardModelSorter.KeysByJar | src/components/client/StandardModelSorter.tsx:177 | Every sorted id is counted in exactly one jar |
| StandardModelSorter.Dropped | src/components/client/StandardModelSorter.tsx:146-148 | A drop records the particle's type under its id only when the hit jar is the particle's type; otherwise the map is unchanged |
| StandardModelSorter.DroppedKeepsValid | src/components/client/StandardModelSorter.tsx:146-148 | A drop keeps every entry mapping a particle's id to its own type, and no other key changes |
| StandardModelSorter.Sorter.constructor | src/components/client/StandardModelSorter.tsx:38-46 | Nothing sorted, no glow, no clue and no particles before mount |
| StandardModelSorter.Sorter.Mount | src/components/client/StandardModelSorter.tsx:49-74 | The scrambled list is the shuffled particles coloured from the shuffled palette, and the invariant holds |
| StandardModelSorter.Sorter.DragStart | src/components/client/StandardModelSorter.tsx:292-295 | The glow is cleared and the dragged particle's clue shown |
| StandardModelSorter.Sorter.PointerDown | src/components/client/StandardModelSorter.tsx:296-298 | The particle's clue is shown |
| StandardModelSorter.Sorter.Drag | src/components/client/StandardModelSorter.tsx:91-121 | The glow follows the last jar under the pointer; without a pointer position it stays |
| StandardModelSorter.Sorter.DragEnd | src/components/client/StandardModelSorter.tsx:123-158 | The map becomes `Dropped` for the hit jar and the invariant is kept; the drop counts exactly on the particle's own jar; its clue is cleared only then; the glow is always cleared |
| StandardModelSorter.ScrambledAreParticles | src/components/client/StandardModelSorter.tsx:66-72 | Shuffling and recolouring keep every entry one of the six particles with its own type |
| QuantumCoin.Flip | src/components/client/QuantumCoin.tsx:33 | A flip is heads exactly when the number drawn is above 0.5, and never spinning |
| QuantumCoin.Count | src/components/client/QuantumCoin.tsx:96-97 | A count never exceeds the number of coins |
| QuantumCoin.CountsAddUp | src/components/client/QuantumCoin.tsx:96-97 | Heads, tails and spinning coins add up to the grid |
| QuantumCoin.CountZero | src/components/client/QuantumCoin.tsx:96-97 | A state counts zero exactly when no coin is in it |
| QuantumCoin.HeadsPlusTailsBounded | src/components/client/QuantumCoin.tsx:96-97 | Heads plus tails is at most the grid, and equal to it exactly when no coin spins |
| QuantumCoin.WaveProgress | src/components/client/QuantumCoin.tsx:58-59 | Progress is capped at 100 and reaches it exactly after the two seconds |
| QuantumCoin.CollapsedCols | src/components/client/QuantumCoin.tsx:64 | The wave has passed at most ten columns, and all ten exactly at progress 100 |
| QuantumCoin.Collapsed | src/components/client/QuantumCoin.tsx:66-75 | A collapse step keeps the grid's length |
| QuantumCoin.CollapseStep | src/components/client/QuantumCoin.tsx:66-75 | The copying loop computes the collapse step cell by cell |
| QuantumCoin.CollapsedKeepsDecided | src/components/client/QuantumCoin.tsx:68-72 | A collapsed coin never changes, a coin in an unpassed column never changes, and a spinning coin in a passed column collapses |
| QuantumCoin.FullSweepCollapsesAll | src/components/client/QuantumCoin.tsx:64-73 | Once all ten columns are passed no coin is left spinning |
| QuantumCoin.FinalCollapse | src/components/client/QuantumCoin.tsx:82 | The final map leaves no coin spinning and keeps every decided coin |
| QuantumCoin.WaveButtonDisabled | src/components/client/QuantumCoin.tsx:185 | The wave button's `disabled` expression; `DisabledAfterWave`, `EnabledOnFreshGrid` and `WaveEndsCollapsed` state when it holds |
| QuantumCoin.DisabledAfterWave | src/components/client/QuantumCoin.tsx:185 | After a finished wave the button is disabled exactly when some coin is heads |
| QuantumCoin.EnabledOnFreshGrid | src/components/client/QuantumCoin.tsx:185 | A grid of spinning coins with no wave active leaves the button enabled |
| QuantumCoin.Coin.constructor | src/components/client/QuantumCoin.tsx:10-17 | A spinning coin, no catches, single mode, 100 spinning coins, no wave and progress 0 |
| QuantumCoin.Coin.CatchSingleCoin | src/components/client/QuantumCoin.tsx:31-36 | Nothing happens unless the coin spins; otherwise it takes the flip and the catch count rises by exactly 1 |
| QuantumCoin.Coin.ResetSingle | src/components/client/QuantumCoin.tsx:38-40 | The coin spins again and the catch count is untouched |
| QuantumCoin.Coin.TabsVisible | src/components/client/QuantumCoin.tsx:106 | The mode tabs are drawn once `clickCount >= 3`; `Coin.SetMode` requires it |
| QuantumCoin.Coin.SetMode | src/components/client/QuantumCoin.tsx:106-116 | A tab, drawn only once the coin has been caught three times, sets the mode |
| QuantumCoin.Coin.StartWave | src/components/client/QuantumCoin.tsx:43-48 | Ignored while a wave runs; otherwise 100 spinning coins, an active wave and progress 0 |
| QuantumCoin.Coin.AnimateFrame | src/components/client/QuantumCoin.tsx:57-90 | A frame sets the capped progress, collapses the passed columns, and at 100 ends the wave with the final collapse; with no active wave nothing changes |
| QuantumCoin.WaveEndsCollapsed | src/components/client/QuantumCoin.tsx:77-82 | The frame that ends the wave leaves heads plus tails at 100, and the button disabled exactly when some coin is heads |
| SchrodingersBox.Outcome | src/components/client/SchrodingersBox.tsx:30 | An observation gives up exactly when the number drawn is above 0.5, and never superposition |
| SchrodingersBox.ObserveDisabled | src/components/client/SchrodingersBox.tsx:113 | The observe button's `disabled` expression; `ExactlyOneButton` relates it to reset |
| SchrodingersBox.ResetDisabled | src/components/client/SchrodingersBox.tsx:120 | The reset button's `disabled` expression; `ExactlyOneButton` relates it to observe |
| SchrodingersBox.ExactlyOneButton | src/components/client/SchrodingersBox.tsx:113-120 | Before completion exactly one of observe and reset is enabled; after it, neither |
| SchrodingersBox.RoundedShare | src/components/client/SchrodingersBox.tsx:60-61 | The share is `count / total * 100` rounded half up, and at most 100 |
| SchrodingersBox.Percentages | src/components/client/SchrodingersBox.tsx:59-61 | 50/50 with no observations; both shares at most 100 |
| SchrodingersBox.PercentagesSum | src/components/client/SchrodingersBox.tsx:59-61 | The two shares add up to 100, or to 101 when both round up from a half |
| SchrodingersBox.HalfRoundsUp | src/components/client/SchrodingersBox.tsx:60-61 | One up in eight shows 13% and 88% |
| SchrodingersBox.PercentagesOrdered | src/components/client/SchrodingersBox.tsx:59-61 | Equal counts show 50/50, and more ups never show a smaller up share |
| SchrodingersBox.Box.constructor | src/components/client/SchrodingersBox.tsx:10-12 | Superposition, no observations, not complete |
| SchrodingersBox.Box.Observe | src/components/client/SchrodingersBox.tsx:26-51 | Nothing happens unless in superposition and not complete; otherwise the state is the outcome, exactly that counter rises by 1, completion is set at 10, and the total never exceeds 10 |
| SchrodingersBox.Box.Reset | src/components/client/SchrodingersBox.tsx:53-57 | Back to superposition only when not complete |
| CheckpointQuiz.NormaliseOptions | src/components/client/CheckpointQuiz.tsx:24-33 | A string gives its parse result, a list is used as given, and options exist only in those two cases |
| CheckpointQuiz.NoOptionsOnFailure | src/components/client/CheckpointQuiz.tsx:26-30 | A failed parse, a missing prop or any other value gives no options |
| CheckpointQuiz.OptionStyle | src/components/client/CheckpointQuiz.tsx:79-92 | Before the reveal only the selected option is highlighted; after it, an option is green exactly when correct, red exactly when selected and wrong, and otherwise dimmed |
| CheckpointQuiz.AtMostOneWrong | src/components/client/CheckpointQuiz.tsx:87-88 | After the reveal at most one option is red, and only when the selection was wrong |
| CheckpointQuiz.Quiz.constructor | src/components/client/CheckpointQuiz.tsx:24-36 | The options are normalised, nothing is selected and nothing is revealed |
| CheckpointQuiz.Quiz.OptionsDisabled | src/components/client/CheckpointQuiz.tsx:97 | The option buttons' `disabled={isRevealed}`; `Quiz.Select` does nothing while it holds |
| CheckpointQuiz.Quiz.CheckDisabled | src/components/client/CheckpointQuiz.tsx:120 | The Check button's `disabled` expression; `Quiz.Retry` ensures it holds again afterwards |
| CheckpointQuiz.Quiz.Select | src/components/client/CheckpointQuiz.tsx:97-98 | Clicking an option selects it, unless the answer is revealed |
| CheckpointQuiz.Quiz.Check | src/components/client/CheckpointQuiz.tsx:46-57 | Nothing happens without a selection; otherwise the answer is revealed, with confetti exactly for a correct choice |
| CheckpointQuiz.Quiz.Verdict | src/components/client/CheckpointQuiz.tsx:131-133 | The verdict is the selected option's correctness, the same as its green styling |
| CheckpointQuiz.Quiz.RetryOffered | src/components/client/CheckpointQuiz.tsx:152 | "Try again" is drawn for a revealed wrong answer; `Quiz.Retry` requires it |
| CheckpointQuiz.Quiz.Retry | src/components/client/CheckpointQuiz.tsx:140-157 | Offered only after a revealed wrong answer; back to no selection and nothing revealed, with Check disabled |
| Cyclotron.Abs | src/components/client/Cyclotron.tsx:12 | `Math.abs`: the value or its negation, never negative |
| Cyclotron.IsSuccess | src/components/client/Cyclotron.tsx:12 | `isSuccess`; `SuccessBand` states the band it describes |
| Cyclotron.ErrorState | src/components/client/Cyclotron.tsx:13 | `errorState`; `ErrorIff` characterises it and `SuccessBand` rules it out at resonance |
| Cyclotron.SuccessBand | src/components/client/Cyclotron.tsx:12-13 | Resonance is both fields above 85 and less than 10 apart, and never a collision |
| Cyclotron.ErrorIff | src/components/client/Cyclotron.tsx:13 | A collision is a field above 90 outside the resonance band |
| Cyclotron.Settings | src/components/client/Cyclotron.tsx:12-13 | Example settings for resonance, collision and neither |
| Cyclotron.Clamp | src/components/client/Cyclotron.tsx:40-41 | `min(max(x, lo), hi)` lies in `[lo, hi]` and is `x` when `x` already lies there |
| Cyclotron.Scale | src/components/client/Cyclotron.tsx:36 | The unclamped scale; `ClampedScale` and `SpiralFollowsFields` state its range and growth |
| Cyclotron.Rotation | src/components/client/Cyclotron.tsx:37 | The unclamped rotation; `ClampedRotation` and `SpiralFollowsFields` state its range and growth |
| Cyclotron.ClampedScale | src/components/client/Cyclotron.tsx:36-40 | The scale lies in `[1, 2.5]` and is the unclamped scale on the slider range |
| Cyclotron.ClampedRotation | src/components/client/Cyclotron.tsx:37-41 | The rotation lies in `[0, 1080]` and is the unclamped rotation on the slider range |
| Cyclotron.SpiralFollowsFields | src/components/client/Cyclotron.tsx:36-41 | On the slider range the spiral grows with the fields, from scale 1 to 2.5 and from rotation 0 to 1080 |
| Cyclotron.SpiralVisible | src/components/client/Cyclotron.tsx:73 | The spiral's opacity test; `ResonanceIsVisible` shows it holds at resonance |
| Cyclotron.ResonanceIsVisible | src/components/client/Cyclotron.tsx:73 | At resonance the spiral is shown |
| Cyclotron.TrailColour | src/components/client/Cyclotron.tsx:44 | The trail is orange exactly when the electric field exceeds the magnetic one by more than 20 |
| Cyclotron.ResonanceIsViolet | src/components/client/Cyclotron.tsx:12-44 | At resonance the trail is violet |
| Cyclotron.StatusOf | src/components/client/Cyclotron.tsx:121 | The card says the resonance message exactly at resonance, the collision message exactly on a collision, and nothing otherwise |
| Cyclotron.CardShownIffText | src/components/client/Cyclotron.tsx:118-121 | The card is shown exactly when it has text, that is at resonance or with a field above 90 |

## Left out

- Rendering is not modelled: layout, animation, icons, labels, clues and the English and Hindi texts. Where a widget shows a value, the value is modelled, not how it is drawn.
- Randomness is passed in as parameters. `Math.random()` draws are parameters in `[0, 1)`, and `crypto.randomUUID()` is the parameter `freshId`.
- Timers are modelled as parameters too. `performance.now()` minus the start is the parameter `elapsed`. `requestAnimationFrame` scheduling is one call of `AnimateFrame` per frame, and cancelling the frame on unmount is not modelled.
- Confetti, framer-motion and `console` output are side effects with no state and are left out. This covers the widgets and the progress route's `console.error` in its `catch` (`src/app/api/progress/route.ts:57`). `CheckpointQuiz.Quiz.Check` reports the confetti decision as its result.
- The Prisma calls in the progress route are I/O. Their effects, the user upsert and the row insert, are left out. Their outcome is two parameters of `ProgressRoute.Post`: `dbFails`, whether any of the three calls rejects (a 500), and `sum`, the aggregate. What makes a call reject, such as a lost connection or a count the schema refuses, is not modelled, because the schema is not part of this model.
- The `useAppStore` fetch and zustand store are left out, and with them the `incrementProgress` call after a sorted drop. `StandardModelSorter.Sorter.DragEnd` returns whether it would be made.
- `request.json()` is the parameter `body`; `None` stands for a body that throws when parsed or destructured. JSON numbers are integers and arrays and objects are one truthy value (`ProgressRoute.Json`).
- `JSON.parse` of the quiz's options string is the parameter `parsed`. A string that parses to something other than a list of options is not modelled.
- Floating point is replaced by exact reals and integers. This covers the percentages, the spiral's scale and rotation, the wave's progress and the hit test's coordinates, so rounding artefacts such as `3/10*100` are not modelled.
- `SchrodingersBox.RoundedShare`: `Math.round` is modelled on exact rationals, which `count / total * 100` in floating point only approximates.
- Only the path of a URL is modelled. The Next.js `matcher` configuration in `src/proxy.ts:66-71` decides which requests reach the proxy at all, and is not modelled.
- `NextResponse` objects are the values `Proxy.Response` and `ProgressRoute.Outcome`. Response bodies and headers other than the cookie are left out.
- Strings are sequences of Unicode scalar values (Dafny's `char`) without normalisation. `Strings.IsJsWhitespace` lists ECMAScript's whitespace and line terminators.
- JavaScript strings are sequences of UTF-16 code units. The model counts code points instead. So `Strings.Take`, used for `substring(0, 2)` in `Proxy.Tag`, keeps two code points where JavaScript keeps two code units, and the two differ on characters outside the Basic Multilingual Plane. Unpaired surrogates, which a JavaScript string can hold, cannot be represented.
- `test-lang.mjs`, a browser automation script, is not part of this model.
- Two places are generalised rather than copied. `StandardModelSorter.Sorter.Mount` takes any list of the six particles, not only `PARTICLES` in its source order, and any non-empty palette with one roll per colour, not only the eight `COLORS`. For those eight colours `shuffleArray` draws only seven numbers, one for each of the positions 7 down to 1, so the model's roll 0, whose step always swaps position 0 with itself, has no effect. The same holds for the particles' rolls. The 100 coins' flips in one frame are indexed per cell, as `rolls[i]`.
- React's batching of state updates is not modelled. Each handler's updates take effect together, at its end.
- `QuantumCoin.Coin.AnimateFrame`: a frame is modelled only while `isWaveActive` holds, as it does while the effect runs. A frame already scheduled when a new wave starts is not modelled.
