/**
 * `POST /api/progress`: the device is identified from the `deviceId` cookie
 * (401 without one), missing request fields get their defaults, and the
 * answer reports the topic's total interactions as a percentage of ten,
 * capped at 100, with a completion flag.
 */
module ProgressRoute {
  import opened Wrappers
  import opened Strings

  // ---------------------------------------------------------------------
  // the cookie regex /deviceId=([^;]+)/

  const Key: string := "deviceId="

  /** The regex matches at `i`: the key, then at least one character that is not `;`. */
  predicate MatchesAt(s: string, i: nat)
  {
    i + |Key| < |s| && s[i..i + |Key|] == Key && s[i + |Key|] != ';'
  }

  /** The leftmost match position at or after `from`, as the regex engine scans. */
  function FirstMatch(s: string, from: nat): (r: Option<nat>)
    ensures r.Some? ==> from <= r.value && MatchesAt(s, r.value)
    ensures r.Some? ==> forall j :: from <= j < r.value ==> !MatchesAt(s, j)
    ensures r.None? ==> forall j :: from <= j ==> !MatchesAt(s, j)
    decreases |s| - from
  {
    if from + |Key| >= |s| then None
    else if MatchesAt(s, from) then Some(from)
    else FirstMatch(s, from + 1)
  }

  /** `[^;]+` is greedy: the longest run of non-`;` characters at the front. */
  function RunBeforeSemicolon(s: string): (r: string)
    ensures StartsWith(s, r) && ';' !in r
    ensures |r| == |s| || s[|r|] == ';'
    decreases |s|
  {
    if s == [] || s[0] == ';' then [] else [s[0]] + RunBeforeSemicolon(s[1..])
  }

  /** `match ? match[1] : null` on `request.headers.get('cookie') || ''`. */
  function DeviceId(cookieHeader: Option<string>): (id: Option<string>)
    ensures id.Some? ==> id.value != "" && ';' !in id.value
  {
    var header := if cookieHeader.Some? then cookieHeader.value else "";
    match FirstMatch(header, 0)
    case None => None
    case Some(i) => Some(RunBeforeSemicolon(header[i + |Key|..]))
  }

  /** A device id is found exactly when the header has a match somewhere ... */
  lemma DeviceIdFoundIff(header: string)
    ensures DeviceId(Some(header)).Some? <==> exists i :: MatchesAt(header, i)
  {
    if DeviceId(Some(header)).None? {
      forall i ensures !MatchesAt(header, i) {
      }
    }
  }

  /**
   * ... and then it is the whole `;`-free run that follows the first `deviceId=`
   * with a non-empty value.
   */
  lemma DeviceIdIsLeftmostValue(before: string, value: string, after: string)
    requires forall j :: 0 <= j < |before| ==> !MatchesAt(before + Key + value + after, j)
    requires value != "" && ';' !in value
    requires after == [] || after[0] == ';'
    ensures DeviceId(Some(before + Key + value + after)) == Some(value)
  {
    var h := before + Key + value + after;
    assert h[|before|..|before| + |Key|] == Key;
    assert h[|before| + |Key|] == value[0];
    assert MatchesAt(h, |before|);
    FirstMatchIsLeftmost(h, 0, |before|);
    assert h[|before| + |Key|..] == value + after;
    RunOfValue(value, after);
  }

  lemma {:induction false} RunOfValue(value: string, after: string)
    requires ';' !in value
    requires after == [] || after[0] == ';'
    ensures RunBeforeSemicolon(value + after) == value
    decreases |value|
  {
    if value == [] {
      assert value + after == after;
    } else {
      assert (value + after)[1..] == value[1..] + after;
      RunOfValue(value[1..], after);
    }
  }

  /** Without any cookie header the request is unauthorised. */
  lemma NoCookieNoDevice()
    ensures DeviceId(None) == None && DeviceId(Some("")) == None
  {
  }

  /** A `deviceId=` with an empty value is passed over for a later one. */
  lemma EmptyValueSkipped(v: string)
    requires v == "x"
    ensures DeviceId(Some(Key + ";" + Key + v)) == Some(v)
  {
    var h := Key + ";" + Key + v;
    assert |h| == 20;
    forall j | 0 <= j < 10 ensures !MatchesAt(h, j) {
      if j == 0 {
        assert h[9] == ';';
      } else if j + 9 < 20 {
        assert h[j..j + 9] != Key by {
          assert h[j..j + 9][9 - j] == h[9] == ';';
        }
      }
    }
    assert h[10..19] == Key && h[19] == 'x';
    assert FirstMatch(h, 0) == Some(10) by {
      assert MatchesAt(h, 10);
      FirstMatchIsLeftmost(h, 0, 10);
    }
    assert h[19..] == v;
    RunOfValue(v, "");
    assert v + "" == v;
  }

  /** The key is found inside a longer cookie name too: the regex has no word boundary. */
  lemma NoWordBoundary(v: string)
    requires v == "x"
    ensures DeviceId(Some("my" + Key + v)) == Some(v)
  {
    var h := "my" + Key + v;
    assert |h| == 12;
    assert h[2..11] == Key && h[11] == 'x';
    assert !MatchesAt(h, 0) && !MatchesAt(h, 1) by {
      assert h[0] == 'm' && h[1] == 'y';
    }
    assert FirstMatch(h, 0) == Some(2) by {
      assert MatchesAt(h, 2);
      FirstMatchIsLeftmost(h, 0, 2);
    }
    assert h[11..] == v;
    RunOfValue(v, "");
    assert v + "" == v;
  }

  lemma {:induction false} FirstMatchIsLeftmost(s: string, from: nat, i: nat)
    requires from <= i && MatchesAt(s, i)
    requires forall j :: from <= j < i ==> !MatchesAt(s, j)
    ensures FirstMatch(s, from) == Some(i)
    decreases i - from
  {
    if from < i {
      FirstMatchIsLeftmost(s, from + 1, i);
    }
  }

  // ---------------------------------------------------------------------
  // the request body

  /** The JSON values a field can hold; arrays and objects only matter as truthy values. */
  datatype Json = JNull | JBool(b: bool) | JNum(n: int) | JStr(s: string) | JComposite

  /** JavaScript truthiness of a JSON value. */
  predicate Truthy(v: Json)
  {
    match v
    case JNull => false
    case JBool(b) => b
    case JNum(n) => n != 0
    case JStr(s) => s != ""
    case JComposite => true
  }

  /** The three destructured fields; `None` is a field the body does not have. */
  datatype Body = Body(topicId: Option<Json>, mathLevelUsed: Option<Json>, interactionCount: Option<Json>)

  /** `value || fallback` on a field that may be missing. */
  function OrDefault(field: Option<Json>, fallback: Json): (v: Json)
    ensures field.Some? && Truthy(field.value) ==> v == field.value
    ensures !(field.Some? && Truthy(field.value)) ==> v == fallback
  {
    if field.Some? && Truthy(field.value) then field.value else fallback
  }

  /** The row the handler logs. */
  datatype ProgressRow = ProgressRow(deviceId: string, topicId: Json, mathLevelUsed: Json, interactions: Json)

  function TopicOf(body: Body): (topic: Json)
    ensures Truthy(topic)
  {
    OrDefault(body.topicId, JStr("standard-model"))
  }

  /**
   * The logged row: `topicId || 'standard-model'`, `mathLevelUsed || 'no-math'`, and
   * `interactionCount` with the destructuring default 1, which applies only to a missing field.
   */
  function RowFor(deviceId: string, body: Body): (row: ProgressRow)
    ensures row.deviceId == deviceId && Truthy(row.topicId) && Truthy(row.mathLevelUsed)
    ensures row.interactions == if body.interactionCount.Some? then body.interactionCount.value else JNum(1)
  {
    ProgressRow(deviceId,
      TopicOf(body),
      OrDefault(body.mathLevelUsed, JStr("no-math")),
      if body.interactionCount.Some? then body.interactionCount.value else JNum(1))
  }

  /** A falsy interaction count is stored as sent, unlike the two text fields. */
  lemma FalsyCountIsKept(id: string)
    ensures RowFor(id, Body(Some(JStr("")), None, Some(JNum(0)))) ==
      ProgressRow(id, JStr("standard-model"), JStr("no-math"), JNum(0))
  {
  }

  // ---------------------------------------------------------------------
  // the answer

  const TargetInteractions: int := 10

  /** `Math.min(current / 10 * 100, 100)`, over exact reals. */
  function Percentage(current: int): (p: real)
    ensures p <= 100.0
    ensures p == 100.0 || p == current as real * 10.0
  {
    var raw := current as real / TargetInteractions as real * 100.0;
    if raw < 100.0 then raw else 100.0
  }

  /** A larger total never shows less progress. */
  lemma PercentageMonotone(a: int, b: int)
    requires a <= b
    ensures Percentage(a) <= Percentage(b)
  {
  }

  /** Completion is reached exactly at ten interactions. */
  lemma CompleteIffTen(current: int)
    ensures Percentage(current) >= 100.0 <==> current >= TargetInteractions
  {
  }

  /** From zero to ten interactions, each is worth ten percent. */
  lemma PercentageInRange(current: int)
    requires 0 <= current <= TargetInteractions
    ensures Percentage(current) == current as real * 10.0
    ensures 0.0 <= Percentage(current)
  {
  }

  datatype Outcome =
    | Unauthorized                                       // 401 { error: 'Unauthorized device' }
    | ServerError                                        // 500 { error: 'Internal Server Error' }
    | Success(row: ProgressRow, progress: real, isComplete: bool)

  /**
   * `POST(request)`. `body` is the result of `request.json()` (`None` when it throws),
   * `dbFails` says whether one of the three database calls (the user upsert, the row
   * insert, the aggregate) rejects, and `sum` is the aggregate `_sum.interactions` for
   * the user and topic once the row is logged (`None` for a null sum). Every rejection
   * inside the `try` is answered with a 500.
   */
  function Post(cookieHeader: Option<string>, body: Option<Body>, dbFails: bool, sum: Option<int>): (out: Outcome)
    ensures out == Unauthorized <==> DeviceId(cookieHeader).None?
    ensures out == ServerError <==> DeviceId(cookieHeader).Some? && (body.None? || dbFails)
    ensures out.Success? ==> out.row == RowFor(DeviceId(cookieHeader).value, body.value)
    ensures out.Success? ==> out.progress == Percentage(if sum.Some? then sum.value else 0)
    ensures out.Success? ==> out.progress <= 100.0 && (out.isComplete <==> out.progress >= 100.0)
  {
    match DeviceId(cookieHeader)
    case None => Unauthorized
    case Some(id) =>
      match body
      case None => ServerError
      case Some(b) =>
        if dbFails then ServerError
        else
          var current := if sum.Some? then sum.value else 0;
          var progress := Percentage(current);
          Success(RowFor(id, b), progress, progress >= 100.0)
  }

  /** The device check comes first: no cookie means 401 even for a body that cannot be read. */
  lemma UnauthorizedBeforeBody(body: Option<Body>, dbFails: bool, sum: Option<int>)
    ensures Post(None, body, dbFails, sum) == Unauthorized
  {
  }

  /** A null sum reads as no interactions at all. */
  lemma NullSumIsZero(cookieHeader: Option<string>, body: Body, dbFails: bool)
    ensures Post(cookieHeader, Some(body), dbFails, None) == Post(cookieHeader, Some(body), dbFails, Some(0))
  {
  }

  /**
   * With a device and a readable body, the answer is a success exactly when the database
   * calls succeed, and its flag is set exactly when the topic has at least ten interactions.
   */
  lemma CompleteIffTenInteractions(cookieHeader: Option<string>, body: Body, dbFails: bool, sum: int)
    requires DeviceId(cookieHeader).Some?
    ensures Post(cookieHeader, Some(body), dbFails, Some(sum)).Success? <==> !dbFails
    ensures !dbFails ==> (Post(cookieHeader, Some(body), dbFails, Some(sum)).isComplete <==> sum >= 10)
  {
    CompleteIffTen(sum);
  }
}
