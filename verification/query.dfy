/** `GET /api/events` and `GET /api/events/:id`: query-string parsing, the
    conjunctive filter, the limit clamp, and the page the endpoint answers. */
module Query {
  import opened Wrappers
  import opened Js
  import opened Events
  import Store
  import Paging
  import Strings
  import Normalize

  // ---------------------------------------------------------------------------
  // Parsing the query string
  // ---------------------------------------------------------------------------

  /** The filters of one request, as parsed. A filter whose value is absent or
      empty does not apply. */
  datatype Filter = Filter(
    alertTypes: seq<string>,
    severities: seq<string>,
    networkId: Option<string>,
    deviceSerial: Option<string>,
    since: Option<int>,
    until: Option<int>,
    q: Option<string>)

  datatype EventsQuery = EventsQuery(filter: Filter, limit: int, cursor: Option<string>)

  const DefaultLimit: int := 50
  const MaxLimit: int := 200

  /** `qp[name]`, undefined when the parameter is absent. */
  function Param(qp: map<string, Json>, name: string): Json {
    if name in qp then qp[name] else Undefined
  }

  /** `parseList(name)`: the value of `name` (or, when that is null or
      undefined, of `name[]`); an array gives its items stringified, any other
      truthy value its comma-separated, trimmed, non-empty pieces. */
  function ParseList(qp: map<string, Json>, name: string): (r: seq<string>)
    ensures var v := Nullish(Param(qp, name), Param(qp, name + "[]"));
            && (!Truthy(v) ==> r == [])
            && (v.Arr? ==> |r| == |v.items| && forall i :: 0 <= i < |r| ==> r[i] == ToStr(v.items[i]))
            && (Truthy(v) && !v.Arr? ==> forall x :: x in r ==> x != "" && Strings.Trimmed(x) && ',' !in x)
            && (Truthy(v) && !v.Arr? ==> r == Strings.CommaItems(ToStr(v)))
  {
    var v := Nullish(Param(qp, name), Param(qp, name + "[]"));
    if !Truthy(v) then []
    else if v.Arr? then Normalize.StrAll(v.items)
    else Strings.CommaItems(ToStr(v))
  }

  /** A comma list written from clean items reads back as those items. */
  lemma ParseListOfJoin(qp: map<string, Json>, name: string, items: seq<string>)
    requires |items| > 0
    requires forall x :: x in items ==> x != "" && Strings.Trimmed(x) && ',' !in x
    requires name in qp && qp[name] == Str(Strings.Join(items, ","))
    ensures ParseList(qp, name) == items
  {
    var s := Strings.Join(items, ",");
    assert s != "" by {
      assert items[0] in items;
      Normalize.JoinStartsWithFirst(items, ",");
    }
    var v := Nullish(Param(qp, name), Param(qp, name + "[]"));
    assert v == Str(s);
    assert Strings.CommaItems(s) == items by {
      Strings.CommaItemsOfJoin(items);
    }
  }

  /** A list sent as comma-separated pieces, padded or with empty entries,
      reads back as the trimmed non-empty pieces in order:
      `?alertType=MX Offline, MV Motion Recap` gives both types. */
  lemma ParseListOfPieces(qp: map<string, Json>, name: string, pieces: seq<string>)
    requires |pieces| > 0 && forall x :: x in pieces ==> ',' !in x
    requires name in qp && qp[name] == Str(Strings.Join(pieces, ","))
    ensures ParseList(qp, name) == Strings.NonEmptyTrimmed(pieces)
  {
    var s := Strings.Join(pieces, ",");
    assert Nullish(Param(qp, name), Param(qp, name + "[]")) == Str(s);
    if s == "" {
      assert pieces == [""] by {
        Strings.SplitJoin(pieces, ',');
        assert Strings.Split(s, ',') == [""];
      }
      assert Strings.NonEmptyTrimmed(pieces) == [] by {
        assert Strings.Trim("") == "";
      }
    } else {
      assert ParseList(qp, name) == Strings.CommaItems(s);
      Strings.CommaItemsOfPieces(pieces);
    }
  }

  /** The default limit's text parses to the default limit. */
  lemma DefaultLimitParses()
    ensures Strings.ParseInt("50") == Some(DefaultLimit)
  {
    var s := "50";
    assert Strings.AllDigits(s);
    assert !Strings.IsWhite(s[0]);
    assert Strings.TrimStart(s) == s;
    assert Strings.SignStripped(s) == s;
    Strings.DigitPrefixOfDigits(s);
    assert s[..1] == "5" && "5"[..0] == "";
    assert Strings.DigitsValue(s) == Strings.DigitsValue("5") * 10 + 0;
  }

  /** Clamps a parsed limit: unparseable or zero gives the default, anything
      else is pinned to [1, 200]. */
  function ClampLimit(parsed: Option<int>): (n: int)
    ensures 1 <= n <= MaxLimit
    ensures parsed.None? ==> n == DefaultLimit
    ensures parsed.Some? && parsed.value == 0 ==> n == DefaultLimit
    ensures parsed.Some? && parsed.value < 0 ==> n == 1
    ensures parsed.Some? && parsed.value > MaxLimit ==> n == MaxLimit
    ensures parsed.Some? && 1 <= parsed.value <= MaxLimit ==> n == parsed.value
  {
    var base := if parsed.None? || parsed.value == 0 then DefaultLimit else parsed.value;
    if base < 1 then 1 else if base > MaxLimit then MaxLimit else base
  }

  /** `Math.min(Math.max(parseInt(String(v || '50'), 10) || 50, 1), 200)`. */
  function ParseLimit(v: Json): (n: int)
    ensures 1 <= n <= MaxLimit
    ensures !Truthy(v) ==> n == DefaultLimit
    ensures Truthy(v) ==> n == ClampLimit(Strings.ParseInt(ToStr(v)))
  {
    DefaultLimitParses();
    ClampLimit(Strings.ParseInt(ToStr(Or(v, Str("50")))))
  }

  /** A numeric limit in range is used as given. */
  lemma LimitInRangeKept(m: int)
    requires 1 <= m <= MaxLimit
    ensures ParseLimit(Num(m)) == m
  {
    assert Strings.ParseInt(ToStr(Num(m))) == Some(m);
  }

  /** `x ? String(x) : undefined`. */
  function OptParam(qp: map<string, Json>, name: string): (r: Option<string>)
    ensures r.Some? <==> Truthy(Param(qp, name))
    ensures Truthy(Param(qp, name)) ==> r == Some(ToStr(Param(qp, name)))
    ensures Param(qp, name).Str? && Param(qp, name).s != "" ==> r == Some(Param(qp, name).s)
  {
    if Truthy(Param(qp, name)) then Some(ToStr(Param(qp, name))) else None
  }

  /** The parsed request. `since` and `until` go through the same date parser
      as the webhook payload. */
  function ParseQuery(qp: map<string, Json>, parseDate: Json -> Option<int>): (q: EventsQuery)
    ensures 1 <= q.limit <= MaxLimit
    ensures "limit" !in qp ==> q.limit == DefaultLimit
    ensures q.cursor.Some? <==> Truthy(Param(qp, "cursor"))
    ensures q.cursor == OptParam(qp, "cursor")
    ensures q.limit == ParseLimit(Param(qp, "limit"))
    ensures q.filter.alertTypes == ParseList(qp, "alertType")
    ensures q.filter.severities == ParseList(qp, "severity")
    ensures q.filter.networkId == OptParam(qp, "networkId")
    ensures q.filter.deviceSerial == OptParam(qp, "deviceSerial")
    ensures q.filter.since == Normalize.ToDate(parseDate, Param(qp, "since"))
    ensures q.filter.until == Normalize.ToDate(parseDate, Param(qp, "until"))
    ensures q.filter.q == OptParam(qp, "q")
  {
    EventsQuery(
      Filter(
        ParseList(qp, "alertType"),
        ParseList(qp, "severity"),
        OptParam(qp, "networkId"),
        OptParam(qp, "deviceSerial"),
        Normalize.ToDate(parseDate, Param(qp, "since")),
        Normalize.ToDate(parseDate, Param(qp, "until")),
        OptParam(qp, "q")),
      ParseLimit(Param(qp, "limit")),
      OptParam(qp, "cursor"))
  }

  // ---------------------------------------------------------------------------
  // Filtering
  // ---------------------------------------------------------------------------

  /** A set optional text filter: present and non-empty. */
  predicate Set(o: Option<string>) {
    o.Some? && o.value != ""
  }

  predicate FieldContains(field: Option<string>, q: string) {
    field.Some? && Strings.Contains(field.value, q)
  }

  /** The free-text filter: a substring of details, device name, device serial,
      network id or alert type. */
  predicate TextMatches(e: Event, q: string) {
    || FieldContains(e.data.details, q)
    || FieldContains(e.data.deviceName, q)
    || FieldContains(e.data.deviceSerial, q)
    || FieldContains(e.data.networkId, q)
    || Strings.Contains(e.data.alertType, q)
  }

  /** Every filter that is set must hold (the `where` clause). */
  predicate Matches(f: Filter, e: Event) {
    && (|f.alertTypes| == 0 || e.data.alertType in f.alertTypes)
    && (|f.severities| == 0 || (e.data.severity.Some? && e.data.severity.value in f.severities))
    && (!Set(f.networkId) || e.data.networkId == f.networkId)
    && (!Set(f.deviceSerial) || e.data.deviceSerial == f.deviceSerial)
    && (f.since.None? || f.since.value <= e.data.occurredAt)
    && (f.until.None? || e.data.occurredAt <= f.until.value)
    && (!Set(f.q) || TextMatches(e, f.q.value))
  }

  /** The filter as a row predicate. */
  function Accepts(f: Filter): Event -> bool {
    e => Matches(f, e)
  }

  /** The page a parsed request gets, as the handler is written: it fetches
      `limit + 1` matching rows after the cursor row, answers the first
      `limit` of them with the count of all matching rows, and, when the extra
      row was fetched, pops it and names it as the next cursor. */
  function Answer(t: seq<Event>, q: EventsQuery): (p: Paging.Page)
    requires q.limit >= 1
    ensures var rows := Paging.Fetch(t, Accepts(q.filter), q.cursor, q.limit + 1);
            && |p.items| <= q.limit
            && p.total == |Paging.Matching(t, Accepts(q.filter))|
            && p.items == rows[..Paging.Min(q.limit, |rows|)]
            && (p.nextCursor.Some? <==> |rows| > q.limit)
            && (p.nextCursor.Some? ==> p.nextCursor.value == rows[q.limit].id)
  {
    Paging.PageAsWritten(t, Accepts(q.filter), q.limit, q.cursor)
  }

  /** The page a parsed request gets with the corrected cursor: the same rows
      and count, and a next cursor naming the last row returned. */
  function AnswerCorrected(t: seq<Event>, q: EventsQuery): (p: Paging.Page)
    requires q.limit >= 1
    ensures var rows := Paging.Fetch(t, Accepts(q.filter), q.cursor, q.limit + 1);
            && |p.items| <= q.limit
            && p.total == |Paging.Matching(t, Accepts(q.filter))|
            && p.items == rows[..Paging.Min(q.limit, |rows|)]
            && (p.nextCursor.Some? <==> |rows| > q.limit)
            && (p.nextCursor.Some? ==> |p.items| == q.limit && p.nextCursor.value == p.items[q.limit - 1].id)
  {
    Paging.PageOf(t, Accepts(q.filter), q.limit, q.cursor)
  }

  /** `GET /api/events` as the handler is written: the parsed request's page,
      at most 200 rows, with the count of every row the filter selects. */
  function EventsEndpoint(t: seq<Event>, qp: map<string, Json>, parseDate: Json -> Option<int>): (p: Paging.Page)
    ensures var q := ParseQuery(qp, parseDate);
            && |p.items| <= q.limit <= MaxLimit
            && p.total == |Paging.Matching(t, Accepts(q.filter))|
            && p == Answer(t, q)
  {
    Answer(t, ParseQuery(qp, parseDate))
  }

  /** `GET /api/events` with the corrected cursor. */
  function EventsEndpointCorrected(t: seq<Event>, qp: map<string, Json>, parseDate: Json -> Option<int>): (p: Paging.Page)
    ensures var q := ParseQuery(qp, parseDate);
            && |p.items| <= q.limit <= MaxLimit
            && p.total == |Paging.Matching(t, Accepts(q.filter))|
            && p == AnswerCorrected(t, q)
  {
    AnswerCorrected(t, ParseQuery(qp, parseDate))
  }

  /** Without a cursor the endpoint answers the first `limit` matching rows;
      as written, its next cursor names the row after them. */
  lemma EventsEndpointFirstPage(t: seq<Event>, qp: map<string, Json>, parseDate: Json -> Option<int>)
    requires !Truthy(Param(qp, "cursor"))
    ensures var q := ParseQuery(qp, parseDate);
            Paging.ResumesAsWritten(EventsEndpoint(t, qp, parseDate), Paging.Matching(t, Accepts(q.filter)), 0, q.limit)
  {
    var q := ParseQuery(qp, parseDate);
    Paging.FirstPageAsWritten(t, Accepts(q.filter), q.limit);
  }

  /** With the cursor on the matching row at index `k`, the endpoint answers
      the next `limit` matching rows after it; as written, its next cursor
      names the row after them. */
  lemma EventsEndpointPageAfter(t: seq<Event>, qp: map<string, Json>, parseDate: Json -> Option<int>, k: int)
    requires Store.Valid(t)
    requires 0 <= k < |Paging.Matching(t, Accepts(ParseQuery(qp, parseDate).filter))|
    requires Param(qp, "cursor") == Str(Paging.Matching(t, Accepts(ParseQuery(qp, parseDate).filter))[k].id)
    requires Paging.Matching(t, Accepts(ParseQuery(qp, parseDate).filter))[k].id != ""
    ensures var q := ParseQuery(qp, parseDate);
            Paging.ResumesAsWritten(EventsEndpoint(t, qp, parseDate), Paging.Matching(t, Accepts(q.filter)), k + 1, q.limit)
  {
    var q := ParseQuery(qp, parseDate);
    Paging.PageAfterAsWritten(t, Accepts(q.filter), q.limit, k);
  }

  /** On a well-formed table every row of the page passes the filter, and the
      page is in listing order. */
  lemma EventsEndpointRowsMatch(t: seq<Event>, qp: map<string, Json>, parseDate: Json -> Option<int>)
    requires Store.Valid(t)
    ensures var q := ParseQuery(qp, parseDate);
            var p := EventsEndpoint(t, qp, parseDate);
            && Store.Sorted(p.items)
            && forall e :: e in p.items ==> e in t && Matches(q.filter, e)
  {
    var q := ParseQuery(qp, parseDate);
    Paging.AsWrittenSameRows(t, Accepts(q.filter), q.limit, q.cursor);
    Paging.PageSortedAndMatching(t, Accepts(q.filter), q.limit, q.cursor);
  }

  /** End to end, from the query string to the rows: every returned row has
      the requested `networkId` and `deviceSerial`, one of the requested alert
      types and severities, an event time inside `since`..`until`, and the
      `q` text in one of the searched columns. */
  lemma EventsEndpointHonoursRequest(t: seq<Event>, qp: map<string, Json>, parseDate: Json -> Option<int>, e: Event)
    requires Store.Valid(t) && e in EventsEndpoint(t, qp, parseDate).items
    ensures Param(qp, "networkId").Str? && Param(qp, "networkId").s != ""
            ==> e.data.networkId == Some(Param(qp, "networkId").s)
    ensures Param(qp, "deviceSerial").Str? && Param(qp, "deviceSerial").s != ""
            ==> e.data.deviceSerial == Some(Param(qp, "deviceSerial").s)
    ensures ParseList(qp, "alertType") != [] ==> e.data.alertType in ParseList(qp, "alertType")
    ensures ParseList(qp, "severity") != [] ==> e.data.severity.Some? && e.data.severity.value in ParseList(qp, "severity")
    ensures Normalize.ToDate(parseDate, Param(qp, "since")).Some?
            ==> Normalize.ToDate(parseDate, Param(qp, "since")).value <= e.data.occurredAt
    ensures Normalize.ToDate(parseDate, Param(qp, "until")).Some?
            ==> e.data.occurredAt <= Normalize.ToDate(parseDate, Param(qp, "until")).value
    ensures Param(qp, "q").Str? && Param(qp, "q").s != "" ==> TextMatches(e, Param(qp, "q").s)
  {
    EventsEndpointRowsMatch(t, qp, parseDate);
    ParsedFilterHolds(qp, parseDate, e);
  }

  lemma ParsedFilterHolds(qp: map<string, Json>, parseDate: Json -> Option<int>, e: Event)
    requires Matches(ParseQuery(qp, parseDate).filter, e)
    ensures Param(qp, "networkId").Str? && Param(qp, "networkId").s != ""
            ==> e.data.networkId == Some(Param(qp, "networkId").s)
    ensures Param(qp, "deviceSerial").Str? && Param(qp, "deviceSerial").s != ""
            ==> e.data.deviceSerial == Some(Param(qp, "deviceSerial").s)
    ensures ParseList(qp, "alertType") != [] ==> e.data.alertType in ParseList(qp, "alertType")
    ensures ParseList(qp, "severity") != [] ==> e.data.severity.Some? && e.data.severity.value in ParseList(qp, "severity")
    ensures Normalize.ToDate(parseDate, Param(qp, "since")).Some?
            ==> Normalize.ToDate(parseDate, Param(qp, "since")).value <= e.data.occurredAt
    ensures Normalize.ToDate(parseDate, Param(qp, "until")).Some?
            ==> e.data.occurredAt <= Normalize.ToDate(parseDate, Param(qp, "until")).value
    ensures Param(qp, "q").Str? && Param(qp, "q").s != "" ==> TextMatches(e, Param(qp, "q").s)
  {
    var f := ParseQuery(qp, parseDate).filter;
    FilterHolds(f, e, OptParam(qp, "networkId"), OptParam(qp, "deviceSerial"), OptParam(qp, "q"));
  }

  lemma FilterHolds(f: Filter, e: Event, networkId: Option<string>, deviceSerial: Option<string>, q: Option<string>)
    requires Matches(f, e) && f.networkId == networkId && f.deviceSerial == deviceSerial && f.q == q
    ensures Set(networkId) ==> e.data.networkId == networkId
    ensures Set(deviceSerial) ==> e.data.deviceSerial == deviceSerial
    ensures Set(q) ==> TextMatches(e, q.value)
  {
  }

  /** `GET /api/events/:id`: the row with that id, or none (a 404). */
  function EventById(t: seq<Event>, id: string): (r: Option<Event>)
    requires Store.DistinctIds(t)
    ensures r.Some? <==> id in Store.Ids(t)
    ensures r.Some? ==> r.value in t && r.value.id == id
    ensures forall e :: e in t && e.id == id ==> r == Some(e)
  {
    var r := Store.FindById(t, id);
    assert forall e :: e in t && e.id == id ==> r == Some(e) by {
      forall e | e in t && e.id == id ensures r == Some(e) {
        Store.FindByIdUnique(t, e);
      }
    }
    r
  }
}
