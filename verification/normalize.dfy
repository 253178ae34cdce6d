/** The payload normaliser: the dedupe key, the human-readable details line
    and the mapping from a vendor webhook body to event columns.
    SHA-256 and JavaScript's `new Date(value)` are host functions passed in
    as parameters: the model relies only on their being functions. */
module Normalize {
  import opened Wrappers
  import opened Js
  import opened Events
  import Strings

  /** `a || b || ... || z`: the first truthy operand, else the last operand. */
  function FirstTruthy(vs: seq<Json>): (r: Json)
    requires |vs| >= 1
    ensures Truthy(r) <==> exists i :: 0 <= i < |vs| && Truthy(vs[i])
    ensures Truthy(r) ==> exists i :: 0 <= i < |vs| && r == vs[i] && forall j :: 0 <= j < i ==> !Truthy(vs[j])
    ensures !Truthy(r) ==> r == vs[|vs| - 1]
  {
    if |vs| == 1 then vs[0]
    else
      var rest := FirstTruthy(vs[1..]);
      assert forall i :: 1 <= i < |vs| ==> vs[i] == vs[1..][i - 1];
      Or(vs[0], rest)
  }

  /** `toDate(value)`: falsy values are no date; otherwise the host parser
      decides, returning None for an invalid date. */
  function ToDate(parseDate: Json -> Option<int>, v: Json): (r: Option<int>)
    ensures !Truthy(v) ==> r == None
    ensures r.Some? ==> parseDate(v) == r
    ensures Truthy(v) ==> r == parseDate(v)
  {
    if !Truthy(v) then None else parseDate(v)
  }

  // ---------------------------------------------------------------------------
  // Dedupe key
  // ---------------------------------------------------------------------------

  /** `payload?.alertId || payload?.id`. */
  function VendorId(payload: Json): Json {
    Or(Get(payload, "alertId"), Get(payload, "id"))
  }

  /** `payload?.sentAt || payload?.occurredAt || ''`. */
  function Stamp(payload: Json): Json {
    FirstTruthy([Get(payload, "sentAt"), Get(payload, "occurredAt"), Str("")])
  }

  /** The string handed to SHA-256 when there is no vendor id. */
  function HashInput(payload: Json, rawBody: string): string {
    rawBody + "|" + ToStr(Stamp(payload))
  }

  /** The dedupe key: a truthy string vendor id verbatim, else the hash of the
      raw body and the timestamp. */
  function BuildDedupeKey(payload: Json, rawBody: string, sha256: string -> string): (key: string)
    ensures VendorId(payload).Str? && VendorId(payload).s != "" ==> key == VendorId(payload).s
    ensures !(VendorId(payload).Str? && VendorId(payload).s != "") ==> key == sha256(HashInput(payload, rawBody))
  {
    var alertId := VendorId(payload);
    if Truthy(alertId) && alertId.Str? then alertId.s
    else
      var sentAt := Stamp(payload);
      sha256(rawBody + "|" + ToStr(sentAt))
  }

  /** A non-empty string `alertId` is the key, whatever else the payload holds. */
  lemma AlertIdIsKey(payload: Json, rawBody: string, sha256: string -> string, a: string)
    requires Get(payload, "alertId") == Str(a) && a != ""
    ensures BuildDedupeKey(payload, rawBody, sha256) == a
  {
  }

  /** A falsy `alertId` lets a non-empty string `id` be the key. */
  lemma IdIsKeyWhenAlertIdFalsy(payload: Json, rawBody: string, sha256: string -> string, id: string)
    requires !Truthy(Get(payload, "alertId"))
    requires Get(payload, "id") == Str(id) && id != ""
    ensures BuildDedupeKey(payload, rawBody, sha256) == id
  {
  }

  /** A truthy `alertId` that is not a string (a number, say) hides a string
      `id`: the key falls back to the hash. */
  lemma NonStringAlertIdShadowsId(payload: Json, rawBody: string, sha256: string -> string)
    requires Truthy(Get(payload, "alertId")) && !Get(payload, "alertId").Str?
    ensures BuildDedupeKey(payload, rawBody, sha256) == sha256(HashInput(payload, rawBody))
  {
  }

  /** Without a vendor id the key depends on nothing but the raw body and the
      stringified timestamp: two such deliveries that agree on both collide. */
  lemma HashedKeyDependsOnBodyAndStamp(p1: Json, p2: Json, rawBody: string, sha256: string -> string)
    requires !(VendorId(p1).Str? && VendorId(p1).s != "")
    requires !(VendorId(p2).Str? && VendorId(p2).s != "")
    requires ToStr(Stamp(p1)) == ToStr(Stamp(p2))
    ensures BuildDedupeKey(p1, rawBody, sha256) == BuildDedupeKey(p2, rawBody, sha256)
  {
  }

  /** Changing the raw body alone, or the timestamp alone, changes what is hashed
      (whether SHA-256 then collides is outside the model). */
  lemma HashInputSeparates(p1: Json, raw1: string, p2: Json, raw2: string)
    requires raw1 == raw2 <==> ToStr(Stamp(p1)) != ToStr(Stamp(p2))
    ensures HashInput(p1, raw1) != HashInput(p2, raw2)
  {
    BarJoinSeparates(raw1, ToStr(Stamp(p1)), raw2, ToStr(Stamp(p2)));
  }

  lemma BarJoinSeparates(raw1: string, s1: string, raw2: string, s2: string)
    requires raw1 == raw2 <==> s1 != s2
    ensures raw1 + "|" + s1 != raw2 + "|" + s2
  {
    if raw1 == raw2 {
      var pre := raw1 + "|";
      assert (pre + s1)[|pre|..] == s1 && (pre + s2)[|pre|..] == s2;
    } else {
      var suf := "|" + s1;
      assert raw1 + "|" + s1 == raw1 + suf && raw2 + "|" + s2 == raw2 + suf;
      if |raw1| == |raw2| {
        assert (raw1 + suf)[..|raw1|] == raw1 && (raw2 + suf)[..|raw2|] == raw2;
      } else {
        assert |raw1 + suf| != |raw2 + suf|;
      }
    }
  }

  // ---------------------------------------------------------------------------
  // Details summary
  // ---------------------------------------------------------------------------

  function AlertTypePart(p: Json): Json { Or(Get(p, "alertType"), Str("alert")) }
  function DevicePart(p: Json): Json { FirstTruthy([Get(p, "deviceName"), Get(p, "deviceSerial"), Get(p, "deviceMac")]) }
  function NetworkPart(p: Json): Json { FirstTruthy([Get(p, "networkName"), Get(p, "networkId")]) }
  function TextPart(p: Json): Json { FirstTruthy([Get(p, "text"), Get(p, "description"), Get(p, "summary")]) }

  /** The separator of the details line. */
  const Sep: string := " \U{2022} "

  /** `[v].filter(Boolean)`: the value alone when it is truthy, else nothing. */
  function IfTruthy(v: Json): seq<Json> {
    if Truthy(v) then [v] else []
  }

  /** `.filter(Boolean)`: the truthy values, in order. */
  function KeepTruthy(vs: seq<Json>): (r: seq<Json>)
    ensures forall i :: 0 <= i < |r| ==> Truthy(r[i])
    ensures |r| <= |vs|
  {
    if |vs| == 0 then [] else IfTruthy(vs[0]) + KeepTruthy(vs[1..])
  }

  /** `.filter(Boolean)` keeps every truthy value as often as it occurs and
      no falsy one. */
  lemma {:induction false} KeepTruthyCounts(vs: seq<Json>, v: Json)
    ensures multiset(KeepTruthy(vs))[v] == if Truthy(v) then multiset(vs)[v] else 0
    decreases |vs|
  {
    if |vs| > 0 {
      KeepTruthyCounts(vs[1..], v);
      assert vs == [vs[0]] + vs[1..];
      assert multiset(vs) == multiset([vs[0]]) + multiset(vs[1..]);
      assert multiset(KeepTruthy(vs)) == multiset(IfTruthy(vs[0])) + multiset(KeepTruthy(vs[1..]));
    }
  }

  /** Filtering a concatenation filters each side and keeps them in order. */
  lemma {:induction false} KeepTruthyAppend(a: seq<Json>, b: seq<Json>)
    ensures KeepTruthy(a + b) == KeepTruthy(a) + KeepTruthy(b)
    decreases |a|
  {
    if |a| > 0 {
      assert (a + b)[0] == a[0] && (a + b)[1..] == a[1..] + b;
      KeepTruthyAppend(a[1..], b);
    } else {
      assert a + b == b;
    }
  }

  function StrAll(vs: seq<Json>): (r: seq<string>)
    ensures |r| == |vs| && forall i :: 0 <= i < |vs| ==> r[i] == ToStr(vs[i])
  {
    seq(|vs|, i requires 0 <= i < |vs| => ToStr(vs[i]))
  }

  /** The parts of the summary: the alert type (never falsy, thanks to the
      "alert" default), then device, network and text, each only when truthy. */
  function SummaryParts(p: Json): (parts: seq<Json>)
    ensures parts == [AlertTypePart(p)] + IfTruthy(DevicePart(p)) + IfTruthy(NetworkPart(p)) + IfTruthy(TextPart(p))
  {
    KeepFour(AlertTypePart(p), DevicePart(p), NetworkPart(p), TextPart(p));
    KeepTruthy([AlertTypePart(p), DevicePart(p), NetworkPart(p), TextPart(p)])
  }

  lemma KeepFour(a: Json, d: Json, n: Json, x: Json)
    requires Truthy(a)
    ensures KeepTruthy([a, d, n, x]) == [a] + IfTruthy(d) + IfTruthy(n) + IfTruthy(x)
  {
    var xs, nxs, dnxs := [x], [n, x], [d, n, x];
    assert KeepTruthy(xs) == IfTruthy(x) by {
      KeepCons(x, []);
      assert [x] + [] == xs;
    }
    assert KeepTruthy(nxs) == IfTruthy(n) + IfTruthy(x) by {
      KeepCons(n, xs);
      assert [n] + xs == nxs;
    }
    assert KeepTruthy(dnxs) == IfTruthy(d) + (IfTruthy(n) + IfTruthy(x)) by {
      KeepCons(d, nxs);
      assert [d] + nxs == dnxs;
    }
    assert KeepTruthy([a, d, n, x]) == [a] + (IfTruthy(d) + (IfTruthy(n) + IfTruthy(x))) by {
      KeepCons(a, dnxs);
      assert [a] + dnxs == [a, d, n, x];
    }
    JsonAssoc4([a], IfTruthy(d), IfTruthy(n), IfTruthy(x));
  }

  lemma JsonAssoc4(p: seq<Json>, q: seq<Json>, r: seq<Json>, s: seq<Json>)
    ensures p + (q + (r + s)) == p + q + r + s
  {
  }

  /** One step of `.filter(Boolean)`. */
  lemma KeepCons(v: Json, vs: seq<Json>)
    ensures KeepTruthy([v] + vs) == IfTruthy(v) + KeepTruthy(vs)
  {
    assert ([v] + vs)[1..] == vs;
  }

  /** What a truthy part after the first adds to the details line: the
      separator and the part's string; a falsy part adds nothing. */
  function Piece(v: Json): string {
    if Truthy(v) then Sep + ToStr(v) else ""
  }

  /** `summarizeDetails`: the parts joined with " • ", or nothing when that
      join is the empty string. The line is the alert type followed by a
      separator and the string of each of device, network and text that is
      truthy, in that order. */
  function SummarizeDetails(p: Json): (r: Option<string>)
    ensures r.Some? ==> r.value != ""
    ensures r.None? <==> Strings.Join(StrAll(SummaryParts(p)), Sep) == ""
    ensures var line := ToStr(AlertTypePart(p)) + Piece(DevicePart(p)) + Piece(NetworkPart(p)) + Piece(TextPart(p));
            r == if line == "" then None else Some(line)
  {
    var summary := Strings.Join(StrAll(SummaryParts(p)), Sep);
    SummaryLine(p);
    if summary == "" then None else Some(summary)
  }

  /** `sep + ys[0] + sep + ys[1] + ...`: what the items after the first add
      to a join. */
  function Prefixed(ys: seq<string>, sep: string): string {
    if |ys| == 0 then "" else sep + ys[0] + Prefixed(ys[1..], sep)
  }

  lemma {:induction false} JoinCons(x: string, ys: seq<string>, sep: string)
    ensures Strings.Join([x] + ys, sep) == x + Prefixed(ys, sep)
    decreases |ys|
  {
    if |ys| == 0 {
      assert [x] + ys == [x];
    } else {
      assert ([x] + ys)[1..] == [ys[0]] + ys[1..];
      JoinCons(ys[0], ys[1..], sep);
    }
  }

  lemma {:induction false} PrefixedAppend(a: seq<string>, b: seq<string>, sep: string)
    ensures Prefixed(a + b, sep) == Prefixed(a, sep) + Prefixed(b, sep)
    decreases |a|
  {
    if |a| > 0 {
      assert (a + b)[0] == a[0] && (a + b)[1..] == a[1..] + b;
      PrefixedAppend(a[1..], b, sep);
    } else {
      assert a + b == b;
    }
  }

  lemma StrAllAppend(a: seq<Json>, b: seq<Json>)
    ensures StrAll(a + b) == StrAll(a) + StrAll(b)
  {
  }

  lemma PrefixedPiece(v: Json)
    ensures Prefixed(StrAll(IfTruthy(v)), Sep) == Piece(v)
  {
    if Truthy(v) {
      assert StrAll([v]) == [ToStr(v)];
      assert Prefixed([ToStr(v)], Sep) == Sep + ToStr(v) + Prefixed([], Sep);
    }
  }

  /** The join of the summary parts spelled out piece by piece. */
  lemma SummaryLine(p: Json)
    ensures Strings.Join(StrAll(SummaryParts(p)), Sep)
            == ToStr(AlertTypePart(p)) + Piece(DevicePart(p)) + Piece(NetworkPart(p)) + Piece(TextPart(p))
  {
    JoinParts(AlertTypePart(p), DevicePart(p), NetworkPart(p), TextPart(p));
  }

  lemma JoinParts(a: Json, d: Json, n: Json, x: Json)
    ensures Strings.Join(StrAll([a] + IfTruthy(d) + IfTruthy(n) + IfTruthy(x)), Sep)
            == ToStr(a) + Piece(d) + Piece(n) + Piece(x)
  {
    StrAllFour(a, IfTruthy(d), IfTruthy(n), IfTruthy(x));
    JoinPrefixed(ToStr(a), StrAll(IfTruthy(d)), StrAll(IfTruthy(n)), StrAll(IfTruthy(x)));
    PrefixedPiece(d);
    PrefixedPiece(n);
    PrefixedPiece(x);
  }

  lemma StrAllFour(a: Json, ds: seq<Json>, ns: seq<Json>, xs: seq<Json>)
    ensures StrAll([a] + ds + ns + xs) == [ToStr(a)] + StrAll(ds) + StrAll(ns) + StrAll(xs)
  {
    StrAllAppend([a] + ds + ns, xs);
    StrAllAppend([a] + ds, ns);
    StrAllAppend([a], ds);
  }

  lemma JoinPrefixed(t: string, a: seq<string>, b: seq<string>, c: seq<string>)
    ensures Strings.Join([t] + a + b + c, Sep) == t + Prefixed(a, Sep) + Prefixed(b, Sep) + Prefixed(c, Sep)
  {
    var rest := a + b + c;
    ConsAssoc(t, a, b, c);
    JoinCons(t, rest, Sep);
    PrefixedThree(a, b, c);
    StringAssoc(t, Prefixed(a, Sep), Prefixed(b, Sep), Prefixed(c, Sep));
  }

  lemma StringAssoc(t: string, x: string, y: string, z: string)
    ensures t + (x + y + z) == t + x + y + z
  {
  }

  lemma ConsAssoc(t: string, a: seq<string>, b: seq<string>, c: seq<string>)
    ensures [t] + a + b + c == [t] + (a + b + c)
  {
  }

  lemma PrefixedThree(a: seq<string>, b: seq<string>, c: seq<string>)
    ensures Prefixed(a + b + c, Sep) == Prefixed(a, Sep) + Prefixed(b, Sep) + Prefixed(c, Sep)
  {
    PrefixedAppend(a + b, c, Sep);
    PrefixedAppend(a, b, Sep);
  }

  /** A payload without any device field reads `type • network • text`. */
  lemma DetailsSkipMissingDevice(p: Json, t: string, n: string, x: string)
    requires AlertTypePart(p) == Str(t) && !Truthy(DevicePart(p))
    requires NetworkPart(p) == Str(n) && TextPart(p) == Str(x)
    requires t != "" && n != "" && x != ""
    ensures SummarizeDetails(p) == Some(t + Sep + n + Sep + x)
  {
    assert Piece(DevicePart(p)) == "" && Piece(Str(n)) == Sep + n && Piece(Str(x)) == Sep + x;
    assert t + "" + (Sep + n) + (Sep + x) == t + Sep + n + Sep + x;
  }

  /** A payload without any network field reads `type • device • text`. */
  lemma DetailsSkipMissingNetwork(p: Json, t: string, d: string, x: string)
    requires AlertTypePart(p) == Str(t) && DevicePart(p) == Str(d)
    requires !Truthy(NetworkPart(p)) && TextPart(p) == Str(x)
    requires t != "" && d != "" && x != ""
    ensures SummarizeDetails(p) == Some(t + Sep + d + Sep + x)
  {
    assert Piece(Str(d)) == Sep + d && Piece(NetworkPart(p)) == "" && Piece(Str(x)) == Sep + x;
    assert t + (Sep + d) + "" + (Sep + x) == t + Sep + d + Sep + x;
  }

  lemma {:induction false} JoinStartsWithFirst(parts: seq<string>, sep: string)
    requires |parts| >= 1
    ensures Strings.IsPrefix(parts[0], Strings.Join(parts, sep))
  {
    if |parts| > 1 {
      assert Strings.Join(parts, sep) == parts[0] + (sep + Strings.Join(parts[1..], sep));
    }
  }

  /** Unless `alertType` is an array, the details line is present and begins
      with the alert type, or with "alert" when the payload has none. */
  lemma DetailsLeadWithAlertType(p: Json)
    requires !Get(p, "alertType").Arr?
    ensures SummarizeDetails(p).Some?
    ensures Strings.IsPrefix(ToStr(AlertTypePart(p)), SummarizeDetails(p).value)
    ensures !Truthy(Get(p, "alertType")) ==> Strings.IsPrefix("alert", SummarizeDetails(p).value)
  {
    var strs := StrAll(SummaryParts(p));
    JoinStartsWithFirst(strs, Sep);
    TruthyScalarToStrNonEmpty(AlertTypePart(p));
  }

  /** A payload whose four parts are non-empty strings gets all four, in the
      order alert type, device, network, text. */
  lemma DetailsOfFullPayload(p: Json, t: string, d: string, n: string, x: string)
    requires AlertTypePart(p) == Str(t) && DevicePart(p) == Str(d)
    requires NetworkPart(p) == Str(n) && TextPart(p) == Str(x)
    requires t != "" && d != "" && n != "" && x != ""
    ensures SummarizeDetails(p) == Some(t + Sep + d + Sep + n + Sep + x)
  {
    var parts := [Str(t), Str(d), Str(n), Str(x)];
    assert SummaryParts(p) == KeepTruthy(parts);
    SummaryOfFour(t, d, n, x);
  }

  /** Four non-empty strings are all kept and joined in order. */
  lemma SummaryOfFour(t: string, d: string, n: string, x: string)
    requires t != "" && d != "" && n != "" && x != ""
    ensures var summary := Strings.Join(StrAll(KeepTruthy([Str(t), Str(d), Str(n), Str(x)])), Sep);
            summary == t + Sep + d + Sep + n + Sep + x && summary != ""
  {
    var parts := [Str(t), Str(d), Str(n), Str(x)];
    KeepAllTruthy(parts);
    var strs := StrAll(parts);
    assert strs == [t, d, n, x];
    JoinFour(t, d, n, x, Sep);
  }

  lemma JoinFour(a: string, b: string, c: string, d: string, sep: string)
    ensures Strings.Join([a, b, c, d], sep) == a + sep + b + sep + c + sep + d
  {
    var xs := [a, b, c, d];
    assert xs[1..] == [b, c, d] && xs[1..][1..] == [c, d] && xs[1..][1..][1..] == [d];
    assert Strings.Join([c, d], sep) == c + sep + d;
    assert Strings.Join([b, c, d], sep) == b + sep + (c + sep + d);
    assert Strings.Join(xs, sep) == a + sep + (b + sep + (c + sep + d));
  }

  /** Filtering values that are all truthy keeps every one of them. */
  lemma {:induction false} KeepAllTruthy(vs: seq<Json>)
    requires forall i :: 0 <= i < |vs| ==> Truthy(vs[i])
    ensures KeepTruthy(vs) == vs
  {
    if |vs| > 0 {
      KeepAllTruthy(vs[1..]);
      assert vs == [vs[0]] + vs[1..];
    }
  }

  /** The device part is the first truthy of name, serial and MAC. */
  lemma DeviceFallsBackToSerialThenMac(p: Json)
    ensures Truthy(Get(p, "deviceName")) ==> DevicePart(p) == Get(p, "deviceName")
    ensures !Truthy(Get(p, "deviceName")) && Truthy(Get(p, "deviceSerial")) ==> DevicePart(p) == Get(p, "deviceSerial")
    ensures !Truthy(Get(p, "deviceName")) && !Truthy(Get(p, "deviceSerial")) ==> DevicePart(p) == Get(p, "deviceMac")
  {
    var vs := [Get(p, "deviceName"), Get(p, "deviceSerial"), Get(p, "deviceMac")];
    assert vs[1..][1..] == [Get(p, "deviceMac")];
    assert FirstTruthy(vs[1..]) == Or(Get(p, "deviceSerial"), Get(p, "deviceMac"));
    assert DevicePart(p) == Or(Get(p, "deviceName"), FirstTruthy(vs[1..]));
  }

  /** Although the alert type defaults to "alert", a truthy alert type that
      stringifies to "" leaves `details` null when no device, network or text
      part is truthy: `[]` is truthy, so the default is not used, yet it
      stringifies to "" and the summary is empty. */
  lemma EmptyArrayAlertTypeLosesDetails(p: Json)
    requires Get(p, "alertType") == Arr([])
    requires !Truthy(DevicePart(p)) && !Truthy(NetworkPart(p)) && !Truthy(TextPart(p))
    ensures SummarizeDetails(p) == None
  {
    assert AlertTypePart(p) == Arr([]);
  }

  /** With the same alert type and a device name that is a non-empty string
      (and no network or text part), the summary starts with the separator:
      the empty alert type still takes the first place of the join. */
  lemma EmptyArrayAlertTypeLeadsWithSeparator(p: Json, d: string)
    requires Get(p, "alertType") == Arr([]) && Get(p, "deviceName") == Str(d) && d != ""
    requires !Truthy(NetworkPart(p)) && !Truthy(TextPart(p))
    ensures SummarizeDetails(p) == Some(Sep + d)
  {
    assert AlertTypePart(p) == Arr([]) && ToStr(Arr([])) == "";
    var vs := [Get(p, "deviceName"), Get(p, "deviceSerial"), Get(p, "deviceMac")];
    assert Truthy(vs[0]) && FirstTruthy(vs) == Str(d);
    assert Piece(DevicePart(p)) == Sep + d;
    assert Piece(NetworkPart(p)) == "" && Piece(TextPart(p)) == "";
    assert "" + (Sep + d) + "" + "" == Sep + d;
  }

  // ---------------------------------------------------------------------------
  // Payload to event columns
  // ---------------------------------------------------------------------------

  /** `v ? String(v) : null`. */
  function OptStr(v: Json): (r: Option<string>)
    ensures r.Some? <==> Truthy(v)
    ensures Truthy(v) ==> r == Some(ToStr(v))
    ensures v.Str? && v.s != "" ==> r == Some(v.s)
  {
    if Truthy(v) then Some(ToStr(v)) else None
  }

  /** The event time: the first usable date among `occurredAt`,
      `alertData.occurredAt` and `sentAt`, else the receipt time `now`. */
  function EventTime(p: Json, parseDate: Json -> Option<int>, now: int): (t: int)
    ensures ToDate(parseDate, Get(p, "occurredAt")).Some?
            ==> t == ToDate(parseDate, Get(p, "occurredAt")).value
    ensures (ToDate(parseDate, Get(p, "occurredAt")).None?
             && ToDate(parseDate, Get(Get(p, "alertData"), "occurredAt")).Some?)
            ==> t == ToDate(parseDate, Get(Get(p, "alertData"), "occurredAt")).value
    ensures (ToDate(parseDate, Get(p, "occurredAt")).None?
             && ToDate(parseDate, Get(Get(p, "alertData"), "occurredAt")).None?
             && ToDate(parseDate, Get(p, "sentAt")).None?)
            ==> t == now
    ensures (ToDate(parseDate, Get(p, "occurredAt")).None?
             && ToDate(parseDate, Get(Get(p, "alertData"), "occurredAt")).None?
             && ToDate(parseDate, Get(p, "sentAt")).Some?)
            ==> t == ToDate(parseDate, Get(p, "sentAt")).value
  {
    match ToDate(parseDate, Get(p, "occurredAt"))
    case Some(t) => t
    case None =>
      match ToDate(parseDate, Get(Get(p, "alertData"), "occurredAt"))
      case Some(t) => t
      case None => ToDate(parseDate, Get(p, "sentAt")).GetOr(now)
  }

  /** The image link: the first truthy of `imageUrl`, `alertData.imageUrl`,
      `motionRecapImage` and `recapImageUrl`, stringified. */
  function ImageUrlOf(p: Json): (r: Option<string>)
    ensures r.Some? <==>
              Truthy(Get(p, "imageUrl")) || Truthy(Get(Get(p, "alertData"), "imageUrl"))
              || Truthy(Get(p, "motionRecapImage")) || Truthy(Get(p, "recapImageUrl"))
    ensures Get(p, "imageUrl").Str? && Get(p, "imageUrl").s != "" ==> r == Some(Get(p, "imageUrl").s)
    ensures Truthy(Get(p, "imageUrl")) ==> r == Some(ToStr(Get(p, "imageUrl")))
    ensures !Truthy(Get(p, "imageUrl")) && Truthy(Get(Get(p, "alertData"), "imageUrl"))
            ==> r == Some(ToStr(Get(Get(p, "alertData"), "imageUrl")))
    ensures !Truthy(Get(p, "imageUrl")) && !Truthy(Get(Get(p, "alertData"), "imageUrl"))
            && Truthy(Get(p, "motionRecapImage"))
            ==> r == Some(ToStr(Get(p, "motionRecapImage")))
    ensures !Truthy(Get(p, "imageUrl")) && !Truthy(Get(Get(p, "alertData"), "imageUrl"))
            && !Truthy(Get(p, "motionRecapImage")) && Truthy(Get(p, "recapImageUrl"))
            ==> r == Some(ToStr(Get(p, "recapImageUrl")))
  {
    var vs := [Get(p, "imageUrl"), Get(Get(p, "alertData"), "imageUrl"),
               Get(p, "motionRecapImage"), Get(p, "recapImageUrl")];
    var v := FirstTruthy(vs);
    assert Truthy(vs[0]) ==> v == vs[0];
    assert !Truthy(vs[0]) && Truthy(vs[1]) ==> v == vs[1];
    assert !Truthy(vs[0]) && !Truthy(vs[1]) && Truthy(vs[2]) ==> v == vs[2];
    assert !Truthy(vs[0]) && !Truthy(vs[1]) && !Truthy(vs[2]) && Truthy(vs[3]) ==> v == vs[3];
    assert (exists i :: 0 <= i < |vs| && Truthy(vs[i]))
           <==> Truthy(vs[0]) || Truthy(vs[1]) || Truthy(vs[2]) || Truthy(vs[3]);
    OptStr(v)
  }

  /** `String(payload?.alertType || 'unknown')`: "unknown" when absent, and
      never empty unless the payload's alert type is an array. */
  function AlertTypeOf(p: Json): (t: string)
    ensures !Get(p, "alertType").Arr? ==> t != ""
    ensures !Truthy(Get(p, "alertType")) ==> t == "unknown"
    ensures Get(p, "alertType").Str? && Get(p, "alertType").s != "" ==> t == Get(p, "alertType").s
    ensures Truthy(Get(p, "alertType")) ==> t == ToStr(Get(p, "alertType"))
  {
    var v := Or(Get(p, "alertType"), Str("unknown"));
    assert !Get(p, "alertType").Arr? ==> ToStr(v) != "" by {
      if !Get(p, "alertType").Arr? {
        TruthyScalarToStrNonEmpty(v);
      }
    }
    ToStr(v)
  }

  /** `mapPayloadToEvent`: total over every payload, with absent or falsy
      optional fields becoming None. */
  function MapPayloadToEvent(p: Json, dedupeKey: string, parseDate: Json -> Option<int>, now: int): (e: EventData)
    ensures e.dedupeKey == dedupeKey && e.raw == p
    ensures e.occurredAt == EventTime(p, parseDate, now)
    ensures e.alertType == AlertTypeOf(p) && e.imageUrl == ImageUrlOf(p)
    ensures e.details == SummarizeDetails(p)
    ensures e.severity.Some? <==> Truthy(Get(p, "severity"))
    ensures e.severity == OptStr(Get(p, "severity"))
    ensures e.organizationId.Some? <==> Truthy(Get(p, "organizationId"))
    ensures e.organizationId == OptStr(Get(p, "organizationId"))
    ensures e.networkId.Some? <==> Truthy(Get(p, "networkId"))
    ensures e.networkId == OptStr(Get(p, "networkId"))
    ensures e.deviceSerial.Some? <==> Truthy(Get(p, "deviceSerial"))
    ensures e.deviceSerial == OptStr(Get(p, "deviceSerial"))
    ensures e.deviceMac.Some? <==> Truthy(Get(p, "deviceMac"))
    ensures e.deviceMac == OptStr(Get(p, "deviceMac"))
    ensures e.deviceName.Some? <==> Truthy(Get(p, "deviceName"))
    ensures e.deviceName == OptStr(Get(p, "deviceName"))
    ensures e.clientMac.Some? <==> Truthy(Get(p, "clientMac"))
    ensures e.clientMac == OptStr(Get(p, "clientMac"))
  {
    EventData(
      dedupeKey,
      EventTime(p, parseDate, now),
      AlertTypeOf(p),
      OptStr(Get(p, "severity")),
      OptStr(Get(p, "organizationId")),
      OptStr(Get(p, "networkId")),
      OptStr(Get(p, "deviceSerial")),
      OptStr(Get(p, "deviceMac")),
      OptStr(Get(p, "deviceName")),
      OptStr(Get(p, "clientMac")),
      ImageUrlOf(p),
      SummarizeDetails(p),
      p)
  }

  /** The seven columns copied from a payload field of the same name. */
  datatype CopiedField = Severity | OrganizationId | NetworkId | DeviceSerial | DeviceMac | DeviceName | ClientMac

  function FieldName(f: CopiedField): string {
    match f
    case Severity => "severity"
    case OrganizationId => "organizationId"
    case NetworkId => "networkId"
    case DeviceSerial => "deviceSerial"
    case DeviceMac => "deviceMac"
    case DeviceName => "deviceName"
    case ClientMac => "clientMac"
  }

  function Column(e: EventData, f: CopiedField): Option<string> {
    match f
    case Severity => e.severity
    case OrganizationId => e.organizationId
    case NetworkId => e.networkId
    case DeviceSerial => e.deviceSerial
    case DeviceMac => e.deviceMac
    case DeviceName => e.deviceName
    case ClientMac => e.clientMac
  }

  /** Each of the seven copied columns holds `String(payload[field])` when the
      field is truthy and is null otherwise; a non-empty string arrives
      verbatim, an empty or missing one becomes null. */
  lemma ColumnsCopied(p: Json, f: CopiedField, dedupeKey: string, parseDate: Json -> Option<int>, now: int)
    ensures var c := Column(MapPayloadToEvent(p, dedupeKey, parseDate, now), f);
            var v := Get(p, FieldName(f));
            && c == (if Truthy(v) then Some(ToStr(v)) else None)
            && (v.Str? ==> c == (if v.s == "" then None else Some(v.s)))
  {
    var e := MapPayloadToEvent(p, dedupeKey, parseDate, now);
    var v := Get(p, FieldName(f));
    assert Column(e, f) == OptStr(v);
    OptStrOf(v);
  }

  lemma OptStrOf(v: Json)
    ensures OptStr(v) == (if Truthy(v) then Some(ToStr(v)) else None)
    ensures v.Str? ==> OptStr(v) == (if v.s == "" then None else Some(v.s))
  {
  }
}
