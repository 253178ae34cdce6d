/** The two write endpoints: `POST /api/webhooks/meraki`, which admits,
    normalises, upserts and broadcasts one vendor alert, and
    `POST /api/admin/seed`, which does the same for two built-in samples.
    The service state is the event table and the registry of open event
    streams; hashing, date parsing, `JSON.stringify` and `toISOString` are
    host functions, and the identifier a new row receives is a parameter. */
module Webhook {
  import opened Wrappers
  import opened Js
  import opened Events
  import Gate
  import Normalize
  import Store
  import Sse

  /** The host functions the handlers call. */
  datatype Host = Host(
    sha256: string -> string,
    parseDate: Json -> Option<int>,
    stringify: Json -> string,
    eventJson: Event -> string,
    isoString: int -> string)

  datatype State = State(table: seq<Event>, sse: Sse.Registry)

  predicate Valid(st: State) {
    Store.Valid(st.table) && Sse.Inv(st.sse)
  }

  datatype Response = Response(status: int, body: Json)

  datatype Handled = Handled(state: State, response: Response)

  function ErrorBody(message: string): Json {
    Obj(map["error" := Str(message)])
  }

  const Acknowledged: Json := Obj(map["ok" := Bool(true)])

  // ---------------------------------------------------------------------------
  // The webhook receiver
  // ---------------------------------------------------------------------------

  /** `req.rawBody || JSON.stringify(payload)`. */
  function RawBody(req: Gate.Request, host: Host): (raw: string)
    ensures req.rawBody.Some? && req.rawBody.value != "" ==> raw == req.rawBody.value
    ensures !(req.rawBody.Some? && req.rawBody.value != "") ==> raw == host.stringify(req.body)
  {
    if req.rawBody.Some? && req.rawBody.value != "" then req.rawBody.value else host.stringify(req.body)
  }

  /** The dedupe key of an admitted delivery. */
  function KeyOf(req: Gate.Request, host: Host): string {
    Normalize.BuildDedupeKey(req.body, RawBody(req, host), host.sha256)
  }

  /** The columns of an admitted delivery received at `now`. */
  function DataOf(req: Gate.Request, host: Host, now: int): (d: EventData)
    ensures d.dedupeKey == KeyOf(req, host) && d.raw == req.body
  {
    Normalize.MapPayloadToEvent(req.body, KeyOf(req, host), host.parseDate, now)
  }

  /** The three admission checks, in the order the handler applies them. */
  predicate Admitted(cfg: Gate.Config, req: Gate.Request) {
    Gate.IpAllowed(cfg, req) && Gate.ContentTypeAccepted(req) && Gate.VerifySecret(cfg, req)
  }

  /** One delivery. `storeFails` says whether the database write throws; the
      handler logs that and acknowledges anyway. */
  function HandleWebhook(cfg: Gate.Config, st: State, req: Gate.Request, host: Host, now: int,
                         freshId: string, storeFails: bool): (h: Handled)
    requires Valid(st) && freshId !in Store.Ids(st.table)
    ensures Valid(h.state)
    ensures h.response == Response(403, ErrorBody("Forbidden (IP not allowed)")) <==> !Gate.IpAllowed(cfg, req)
    ensures h.response == Response(415, ErrorBody("Unsupported Media Type"))
            <==> Gate.IpAllowed(cfg, req) && !Gate.ContentTypeAccepted(req)
    ensures h.response == Response(401, ErrorBody("Invalid secret"))
            <==> Gate.IpAllowed(cfg, req) && Gate.ContentTypeAccepted(req) && !Gate.VerifySecret(cfg, req)
    ensures h.response == Response(200, Acknowledged) <==> Admitted(cfg, req)
    ensures !Admitted(cfg, req) || storeFails ==> h.state == st
    ensures Store.Ids(h.state.table) <= Store.Ids(st.table) + {freshId}
    ensures Admitted(cfg, req) && !storeFails ==>
              var key := KeyOf(req, host);
              var row := Store.FindByKey(h.state.table, key);
              && row.Some? && row.value.data == DataOf(req, host, now)
              && (forall k :: k != key ==> Store.FindByKey(h.state.table, k) == Store.FindByKey(st.table, k))
              && h.state.sse.clients.Keys == st.sse.clients.Keys
              && (forall c :: c in st.sse.clients ==>
                    h.state.sse.clients[c] == st.sse.clients[c] + [Sse.Frame(host.eventJson(row.value))])
  {
    if !Gate.IpAllowed(cfg, req) then Handled(st, Response(403, ErrorBody("Forbidden (IP not allowed)")))
    else if !Gate.ContentTypeAccepted(req) then Handled(st, Response(415, ErrorBody("Unsupported Media Type")))
    else if !Gate.VerifySecret(cfg, req) then Handled(st, Response(401, ErrorBody("Invalid secret")))
    else if storeFails then Handled(st, Response(200, Acknowledged))
    else
      var d := DataOf(req, host, now);
      var u := Store.Upsert(st.table, d, freshId);
      assert Store.FindByKey(u.table, d.dedupeKey) == Some(u.saved) by {
        Store.UpsertActsAsMapUpdate(st.table, d, freshId, d.dedupeKey);
      }
      assert forall k :: k != d.dedupeKey ==> Store.FindByKey(u.table, k) == Store.FindByKey(st.table, k) by {
        forall k | k != d.dedupeKey ensures Store.FindByKey(u.table, k) == Store.FindByKey(st.table, k) {
          Store.UpsertActsAsMapUpdate(st.table, d, freshId, k);
        }
      }
      Handled(State(u.table, Sse.Broadcast(st.sse, host.eventJson(u.saved))), Response(200, Acknowledged))
  }

  /** A redelivered alert (same request, same receipt time) is absorbed: the
      table after the second delivery is the table after the first, whatever
      fresh identifier the store would have used. Open streams are told twice. */
  lemma RedeliveryKeepsTable(cfg: Gate.Config, st: State, req: Gate.Request, host: Host, now: int,
                             id1: string, id2: string)
    requires Valid(st) && id1 !in Store.Ids(st.table) && id2 !in Store.Ids(st.table) + {id1}
    ensures var h1 := HandleWebhook(cfg, st, req, host, now, id1, false);
            var h2 := HandleWebhook(cfg, h1.state, req, host, now, id2, false);
            && h2.state.table == h1.state.table
            && h2.response == h1.response
  {
    if Admitted(cfg, req) {
      Store.UpsertIdempotent(st.table, DataOf(req, host, now), id1, id2);
    }
  }

  /** Two deliveries carrying the same vendor `alertId` share one row: the
      later one's columns replace the earlier one's and the row count does not
      grow. */
  lemma SameAlertIdSharesRow(cfg: Gate.Config, st: State, r1: Gate.Request, r2: Gate.Request, host: Host,
                             now1: int, now2: int, id1: string, id2: string, a: string)
    requires Valid(st) && id1 !in Store.Ids(st.table) && id2 !in Store.Ids(st.table) + {id1}
    requires Admitted(cfg, r1) && Admitted(cfg, r2)
    requires Get(r1.body, "alertId") == Str(a) && Get(r2.body, "alertId") == Str(a) && a != ""
    ensures var h1 := HandleWebhook(cfg, st, r1, host, now1, id1, false);
            var h2 := HandleWebhook(cfg, h1.state, r2, host, now2, id2, false);
            && |h2.state.table| == |h1.state.table|
            && Store.FindByKey(h2.state.table, a).Some?
            && Store.FindByKey(h2.state.table, a).value.data == DataOf(r2, host, now2)
            && Store.FindByKey(h2.state.table, a).value.id == Store.FindByKey(h1.state.table, a).value.id
  {
    Normalize.AlertIdIsKey(r1.body, RawBody(r1, host), host.sha256, a);
    Normalize.AlertIdIsKey(r2.body, RawBody(r2, host), host.sha256, a);
  }

  // ---------------------------------------------------------------------------
  // The admin seed endpoint
  // ---------------------------------------------------------------------------

  /** The first built-in sample: a camera motion recap a minute before `now`. */
  function MotionSample(secret: string, now: int, host: Host): Json {
    Obj(map[
      "alertType" := Str("MV Motion Recap"),
      "severity" := Str("Info"),
      "organizationId" := Str("org_1"),
      "networkId" := Str("N_123"),
      "deviceSerial" := Str("Q2GV-ABCD-1234"),
      "deviceName" := Str("Lobby Cam"),
      "clientMac" := Null,
      "occurredAt" := Str(host.isoString(now - 60000)),
      "sentAt" := Str(host.isoString(now)),
      "sharedSecret" := Str(secret),
      "imageUrl" := Str("https://placehold.co/160x90/png"),
      "text" := Str("Motion recap available"),
      "alertId" := Str("sample-1")])
  }

  /** The second built-in sample: an appliance going offline five minutes
      before `now`. */
  function OfflineSample(secret: string, now: int, host: Host): Json {
    Obj(map[
      "alertType" := Str("MX Offline"),
      "severity" := Str("Critical"),
      "organizationId" := Str("org_1"),
      "networkId" := Str("N_123"),
      "deviceSerial" := Str("Q2GV-WXYZ-9999"),
      "deviceName" := Str("Edge Security"),
      "occurredAt" := Str(host.isoString(now - 5 * 60000)),
      "sentAt" := Str(host.isoString(now)),
      "sharedSecret" := Str(secret),
      "text" := Str("Security appliance went offline"),
      "alertId" := Str("sample-2")])
  }

  /** The columns a sample is stored with. */
  function SampleData(s: Json, host: Host, now: int): EventData {
    var key := Normalize.BuildDedupeKey(s, host.stringify(s), host.sha256);
    Normalize.MapPayloadToEvent(s, key, host.parseDate, now)
  }

  /** Each sample is stored under its own `alertId`. */
  lemma SampleKeys(cfg: Gate.Config, host: Host, now: int)
    ensures SampleData(MotionSample(cfg.sharedSecret, now, host), host, now).dedupeKey == "sample-1"
    ensures SampleData(OfflineSample(cfg.sharedSecret, now, host), host, now).dedupeKey == "sample-2"
  {
    var s1 := MotionSample(cfg.sharedSecret, now, host);
    var s2 := OfflineSample(cfg.sharedSecret, now, host);
    Normalize.AlertIdIsKey(s1, host.stringify(s1), host.sha256, "sample-1");
    Normalize.AlertIdIsKey(s2, host.stringify(s2), host.sha256, "sample-2");
  }

  /** The table after upserting both samples, with the two saved rows. */
  datatype Seeded = Seeded(table: seq<Event>, first: Event, second: Event)

  /** Upserts two rows with different keys, in order. Rows whose keys were
      already present are replaced, so the table grows by the number of keys
      that were new. */
  function UpsertPair(t: seq<Event>, d1: EventData, d2: EventData, id1: string, id2: string): (s: Seeded)
    requires Store.Valid(t) && d1.dedupeKey != d2.dedupeKey
    requires id1 != id2 && id1 !in Store.Ids(t) && id2 !in Store.Ids(t)
    ensures Store.Valid(s.table)
    ensures Store.Keys(s.table) == Store.Keys(t) + {d1.dedupeKey, d2.dedupeKey}
    ensures |t| <= |s.table| <= |t| + 2
    ensures d1.dedupeKey in Store.Keys(t) && d2.dedupeKey in Store.Keys(t) ==> |s.table| == |t|
    ensures s.first.data == d1 && s.second.data == d2
    ensures Store.FindByKey(s.table, d1.dedupeKey) == Some(s.first)
    ensures Store.FindByKey(s.table, d2.dedupeKey) == Some(s.second)
    ensures Store.Ids(s.table) <= Store.Ids(t) + {id1, id2}
  {
    var u1 := Store.Upsert(t, d1, id1);
    var u2 := Store.Upsert(u1.table, d2, id2);
    PairFinds(t, d1, d2, id1, id2);
    Seeded(u2.table, u1.saved, u2.saved)
  }

  /** After both upserts each key finds the row saved for it. */
  lemma PairFinds(t: seq<Event>, d1: EventData, d2: EventData, id1: string, id2: string)
    requires Store.Valid(t) && d1.dedupeKey != d2.dedupeKey
    requires id1 != id2 && id1 !in Store.Ids(t) && id2 !in Store.Ids(t)
    ensures var u1 := Store.Upsert(t, d1, id1);
            var u2 := Store.Upsert(u1.table, d2, id2);
            && Store.FindByKey(u2.table, d1.dedupeKey) == Some(u1.saved)
            && Store.FindByKey(u2.table, d2.dedupeKey) == Some(u2.saved)
  {
    var u1 := Store.Upsert(t, d1, id1);
    Store.UpsertActsAsMapUpdate(t, d1, id1, d1.dedupeKey);
    Store.UpsertActsAsMapUpdate(u1.table, d2, id2, d1.dedupeKey);
    Store.UpsertActsAsMapUpdate(u1.table, d2, id2, d2.dedupeKey);
  }

  /** `POST /api/admin/seed`: with the admin bearer token, upsert both samples
      (each under its `alertId`), then broadcast both saved rows in order and
      answer with the number of rows written. */
  function HandleSeed(cfg: Gate.Config, st: State, req: Gate.Request, host: Host, now: int,
                      id1: string, id2: string): (h: Handled)
    requires Valid(st) && id1 != id2 && id1 !in Store.Ids(st.table) && id2 !in Store.Ids(st.table)
    ensures Valid(h.state)
    ensures h.response == Response(401, ErrorBody("Unauthorized")) <==> !Gate.AdminAuthorized(cfg, req)
    ensures !Gate.AdminAuthorized(cfg, req) ==> h.state == st
    ensures Store.Ids(h.state.table) <= Store.Ids(st.table) + {id1, id2}
    ensures Gate.AdminAuthorized(cfg, req) ==>
              && h.response == Response(200, Obj(map["inserted" := Num(2)]))
              && Store.Keys(h.state.table) == Store.Keys(st.table) + {"sample-1", "sample-2"}
              && |st.table| <= |h.state.table| <= |st.table| + 2
              && h.state.sse.clients.Keys == st.sse.clients.Keys
              && (forall c :: c in st.sse.clients ==> |h.state.sse.clients[c]| == |st.sse.clients[c]| + 2)
              && var r1 := Store.FindByKey(h.state.table, "sample-1");
                 var r2 := Store.FindByKey(h.state.table, "sample-2");
                 && r1.Some? && r1.value.data == SampleData(MotionSample(cfg.sharedSecret, now, host), host, now)
                 && r2.Some? && r2.value.data == SampleData(OfflineSample(cfg.sharedSecret, now, host), host, now)
                 && (forall c :: c in st.sse.clients ==>
                       h.state.sse.clients[c]
                       == st.sse.clients[c] + [Sse.Frame(host.eventJson(r1.value)), Sse.Frame(host.eventJson(r2.value))])
  {
    if !Gate.AdminAuthorized(cfg, req) then Handled(st, Response(401, ErrorBody("Unauthorized")))
    else
      var d1 := SampleData(MotionSample(cfg.sharedSecret, now, host), host, now);
      var d2 := SampleData(OfflineSample(cfg.sharedSecret, now, host), host, now);
      SampleKeys(cfg, host, now);
      WriteSamples(st, d1, d2, host.eventJson, id1, id2)
  }

  /** The authorized part of the seed handler for any two rows with different
      keys: both upserts, the broadcast of both saved rows, and the reply. */
  function WriteSamples(st: State, d1: EventData, d2: EventData, eventJson: Event -> string,
                        id1: string, id2: string): (h: Handled)
    requires Valid(st) && d1.dedupeKey != d2.dedupeKey
    requires id1 != id2 && id1 !in Store.Ids(st.table) && id2 !in Store.Ids(st.table)
    ensures Valid(h.state)
    ensures h.response == Response(200, Obj(map["inserted" := Num(2)]))
    ensures Store.Ids(h.state.table) <= Store.Ids(st.table) + {id1, id2}
    ensures Store.Keys(h.state.table) == Store.Keys(st.table) + {d1.dedupeKey, d2.dedupeKey}
    ensures |st.table| <= |h.state.table| <= |st.table| + 2
    ensures h.state.sse.clients.Keys == st.sse.clients.Keys
    ensures var r1 := Store.FindByKey(h.state.table, d1.dedupeKey);
            var r2 := Store.FindByKey(h.state.table, d2.dedupeKey);
            && r1.Some? && r1.value.data == d1
            && r2.Some? && r2.value.data == d2
            && (forall c :: c in st.sse.clients ==>
                  h.state.sse.clients[c]
                  == st.sse.clients[c] + [Sse.Frame(eventJson(r1.value)), Sse.Frame(eventJson(r2.value))])
  {
    var s := UpsertPair(st.table, d1, d2, id1, id2);
    var sse := Sse.BroadcastAll(st.sse, [eventJson(s.first), eventJson(s.second)]);
    SeedWrites(st.sse, s.first, s.second, eventJson);
    Handled(State(s.table, sse), Response(200, Obj(map["inserted" := Num(2)])))
  }

  /** Broadcasting the two saved rows appends their two frames, in order. */
  lemma SeedWrites(r: Sse.Registry, first: Event, second: Event, eventJson: Event -> string)
    requires Sse.Inv(r)
    ensures var r' := Sse.BroadcastAll(r, [eventJson(first), eventJson(second)]);
            forall c :: c in r.clients ==>
              r'.clients[c] == r.clients[c] + [Sse.Frame(eventJson(first)), Sse.Frame(eventJson(second))]
  {
    assert Sse.Frames([eventJson(first), eventJson(second)])
           == [Sse.Frame(eventJson(first)), Sse.Frame(eventJson(second))];
  }

  /** Seeding again changes no row count: both sample keys are already present,
      so both upserts replace their rows. */
  lemma ReseedKeepsRowCount(cfg: Gate.Config, st: State, req: Gate.Request, host: Host,
                            now1: int, now2: int, id1: string, id2: string, id3: string, id4: string)
    requires Gate.AdminAuthorized(cfg, req)
    requires Valid(st) && id1 != id2 && id1 !in Store.Ids(st.table) && id2 !in Store.Ids(st.table)
    requires id3 != id4 && id3 !in Store.Ids(st.table) + {id1, id2} && id4 !in Store.Ids(st.table) + {id1, id2}
    ensures var h1 := HandleSeed(cfg, st, req, host, now1, id1, id2);
            var h2 := HandleSeed(cfg, h1.state, req, host, now2, id3, id4);
            |h2.state.table| == |h1.state.table|
  {
    SampleKeys(cfg, host, now2);
  }
}
