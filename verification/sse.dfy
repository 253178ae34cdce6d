/** The server-sent-events fan-out behind `GET /api/stream`: a registry of
    open streams keyed by a counter that starts at 1, the broadcast that
    writes one `event` frame to every open stream, the keepalive comment and
    the removal on close. A stream is the sequence of writes it received;
    `Render` gives the bytes on the wire and `ParseStream` reads them back
    the way an EventSource client does. */
module Sse {
  import opened Wrappers
  import Strings

  /** One write to a stream: the 15-second keepalive comment or an event frame
      carrying the JSON of a saved event. */
  datatype Write = Keepalive | Frame(data: string)

  const KeepaliveText: string := ": keepalive\n\n"
  const FrameHead: string := "event: event\ndata: "
  const FrameEnd: string := "\n\n"

  /** The bytes of one write. */
  function Text(w: Write): string {
    match w
    case Keepalive => KeepaliveText
    case Frame(d) => FrameHead + d + FrameEnd
  }

  /** The bytes of a stream. */
  function Render(ws: seq<Write>): string
    decreases |ws|
  {
    if |ws| == 0 then "" else Text(ws[0]) + Render(ws[1..])
  }

  /** The event payloads of a stream, in the order they were written. */
  function Payloads(ws: seq<Write>): (ds: seq<string>)
    ensures |ds| <= |ws|
    decreases |ws|
  {
    if |ws| == 0 then []
    else if ws[0].Frame? then [ws[0].data] + Payloads(ws[1..])
    else Payloads(ws[1..])
  }

  /** The length of the first line of `s` (all of `s` when it has no newline). */
  function LineLength(s: string): (n: nat)
    ensures n <= |s|
    ensures forall i :: 0 <= i < n ==> s[i] != '\n'
    ensures n < |s| ==> s[n] == '\n'
  {
    if |s| == 0 || s[0] == '\n' then 0 else 1 + LineLength(s[1..])
  }

  /** Reads a stream as a client does: keepalive comments are skipped and each
      `event: event` / `data: …` block yields its data line; anything else is
      malformed. */
  function ParseStream(s: string): Option<seq<string>>
    decreases |s|, 1
  {
    if s == "" then Some([])
    else if Strings.IsPrefix(KeepaliveText, s) then ParseStream(s[|KeepaliveText|..])
    else if Strings.IsPrefix(FrameHead, s) then ParseData(s[|FrameHead|..])
    else None
  }

  /** The rest of an event block after `data: `: one line of data, then the
      blank line that ends the block. */
  function ParseData(rest: string): Option<seq<string>>
    decreases |rest|, 0
  {
    var n := LineLength(rest);
    if n + 2 <= |rest| && rest[n + 1] == '\n' then Cons(rest[..n], ParseStream(rest[n + 2..]))
    else None
  }

  function Cons(d: string, o: Option<seq<string>>): Option<seq<string>> {
    match o
    case None => None
    case Some(ds) => Some([d] + ds)
  }

  /** A payload fits on one data line. `JSON.stringify` without indentation
      escapes every newline, so event JSON always does. */
  predicate OneLine(d: string) {
    '\n' !in d
  }

  predicate AllOneLine(ws: seq<Write>) {
    forall i :: 0 <= i < |ws| ==> ws[i].Frame? ==> OneLine(ws[i].data)
  }

  lemma ParseFrame(d: string, tail: string)
    requires OneLine(d)
    ensures ParseStream(Text(Frame(d)) + tail) == Cons(d, ParseStream(tail))
  {
    var s := Text(Frame(d)) + tail;
    var rest := d + "\n\n" + tail;
    assert s == FrameHead + rest;
    assert s[..|KeepaliveText|][0] != KeepaliveText[0];
    assert s[..|FrameHead|] == FrameHead;
    assert s[|FrameHead|..] == rest;
    ParseDataOf(d, tail);
  }

  lemma ParseDataOf(d: string, tail: string)
    requires OneLine(d)
    ensures ParseData(d + "\n\n" + tail) == Cons(d, ParseStream(tail))
  {
    var rest := d + "\n\n" + tail;
    LineLengthOf(d, "\n" + tail);
    assert rest == d + "\n" + ("\n" + tail);
    assert rest[|d| + 1] == '\n';
    assert rest[..|d|] == d;
    assert rest[|d| + 2..] == tail;
  }

  /** A one-line string followed by a newline is a whole first line. */
  lemma {:induction false} LineLengthOf(d: string, more: string)
    requires OneLine(d)
    ensures LineLength(d + "\n" + more) == |d|
    decreases |d|
  {
    if |d| > 0 {
      assert d[0] in d;
      assert (d + "\n" + more)[1..] == d[1..] + "\n" + more;
      assert forall c :: c in d[1..] ==> c in d;
      LineLengthOf(d[1..], more);
    }
  }

  lemma ParseKeepalive(tail: string)
    ensures ParseStream(Text(Keepalive) + tail) == ParseStream(tail)
  {
    var s := Text(Keepalive) + tail;
    assert s[..|KeepaliveText|] == KeepaliveText;
    assert s[|KeepaliveText|..] == tail;
  }

  /** Round trip: a client reading the bytes of a stream recovers exactly the
      payloads that were written to it, in order, with keepalives ignored. */
  lemma {:induction false} ParseRender(ws: seq<Write>)
    requires AllOneLine(ws)
    ensures ParseStream(Render(ws)) == Some(Payloads(ws))
    decreases |ws|
  {
    if |ws| > 0 {
      assert AllOneLine(ws[1..]) by {
        forall i | 0 <= i < |ws[1..]| && ws[1..][i].Frame? ensures OneLine(ws[1..][i].data) {
          assert ws[1..][i] == ws[i + 1];
        }
      }
      ParseRender(ws[1..]);
      if ws[0].Frame? {
        ParseFrame(ws[0].data, Render(ws[1..]));
      } else {
        ParseKeepalive(Render(ws[1..]));
      }
    }
  }

  // ---------------------------------------------------------------------------
  // The registry of open streams
  // ---------------------------------------------------------------------------

  /** The open streams by client id, and the next id to hand out. */
  datatype Registry = Registry(clients: map<nat, seq<Write>>, nextId: nat)

  /** The registry at start-up: no clients, ids start at 1. */
  const Initial: Registry := Registry(map[], 1)

  /** Ids are handed out in increasing order from 1: every open id is below
      the next one. */
  predicate Inv(r: Registry) {
    r.nextId >= 1 && forall id :: id in r.clients ==> 1 <= id < r.nextId
  }

  lemma InitialInv()
    ensures Inv(Initial) && |Initial.clients| == 0
  {
  }

  datatype Connected = Connected(registry: Registry, id: nat)

  /** `const id = sseIdSeq++; sseClients.set(id, client)`: the new client gets
      an id no open client has, and an empty stream. */
  function Connect(r: Registry): (c: Connected)
    requires Inv(r)
    ensures Inv(c.registry)
    ensures c.id !in r.clients && c.id >= 1
    ensures c.registry.clients == r.clients[c.id := []]
    ensures c.id == r.nextId && c.registry.nextId == r.nextId + 1
  {
    Connected(Registry(r.clients[r.nextId := []], r.nextId + 1), r.nextId)
  }

  /** On `close`: the stream is dropped and its keepalive timer cleared. */
  function Disconnect(r: Registry, id: nat): (r': Registry)
    requires Inv(r)
    ensures Inv(r')
    ensures id !in r'.clients
    ensures forall k :: k in r'.clients <==> k in r.clients && k != id
    ensures forall k :: k in r'.clients ==> r'.clients[k] == r.clients[k]
    ensures r'.nextId == r.nextId
  {
    Registry(r.clients - {id}, r.nextId)
  }

  /** A keepalive tick for one client; after its close the timer is gone and
      nothing is written. */
  function Tick(r: Registry, id: nat): (r': Registry)
    requires Inv(r)
    ensures Inv(r')
    ensures r'.clients.Keys == r.clients.Keys
    ensures id in r.clients ==> r'.clients[id] == r.clients[id] + [Keepalive]
    ensures forall k :: k in r.clients && k != id ==> r'.clients[k] == r.clients[k]
    ensures r'.nextId == r.nextId
  {
    if id in r.clients then Registry(r.clients[id := r.clients[id] + [Keepalive]], r.nextId) else r
  }

  /** `sendSseEvent`: one frame with the event's JSON to every open stream. */
  function Broadcast(r: Registry, data: string): (r': Registry)
    requires Inv(r)
    ensures Inv(r')
    ensures r'.clients.Keys == r.clients.Keys
    ensures forall k :: k in r.clients ==> r'.clients[k] == r.clients[k] + [Frame(data)]
    ensures r'.nextId == r.nextId
  {
    Registry(map k | k in r.clients :: r.clients[k] + [Frame(data)], r.nextId)
  }

  /** One event frame per payload. */
  function Frames(ds: seq<string>): (ws: seq<Write>)
    ensures |ws| == |ds| && forall i :: 0 <= i < |ds| ==> ws[i] == Frame(ds[i])
  {
    seq(|ds|, i requires 0 <= i < |ds| => Frame(ds[i]))
  }

  /** Broadcasting a sequence of events in order (`created.forEach(sendSseEvent)`):
      every open stream gets one frame per event, in that order. */
  function BroadcastAll(r: Registry, ds: seq<string>): (r': Registry)
    requires Inv(r)
    ensures Inv(r')
    ensures r'.clients.Keys == r.clients.Keys
    ensures forall k :: k in r.clients ==> r'.clients[k] == r.clients[k] + Frames(ds)
    ensures r'.nextId == r.nextId
    decreases |ds|
  {
    if |ds| == 0 then r
    else
      var r' := BroadcastAll(Broadcast(r, ds[0]), ds[1..]);
      assert forall k :: k in r.clients ==> r'.clients[k] == r.clients[k] + Frames(ds) by {
        forall k | k in r.clients
          ensures r'.clients[k] == r.clients[k] + Frames(ds)
        {
          FramesCons(r.clients[k], ds);
        }
      }
      r'
  }

  /** The first frame of a batch followed by the rest is the whole batch. */
  lemma FramesCons(w: seq<Write>, ds: seq<string>)
    requires |ds| > 0
    ensures w + [Frame(ds[0])] + Frames(ds[1..]) == w + Frames(ds)
  {
    assert Frames(ds) == [Frame(ds[0])] + Frames(ds[1..]);
  }

  /** Everything that can happen to the registry. */
  datatype Op = Open | Close(id: nat) | Ping(id: nat) | Send(data: string)

  /** One operation: only `Open` advances the id counter, by one. */
  function Apply(r: Registry, op: Op): (r': Registry)
    requires Inv(r)
    ensures Inv(r')
    ensures r'.nextId == r.nextId + (if op.Open? then 1 else 0)
  {
    match op
    case Open => Connect(r).registry
    case Close(id) => Disconnect(r, id)
    case Ping(id) => Tick(r, id)
    case Send(d) => Broadcast(r, d)
  }

  /** The number of `Open` operations. */
  function Opens(ops: seq<Op>): nat
    decreases |ops|
  {
    if |ops| == 0 then 0 else Opens(ops[..|ops| - 1]) + (if ops[|ops| - 1].Open? then 1 else 0)
  }

  /** The operations applied in order; the counter has advanced once per
      `Open`, so it never goes back. */
  function Run(r: Registry, ops: seq<Op>): (r': Registry)
    requires Inv(r)
    ensures Inv(r')
    ensures r'.nextId == r.nextId + Opens(ops) >= r.nextId
    decreases |ops|
  {
    if |ops| == 0 then r else Apply(Run(r, ops[..|ops| - 1]), ops[|ops| - 1])
  }

  lemma {:induction false} OpensMonotone(ops: seq<Op>, i: nat, j: nat)
    requires i <= j <= |ops|
    ensures Opens(ops[..i]) <= Opens(ops[..j])
    decreases j - i
  {
    if i < j {
      OpensMonotone(ops, i, j - 1);
      assert ops[..j][..j - 1] == ops[..j - 1];
    }
  }

  /** `sseIdSeq++`: of two `Open`s in one run, the later one receives a
      strictly larger id, so no id is ever handed out twice. */
  lemma OpensGetIncreasingIds(r: Registry, ops: seq<Op>, i: nat, j: nat)
    requires Inv(r) && i < j < |ops| && ops[i].Open? && ops[j].Open?
    ensures Connect(Run(r, ops[..i])).id < Connect(Run(r, ops[..j])).id
  {
    assert ops[..i + 1][..i] == ops[..i];
    assert Opens(ops[..i + 1]) == Opens(ops[..i]) + 1;
    OpensMonotone(ops, i + 1, j);
  }

  /** The payload an operation carries, if it is a broadcast. */
  function SentBy(op: Op): seq<string> {
    if op.Send? then [op.data] else []
  }

  /** The payloads of the `Send` operations, in order. */
  function Sent(ops: seq<Op>): (ds: seq<string>)
    ensures |ds| <= |ops|
    decreases |ops|
  {
    if |ops| == 0 then [] else Sent(ops[..|ops| - 1]) + SentBy(ops[|ops| - 1])
  }

  /** What one operation writes to the stream of client `id`. */
  function WrittenTo(op: Op, id: nat): seq<Write> {
    match op
    case Send(d) => [Frame(d)]
    case Ping(k) => if k == id then [Keepalive] else []
    case _ => []
  }

  /** One operation other than its own close leaves a client connected and
      only appends to its stream. */
  lemma StepKeepsClient(r: Registry, id: nat, op: Op)
    requires Inv(r) && id in r.clients && op != Close(id)
    ensures id in Apply(r, op).clients
    ensures Apply(r, op).clients[id] == r.clients[id] + WrittenTo(op, id)
  {
    match op
    case Open =>
      assert r.clients[id] + [] == r.clients[id];
    case Close(k) =>
      assert r.clients[id] + [] == r.clients[id];
    case Ping(k) =>
      assert k != id ==> r.clients[id] + [] == r.clients[id];
    case Send(d) =>
  }

  lemma {:induction false} PayloadsAppend(ws: seq<Write>, w: Write)
    ensures Payloads(ws + [w]) == Payloads(ws) + (if w.Frame? then [w.data] else [])
    decreases |ws|
  {
    if |ws| > 0 {
      assert (ws + [w])[1..] == ws[1..] + [w];
      PayloadsAppend(ws[1..], w);
    } else {
      assert ws + [w] == [w];
    }
  }

  lemma PayloadsWritten(ws: seq<Write>, op: Op, id: nat)
    ensures Payloads(ws + WrittenTo(op, id)) == Payloads(ws) + SentBy(op)
  {
    match op
    case Send(d) => PayloadsAppend(ws, Frame(d));
    case Ping(k) =>
      if k == id { PayloadsAppend(ws, Keepalive); } else { assert ws + [] == ws; }
    case _ => assert ws + [] == ws;
  }

  /** A client that stays connected receives every event broadcast after it
      joined, in broadcast order, and nothing else: other clients joining,
      leaving or pinging do not disturb its stream. */
  lemma {:induction false} StaysConnectedReceivesAll(r: Registry, id: nat, ops: seq<Op>)
    requires Inv(r) && id in r.clients
    requires forall i :: 0 <= i < |ops| ==> ops[i] != Close(id)
    ensures id in Run(r, ops).clients
    ensures Payloads(Run(r, ops).clients[id]) == Payloads(r.clients[id]) + Sent(ops)
    decreases |ops|
  {
    if |ops| > 0 {
      var n := |ops| - 1;
      var op := ops[n];
      assert forall i :: 0 <= i < n ==> ops[..n][i] == ops[i];
      StaysConnectedReceivesAll(r, id, ops[..n]);
      var before := Run(r, ops[..n]);
      assert Run(r, ops) == Apply(before, op);
      assert Sent(ops) == Sent(ops[..n]) + SentBy(op);
      StepPayloads(before, id, op, Payloads(r.clients[id]) + Sent(ops[..n]));
      AppendAssoc(Payloads(r.clients[id]), Sent(ops[..n]), SentBy(op));
    }
  }

  lemma AppendAssoc(a: seq<string>, b: seq<string>, c: seq<string>)
    ensures a + b + c == a + (b + c)
  {
  }

  lemma StepPayloads(before: Registry, id: nat, op: Op, prev: seq<string>)
    requires Inv(before) && id in before.clients && op != Close(id)
    requires Payloads(before.clients[id]) == prev
    ensures id in Apply(before, op).clients
    ensures Payloads(Apply(before, op).clients[id]) == prev + SentBy(op)
  {
    StepKeepsClient(before, id, op);
    PayloadsWritten(before.clients[id], op, id);
  }

  /** Streams only ever receive keepalives and the broadcast payloads, so when
      every payload is one line, so is every frame of every stream. */
  lemma {:induction false} OneLineKept(r: Registry, id: nat, ops: seq<Op>)
    requires Inv(r) && id in r.clients && AllOneLine(r.clients[id])
    requires forall i :: 0 <= i < |ops| ==> ops[i] != Close(id)
    requires forall i :: 0 <= i < |ops| ==> ops[i].Send? ==> OneLine(ops[i].data)
    ensures id in Run(r, ops).clients && AllOneLine(Run(r, ops).clients[id])
    decreases |ops|
  {
    if |ops| > 0 {
      var n := |ops| - 1;
      var op := ops[n];
      assert forall i :: 0 <= i < n ==> ops[..n][i] == ops[i];
      OneLineKept(r, id, ops[..n]);
      var before := Run(r, ops[..n]);
      assert Run(r, ops) == Apply(before, op);
      StepKeepsClient(before, id, op);
      OneLineAppend(before.clients[id], WrittenTo(op, id));
    }
  }

  lemma OneLineAppend(ws: seq<Write>, more: seq<Write>)
    requires AllOneLine(ws) && AllOneLine(more)
    ensures AllOneLine(ws + more)
  {
    forall i | 0 <= i < |ws + more| && (ws + more)[i].Frame? ensures OneLine((ws + more)[i].data) {
      if i < |ws| { assert (ws + more)[i] == ws[i]; } else { assert (ws + more)[i] == more[i - |ws|]; }
    }
  }

  /** End to end: a client that opened its stream (which starts empty, see
      `Connect`) and keeps it open reads off the wire exactly the events
      broadcast from then on. */
  lemma ClientReadsBroadcasts(r: Registry, id: nat, ops: seq<Op>)
    requires Inv(r) && id in r.clients && r.clients[id] == []
    requires forall i :: 0 <= i < |ops| ==> ops[i] != Close(id)
    requires forall i :: 0 <= i < |ops| ==> ops[i].Send? ==> OneLine(ops[i].data)
    ensures id in Run(r, ops).clients
    ensures ParseStream(Render(Run(r, ops).clients[id])) == Some(Sent(ops))
  {
    StaysConnectedReceivesAll(r, id, ops);
    OneLineKept(r, id, ops);
    ReadBack(Run(r, ops).clients[id], Sent(ops));
  }

  lemma ReadBack(ws: seq<Write>, ds: seq<string>)
    requires AllOneLine(ws) && Payloads(ws) == [] + ds
    ensures ParseStream(Render(ws)) == Some(ds)
  {
    ParseRender(ws);
    assert [] + ds == ds;
  }
}
