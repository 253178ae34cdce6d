/** The dashboard's client-side logic: the free-text search over the loaded
    events, the live feed that puts each streamed event on top, the
    `classNames` helper and the severity colour of the status dot. */
module Dashboard {
  import opened Wrappers
  import Strings

  /** An event as the dashboard receives it. A missing or `null` column is None. */
  datatype UiEvent = UiEvent(
    id: string,
    occurredAt: string,
    alertType: string,
    severity: Option<string>,
    networkId: Option<string>,
    deviceSerial: Option<string>,
    deviceName: Option<string>,
    clientMac: Option<string>,
    details: Option<string>,
    imageUrl: Option<string>)

  /** A string-or-null value that is truthy: present and non-empty. */
  predicate Present(v: Option<string>) {
    v.Some? && v.value != ""
  }

  /** `.filter(Boolean)` over strings and nulls: the present values, in order. */
  function Truthy(vs: seq<Option<string>>): (r: seq<string>)
    ensures |r| <= |vs|
    ensures forall x :: x in r <==> x != "" && Some(x) in vs
    ensures |vs| == 1 ==> r == if Present(vs[0]) then [vs[0].value] else []
  {
    if |vs| == 0 then []
    else
      var rest := Truthy(vs[1..]);
      assert forall v :: v in vs <==> v == vs[0] || v in vs[1..];
      assert |vs| == 1 ==> rest == [] by {
        if |vs| == 1 {
          assert vs[1..] == [];
        }
      }
      Kept(vs[0]) + rest
  }

  /** What one argument contributes: its string when it is present. */
  function Kept(v: Option<string>): seq<string> {
    if Present(v) then [v.value] else []
  }

  /** One step of `.filter(Boolean)`. */
  lemma TruthyCons(v: Option<string>, rest: seq<Option<string>>)
    ensures Truthy([v] + rest) == Kept(v) + Truthy(rest)
  {
    assert ([v] + rest)[0] == v && ([v] + rest)[1..] == rest;
  }

  /** `.filter(Boolean)` works argument by argument: the result for a
      concatenation is the results for its halves, in order. With the
      one-argument case, every present argument is kept in its place, as
      often as it occurs. */
  lemma {:induction false} TruthyAppend(a: seq<Option<string>>, b: seq<Option<string>>)
    ensures Truthy(a + b) == Truthy(a) + Truthy(b)
    decreases |a|
  {
    if |a| > 0 {
      var h, t := a[0], a[1..];
      assert Truthy(a + b) == Kept(h) + Truthy(t + b) by {
        assert a + b == [h] + (t + b) by {
          assert a == [h] + t;
        }
        TruthyCons(h, t + b);
      }
      assert Truthy(a) == Kept(h) + Truthy(t) by {
        assert a == [h] + t;
        TruthyCons(h, t);
      }
      TruthyAppend(t, b);
      NamesAssoc(Kept(h), Truthy(t), Truthy(b));
    } else {
      assert a + b == b;
    }
  }

  lemma NamesAssoc(x: seq<string>, y: seq<string>, z: seq<string>)
    ensures x + (y + z) == x + y + z
  {
  }

  /** The columns the search looks at, in the dashboard's order. */
  function SearchFields(e: UiEvent): seq<Option<string>> {
    [Some(e.alertType), e.severity, e.networkId, e.deviceSerial, e.deviceName, e.details]
  }

  /** `.some((v) => String(v).toLowerCase().includes(needle))`. */
  function AnyContains(vs: seq<string>, needle: string): (r: bool)
    ensures r <==> exists v :: v in vs && Strings.Contains(Strings.Lower(v), needle)
  {
    if |vs| == 0 then false
    else
      assert forall v :: v in vs <==> v == vs[0] || v in vs[1..];
      Strings.Contains(Strings.Lower(vs[0]), needle) || AnyContains(vs[1..], needle)
  }

  /** The row test of the search, as the dashboard computes it. */
  predicate Keeps(e: UiEvent, needle: string) {
    AnyContains(Truthy(SearchFields(e)), needle)
  }

  /** One column matches: it is present and, lower-cased, contains the needle. */
  predicate FieldHit(v: Option<string>, needle: string) {
    Present(v) && Strings.Contains(Strings.Lower(v.value), needle)
  }

  /** The search's meaning, field by field: alert type, severity, network,
      device serial, device name or details matches. */
  predicate Hit(e: UiEvent, needle: string) {
    || FieldHit(Some(e.alertType), needle)
    || FieldHit(e.severity, needle)
    || FieldHit(e.networkId, needle)
    || FieldHit(e.deviceSerial, needle)
    || FieldHit(e.deviceName, needle)
    || FieldHit(e.details, needle)
  }

  /** The computed test is the field-by-field one. */
  lemma KeepsIffHit(e: UiEvent, needle: string)
    ensures Keeps(e, needle) <==> Hit(e, needle)
  {
    var fs := SearchFields(e);
    assert forall v :: v in fs <==> v == fs[0] || v == fs[1] || v == fs[2] || v == fs[3] || v == fs[4] || v == fs[5];
    if FieldHit(fs[0], needle) { HitKeeps(fs, fs[0], needle); }
    else if FieldHit(fs[1], needle) { HitKeeps(fs, fs[1], needle); }
    else if FieldHit(fs[2], needle) { HitKeeps(fs, fs[2], needle); }
    else if FieldHit(fs[3], needle) { HitKeeps(fs, fs[3], needle); }
    else if FieldHit(fs[4], needle) { HitKeeps(fs, fs[4], needle); }
    else if FieldHit(fs[5], needle) { HitKeeps(fs, fs[5], needle); }
  }

  /** One matching column among the searched ones is enough. */
  lemma HitKeeps(vs: seq<Option<string>>, v: Option<string>, needle: string)
    requires v in vs && FieldHit(v, needle)
    ensures AnyContains(Truthy(vs), needle)
  {
    assert v.value in Truthy(vs);
  }

  /** Absent and empty columns never make a row match, whatever the query. */
  lemma EmptyFieldsNeverMatch(e: UiEvent, needle: string)
    requires !Present(Some(e.alertType)) && !Present(e.severity) && !Present(e.networkId)
    requires !Present(e.deviceSerial) && !Present(e.deviceName) && !Present(e.details)
    ensures !Keeps(e, needle)
  {
    KeepsIffHit(e, needle);
  }

  /** `a` is `b` with some elements left out and the rest in their original
      order. */
  predicate IsSubsequence(a: seq<UiEvent>, b: seq<UiEvent>)
    decreases |b|
  {
    if |a| == 0 then true
    else if |b| == 0 then false
    else (a[0] == b[0] && IsSubsequence(a[1..], b[1..])) || IsSubsequence(a, b[1..])
  }

  /** The rows that pass the test, in their original order. */
  function Where(events: seq<UiEvent>, needle: string): (r: seq<UiEvent>)
    ensures IsSubsequence(r, events)
    ensures forall e :: e in r <==> e in events && Keeps(e, needle)
    ensures forall e :: multiset(r)[e] == if Keeps(e, needle) then multiset(events)[e] else 0
  {
    if |events| == 0 then []
    else
      var rest := Where(events[1..], needle);
      assert forall e :: e in events <==> e == events[0] || e in events[1..];
      WhereCountsStep(events, needle, rest);
      if Keeps(events[0], needle) then
        assert ([events[0]] + rest)[1..] == rest;
        [events[0]] + rest
      else rest
  }

  lemma WhereCountsStep(events: seq<UiEvent>, needle: string, rest: seq<UiEvent>)
    requires |events| > 0
    requires forall e :: multiset(rest)[e] == if Keeps(e, needle) then multiset(events[1..])[e] else 0
    ensures var r := if Keeps(events[0], needle) then [events[0]] + rest else rest;
            forall e :: multiset(r)[e] == if Keeps(e, needle) then multiset(events)[e] else 0
  {
    assert events == [events[0]] + events[1..];
    assert multiset(events) == multiset([events[0]]) + multiset(events[1..]);
  }

  /** The `filtered` memo: everything when the query is empty, else the rows
      with a column that contains the lower-cased query after lower-casing. */
  function Filtered(events: seq<UiEvent>, q: string): (r: seq<UiEvent>)
    ensures q == "" ==> r == events
    ensures IsSubsequence(r, events)
    ensures forall e :: e in r <==> e in events && (q == "" || Hit(e, Strings.Lower(q)))
    ensures forall e :: multiset(r)[e] == if q == "" || Hit(e, Strings.Lower(q)) then multiset(events)[e] else 0
  {
    if q == "" then
      SubsequenceOfSelf(events);
      events
    else
      var r := Where(events, Strings.Lower(q));
      forall e ensures Keeps(e, Strings.Lower(q)) <==> Hit(e, Strings.Lower(q)) {
        KeepsIffHit(e, Strings.Lower(q));
      }
      r
  }

  lemma {:induction false} SubsequenceOfSelf(s: seq<UiEvent>)
    ensures IsSubsequence(s, s)
    decreases |s|
  {
    if |s| > 0 {
      SubsequenceOfSelf(s[1..]);
    }
  }

  /** The search ignores case on both sides: changing the case of the query
      changes nothing. */
  lemma SearchIgnoresQueryCase(events: seq<UiEvent>, q1: string, q2: string)
    requires Strings.Lower(q1) == Strings.Lower(q2)
    ensures Filtered(events, q1) == Filtered(events, q2)
  {
    assert q1 == "" <==> q2 == "" by {
      assert |Strings.Lower(q1)| == |q1| && |Strings.Lower(q2)| == |q2|;
    }
  }

  // ---------------------------------------------------------------------------
  // The live feed
  // ---------------------------------------------------------------------------

  /** The loaded events (newest first) and the count of unseen live events. */
  datatype Feed = Feed(events: seq<UiEvent>, newCount: nat)

  /** A streamed event: `setEvents((prev) => [e, ...prev])` and
      `setNewCount((n) => n + 1)`. */
  function OnLiveEvent(f: Feed, e: UiEvent): (g: Feed)
    ensures |g.events| == |f.events| + 1 && g.events[0] == e && g.events[1..] == f.events
    ensures g.newCount == f.newCount + 1
  {
    Feed([e] + f.events, f.newCount + 1)
  }

  /** The toast's "Show" action clears the unseen count and keeps the list. */
  function OnShow(f: Feed): (g: Feed)
    ensures g.events == f.events && g.newCount == 0
  {
    Feed(f.events, 0)
  }

  /** Several streamed events, in arrival order. */
  function Receive(f: Feed, arrivals: seq<UiEvent>): Feed
    decreases |arrivals|
  {
    if |arrivals| == 0 then f else Receive(OnLiveEvent(f, arrivals[0]), arrivals[1..])
  }

  function Reversed(s: seq<UiEvent>): (r: seq<UiEvent>)
    ensures |r| == |s|
    ensures forall i :: 0 <= i < |s| ==> r[i] == s[|s| - 1 - i]
    decreases |s|
  {
    if |s| == 0 then [] else Reversed(s[1..]) + [s[0]]
  }

  /** After a burst of live events the newest is on top: the list is the
      arrivals in reverse followed by what was there, and the unseen count
      grew by the number of arrivals. */
  lemma {:induction false} ReceiveStacksNewestFirst(f: Feed, arrivals: seq<UiEvent>)
    ensures Receive(f, arrivals).events == Reversed(arrivals) + f.events
    ensures Receive(f, arrivals).newCount == f.newCount + |arrivals|
    decreases |arrivals|
  {
    if |arrivals| > 0 {
      var g := OnLiveEvent(f, arrivals[0]);
      var rest := arrivals[1..];
      assert Receive(f, arrivals) == Receive(g, rest);
      ReceiveStacksNewestFirst(g, rest);
      assert Reversed(arrivals) == Reversed(rest) + [arrivals[0]];
      EventsAssoc(Reversed(rest), [arrivals[0]], f.events);
    }
  }

  lemma EventsAssoc(x: seq<UiEvent>, y: seq<UiEvent>, z: seq<UiEvent>)
    ensures x + (y + z) == x + y + z
  {
  }

  /** A live event shows at the top of the filtered list exactly when it
      matches the current query; the rows below are unchanged. */
  lemma FilteredAfterLiveEvent(f: Feed, e: UiEvent, q: string)
    ensures Filtered(OnLiveEvent(f, e).events, q) ==
              (if q == "" || Keeps(e, Strings.Lower(q)) then [e] else []) + Filtered(f.events, q)
  {
    var evs := OnLiveEvent(f, e).events;
    assert evs[1..] == f.events;
  }

  // ---------------------------------------------------------------------------
  // Class names and the severity colour
  // ---------------------------------------------------------------------------

  /** `classNames(...xs)`: the truthy arguments joined by single spaces. */
  function ClassNames(xs: seq<Option<string>>): (r: string)
    ensures r == "" <==> forall x :: x in xs ==> !Present(x)
  {
    var parts := Truthy(xs);
    assert |parts| > 0 ==> parts[0] in parts;
    JoinNonEmpty(parts);
    Strings.Join(parts, " ")
  }

  lemma {:induction false} JoinNonEmpty(parts: seq<string>)
    requires forall x :: x in parts ==> x != ""
    ensures Strings.Join(parts, " ") == "" <==> |parts| == 0
  {
    if |parts| > 0 {
      assert parts[0] in parts;
      assert |Strings.Join(parts, " ")| >= |parts[0]|;
    }
  }

  /** Single-word class names survive the join: splitting the result on
      spaces gives back the truthy arguments, in order. */
  lemma ClassNamesSplit(xs: seq<Option<string>>)
    requires exists x :: x in xs && Present(x)
    requires forall x :: x in xs && x.Some? ==> ' ' !in x.value
    ensures Strings.Split(ClassNames(xs), ' ') == Truthy(xs)
  {
    var parts := Truthy(xs);
    var x :| x in xs && Present(x);
    assert x.value in parts;
    Strings.SplitJoin(parts, ' ');
  }

  /** Three class names, the middle one missing or not: the present ones in
      argument order, one space apart. */
  lemma ClassNamesOfThree(a: string, b: Option<string>, c: string)
    requires a != "" && c != ""
    ensures ClassNames([Some(a), b, Some(c)])
            == if Present(b) then a + " " + b.value + " " + c else a + " " + c
  {
    var xs := [Some(a), b, Some(c)];
    assert Truthy(xs) == if Present(b) then [a, b.value, c] else [a, c] by {
      TruthyOfThree(Some(a), b, Some(c));
    }
    if Present(b) {
      JoinThree(a, b.value, c);
    } else {
      JoinTwo(a, c);
    }
  }

  lemma TruthyOfThree(x: Option<string>, y: Option<string>, z: Option<string>)
    ensures Truthy([x, y, z]) == Kept(x) + Kept(y) + Kept(z)
  {
    assert Truthy([z]) == Kept(z);
    assert Truthy([y, z]) == Kept(y) + Kept(z) by {
      TruthyCons(y, [z]);
      assert [y] + [z] == [y, z];
    }
    assert Truthy([x, y, z]) == Kept(x) + (Kept(y) + Kept(z)) by {
      TruthyCons(x, [y, z]);
      assert [x] + [y, z] == [x, y, z];
    }
    NamesAssoc(Kept(x), Kept(y), Kept(z));
  }

  lemma JoinThree(x: string, y: string, z: string)
    ensures Strings.Join([x, y, z], " ") == x + " " + y + " " + z
  {
    assert Strings.Join([y, z], " ") == y + " " + z by {
      assert [y, z][1..] == [z];
    }
    assert Strings.Join([x, y, z], " ") == x + " " + (y + " " + z) by {
      assert [x, y, z][1..] == [y, z];
    }
    assert x + " " + (y + " " + z) == x + " " + y + " " + z;
  }

  lemma JoinTwo(x: string, z: string)
    ensures Strings.Join([x, z], " ") == x + " " + z
  {
    assert [x, z][1..] == [z];
  }

  const DotBase: string := "inline-block h-2.5 w-2.5 rounded-full"

  /** The status dot's colour: red for Critical, amber for Warning, emerald
      for every other severity, a missing one included. */
  function SeverityDot(severity: Option<string>): (c: string)
    ensures c == "bg-red-500" <==> severity == Some("Critical")
    ensures c == "bg-amber-500" <==> severity == Some("Warning")
    ensures c == "bg-emerald-500" <==> severity != Some("Critical") && severity != Some("Warning")
  {
    if severity == Some("Critical") then "bg-red-500"
    else if severity == Some("Warning") then "bg-amber-500"
    else "bg-emerald-500"
  }

  /** The status dot's full class list: the fixed shape classes, then the
      colour as the last word. */
  lemma StatusDotClass(e: UiEvent)
    ensures var cls := ClassNames([Some(DotBase), Some(SeverityDot(e.severity))]);
            && cls == DotBase + " " + SeverityDot(e.severity)
            && Strings.Split(cls, ' ')[|Strings.Split(cls, ' ')| - 1] == SeverityDot(e.severity)
  {
    var c := SeverityDot(e.severity);
    var parts := Truthy([Some(DotBase), Some(c)]);
    assert parts == [DotBase, c];
    Strings.SplitJoin([c], ' ');
    SplitAfterSpace(DotBase, c);
  }

  /** The last piece of `a + " " + c` is `c` when `c` holds no space. */
  lemma {:induction false} SplitAfterSpace(a: string, c: string)
    requires ' ' !in c
    ensures var ps := Strings.Split(a + " " + c, ' ');
            |ps| >= 2 && ps[|ps| - 1] == c
    decreases |a|
  {
    if |a| == 0 {
      Strings.SplitJoin([c], ' ');
      assert Strings.Join([c], [' ']) == c;
      assert (" " + c)[1..] == c;
    } else {
      SplitAfterSpace(a[1..], c);
      assert (a + " " + c)[1..] == a[1..] + " " + c;
    }
  }
}
