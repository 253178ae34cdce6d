/** The event table: a sequence kept in listing order (newest first, ties by
    the larger id), with at most one row per dedupe key and per id. The upsert
    keyed by dedupe key is the only write. */
module Store {
  import opened Wrappers
  import opened Events
  import Strings

  // ---------------------------------------------------------------------------
  // Listing order
  // ---------------------------------------------------------------------------

  /** `a` is listed before `b`: later `occurredAt` first, then larger id. */
  predicate Before(a: Event, b: Event) {
    || a.data.occurredAt > b.data.occurredAt
    || (a.data.occurredAt == b.data.occurredAt && Strings.Less(b.id, a.id))
  }

  lemma BeforeIrreflexive(a: Event)
    ensures !Before(a, a)
  {
    Strings.LessIrreflexive(a.id);
  }

  lemma BeforeTransitive(a: Event, b: Event, c: Event)
    requires Before(a, b) && Before(b, c)
    ensures Before(a, c)
  {
    if a.data.occurredAt == b.data.occurredAt == c.data.occurredAt {
      Strings.LessTransitive(c.id, b.id, a.id);
    }
  }

  /** Rows with different ids are always ordered one way or the other. */
  lemma BeforeTotal(a: Event, b: Event)
    requires a.id != b.id
    ensures Before(a, b) || Before(b, a)
  {
    Strings.LessTotal(a.id, b.id);
  }

  lemma BeforeAsymmetric(a: Event, b: Event)
    requires Before(a, b)
    ensures !Before(b, a)
  {
    if a.data.occurredAt == b.data.occurredAt {
      Strings.LessAsymmetric(b.id, a.id);
    }
  }

  predicate Sorted(t: seq<Event>) {
    forall i, j :: 0 <= i < j < |t| ==> Before(t[i], t[j])
  }

  // ---------------------------------------------------------------------------
  // Uniqueness of ids and dedupe keys
  // ---------------------------------------------------------------------------

  function Ids(t: seq<Event>): set<string> {
    set e | e in t :: e.id
  }

  function Keys(t: seq<Event>): set<string> {
    set e | e in t :: e.data.dedupeKey
  }

  predicate DistinctIds(t: seq<Event>) {
    |t| == 0 || (t[0].id !in Ids(t[1..]) && DistinctIds(t[1..]))
  }

  predicate DistinctKeys(t: seq<Event>) {
    |t| == 0 || (t[0].data.dedupeKey !in Keys(t[1..]) && DistinctKeys(t[1..]))
  }

  /** The table invariant: in listing order, one row per id, one row per dedupe key. */
  predicate Valid(t: seq<Event>) {
    Sorted(t) && DistinctIds(t) && DistinctKeys(t)
  }

  lemma {:induction false} DistinctKeysPairwise(t: seq<Event>, i: int, j: int)
    requires DistinctKeys(t) && 0 <= i < j < |t|
    ensures t[i].data.dedupeKey != t[j].data.dedupeKey
  {
    if i == 0 {
      assert t[j] in t[1..];
    } else {
      DistinctKeysPairwise(t[1..], i - 1, j - 1);
    }
  }

  lemma {:induction false} DistinctIdsPairwise(t: seq<Event>, i: int, j: int)
    requires DistinctIds(t) && 0 <= i < j < |t|
    ensures t[i].id != t[j].id
  {
    if i == 0 {
      assert t[j] in t[1..];
    } else {
      DistinctIdsPairwise(t[1..], i - 1, j - 1);
    }
  }

  // ---------------------------------------------------------------------------
  // Lookups
  // ---------------------------------------------------------------------------

  /** The row holding dedupe key `k`, if any. */
  function FindByKey(t: seq<Event>, k: string): (r: Option<Event>)
    ensures r.Some? ==> r.value in t && r.value.data.dedupeKey == k
    ensures r.None? <==> k !in Keys(t)
  {
    if |t| == 0 then None
    else if t[0].data.dedupeKey == k then Some(t[0])
    else FindByKey(t[1..], k)
  }

  /** The row with identifier `id`, if any. */
  function FindById(t: seq<Event>, id: string): (r: Option<Event>)
    ensures r.Some? ==> r.value in t && r.value.id == id
    ensures r.None? <==> id !in Ids(t)
  {
    if |t| == 0 then None
    else if t[0].id == id then Some(t[0])
    else FindById(t[1..], id)
  }

  /** With one row per key, the row found for a key is the one that holds it. */
  lemma {:induction false} FindByKeyUnique(t: seq<Event>, e: Event)
    requires DistinctKeys(t) && e in t
    ensures FindByKey(t, e.data.dedupeKey) == Some(e)
  {
    if t[0] != e {
      assert e in t[1..];
      FindByKeyUnique(t[1..], e);
    }
  }

  lemma {:induction false} FindByIdUnique(t: seq<Event>, e: Event)
    requires DistinctIds(t) && e in t
    ensures FindById(t, e.id) == Some(e)
  {
    if t[0] != e {
      assert e in t[1..];
      FindByIdUnique(t[1..], e);
    }
  }

  // ---------------------------------------------------------------------------
  // Removing and inserting a row
  // ---------------------------------------------------------------------------

  /** The table without the row holding key `k`. */
  function RemoveKey(t: seq<Event>, k: string): (r: seq<Event>)
    ensures forall e :: e in r <==> e in t && e.data.dedupeKey != k
    ensures |r| <= |t|
  {
    if |t| == 0 then []
    else
      var rest := RemoveKey(t[1..], k);
      assert forall e :: e in t ==> e == t[0] || e in t[1..];
      if t[0].data.dedupeKey == k then rest else [t[0]] + rest
  }

  /** Removing a row keeps the table in listing order and its rows distinct. */
  lemma {:induction false} RemoveKeyKeepsValid(t: seq<Event>, k: string)
    requires Valid(t)
    ensures Valid(RemoveKey(t, k))
  {
    if |t| > 0 {
      var rest := RemoveKey(t[1..], k);
      assert Sorted(t[1..]);
      RemoveKeyKeepsValid(t[1..], k);
      if t[0].data.dedupeKey != k {
        var r := [t[0]] + rest;
        assert r[1..] == rest;
        forall j | 1 <= j < |r| ensures Before(r[0], r[j]) {
          assert r[j] in rest;
          var m :| 0 <= m < |t[1..]| && t[1..][m] == r[j];
          assert t[m + 1] == r[j];
        }
        assert Sorted(r);
        assert Ids(rest) <= Ids(t[1..]);
        assert Keys(rest) <= Keys(t[1..]);
      }
    }
  }

  /** With one row per key, removing a present key drops exactly one row and an
      absent key drops none. */
  lemma {:induction false} RemoveKeyLength(t: seq<Event>, k: string)
    requires DistinctKeys(t)
    ensures k !in Keys(t) ==> RemoveKey(t, k) == t
    ensures k in Keys(t) ==> |RemoveKey(t, k)| == |t| - 1
  {
    if |t| > 0 {
      RemoveKeyLength(t[1..], k);
      assert Keys(t) == {t[0].data.dedupeKey} + Keys(t[1..]);
      assert t == [t[0]] + t[1..];
    }
  }

  /** Places a row at its position in listing order. */
  function Insert(t: seq<Event>, e: Event): (r: seq<Event>)
    ensures forall x :: x in r <==> x in t || x == e
    ensures |r| == |t| + 1
  {
    if |t| == 0 then [e]
    else if Before(e, t[0]) then [e] + t
    else
      assert forall x :: x in t ==> x == t[0] || x in t[1..];
      [t[0]] + Insert(t[1..], e)
  }

  /** Inserting a row with a new id into a sorted table keeps it sorted. */
  lemma {:induction false} InsertSorted(t: seq<Event>, e: Event)
    requires Sorted(t) && e.id !in Ids(t)
    ensures Sorted(Insert(t, e))
  {
    if |t| > 0 {
      assert t[0] in t;
      BeforeTotal(e, t[0]);
      if Before(e, t[0]) {
        forall j | 1 <= j < |t| ensures Before(e, t[j]) {
          BeforeTransitive(e, t[0], t[j]);
        }
      } else {
        assert Sorted(t[1..]);
        assert Ids(t[1..]) <= Ids(t);
        InsertSorted(t[1..], e);
        var rest := Insert(t[1..], e);
        var r := [t[0]] + rest;
        forall j | 1 <= j < |r| ensures Before(r[0], r[j]) {
          assert r[j] in rest;
          if r[j] != e {
            var m :| 0 <= m < |t[1..]| && t[1..][m] == r[j];
            assert t[m + 1] == r[j];
          }
        }
      }
    }
  }

  lemma InsertIdsKeys(t: seq<Event>, e: Event)
    ensures Ids(Insert(t, e)) == Ids(t) + {e.id}
    ensures Keys(Insert(t, e)) == Keys(t) + {e.data.dedupeKey}
  {
  }

  /** Inserting a row with a new id and a new key keeps ids and keys distinct. */
  lemma {:induction false} InsertDistinct(t: seq<Event>, e: Event)
    requires DistinctIds(t) && DistinctKeys(t)
    requires e.id !in Ids(t) && e.data.dedupeKey !in Keys(t)
    ensures DistinctIds(Insert(t, e)) && DistinctKeys(Insert(t, e))
  {
    if |t| > 0 && !Before(e, t[0]) {
      assert Ids(t[1..]) <= Ids(t) && Keys(t[1..]) <= Keys(t);
      InsertDistinct(t[1..], e);
      InsertIdsKeys(t[1..], e);
      var r := Insert(t, e);
      assert r[1..] == Insert(t[1..], e);
      assert t[0].id !in Ids(t[1..]) && t[0].id != e.id;
      assert t[0].data.dedupeKey !in Keys(t[1..]) && t[0].data.dedupeKey != e.data.dedupeKey;
    } else if |t| > 0 {
      var r := Insert(t, e);
      assert r[1..] == t;
    }
  }

  // ---------------------------------------------------------------------------
  // Upsert
  // ---------------------------------------------------------------------------

  datatype UpsertResult = UpsertResult(table: seq<Event>, saved: Event)

  /** `prisma.event.upsert({ where: { dedupeKey }, update: data, create: data })`:
      a known key keeps its row id and takes all the new columns; an unknown
      key gets a new row under the store-supplied fresh id. */
  function Upsert(t: seq<Event>, d: EventData, freshId: string): (u: UpsertResult)
    requires Valid(t) && freshId !in Ids(t)
    ensures Valid(u.table)
    ensures u.saved.data == d
    ensures forall x :: x in u.table <==> x == u.saved || (x in t && x.data.dedupeKey != d.dedupeKey)
    ensures FindByKey(t, d.dedupeKey).Some? ==>
              u.saved.id == FindByKey(t, d.dedupeKey).value.id && |u.table| == |t|
    ensures FindByKey(t, d.dedupeKey).None? ==> u.saved.id == freshId && |u.table| == |t| + 1
    ensures |u.table| == if d.dedupeKey in Keys(t) then |t| else |t| + 1
    ensures Ids(u.table) <= Ids(t) + {freshId}
    ensures Keys(u.table) == Keys(t) + {d.dedupeKey}
  {
    var k := d.dedupeKey;
    var prior := FindByKey(t, k);
    var id := if prior.Some? then prior.value.id else freshId;
    var rest := RemoveKey(t, k);
    assert id !in Ids(rest) by {
      if prior.Some? {
        FindByKeyUnique(t, prior.value);
        if id in Ids(rest) {
          var x :| x in rest && x.id == id;
          assert x in t && prior.value in t && x != prior.value;
          var i :| 0 <= i < |t| && t[i] == x;
          var j :| 0 <= j < |t| && t[j] == prior.value;
          if i < j { DistinctIdsPairwise(t, i, j); } else { DistinctIdsPairwise(t, j, i); }
        }
      }
    }
    var saved := Event(id, d);
    ReplaceRow(t, saved);
    UpsertResult(Insert(rest, saved), saved)
  }

  /** Replacing the row of a key by `saved`: remove whatever row holds that
      key, then insert `saved` at its place in listing order. */
  lemma ReplaceRow(t: seq<Event>, saved: Event)
    requires Valid(t) && saved.id !in Ids(RemoveKey(t, saved.data.dedupeKey))
    ensures var k := saved.data.dedupeKey;
            var r := Insert(RemoveKey(t, k), saved);
            && Valid(r)
            && (forall x :: x in r <==> x == saved || (x in t && x.data.dedupeKey != k))
            && |r| == (if k in Keys(t) then |t| else |t| + 1)
            && Ids(r) <= Ids(t) + {saved.id}
            && Keys(r) == Keys(t) + {k}
  {
    var k := saved.data.dedupeKey;
    var rest := RemoveKey(t, k);
    assert Ids(rest) <= Ids(t);
    assert Keys(rest) == Keys(t) - {k};
    assert Valid(Insert(rest, saved)) by {
      RemoveKeyKeepsValid(t, k);
      InsertSorted(rest, saved);
      InsertDistinct(rest, saved);
    }
    assert |rest| == (if k in Keys(t) then |t| - 1 else |t|) by {
      RemoveKeyLength(t, k);
    }
    InsertIdsKeys(rest, saved);
  }

  /** After an upsert, looking up the upserted key finds the saved row and every
      other key finds what it found before: the table behaves as a map from
      dedupe key to event under `m[k := e]`. */
  lemma UpsertActsAsMapUpdate(t: seq<Event>, d: EventData, freshId: string, k: string)
    requires Valid(t) && freshId !in Ids(t)
    ensures var u := Upsert(t, d, freshId);
            FindByKey(u.table, k) == if k == d.dedupeKey then Some(u.saved) else FindByKey(t, k)
  {
    var u := Upsert(t, d, freshId);
    if k == d.dedupeKey {
      FindByKeyUnique(u.table, u.saved);
    } else if FindByKey(t, k).Some? {
      var e := FindByKey(t, k).value;
      assert e in u.table;
      FindByKeyUnique(u.table, e);
    } else {
      assert k !in Keys(u.table);
    }
  }

  lemma HeadIsMember(t: seq<Event>)
    requires |t| > 0
    ensures t[0] in t
  {
  }

  /** Two tables in listing order with the same rows are the same sequence. */
  lemma {:induction false} SortedSameRowsEqual(a: seq<Event>, b: seq<Event>)
    requires Sorted(a) && Sorted(b)
    requires forall x :: x in a <==> x in b
    ensures a == b
    decreases |a|
  {
    if |a| > 0 && |b| > 0 {
      if a[0] != b[0] {
        assert a[0] in b && b[0] in a;
        var i :| 0 <= i < |b| && b[i] == a[0];
        var j :| 0 <= j < |a| && a[j] == b[0];
        assert Before(b[0], a[0]);
        assert Before(a[0], b[0]);
        BeforeAsymmetric(a[0], b[0]);
      }
      forall x ensures x in a[1..] <==> x in b[1..] {
        if x in a[1..] {
          var i :| 1 <= i < |a| && a[i] == x;
          assert Before(a[0], x);
          BeforeIrreflexive(x);
          assert x in b && x != b[0];
        }
        if x in b[1..] {
          var i :| 1 <= i < |b| && b[i] == x;
          assert Before(b[0], x);
          BeforeIrreflexive(x);
          assert x in a && x != a[0];
        }
      }
      SortedSameRowsEqual(a[1..], b[1..]);
      assert a == [a[0]] + a[1..] && b == [b[0]] + b[1..];
    } else if |a| > 0 {
      HeadIsMember(a);
      assert false;
    } else if |b| > 0 {
      HeadIsMember(b);
      assert false;
    }
  }

  /** Redelivering the same webhook changes nothing: a second upsert of the
      same columns leaves the table exactly as the first one left it. */
  lemma UpsertIdempotent(t: seq<Event>, d: EventData, id1: string, id2: string)
    requires Valid(t) && id1 !in Ids(t)
    requires id2 !in Ids(Upsert(t, d, id1).table)
    ensures var u1 := Upsert(t, d, id1);
            var u2 := Upsert(u1.table, d, id2);
            u2.table == u1.table && u2.saved == u1.saved
  {
    var u1 := Upsert(t, d, id1);
    FindByKeyUnique(u1.table, u1.saved);
    var u2 := Upsert(u1.table, d, id2);
    SortedSameRowsEqual(u2.table, u1.table);
  }

  // ---------------------------------------------------------------------------
  // Any sequence of upserts
  // ---------------------------------------------------------------------------

  /** The fresh ids a sequence of upserts may use: pairwise distinct and not
      already in the table. */
  predicate FreshIds(t: seq<Event>, ids: seq<string>) {
    && (forall i, j :: 0 <= i < j < |ids| ==> ids[i] != ids[j])
    && (forall i :: 0 <= i < |ids| ==> ids[i] !in Ids(t))
  }

  /** The ids before position `n` are fresh too, and the id at `n` is none of them. */
  lemma FreshPrefix(t: seq<Event>, ids: seq<string>, n: int)
    requires FreshIds(t, ids) && 0 <= n < |ids|
    ensures FreshIds(t, ids[..n]) && ids[n] !in ids[..n] && ids[n] !in Ids(t)
  {
    forall x | x in ids[..n] ensures x != ids[n] {
      var i :| 0 <= i < n && ids[..n][i] == x;
      assert ids[i] == x;
    }
  }

  /** Applies the upserts in order, the i-th using fresh id `ids[i]`. */
  function UpsertAll(t: seq<Event>, ds: seq<EventData>, ids: seq<string>): (r: seq<Event>)
    requires Valid(t) && |ids| == |ds| && FreshIds(t, ids)
    ensures Valid(r)
    ensures forall x :: x in Ids(r) ==> x in Ids(t) || x in ids
    decreases |ds|
  {
    if |ds| == 0 then t
    else
      var n := |ds| - 1;
      FreshPrefix(t, ids, n);
      var before := UpsertAll(t, ds[..n], ids[..n]);
      var u := Upsert(before, ds[n], ids[n]);
      assert forall x :: x in ids[..n] ==> x in ids;
      u.table
  }

  /** The columns last upserted under key `k`, if any. */
  function LastWithKey(ds: seq<EventData>, k: string): (r: Option<EventData>)
    ensures r.Some? ==> r.value in ds && r.value.dedupeKey == k
    ensures r.None? ==> forall d :: d in ds ==> d.dedupeKey != k
  {
    if |ds| == 0 then None
    else if ds[|ds| - 1].dedupeKey == k then Some(ds[|ds| - 1])
    else
      assert forall d :: d in ds ==> d in ds[..|ds| - 1] || d == ds[|ds| - 1];
      LastWithKey(ds[..|ds| - 1], k)
  }

  /** After any sequence of upserts there is at most one row per dedupe key
      (the table stays Valid), and each key's row carries the columns of the
      last upsert for that key, or what it held before when it was not upserted. */
  lemma {:induction false} UpsertAllLastWriteWins(t: seq<Event>, ds: seq<EventData>, ids: seq<string>, k: string)
    requires Valid(t) && |ids| == |ds| && FreshIds(t, ids)
    ensures LastWriteHolds(t, UpsertAll(t, ds, ids), ds, k)
    decreases |ds|
  {
    if |ds| > 0 {
      var n := |ds| - 1;
      FreshPrefix(t, ids, n);
      UpsertAllLastWriteWins(t, ds[..n], ids[..n], k);
      var before := UpsertAll(t, ds[..n], ids[..n]);
      LastWriteStep(t, before, ds, ids[n], k);
      assert UpsertAll(t, ds, ids) == Upsert(before, ds[n], ids[n]).table;
    }
  }

  /** Key `k`'s row in `r` holds the columns of the last of `ds` with that key,
      or, when none has it, is the row `t` had. */
  ghost predicate LastWriteHolds(t: seq<Event>, r: seq<Event>, ds: seq<EventData>, k: string) {
    match LastWithKey(ds, k)
    case Some(d) => FindByKey(r, k).Some? && FindByKey(r, k).value.data == d
    case None => FindByKey(r, k) == FindByKey(t, k)
  }

  /** One more upsert keeps the last write winning. */
  lemma LastWriteStep(t: seq<Event>, before: seq<Event>, ds: seq<EventData>, id: string, k: string)
    requires |ds| > 0 && Valid(before) && id !in Ids(before)
    requires LastWriteHolds(t, before, ds[..|ds| - 1], k)
    ensures LastWriteHolds(t, Upsert(before, ds[|ds| - 1], id).table, ds, k)
  {
    var n := |ds| - 1;
    UpsertActsAsMapUpdate(before, ds[n], id, k);
    if ds[n].dedupeKey != k {
      assert LastWithKey(ds, k) == LastWithKey(ds[..n], k);
    }
  }
}
