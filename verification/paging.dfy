/** Cursor pagination over the event table in listing order, for any row
    predicate. The cursor semantics are those of a `findMany` with
    `cursor: { id }, skip: 1, take: limit + 1`: the rows that pass the
    predicate and are not listed before the cursor row, minus the first of
    them. The handler's cut of those rows is modelled twice: as written, and
    with the cursor the skip-one query expects. */
module Paging {
  import opened Wrappers
  import opened Events
  import opened Store

  /** The matching rows, in table order. */
  function Matching(t: seq<Event>, keep: Event -> bool): (r: seq<Event>)
    ensures |r| <= |t|
  {
    if |t| == 0 then []
    else (if keep(t[0]) then [t[0]] else []) + Matching(t[1..], keep)
  }

  /** The matching rows are exactly the rows of the table the filter accepts. */
  lemma {:induction false} MatchingMembers(t: seq<Event>, keep: Event -> bool, e: Event)
    ensures e in Matching(t, keep) <==> e in t && keep(e)
  {
    if |t| > 0 {
      MatchingMembers(t[1..], keep, e);
      assert e in t <==> e == t[0] || e in t[1..];
    }
  }

  /** A filter of a sorted table is sorted. */
  lemma {:induction false} MatchingSorted(t: seq<Event>, keep: Event -> bool)
    requires Sorted(t)
    ensures Sorted(Matching(t, keep))
  {
    if |t| > 0 {
      assert Sorted(t[1..]);
      MatchingSorted(t[1..], keep);
      var rest := Matching(t[1..], keep);
      if keep(t[0]) {
        var r := [t[0]] + rest;
        forall j | 1 <= j < |r| ensures Before(r[0], r[j]) {
          assert r[j] in rest;
          MatchingMembers(t[1..], keep, r[j]);
          var m :| 0 <= m < |t[1..]| && t[1..][m] == r[j];
          assert t[m + 1] == r[j];
        }
      }
    }
  }

  /** The matching rows not listed before the cursor row `c` (the cursor
      condition of the query, which includes `c` itself). */
  function Window(t: seq<Event>, keep: Event -> bool, c: Event): (r: seq<Event>)
    ensures |r| <= |t|
  {
    if |t| == 0 then []
    else (if keep(t[0]) && !Before(t[0], c) then [t[0]] else []) + Window(t[1..], keep, c)
  }

  /** Drops the leading rows listed before `c`. */
  function DropBefore(s: seq<Event>, c: Event): seq<Event> {
    if |s| > 0 && Before(s[0], c) then DropBefore(s[1..], c) else s
  }

  /** In a sorted table the rows listed before `c` form a prefix, so the cursor
      window is a suffix of the matching rows. */
  lemma {:induction false} WindowIsSuffix(t: seq<Event>, keep: Event -> bool, c: Event)
    requires Sorted(t)
    ensures Window(t, keep, c) == DropBefore(Matching(t, keep), c)
  {
    if |t| > 0 {
      var x := t[0];
      assert Sorted(t[1..]);
      WindowIsSuffix(t[1..], keep, c);
      var rest := Matching(t[1..], keep);
      var wrest := Window(t[1..], keep, c);
      var m := Matching(t, keep);
      assert m == (if keep(x) then [x] else []) + rest;
      assert Window(t, keep, c) == (if keep(x) && !Before(x, c) then [x] else []) + wrest;
      if !Before(x, c) {
        forall y | y in t[1..] ensures !Before(y, c) {
          var j :| 0 <= j < |t[1..]| && t[1..][j] == y;
          assert t[j + 1] == y;
          assert Before(x, y);
          if Before(y, c) {
            BeforeTransitive(x, y, c);
          }
        }
        if |rest| > 0 {
          assert rest[0] in rest;
          MatchingMembers(t[1..], keep, rest[0]);
        }
        assert DropBefore(rest, c) == rest;
        assert |m| > 0 ==> !Before(m[0], c);
        assert DropBefore(m, c) == m;
      } else {
        assert Window(t, keep, c) == wrest;
        if keep(x) {
          assert m[1..] == rest;
          assert DropBefore(m, c) == DropBefore(rest, c);
        } else {
          assert m == rest;
        }
      }
    }
  }

  /** From the position of a row that is listed, the window is what follows it. */
  lemma {:induction false} DropBeforeAt(s: seq<Event>, k: int)
    requires Sorted(s) && 0 <= k < |s|
    ensures DropBefore(s, s[k]) == s[k..]
  {
    if k == 0 {
      BeforeIrreflexive(s[0]);
    } else {
      assert Sorted(s[1..]) && s[1..][k - 1] == s[k];
      DropBeforeAt(s[1..], k - 1);
      assert s[1..][k - 1..] == s[k..];
    }
  }


  // ---------------------------------------------------------------------------
  // Fetching and cutting one page
  // ---------------------------------------------------------------------------

  /** A page size: the handler always asks for at least one row. */
  type PageSize = n: int | 1 <= n witness 1

  function Min(a: int, b: int): int { if a <= b then a else b }

  function Take(s: seq<Event>, n: nat): (r: seq<Event>)
    ensures |r| <= n && |r| <= |s| && r == s[..|r|]
    ensures |s| <= n ==> r == s
    ensures |s| > n ==> |r| == n
  {
    if |s| <= n then s else s[..n]
  }

  /** The rows `findMany` returns: without a cursor the first `take` matching
      rows; with a cursor whose row exists, the window from that row minus its
      first row, up to `take`; with an unknown cursor, nothing. */
  function Fetch(t: seq<Event>, keep: Event -> bool, cursor: Option<string>, take: nat): seq<Event> {
    match cursor
    case None => Take(Matching(t, keep), take)
    case Some(id) =>
      match FindById(t, id)
      case None => []
      case Some(c) => AfterCursor(t, keep, c, take)
  }

  /** The rows after the cursor row `c`: its window without its first row. */
  function AfterCursor(t: seq<Event>, keep: Event -> bool, c: Event, take: nat): seq<Event> {
    var w := Window(t, keep, c);
    Take(if |w| == 0 then [] else w[1..], take)
  }

  /** The response body: one page, the total number of matching rows, and
      the cursor for the next page. */
  datatype Page = Page(items: seq<Event>, total: nat, nextCursor: Option<string>)

  /** The handler's cut of the `limit + 1` fetched rows, as written: it pops
      the extra row and returns THAT row's id as the next cursor. */
  function CutAsWritten(rows: seq<Event>, limit: PageSize, total: nat): (p: Page)
    ensures |p.items| <= limit && p.total == total
    ensures p.items == rows[..Min(limit, |rows|)]
    ensures p.nextCursor.Some? <==> |rows| > limit
    ensures p.nextCursor.Some? ==> p.nextCursor.value == rows[limit].id
  {
    if |rows| > limit then Page(rows[..limit], total, Some(rows[limit].id))
    else Page(rows, total, None)
  }

  /** The cut with the cursor the skip-one query expects: the id of the last
      row returned, so that the next page resumes right after it. */
  function Cut(rows: seq<Event>, limit: PageSize, total: nat): (p: Page)
    ensures |p.items| <= limit && p.total == total
    ensures p.items == rows[..Min(limit, |rows|)]
    ensures p.nextCursor.Some? <==> |rows| > limit
    ensures p.nextCursor.Some? ==> |p.items| == limit && p.nextCursor.value == p.items[limit - 1].id
  {
    if |rows| > limit then Page(rows[..limit], total, Some(rows[limit - 1].id))
    else Page(rows, total, None)
  }

  /** The page as the handler builds it. */
  function PageAsWritten(t: seq<Event>, keep: Event -> bool, limit: PageSize, cursor: Option<string>): (p: Page)
    ensures |p.items| <= limit
    ensures p.total == |Matching(t, keep)|
    ensures var rows := Fetch(t, keep, cursor, limit + 1);
            && p.items == rows[..Min(limit, |rows|)]
            && (p.nextCursor.Some? <==> |rows| > limit)
            && (p.nextCursor.Some? ==> p.nextCursor.value == rows[limit].id)
  {
    CutAsWritten(Fetch(t, keep, cursor, limit + 1), limit, |Matching(t, keep)|)
  }

  /** The page with the corrected cursor. */
  function PageOf(t: seq<Event>, keep: Event -> bool, limit: PageSize, cursor: Option<string>): (p: Page)
    ensures |p.items| <= limit
    ensures p.total == |Matching(t, keep)|
    ensures p.nextCursor.Some? ==> |p.items| == limit && p.nextCursor.value == p.items[limit - 1].id
    ensures var rows := Fetch(t, keep, cursor, limit + 1);
            && p.items == rows[..Min(limit, |rows|)]
            && (p.nextCursor.Some? <==> |rows| > limit)
  {
    Cut(Fetch(t, keep, cursor, limit + 1), limit, |Matching(t, keep)|)
  }

  /** The two cuts return the same rows and count; they differ only in the
      next cursor. */
  lemma AsWrittenSameRows(t: seq<Event>, keep: Event -> bool, limit: PageSize, cursor: Option<string>)
    ensures PageAsWritten(t, keep, limit, cursor).items == PageOf(t, keep, limit, cursor).items
    ensures PageAsWritten(t, keep, limit, cursor).total == PageOf(t, keep, limit, cursor).total
  {
  }

  // ---------------------------------------------------------------------------
  // Every page is a run of the matching rows
  // ---------------------------------------------------------------------------

  /** `r` is a prefix of `m[a..]`. */
  ghost predicate IsPrefixOfSuffix(r: seq<Event>, m: seq<Event>, a: int) {
    0 <= a <= |m| && |r| <= |m| - a && r == m[a..a + |r|]
  }

  /** Taking from a suffix gives a run that starts where the suffix does. */
  lemma TakeOfSuffix(m: seq<Event>, a: int, n: nat)
    requires 0 <= a <= |m|
    ensures IsPrefixOfSuffix(Take(m[a..], n), m, a)
  {
    var r := Take(m[a..], n);
    assert m[a..][..|r|] == m[a..a + |r|];
  }

  /** Dropping a prefix leaves a suffix; `a` is where it starts. */
  lemma {:induction false} DropBeforeIsSuffix(s: seq<Event>, c: Event) returns (a: int)
    ensures 0 <= a <= |s| && DropBefore(s, c) == s[a..]
  {
    if |s| > 0 && Before(s[0], c) {
      var b := DropBeforeIsSuffix(s[1..], c);
      assert s[1..][b..] == s[b + 1..];
      a := b + 1;
    } else {
      assert s == s[0..];
      a := 0;
    }
  }

  /** Every cursor window is a suffix of the matching rows, the consequence of
      sortedness the run lemmas rest on. */
  ghost predicate WindowsAreSuffixes(t: seq<Event>, keep: Event -> bool) {
    forall c: Event :: Window(t, keep, c) == DropBefore(Matching(t, keep), c)
  }

  lemma AllWindowsSuffixes(t: seq<Event>, keep: Event -> bool)
    requires Sorted(t)
    ensures WindowsAreSuffixes(t, keep)
  {
    forall c: Event ensures Window(t, keep, c) == DropBefore(Matching(t, keep), c) {
      WindowIsSuffix(t, keep, c);
    }
  }

  /** The rows after the first of a suffix, up to `take`, are a run. */
  lemma TailOfSuffixIsRun(w: seq<Event>, m: seq<Event>, a: int, take: nat) returns (b: int)
    requires 0 <= a <= |m| && w == m[a..]
    ensures IsPrefixOfSuffix(Take(if |w| == 0 then [] else w[1..], take), m, b)
  {
    if |w| == 0 {
      b := |m|;
    } else {
      assert w[1..] == m[a + 1..];
      TakeOfSuffix(m, a + 1, take);
      b := a + 1;
    }
  }

  /** The rows after a cursor row are a run of the matching rows. */
  lemma AfterCursorRun(t: seq<Event>, keep: Event -> bool, c: Event, take: nat) returns (b: int)
    requires WindowsAreSuffixes(t, keep)
    ensures IsPrefixOfSuffix(AfterCursor(t, keep, c, take), Matching(t, keep), b)
  {
    var m := Matching(t, keep);
    var w := Window(t, keep, c);
    assert w == DropBefore(m, c);
    var a := DropBeforeIsSuffix(m, c);
    b := TailOfSuffixIsRun(w, m, a, take);
  }

  /** Whatever the cursor, the fetched rows are a run of consecutive matching
      rows. */
  lemma FetchRun(t: seq<Event>, keep: Event -> bool, cursor: Option<string>, take: nat) returns (a: int)
    requires WindowsAreSuffixes(t, keep)
    ensures IsPrefixOfSuffix(Fetch(t, keep, cursor, take), Matching(t, keep), a)
  {
    var m := Matching(t, keep);
    if cursor.None? {
      assert m[0..] == m;
      TakeOfSuffix(m, 0, take);
      a := 0;
    } else if FindById(t, cursor.value).None? {
      a := 0;
    } else {
      var c := FindById(t, cursor.value).value;
      assert Fetch(t, keep, cursor, take) == AfterCursor(t, keep, c, take);
      a := AfterCursorRun(t, keep, c, take);
    }
  }

  /** A run of a sorted sequence is sorted, and its rows are rows of it. */
  lemma RunOfSorted(r: seq<Event>, m: seq<Event>, a: int)
    requires Sorted(m) && IsPrefixOfSuffix(r, m, a)
    ensures Sorted(r)
    ensures forall e :: e in r ==> e in m
  {
    forall i, j | 0 <= i < j < |r| ensures Before(r[i], r[j]) {
      assert r[i] == m[a + i] && r[j] == m[a + j];
    }
    forall e | e in r ensures e in m {
      var i :| 0 <= i < |r| && r[i] == e;
      assert m[a + i] == e;
    }
  }

  /** Cutting a run leaves a run with the same start. */
  lemma CutIsRun(rows: seq<Event>, m: seq<Event>, a: int, limit: PageSize, total: nat)
    requires IsPrefixOfSuffix(rows, m, a)
    ensures IsPrefixOfSuffix(Cut(rows, limit, total).items, m, a)
  {
    var items := Cut(rows, limit, total).items;
    assert items == rows[..|items|];
    assert m[a..a + |rows|][..|items|] == m[a..a + |items|];
  }

  /** The rows of a page are a run of the matching rows. */
  lemma PageIsRun(t: seq<Event>, keep: Event -> bool, limit: PageSize, cursor: Option<string>)
    requires Sorted(t)
    ensures exists a :: IsPrefixOfSuffix(PageOf(t, keep, limit, cursor).items, Matching(t, keep), a)
  {
    AllWindowsSuffixes(t, keep);
    var a := PageRunFrom(t, keep, limit, cursor);
  }

  lemma PageRunFrom(t: seq<Event>, keep: Event -> bool, limit: PageSize, cursor: Option<string>) returns (a: int)
    requires WindowsAreSuffixes(t, keep)
    ensures IsPrefixOfSuffix(PageOf(t, keep, limit, cursor).items, Matching(t, keep), a)
  {
    var m := Matching(t, keep);
    var rows := Fetch(t, keep, cursor, limit + 1);
    a := FetchRun(t, keep, cursor, limit + 1);
    CutIsRun(rows, m, a, limit, |m|);
    assert PageOf(t, keep, limit, cursor).items == Cut(rows, limit, |m|).items;
  }

  /** Every page lists matching rows of the table, in listing order. */
  lemma PageSortedAndMatching(t: seq<Event>, keep: Event -> bool, limit: PageSize, cursor: Option<string>)
    requires Sorted(t)
    ensures Sorted(PageOf(t, keep, limit, cursor).items)
    ensures forall e :: e in PageOf(t, keep, limit, cursor).items ==> e in t && keep(e)
  {
    var m := Matching(t, keep);
    MatchingSorted(t, keep);
    AllWindowsSuffixes(t, keep);
    var a := PageRunFrom(t, keep, limit, cursor);
    var items := PageOf(t, keep, limit, cursor).items;
    RunOfSorted(items, m, a);
    forall e | e in items ensures e in t && keep(e) {
      MatchingMembers(t, keep, e);
    }
  }

  // ---------------------------------------------------------------------------
  // Pages at known positions
  // ---------------------------------------------------------------------------

  /** `p` is the page of `m` that starts at index `a` with the corrected
      cursor: the next `limit` rows, and a cursor on the last of them exactly
      when more rows follow. */
  ghost predicate Resumes(p: Page, m: seq<Event>, a: int, limit: PageSize) {
    && 0 <= a <= |m|
    && p.items == m[a..Min(a + limit, |m|)]
    && (p.nextCursor.Some? <==> |m| > a + limit)
    && (|m| > a + limit ==> p.nextCursor == Some(m[a + limit - 1].id))
  }

  /** The same page as written: the cursor names the row AFTER the page. */
  ghost predicate ResumesAsWritten(p: Page, m: seq<Event>, a: int, limit: PageSize) {
    && 0 <= a <= |m|
    && p.items == m[a..Min(a + limit, |m|)]
    && (p.nextCursor.Some? <==> |m| > a + limit)
    && (|m| > a + limit ==> p.nextCursor == Some(m[a + limit].id))
  }

  lemma CutOfRun(m: seq<Event>, a: int, limit: PageSize, total: nat)
    requires 0 <= a <= |m|
    ensures Resumes(Cut(Take(m[a..], limit + 1), limit, total), m, a, limit)
  {
    var rows := Take(m[a..], limit + 1);
    assert rows[..Min(limit, |rows|)] == m[a..Min(a + limit, |m|)];
  }

  lemma CutAsWrittenOfRun(m: seq<Event>, a: int, limit: PageSize, total: nat)
    requires 0 <= a <= |m|
    ensures ResumesAsWritten(CutAsWritten(Take(m[a..], limit + 1), limit, total), m, a, limit)
  {
    var rows := Take(m[a..], limit + 1);
    assert rows[..Min(limit, |rows|)] == m[a..Min(a + limit, |m|)];
  }

  /** With the cursor on the matching row at index `k`, the fetch returns the
      matching rows after it. */
  lemma FetchAfter(t: seq<Event>, keep: Event -> bool, k: int, take: nat)
    requires Valid(t) && 0 <= k < |Matching(t, keep)|
    ensures Fetch(t, keep, Some(Matching(t, keep)[k].id), take) == Take(Matching(t, keep)[k + 1..], take)
  {
    CursorRowFound(t, keep, k);
    FetchAfterFound(t, keep, k, take);
  }

  /** In a table with unique ids, the id of a matching row finds that row. */
  lemma CursorRowFound(t: seq<Event>, keep: Event -> bool, k: int)
    requires Valid(t) && 0 <= k < |Matching(t, keep)|
    ensures FindById(t, Matching(t, keep)[k].id) == Some(Matching(t, keep)[k])
  {
    var m := Matching(t, keep);
    assert m[k] in m;
    MatchingMembers(t, keep, m[k]);
    FindByIdUnique(t, m[k]);
  }

  lemma FetchAfterFound(t: seq<Event>, keep: Event -> bool, k: int, take: nat)
    requires Sorted(t) && 0 <= k < |Matching(t, keep)|
    requires FindById(t, Matching(t, keep)[k].id) == Some(Matching(t, keep)[k])
    ensures Fetch(t, keep, Some(Matching(t, keep)[k].id), take) == Take(Matching(t, keep)[k + 1..], take)
  {
    var m := Matching(t, keep);
    assert Fetch(t, keep, Some(m[k].id), take) == AfterCursor(t, keep, m[k], take);
    AfterRow(t, keep, k);
  }

  /** From the matching row at index `k`, the rows after the cursor are the
      matching rows after `k`. */
  lemma AfterRow(t: seq<Event>, keep: Event -> bool, k: int)
    requires Sorted(t) && 0 <= k < |Matching(t, keep)|
    ensures AfterIs(t, keep, Matching(t, keep)[k], Matching(t, keep)[k + 1..])
  {
    var m := Matching(t, keep);
    MatchingSorted(t, keep);
    WindowIsSuffix(t, keep, m[k]);
    DropBeforeAt(m, k);
    assert m[k..][1..] == m[k + 1..];
  }

  /** Whatever the page size, the rows after the cursor row `c` are a prefix
      of `rest`. */
  ghost predicate AfterIs(t: seq<Event>, keep: Event -> bool, c: Event, rest: seq<Event>) {
    forall take: nat :: AfterCursor(t, keep, c, take) == Take(rest, take)
  }

  /** The corrected page after the row at index `k`, once the cursor row is
      known to be found and the rows after it are known. */
  lemma PageAfterFound(t: seq<Event>, keep: Event -> bool, limit: PageSize, k: int)
    requires 0 <= k < |Matching(t, keep)|
    requires FindById(t, Matching(t, keep)[k].id) == Some(Matching(t, keep)[k])
    requires AfterIs(t, keep, Matching(t, keep)[k], Matching(t, keep)[k + 1..])
    ensures Resumes(PageOf(t, keep, limit, Some(Matching(t, keep)[k].id)), Matching(t, keep), k + 1, limit)
  {
    var m := Matching(t, keep);
    FetchAfterIs(t, keep, m[k], m[k + 1..], limit + 1);
    PageOfRun(t, keep, limit, Some(m[k].id), m, k + 1);
  }

  /** The same page as written. */
  lemma PageAfterFoundAsWritten(t: seq<Event>, keep: Event -> bool, limit: PageSize, k: int)
    requires 0 <= k < |Matching(t, keep)|
    requires FindById(t, Matching(t, keep)[k].id) == Some(Matching(t, keep)[k])
    requires AfterIs(t, keep, Matching(t, keep)[k], Matching(t, keep)[k + 1..])
    ensures ResumesAsWritten(PageAsWritten(t, keep, limit, Some(Matching(t, keep)[k].id)), Matching(t, keep), k + 1, limit)
  {
    var m := Matching(t, keep);
    FetchAfterIs(t, keep, m[k], m[k + 1..], limit + 1);
    PageAsWrittenOfRun(t, keep, limit, Some(m[k].id), m, k + 1);
  }

  /** A found cursor row whose following rows are `rest` makes the fetch a
      prefix of `rest`. */
  lemma FetchAfterIs(t: seq<Event>, keep: Event -> bool, c: Event, rest: seq<Event>, take: nat)
    requires FindById(t, c.id) == Some(c) && AfterIs(t, keep, c, rest)
    ensures Fetch(t, keep, Some(c.id), take) == Take(rest, take)
  {
    assert Fetch(t, keep, Some(c.id), take) == AfterCursor(t, keep, c, take);
  }

  /** The first page holds the first `limit` matching rows; there is a next
      cursor exactly when more rows match, and it names the last row shown. */
  lemma FirstPage(t: seq<Event>, keep: Event -> bool, limit: PageSize)
    ensures Resumes(PageOf(t, keep, limit, None), Matching(t, keep), 0, limit)
  {
    var m := Matching(t, keep);
    assert m[0..] == m;
    CutOfRun(m, 0, limit, |m|);
  }

  /** The page after the matching row at index `k` holds the next `limit`
      matching rows, and its cursor names the last of them when more follow. */
  lemma PageAfter(t: seq<Event>, keep: Event -> bool, limit: PageSize, k: int)
    requires Valid(t) && 0 <= k < |Matching(t, keep)|
    ensures Resumes(PageOf(t, keep, limit, Some(Matching(t, keep)[k].id)), Matching(t, keep), k + 1, limit)
  {
    CursorRowFound(t, keep, k);
    AfterRow(t, keep, k);
    PageAfterFound(t, keep, limit, k);
  }

  /** A fetch that returns the matching rows from index `a` on gives the page
      that starts there. */
  lemma PageOfRun(t: seq<Event>, keep: Event -> bool, limit: PageSize, cursor: Option<string>,
                  m: seq<Event>, a: int)
    requires m == Matching(t, keep) && 0 <= a <= |m|
    requires Fetch(t, keep, cursor, limit + 1) == Take(m[a..], limit + 1)
    ensures Resumes(PageOf(t, keep, limit, cursor), m, a, limit)
  {
    CutOfRun(m, a, limit, |m|);
  }

  lemma PageAsWrittenOfRun(t: seq<Event>, keep: Event -> bool, limit: PageSize, cursor: Option<string>,
                           m: seq<Event>, a: int)
    requires m == Matching(t, keep) && 0 <= a <= |m|
    requires Fetch(t, keep, cursor, limit + 1) == Take(m[a..], limit + 1)
    ensures ResumesAsWritten(PageAsWritten(t, keep, limit, cursor), m, a, limit)
  {
    CutAsWrittenOfRun(m, a, limit, |m|);
  }

  /** As written, the first page's cursor names the row after the page. */
  lemma FirstPageAsWritten(t: seq<Event>, keep: Event -> bool, limit: PageSize)
    ensures ResumesAsWritten(PageAsWritten(t, keep, limit, None), Matching(t, keep), 0, limit)
  {
    var m := Matching(t, keep);
    assert m[0..] == m;
    CutAsWrittenOfRun(m, 0, limit, |m|);
  }

  /** As written, the page after the row at index `k` still starts right after
      it, but its cursor names the row after the page. */
  lemma PageAfterAsWritten(t: seq<Event>, keep: Event -> bool, limit: PageSize, k: int)
    requires Valid(t) && 0 <= k < |Matching(t, keep)|
    ensures ResumesAsWritten(PageAsWritten(t, keep, limit, Some(Matching(t, keep)[k].id)), Matching(t, keep), k + 1, limit)
  {
    CursorRowFound(t, keep, k);
    AfterRow(t, keep, k);
    PageAfterFoundAsWritten(t, keep, limit, k);
  }

  // ---------------------------------------------------------------------------
  // Following the cursors
  // ---------------------------------------------------------------------------

  /** The items of `n` consecutive pages, each requested with the cursor the
      previous page returned, until a page has no cursor. */
  function Follow(pages: Option<string> -> Page, cursor: Option<string>, n: nat): seq<Event>
    decreases n
  {
    if n == 0 then []
    else
      var p := pages(cursor);
      p.items + (if p.nextCursor.None? then [] else Follow(pages, p.nextCursor, n - 1))
  }

  /** The endpoint as a function of the cursor, for a fixed table, filter and
      limit. */
  function Pages(t: seq<Event>, keep: Event -> bool, limit: PageSize): Option<string> -> Page {
    c => PageOf(t, keep, limit, c)
  }

  function PagesAsWritten(t: seq<Event>, keep: Event -> bool, limit: PageSize): Option<string> -> Page {
    c => PageAsWritten(t, keep, limit, c)
  }

  /** `n` pages' worth of rows, `n * limit`, counted without multiplying. */
  function Span(n: nat, limit: PageSize): nat {
    if n == 0 then 0 else limit + Span(n - 1, limit)
  }

  lemma {:induction false} SpanIsProduct(n: nat, limit: PageSize)
    ensures Span(n, limit) == n * limit
  {
    if n > 0 {
      SpanIsProduct(n - 1, limit);
      assert n * limit == (n - 1) * limit + limit;
    }
  }

  /** The page requested with the cursor on row `k` resumes right after it. */
  ghost predicate ResumesAfterRow(pages: Option<string> -> Page, m: seq<Event>, k: int, limit: PageSize)
    requires 0 <= k < |m|
  {
    Resumes(pages(Some(m[k].id)), m, k + 1, limit)
  }

  ghost predicate ResumesAfterRowAsWritten(pages: Option<string> -> Page, m: seq<Event>, k: int, limit: PageSize)
    requires 0 <= k < |m|
  {
    ResumesAsWritten(pages(Some(m[k].id)), m, k + 1, limit)
  }

  /** Every request whose cursor names a row of `m` resumes right after it. */
  ghost predicate AllResume(pages: Option<string> -> Page, m: seq<Event>, limit: PageSize) {
    forall k :: 0 <= k < |m| ==> ResumesAfterRow(pages, m, k, limit)
  }

  ghost predicate AllResumeAsWritten(pages: Option<string> -> Page, m: seq<Event>, limit: PageSize) {
    forall k :: 0 <= k < |m| ==> ResumesAfterRowAsWritten(pages, m, k, limit)
  }

  /** Adjacent runs concatenate. */
  lemma Adjacent(m: seq<Event>, a: int, b: int, c: int)
    requires 0 <= a <= b <= c <= |m|
    ensures m[a..b] + m[b..c] == m[a..c]
  {
  }

  /** Pages that each resume right after the cursor row tile the rows from
      `a` on: `n` of them are the next `n * limit` rows, in order. */
  lemma {:induction false} FollowTiles(pages: Option<string> -> Page, m: seq<Event>, limit: PageSize,
                                       a: int, cursor: Option<string>, n: nat)
    requires Resumes(pages(cursor), m, a, limit)
    requires AllResume(pages, m, limit)
    ensures Follow(pages, cursor, n) == m[a..Min(a + Span(n, limit), |m|)]
    decreases n, 2
  {
    if n > 0 {
      if |m| > a + limit {
        FollowTilesStep(pages, m, limit, a, cursor, n);
      } else {
        assert Follow(pages, cursor, n) == pages(cursor).items;
      }
    }
  }

  /** The inductive step: the first page, then the pages from its last row. */
  lemma {:induction false} FollowTilesStep(pages: Option<string> -> Page, m: seq<Event>, limit: PageSize,
                                           a: int, cursor: Option<string>, n: nat)
    requires n > 0 && |m| > a + limit
    requires Resumes(pages(cursor), m, a, limit)
    requires AllResume(pages, m, limit)
    ensures Follow(pages, cursor, n) == m[a..Min(a + Span(n, limit), |m|)]
    decreases n, 1
  {
    var k := a + limit - 1;
    var p := pages(cursor);
    var end := Min(a + limit + Span(n - 1, limit), |m|);
    var rest := Follow(pages, Some(m[k].id), n - 1);
    assert Follow(pages, cursor, n) == m[a..a + limit] + rest by {
      assert p.items == m[a..a + limit] && p.nextCursor == Some(m[k].id);
    }
    FollowRest(pages, m, limit, a, n);
    assert end == Min(a + Span(n, limit), |m|);
    Adjacent(m, a, a + limit, end);
  }

  /** The pages after the first one, from the cursor on its last row. */
  lemma {:induction false} FollowRest(pages: Option<string> -> Page, m: seq<Event>, limit: PageSize,
                                      a: int, n: nat)
    requires n > 0 && 0 <= a && |m| > a + limit
    requires AllResume(pages, m, limit)
    ensures Follow(pages, Some(m[a + limit - 1].id), n - 1) == m[a + limit..Min(a + limit + Span(n - 1, limit), |m|)]
    decreases n, 0
  {
    assert ResumesAfterRow(pages, m, a + limit - 1, limit);
    FollowTiles(pages, m, limit, a + limit, Some(m[a + limit - 1].id), n - 1);
  }

  /** On a well-formed table, the endpoint resumes right after any matching
      cursor row. */
  lemma EveryPageResumes(t: seq<Event>, keep: Event -> bool, limit: PageSize)
    requires Valid(t)
    ensures AllResume(Pages(t, keep, limit), Matching(t, keep), limit)
  {
    var m := Matching(t, keep);
    forall k | 0 <= k < |m| ensures ResumesAfterRow(Pages(t, keep, limit), m, k, limit) {
      PageAfter(t, keep, limit, k);
    }
  }

  /** Pages that resume correctly, followed from the first, return the rows in
      order, `n * limit` of them for `n` pages. */
  lemma FollowFromFirst(pages: Option<string> -> Page, m: seq<Event>, limit: PageSize, n: nat)
    requires Resumes(pages(None), m, 0, limit)
    requires AllResume(pages, m, limit)
    ensures Follow(pages, None, n) == m[..Min(n * limit, |m|)]
  {
    FollowTiles(pages, m, limit, 0, None, n);
    SpanIsProduct(n, limit);
    assert m[0..Min(n * limit, |m|)] == m[..Min(n * limit, |m|)];
  }

  /** Starting without a cursor, `n` pages return the first `n * limit`
      matching rows in order; once `n * limit` reaches the number of matching
      rows, every matching row has been returned exactly once. */
  lemma FollowFromStart(t: seq<Event>, keep: Event -> bool, limit: PageSize, n: nat)
    requires Valid(t)
    ensures var m := Matching(t, keep);
            Follow(Pages(t, keep, limit), None, n) == m[..Min(n * limit, |m|)]
    ensures var m := Matching(t, keep);
            n * limit >= |m| ==> Follow(Pages(t, keep, limit), None, n) == m
  {
    EveryPageResumes(t, keep, limit);
    FirstPage(t, keep, limit);
    assert Pages(t, keep, limit)(None) == PageOf(t, keep, limit, None);
    FollowFromFirst(Pages(t, keep, limit), Matching(t, keep), limit, n);
  }

  /** Every row of `s` is a row of `m` from index `a` on. */
  ghost predicate AllFrom(s: seq<Event>, m: seq<Event>, a: int)
    requires 0 <= a <= |m|
  {
    forall e :: e in s ==> e in m[a..]
  }

  /** As written, following the cursors from the row at index `a` only ever
      returns rows from `a` on. */
  lemma {:induction false} FollowAsWrittenStaysAhead(pages: Option<string> -> Page, m: seq<Event>, limit: PageSize,
                                                     a: int, cursor: Option<string>, n: nat)
    requires ResumesAsWritten(pages(cursor), m, a, limit)
    requires AllResumeAsWritten(pages, m, limit)
    ensures AllFrom(Follow(pages, cursor, n), m, a)
    decreases n
  {
    if n > 0 {
      var p := pages(cursor);
      assert AllFrom(p.items, m, a) by {
        SliceFrom(m, a, Min(a + limit, |m|));
      }
      if |m| > a + limit {
        var k := a + limit;
        var rest := Follow(pages, Some(m[k].id), n - 1);
        assert AllFrom(rest, m, a) by {
          assert ResumesAfterRowAsWritten(pages, m, k, limit);
          FollowAsWrittenStaysAhead(pages, m, limit, k + 1, Some(m[k].id), n - 1);
          FromLater(rest, m, a, k + 1);
        }
        assert Follow(pages, cursor, n) == p.items + rest;
        FromAppend(p.items, rest, m, a);
      } else {
        assert Follow(pages, cursor, n) == p.items;
      }
    }
  }

  lemma SliceFrom(m: seq<Event>, a: int, b: int)
    requires 0 <= a <= b <= |m|
    ensures AllFrom(m[a..b], m, a)
  {
    assert m[a..b] == m[a..][..b - a];
  }

  lemma FromLater(s: seq<Event>, m: seq<Event>, a: int, b: int)
    requires 0 <= a <= b <= |m| && AllFrom(s, m, b)
    ensures AllFrom(s, m, a)
  {
    assert m[b..] == m[a..][b - a..];
  }

  lemma FromAppend(x: seq<Event>, y: seq<Event>, m: seq<Event>, a: int)
    requires 0 <= a <= |m| && AllFrom(x, m, a) && AllFrom(y, m, a)
    ensures AllFrom(x + y, m, a)
  {
  }

  /** In a sorted sequence a row occurs only at its own index. */
  lemma OnlyAtOwnIndex(m: seq<Event>, b: int)
    requires Sorted(m) && 0 <= b < |m|
    ensures m[b] !in m[..b] && m[b] !in m[b + 1..]
  {
    BeforeIrreflexive(m[b]);
    forall e | e in m[..b] ensures e != m[b] {
      var i :| 0 <= i < b && m[..b][i] == e;
      assert Before(m[i], m[b]);
    }
    var tail := m[b + 1..];
    forall e | e in tail ensures e != m[b] {
      var i :| 0 <= i < |tail| && tail[i] == e;
      assert Before(m[b], m[b + 1 + i]);
    }
  }

  /** Pages cut as written lose the row at index `limit`: the first page stops
      before it, and everything after is at or beyond `limit + 1`. */
  lemma AsWrittenSkipsRow(pages: Option<string> -> Page, m: seq<Event>, limit: PageSize, n: nat)
    requires Sorted(m) && |m| > limit
    requires ResumesAsWritten(pages(None), m, 0, limit)
    requires AllResumeAsWritten(pages, m, limit)
    ensures m[limit] !in Follow(pages, None, n)
  {
    OnlyAtOwnIndex(m, limit);
    if n > 0 {
      var p := pages(None);
      assert p.items == m[..limit];
      assert ResumesAfterRowAsWritten(pages, m, limit, limit);
      var rest := Follow(pages, Some(m[limit].id), n - 1);
      FollowAsWrittenStaysAhead(pages, m, limit, limit + 1, Some(m[limit].id), n - 1);
      assert m[limit] !in rest;
      assert Follow(pages, None, n) == p.items + rest;
    }
  }

  /** As written, the first page's cursor names the matching row at index
      `limit`, the next request skips it, and no later page goes back: however
      many pages a client follows, that row is never returned. */
  lemma AsWrittenNeverReturnsBoundaryRow(t: seq<Event>, keep: Event -> bool, limit: PageSize, n: nat)
    requires Valid(t) && |Matching(t, keep)| > limit
    ensures var m := Matching(t, keep);
            PageAsWritten(t, keep, limit, None).nextCursor == Some(m[limit].id)
    ensures var m := Matching(t, keep);
            m[limit] !in Follow(PagesAsWritten(t, keep, limit), None, n)
  {
    var m := Matching(t, keep);
    var pages := PagesAsWritten(t, keep, limit);
    FirstPageAsWritten(t, keep, limit);
    forall k | 0 <= k < |m| ensures ResumesAfterRowAsWritten(pages, m, k, limit) {
      PageAfterAsWritten(t, keep, limit, k);
    }
    assert AllResumeAsWritten(pages, m, limit);
    MatchingSorted(t, keep);
    AsWrittenSkipsRow(pages, m, limit, n);
  }
}
