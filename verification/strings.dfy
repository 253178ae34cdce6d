/** The JavaScript string operations the service relies on: `split`, `join`,
    `trim`, `includes`, `toLowerCase`, `parseInt(s, 10)`, `String(n)` for
    integers, and the code-point ordering a binary collation sorts ids by. */
module Strings {
  import opened Wrappers

  // ---------------------------------------------------------------------------
  // Whitespace and trimming
  // ---------------------------------------------------------------------------

  /** ECMAScript WhiteSpace and LineTerminator code points: the characters
      `String.prototype.trim` removes and `parseInt` skips. */
  predicate IsWhite(c: char) {
    || c == ' ' || c == '\t' || c == '\n' || c == '\r'
    || c == '\U{000B}' || c == '\U{000C}' || c == '\U{00A0}' || c == '\U{FEFF}'
    || c == '\U{1680}' || ('\U{2000}' <= c <= '\U{200A}')
    || c == '\U{2028}' || c == '\U{2029}' || c == '\U{202F}' || c == '\U{205F}'
    || c == '\U{3000}'
  }

  /** Neither end of `s` is whitespace. */
  predicate Trimmed(s: string) {
    s == [] || (!IsWhite(s[0]) && !IsWhite(s[|s| - 1]))
  }

  /** `trimStart`: drops the leading whitespace and nothing else. */
  function TrimStart(s: string): (r: string)
    ensures |r| <= |s| && r == s[|s| - |r|..]
    ensures forall i :: 0 <= i < |s| - |r| ==> IsWhite(s[i])
    ensures r == [] || !IsWhite(r[0])
  {
    if |s| > 0 && IsWhite(s[0]) then TrimStart(s[1..]) else s
  }

  /** `trimEnd`: drops the trailing whitespace and nothing else. */
  function TrimEnd(s: string): (r: string)
    ensures |r| <= |s| && r == s[..|r|]
    ensures forall i :: |r| <= i < |s| ==> IsWhite(s[i])
    ensures r == [] || !IsWhite(r[|r| - 1])
  {
    if |s| > 0 && IsWhite(s[|s| - 1]) then TrimEnd(s[..|s| - 1]) else s
  }

  /** `trim`: the result is a slice of `s` with whitespace-free ends, and only
      whitespace was cut away on either side. */
  function Trim(s: string): (r: string)
    ensures Trimmed(r)
    ensures forall c :: c in r ==> c in s
  {
    TrimEnd(TrimStart(s))
  }

  /** What `trim` cuts away on either side of its result is whitespace. */
  lemma TrimIsCut(s: string)
    ensures exists a :: CutAt(s, Trim(s), a)
  {
    var t := TrimStart(s);
    var r := TrimEnd(t);
    var a := |s| - |t|;
    assert r == s[a..][..|r|];
    assert r == s[a..a + |r|];
    assert forall i :: a + |r| <= i < |s| ==> s[i] == t[i - a];
    assert CutAt(s, r, a);
    assert r == Trim(s);
  }

  /** `r` is `s[a..a + |r|]` and everything cut away on either side is whitespace. */
  ghost predicate CutAt(s: string, r: string, a: int) {
    && 0 <= a <= |s| - |r|
    && r == s[a..a + |r|]
    && (forall i :: 0 <= i < a ==> IsWhite(s[i]))
    && (forall i :: a + |r| <= i < |s| ==> IsWhite(s[i]))
  }

  /** Trimming a string whose ends are not whitespace changes nothing. */
  lemma TrimOfTrimmed(s: string)
    requires Trimmed(s)
    ensures Trim(s) == s
  {
  }

  // ---------------------------------------------------------------------------
  // split / join
  // ---------------------------------------------------------------------------

  /** `s.split(sep)` for a one-character separator: always at least one piece,
      consecutive separators give empty pieces, and "" splits to [""]. */
  function Split(s: string, sep: char): (parts: seq<string>)
    ensures |parts| >= 1
    ensures forall p :: p in parts ==> sep !in p
  {
    if |s| == 0 then [""]
    else
      var rest := Split(s[1..], sep);
      if s[0] == sep then [""] + rest
      else [[s[0]] + rest[0]] + rest[1..]
  }

  /** `parts.join(sep)`. */
  function Join(parts: seq<string>, sep: string): string
  {
    if |parts| == 0 then ""
    else if |parts| == 1 then parts[0]
    else parts[0] + sep + Join(parts[1..], sep)
  }

  /** Joining the pieces of a split with the same separator restores the string. */
  lemma {:induction false} JoinSplit(s: string, sep: char)
    ensures Join(Split(s, sep), [sep]) == s
    decreases |s|
  {
    if |s| > 0 {
      var rest := Split(s[1..], sep);
      JoinSplit(s[1..], sep);
      if s[0] != sep {
        if |rest| == 1 {
          assert Split(s, sep) == [[s[0]] + rest[0]];
        } else {
          var tl := Join(rest[1..], [sep]);
          assert Join(rest, [sep]) == rest[0] + [sep] + tl;
          assert Join(Split(s, sep), [sep]) == ([s[0]] + rest[0]) + [sep] + tl by {
            assert Split(s, sep) == [[s[0]] + rest[0]] + rest[1..];
            assert Split(s, sep)[1..] == rest[1..];
          }
          CharsAssoc([s[0]], rest[0] + [sep], tl);
          CharsAssoc([s[0]], rest[0], [sep]);
          assert s == [s[0]] + s[1..];
        }
      }
    }
  }

  /** Splitting a join of separator-free pieces gives the pieces back. */
  lemma {:induction false} SplitJoin(parts: seq<string>, sep: char)
    requires |parts| >= 1
    requires forall p :: p in parts ==> sep !in p
    ensures Split(Join(parts, [sep]), sep) == parts
    decreases |Join(parts, [sep])|
  {
    var p := parts[0];
    if |p| == 0 {
      if |parts| > 1 {
        var tail := Join(parts[1..], [sep]);
        assert forall q :: q in parts[1..] ==> q in parts;
        assert Join(parts, [sep]) == [sep] + tail;
        SplitJoin(parts[1..], sep);
        SplitOfSep(tail, sep);
        assert parts == [""] + parts[1..];
      }
    } else {
      var shorter := [p[1..]] + parts[1..];
      ShorterClean(parts, sep);
      JoinHead(parts, sep);
      SplitJoin(shorter, sep);
      assert p[0] != sep by { assert p[0] in p; }
      SplitOfOther(p[0], Join(shorter, [sep]), sep);
      assert [p[0]] + p[1..] == p;
      assert parts == [p] + parts[1..];
    }
  }

  /** A leading separator splits off an empty piece. */
  lemma SplitOfSep(s: string, sep: char)
    ensures Split([sep] + s, sep) == [""] + Split(s, sep)
  {
    assert ([sep] + s)[1..] == s;
  }

  /** A leading non-separator starts the first piece. */
  lemma SplitOfOther(c: char, s: string, sep: char)
    requires c != sep
    ensures Split([c] + s, sep) == [[c] + Split(s, sep)[0]] + Split(s, sep)[1..]
  {
    assert ([c] + s)[1..] == s;
  }

  /** Dropping the first character of the first piece keeps every piece
      separator-free. */
  lemma ShorterClean(parts: seq<string>, sep: char)
    requires |parts| >= 1 && |parts[0]| > 0
    requires forall p :: p in parts ==> sep !in p
    ensures forall q :: q in [parts[0][1..]] + parts[1..] ==> sep !in q
  {
    forall q | q in [parts[0][1..]] + parts[1..] ensures sep !in q {
      if q == parts[0][1..] {
        assert forall c :: c in parts[0][1..] ==> c in parts[0];
      } else {
        assert q in parts;
      }
    }
  }

  /** The join starts with the first character of the first piece. */
  lemma JoinHead(parts: seq<string>, sep: char)
    requires |parts| >= 1 && |parts[0]| > 0
    ensures Join(parts, [sep]) == [parts[0][0]] + Join([parts[0][1..]] + parts[1..], [sep])
  {
    var p := parts[0];
    var shorter := [p[1..]] + parts[1..];
    assert shorter[0] == p[1..] && shorter[1..] == parts[1..];
    assert p == [p[0]] + p[1..];
    if |parts| > 1 {
      var tl := Join(parts[1..], [sep]);
      assert Join(parts, [sep]) == p + [sep] + tl;
      assert Join(shorter, [sep]) == p[1..] + [sep] + tl;
      CharsAssoc([p[0]], p[1..], [sep]);
      CharsAssoc([p[0]], p[1..] + [sep], tl);
    }
  }

  lemma CharsAssoc(x: string, y: string, z: string)
    ensures x + (y + z) == x + y + z
  {
  }

  // ---------------------------------------------------------------------------
  // Comma lists
  // ---------------------------------------------------------------------------

  /** `.map((s) => s.trim()).filter(Boolean)`: the trimmed pieces that are not empty, in order. */
  function NonEmptyTrimmed(parts: seq<string>): (r: seq<string>)
    ensures forall x :: x in r ==> x != "" && Trimmed(x)
    ensures forall x, c :: x in r && c in x ==> exists p :: p in parts && c in p
    ensures |parts| == 1 ==> r == if Trim(parts[0]) == "" then [] else [Trim(parts[0])]
  {
    if |parts| == 0 then []
    else
      var t := Trim(parts[0]);
      var rest := NonEmptyTrimmed(parts[1..]);
      assert forall p :: p in parts[1..] ==> p in parts;
      assert forall p :: p in parts ==> p == parts[0] || p in parts[1..];
      assert |parts| == 1 ==> KeptPiece(parts[0]) + rest == KeptPiece(parts[0]) by {
        if |parts| == 1 {
          assert parts[1..] == [];
        }
      }
      KeptPiece(parts[0]) + rest
  }

  /** What one piece contributes: its trimmed form, unless that is empty. */
  function KeptPiece(p: string): seq<string> {
    var t := Trim(p);
    if t == "" then [] else [t]
  }

  /** The pipeline works piece by piece: the result for a concatenation is the
      results for its two halves, in order. With the one-piece case above,
      every trimmed non-empty piece is kept, in its place. */
  lemma {:induction false} NonEmptyTrimmedAppend(a: seq<string>, b: seq<string>)
    ensures NonEmptyTrimmed(a + b) == NonEmptyTrimmed(a) + NonEmptyTrimmed(b)
    decreases |a|
  {
    if |a| > 0 {
      var h, t := a[0], a[1..];
      assert NonEmptyTrimmed(a + b) == KeptPiece(h) + NonEmptyTrimmed(t + b) by {
        assert a + b == [h] + (t + b) by {
          assert a == [h] + t;
        }
        NonEmptyTrimmedCons(h, t + b);
      }
      assert NonEmptyTrimmed(a) == KeptPiece(h) + NonEmptyTrimmed(t) by {
        assert a == [h] + t;
        NonEmptyTrimmedCons(h, t);
      }
      NonEmptyTrimmedAppend(t, b);
      StringsAssoc(KeptPiece(h), NonEmptyTrimmed(t), NonEmptyTrimmed(b));
    } else {
      assert a + b == b;
    }
  }

  /** One step of the pipeline. */
  lemma NonEmptyTrimmedCons(p: string, rest: seq<string>)
    ensures NonEmptyTrimmed([p] + rest) == KeptPiece(p) + NonEmptyTrimmed(rest)
  {
    assert ([p] + rest)[0] == p && ([p] + rest)[1..] == rest;
  }

  lemma StringsAssoc(x: seq<string>, y: seq<string>, z: seq<string>)
    ensures x + (y + z) == x + y + z
  {
  }

  /** `s.split(',').map((x) => x.trim()).filter(Boolean)`, the parser the service
      uses for comma-separated configuration and query values. Every item is a
      non-empty, comma-free, trimmed string. */
  function CommaItems(s: string): (r: seq<string>)
    ensures forall x :: x in r ==> x != "" && Trimmed(x) && ',' !in x
  {
    NonEmptyTrimmed(Split(s, ','))
  }

  /** Items that are already trimmed, non-empty and comma-free survive
      `join(',')` followed by the comma-list parser unchanged. */
  lemma CommaItemsOfJoin(items: seq<string>)
    requires forall x :: x in items ==> x != "" && Trimmed(x) && ',' !in x
    ensures CommaItems(Join(items, ",")) == items
  {
    var joined := Join(items, ",");
    if |items| == 0 {
      assert Split(joined, ',') == [""];
      assert NonEmptyTrimmed([""]) == [];
    } else {
      assert Split(joined, ',') == items by {
        SplitJoin(items, ',');
      }
      assert NonEmptyTrimmed(items) == items by {
        NonEmptyTrimmedOfClean(items);
      }
    }
  }

  /** A list written as comma-free pieces joined with `,` parses to the
      trimmed pieces that are not empty, in order: `"a, b,,c "` gives
      `["a", "b", "c"]`. */
  lemma CommaItemsOfPieces(pieces: seq<string>)
    requires |pieces| > 0
    requires forall x :: x in pieces ==> ',' !in x
    ensures CommaItems(Join(pieces, ",")) == NonEmptyTrimmed(pieces)
  {
    SplitJoin(pieces, ',');
  }

  lemma {:induction false} NonEmptyTrimmedOfClean(items: seq<string>)
    requires forall x :: x in items ==> x != "" && Trimmed(x)
    ensures NonEmptyTrimmed(items) == items
  {
    if |items| > 0 {
      var head, rest := items[0], items[1..];
      assert items == [head] + rest;
      assert NonEmptyTrimmed(rest) == rest by {
        assert forall x :: x in rest ==> x in items;
        NonEmptyTrimmedOfClean(rest);
      }
      assert KeptPiece(head) == [head] by {
        assert head in items;
        TrimOfTrimmed(head);
      }
      NonEmptyTrimmedCons(head, rest);
    }
  }


  // ---------------------------------------------------------------------------
  // Substring search and lower-casing
  // ---------------------------------------------------------------------------

  predicate IsPrefix(p: string, s: string) {
    |p| <= |s| && s[..|p|] == p
  }

  /** `s.includes(sub)`: `sub` occurs in `s` at some position. */
  predicate Contains(s: string, sub: string) {
    exists i :: 0 <= i <= |s| && IsPrefix(sub, s[i..])
  }

  /** The empty string contains only the empty string. */
  lemma EmptyContainsOnlyEmpty(sub: string)
    requires Contains("", sub)
    ensures sub == ""
  {
    var i :| 0 <= i <= 0 && IsPrefix(sub, ""[i..]);
  }

  /** Every string contains the empty string. */
  lemma ContainsEmpty(s: string)
    ensures Contains(s, "")
  {
    assert IsPrefix("", s[0..]);
  }

  /** `toLowerCase` restricted to ASCII letters. */
  function LowerChar(c: char): char {
    if 'A' <= c <= 'Z' then (c as int + 32) as char else c
  }

  function Lower(s: string): (r: string)
    ensures |r| == |s|
    ensures forall i :: 0 <= i < |s| ==> r[i] == LowerChar(s[i])
  {
    seq(|s|, i requires 0 <= i < |s| => LowerChar(s[i]))
  }

  /** Lower-casing is idempotent. */
  lemma LowerIdempotent(s: string)
    ensures Lower(Lower(s)) == Lower(s)
  {
  }

  // ---------------------------------------------------------------------------
  // Code-point lexicographic order
  // ---------------------------------------------------------------------------

  /** `a` sorts strictly before `b` by code points (a proper prefix sorts first). */
  predicate Less(a: string, b: string)
    decreases |a|
  {
    if |b| == 0 then false
    else if |a| == 0 then true
    else a[0] < b[0] || (a[0] == b[0] && Less(a[1..], b[1..]))
  }

  lemma {:induction false} LessIrreflexive(a: string)
    ensures !Less(a, a)
    decreases |a|
  {
    if |a| > 0 {
      LessIrreflexive(a[1..]);
    }
  }

  lemma {:induction false} LessTransitive(a: string, b: string, c: string)
    requires Less(a, b) && Less(b, c)
    ensures Less(a, c)
    decreases |a|
  {
    if |a| > 0 && a[0] == b[0] && b[0] == c[0] {
      LessTransitive(a[1..], b[1..], c[1..]);
    }
  }

  lemma {:induction false} LessTotal(a: string, b: string)
    ensures a == b || Less(a, b) || Less(b, a)
    decreases |a|
  {
    if |a| > 0 && |b| > 0 && a[0] == b[0] {
      LessTotal(a[1..], b[1..]);
      if a[1..] == b[1..] {
        assert a == [a[0]] + a[1..] && b == [b[0]] + b[1..];
      }
    }
  }

  lemma {:induction false} LessAsymmetric(a: string, b: string)
    requires Less(a, b)
    ensures !Less(b, a)
    decreases |a|
  {
    if |a| > 0 && a[0] == b[0] {
      LessAsymmetric(a[1..], b[1..]);
    }
  }

  // ---------------------------------------------------------------------------
  // Decimal integers: String(n) and parseInt(s, 10)
  // ---------------------------------------------------------------------------

  predicate IsDigit(c: char) {
    '0' <= c <= '9'
  }

  predicate AllDigits(s: string) {
    forall i :: 0 <= i < |s| ==> IsDigit(s[i])
  }

  function DigitChar(d: nat): (c: char)
    requires d < 10
    ensures IsDigit(c)
  {
    ('0' as int + d) as char
  }

  /** The value of a string of decimal digits, most significant first. */
  function DigitsValue(s: string): nat
    requires AllDigits(s)
  {
    if |s| == 0 then 0
    else DigitsValue(s[..|s| - 1]) * 10 + (s[|s| - 1] as int - '0' as int)
  }

  /** The canonical decimal spelling of a natural number: digits only, no
      leading zero, and it reads back as the number. */
  function NatToString(n: nat): (r: string)
    ensures |r| >= 1 && AllDigits(r)
    ensures r[0] != '0' || n == 0
    ensures DigitsValue(r) == n
  {
    if n < 10 then [DigitChar(n)]
    else
      var r := NatToString(n / 10) + [DigitChar(n % 10)];
      assert r[..|r| - 1] == NatToString(n / 10);
      r
  }

  /** `String(n)` for an integer. */
  function IntToString(n: int): (r: string)
    ensures |r| >= 1
    ensures n < 0 <==> r[0] == '-'
  {
    if n < 0 then "-" + NatToString(-n) else NatToString(n)
  }

  /** The longest prefix of `s` made of decimal digits. */
  function DigitPrefix(s: string): (r: string)
    ensures AllDigits(r) && IsPrefix(r, s)
    ensures |r| < |s| ==> !IsDigit(s[|r|])
  {
    if |s| > 0 && IsDigit(s[0]) then [s[0]] + DigitPrefix(s[1..]) else []
  }

  /** `parseInt(s, 10)`, with None for NaN: leading whitespace is skipped, one
      optional sign is read, then the longest run of digits; no digits is NaN. */
  function ParseInt(s: string): (r: Option<int>)
    ensures r.None? <==> DigitPrefix(SignStripped(TrimStart(s))) == []
  {
    var t := TrimStart(s);
    var negative := |t| > 0 && t[0] == '-';
    var digits := DigitPrefix(SignStripped(t));
    if digits == [] then None
    else
      var v: int := DigitsValue(digits);
      Some(if negative then -v else v)
  }

  function SignStripped(t: string): string {
    if |t| > 0 && (t[0] == '-' || t[0] == '+') then t[1..] else t
  }

  lemma {:induction false} DigitPrefixOfDigits(s: string)
    requires AllDigits(s)
    ensures DigitPrefix(s) == s
    decreases |s|
  {
    if |s| > 0 {
      DigitPrefixOfDigits(s[1..]);
      assert s == [s[0]] + s[1..];
    }
  }

  /** `parseInt(String(n), 10) === n` for every integer. */
  lemma ParseIntOfIntToString(n: int)
    ensures ParseInt(IntToString(n)) == Some(n)
  {
    var s := IntToString(n);
    assert !IsWhite(s[0]);
    assert TrimStart(s) == s;
    if n < 0 {
      var d := NatToString(-n);
      assert SignStripped(s) == d;
      DigitPrefixOfDigits(d);
    } else {
      DigitPrefixOfDigits(s);
    }
  }
}
