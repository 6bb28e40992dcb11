/**
 * The pieces of Go's standard library that the client's own logic leans on: `unicode.IsSpace`
 * and `strings.TrimSpace`, `strings.Join` (with `strings.Split` as its inverse), the `<` order
 * on strings that `sort.Strings` uses, the `%d` verb of `fmt`, and `len` of a string in bytes.
 *
 * A `string` here is a sequence of Unicode scalar values, which is what a valid UTF-8 Go
 * string decodes to. Comparing two such sequences character by character gives the same
 * answer as Go's byte-wise comparison of their UTF-8 encodings.
 */
module GoStrings {
  import opened Wrappers

  // ---------------------------------------------------------------------------------------
  // unicode.IsSpace, strings.TrimSpace
  // ---------------------------------------------------------------------------------------

  /** `unicode.IsSpace`: the characters with the Unicode White_Space property. */
  predicate IsSpace(c: char)
  {
    || c == '\t' || c == '\n' || c == '\U{000B}' || c == '\U{000C}' || c == '\r' || c == ' '
    || c == '\U{0085}' || c == '\U{00A0}' || c == '\U{1680}'
    || ('\U{2000}' <= c <= '\U{200A}')
    || c == '\U{2028}' || c == '\U{2029}' || c == '\U{202F}' || c == '\U{205F}' || c == '\U{3000}'
  }

  /** Removes the leading white space. */
  function TrimLeft(s: string): string
  {
    if s != [] && IsSpace(s[0]) then TrimLeft(s[1..]) else s
  }

  /** TrimLeft leaves the suffix after the leading white space, which does not start with any. */
  lemma {:induction false} TrimLeftCuts(s: string)
    ensures |TrimLeft(s)| <= |s| && TrimLeft(s) == s[|s| - |TrimLeft(s)|..]
    ensures TrimLeft(s) == [] || !IsSpace(TrimLeft(s)[0])
    ensures forall k :: 0 <= k < |s| - |TrimLeft(s)| ==> IsSpace(s[k])
  {
    if s != [] && IsSpace(s[0]) {
      TrimLeftCuts(s[1..]);
    }
  }

  /** Removes the trailing white space. */
  function TrimRight(s: string): string
  {
    if s != [] && IsSpace(s[|s| - 1]) then TrimRight(s[..|s| - 1]) else s
  }

  /** TrimRight leaves the prefix before the trailing white space, which does not end with any. */
  lemma {:induction false} TrimRightCuts(s: string)
    ensures |TrimRight(s)| <= |s| && TrimRight(s) == s[..|TrimRight(s)|]
    ensures TrimRight(s) == [] || !IsSpace(TrimRight(s)[|TrimRight(s)| - 1])
    ensures forall k :: |TrimRight(s)| <= k < |s| ==> IsSpace(s[k])
  {
    if s != [] && IsSpace(s[|s| - 1]) {
      TrimRightCuts(s[..|s| - 1]);
    }
  }

  /** `r` is `s` with a run of white space cut off at each end. */
  ghost predicate CutFrom(s: string, r: string)
  {
    exists i, j ::
      && 0 <= i <= j <= |s| && r == s[i..j]
      && (forall k :: 0 <= k < i ==> IsSpace(s[k]))
      && (forall k :: j <= k < |s| ==> IsSpace(s[k]))
  }

  /** `strings.TrimSpace`: the part of `s` between its leading and its trailing white space. */
  function TrimSpace(s: string): string
  {
    TrimRight(TrimLeft(s))
  }

  /** Nothing but white space is cut, and what is left neither starts nor ends with it. */
  lemma TrimSpaceCuts(s: string)
    ensures CutFrom(s, TrimSpace(s))
    ensures TrimSpace(s) == [] || (!IsSpace(TrimSpace(s)[0]) && !IsSpace(TrimSpace(s)[|TrimSpace(s)| - 1]))
  {
    var left := TrimLeft(s);
    var r := TrimRight(left);
    TrimLeftCuts(s);
    TrimRightCuts(left);
    var i := |s| - |left|;
    assert r == s[i..i + |r|];
    assert forall k :: i + |r| <= k < |s| ==> s[k] == left[k - i];
  }

  /** Text that neither starts nor ends with white space is left as it is. */
  lemma TrimSpaceKeepsTrimmed(s: string)
    requires s == [] || (!IsSpace(s[0]) && !IsSpace(s[|s| - 1]))
    ensures TrimSpace(s) == s
  {
    assert TrimLeft(s) == s;
    assert TrimRight(s) == s;
  }

  /** Trimming twice is trimming once. */
  lemma TrimSpaceIdempotent(s: string)
    ensures TrimSpace(TrimSpace(s)) == TrimSpace(s)
  {
    TrimSpaceCuts(s);
    TrimSpaceKeepsTrimmed(TrimSpace(s));
  }

  /** TrimLeft cuts a run of white space and stops at the first character that is not. */
  lemma {:induction false} TrimLeftPadded(left: string, rest: string)
    requires forall k :: 0 <= k < |left| ==> IsSpace(left[k])
    requires rest == [] || !IsSpace(rest[0])
    ensures TrimLeft(left + rest) == rest
  {
    if left == [] {
      assert left + rest == rest;
    } else {
      assert (left + rest)[1..] == left[1..] + rest;
      TrimLeftPadded(left[1..], rest);
    }
  }

  /** TrimRight cuts a run of white space and stops at the last character that is not. */
  lemma {:induction false} TrimRightPadded(rest: string, right: string)
    requires forall k :: 0 <= k < |right| ==> IsSpace(right[k])
    requires rest == [] || !IsSpace(rest[|rest| - 1])
    ensures TrimRight(rest + right) == rest
  {
    if right == [] {
      assert rest + right == rest;
    } else {
      var n := |right| - 1;
      assert (rest + right)[..|rest| + n] == rest + right[..n];
      TrimRightPadded(rest, right[..n]);
    }
  }

  /** TrimSpace gives back exactly the text between the white space padding either end. */
  lemma TrimSpacePadded(left: string, s: string, right: string)
    requires forall k :: 0 <= k < |left| ==> IsSpace(left[k])
    requires forall k :: 0 <= k < |right| ==> IsSpace(right[k])
    requires s != [] && !IsSpace(s[0]) && !IsSpace(s[|s| - 1])
    ensures TrimSpace(left + s + right) == s
  {
    assert left + s + right == left + (s + right);
    TrimLeftPadded(left, s + right);
    TrimRightPadded(s, right);
  }

  /** TrimSpace leaves nothing exactly when `s` is all white space. */
  lemma TrimSpaceEmptyIff(s: string)
    ensures TrimSpace(s) == [] <==> forall k :: 0 <= k < |s| ==> IsSpace(s[k])
  {
    var r := TrimSpace(s);
    TrimSpaceCuts(s);
    var i, j :| && 0 <= i <= j <= |s| && r == s[i..j]
                && (forall k :: 0 <= k < i ==> IsSpace(s[k]))
                && (forall k :: j <= k < |s| ==> IsSpace(s[k]));
    if r == [] {
      assert i == j;
    } else {
      assert s[i] == r[0];
    }
  }

  // ---------------------------------------------------------------------------------------
  // strings.Join and strings.Split
  // ---------------------------------------------------------------------------------------

  /** `strings.IndexByte`: the position of the first `c` in `s`, if there is one. */
  function IndexOf(s: string, c: char): (r: Option<nat>)
    ensures r.Some? ==> r.value < |s| && s[r.value] == c && c !in s[..r.value]
    ensures r.None? <==> c !in s
  {
    if s == [] then None
    else if s[0] == c then Some(0)
    else
      match IndexOf(s[1..], c)
      case None => None
      case Some(i) =>
        assert s[..i + 1] == [s[0]] + s[1..][..i];
        Some(i + 1)
  }

  /** The first `c` in `x + [c] + y` is the one after `x` when `x` has none. */
  lemma {:induction false} IndexOfAfter(x: string, c: char, y: string)
    requires c !in x
    ensures IndexOf(x + [c] + y, c) == Some(|x|)
  {
    var s := x + [c] + y;
    if x != [] {
      assert s[0] == x[0];
      assert s[1..] == x[1..] + [c] + y;
      IndexOfAfter(x[1..], c, y);
    }
  }

  /** `strings.Join`. */
  function Join(xs: seq<string>, sep: string): string
  {
    if xs == [] then "" else if |xs| == 1 then xs[0] else xs[0] + sep + Join(xs[1..], sep)
  }

  /** `strings.Split` around a one-character separator. */
  function Split(s: string, sep: char): (r: seq<string>)
    ensures |r| > 0
  {
    if s == [] then [""]
    else
      var rest := Split(s[1..], sep);
      if s[0] == sep then [""] + rest else [[s[0]] + rest[0]] + rest[1..]
  }

  lemma {:induction false} SplitNoSeparator(x: string, sep: char)
    requires sep !in x
    ensures Split(x, sep) == [x]
  {
    if x != [] {
      SplitNoSeparator(x[1..], sep);
      assert [x[0]] + x[1..] == x;
    }
  }

  lemma {:induction false} SplitAtFirstSeparator(x: string, sep: char, y: string)
    requires sep !in x
    ensures Split(x + [sep] + y, sep) == [x] + Split(y, sep)
  {
    var s := x + [sep] + y;
    if x == [] {
      assert s[1..] == y;
    } else {
      assert s[1..] == x[1..] + [sep] + y;
      SplitAtFirstSeparator(x[1..], sep, y);
      assert [x[0]] + x[1..] == x;
    }
  }

  /** Splitting a join recovers the parts, provided no part contains the separator. */
  lemma {:induction false} SplitJoin(xs: seq<string>, sep: char)
    requires |xs| > 0
    requires forall i :: 0 <= i < |xs| ==> sep !in xs[i]
    ensures Split(Join(xs, [sep]), sep) == xs
  {
    if |xs| == 1 {
      SplitNoSeparator(xs[0], sep);
    } else {
      SplitJoin(xs[1..], sep);
      SplitAtFirstSeparator(xs[0], sep, Join(xs[1..], [sep]));
      assert [xs[0]] + xs[1..] == xs;
    }
  }

  // ---------------------------------------------------------------------------------------
  // The order of strings, and sort.Strings
  // ---------------------------------------------------------------------------------------

  /** Go's `a < b` on strings: lexicographic, a proper prefix coming first. */
  predicate Below(a: string, b: string)
  {
    if a == [] then b != []
    else b != [] && (a[0] < b[0] || (a[0] == b[0] && Below(a[1..], b[1..])))
  }

  lemma {:induction false} BelowIrreflexive(a: string)
    ensures !Below(a, a)
  {
    if a != [] {
      BelowIrreflexive(a[1..]);
    }
  }

  lemma {:induction false} BelowTransitive(a: string, b: string, c: string)
    requires Below(a, b) && Below(b, c)
    ensures Below(a, c)
  {
    if a != [] && a[0] == b[0] && b[0] == c[0] {
      BelowTransitive(a[1..], b[1..], c[1..]);
    }
  }

  lemma {:induction false} BelowTotal(a: string, b: string)
    ensures a == b || Below(a, b) || Below(b, a)
  {
    if a != [] && b != [] && a[0] == b[0] {
      BelowTotal(a[1..], b[1..]);
      if a[1..] == b[1..] {
        assert a == [a[0]] + a[1..] && b == [b[0]] + b[1..];
      }
    }
  }

  lemma BelowAsymmetric(a: string, b: string)
    ensures !(Below(a, b) && Below(b, a))
  {
    if Below(a, b) && Below(b, a) {
      BelowTransitive(a, b, a);
      BelowIrreflexive(a);
    }
  }

  /** No element is below the one before it. */
  predicate Ascending(s: seq<string>)
  {
    forall i :: 0 < i < |s| ==> !Below(s[i], s[i - 1])
  }

  /** Every element is below every later one. */
  predicate StrictlyAscending(s: seq<string>)
  {
    forall i, j :: 0 <= i < j < |s| ==> Below(s[i], s[j])
  }

  predicate Distinct(s: seq<string>)
  {
    forall i, j :: 0 <= i < j < |s| ==> s[i] != s[j]
  }

  /** Inserts `x` into an ascending sequence. */
  function Insert(x: string, s: seq<string>): (r: seq<string>)
    requires Ascending(s)
    ensures Ascending(r)
    ensures |r| == |s| + 1 && multiset(r) == multiset(s) + multiset{x}
    ensures forall y :: y in r <==> y == x || y in s
    ensures r[0] == x || (s != [] && r[0] == s[0])
  {
    if s == [] || !Below(s[0], x) then [x] + s
    else
      var t := Insert(x, s[1..]);
      BelowAsymmetric(s[0], x);
      BelowIrreflexive(x);
      assert s == [s[0]] + s[1..];
      assert !Below(t[0], s[0]);
      assert multiset([s[0]] + t) == multiset{s[0]} + multiset(t);
      [s[0]] + t
  }

  /** `sort.Strings`: an ascending rearrangement of `s`. */
  function Sort(s: seq<string>): (r: seq<string>)
    ensures Ascending(r)
    ensures |r| == |s| && multiset(r) == multiset(s)
    ensures forall y :: y in r <==> y in s
  {
    if s == [] then []
    else
      assert s == [s[0]] + s[1..];
      Insert(s[0], Sort(s[1..]))
  }

  lemma {:induction false} InsertKeepsDistinct(x: string, s: seq<string>)
    requires Ascending(s) && Distinct(s) && x !in s
    ensures Distinct(Insert(x, s))
  {
    if s != [] && Below(s[0], x) {
      var t := Insert(x, s[1..]);
      InsertKeepsDistinct(x, s[1..]);
      BelowIrreflexive(x);
      assert s[0] !in t;
      var r := [s[0]] + t;
      forall i, j | 0 <= i < j < |r|
        ensures r[i] != r[j]
      {
        if i == 0 {
          assert r[j] == t[j - 1] && t[j - 1] in t;
        } else {
          assert r[i] == t[i - 1] && r[j] == t[j - 1];
        }
      }
    }
  }

  lemma {:induction false} SortKeepsDistinct(s: seq<string>)
    requires Distinct(s)
    ensures Distinct(Sort(s))
  {
    if s != [] {
      assert s == [s[0]] + s[1..];
      SortKeepsDistinct(s[1..]);
      InsertKeepsDistinct(s[0], Sort(s[1..]));
    }
  }

  lemma {:induction false} AscendingDistinctIsStrict(s: seq<string>)
    requires Ascending(s) && Distinct(s)
    ensures StrictlyAscending(s)
  {
    if |s| > 1 {
      var t := s[..|s| - 1];
      assert Ascending(t) && Distinct(t);
      AscendingDistinctIsStrict(t);
      var n := |s| - 1;
      BelowTotal(s[n - 1], s[n]);
      forall i | 0 <= i < n
        ensures Below(s[i], s[n])
      {
        if i < n - 1 {
          BelowTransitive(s[i], s[n - 1], s[n]);
        }
      }
    }
  }

  /** A strictly ascending sequence is determined by the set of its elements. */
  lemma {:induction false} StrictlyAscendingUnique(a: seq<string>, b: seq<string>)
    requires StrictlyAscending(a) && StrictlyAscending(b)
    requires forall y :: y in a <==> y in b
    ensures a == b
  {
    assert a != [] ==> a[0] in b;
    assert b != [] ==> b[0] in a;
    if a != [] && b != [] {
      if a[0] != b[0] {
        var i :| 0 <= i < |b| && b[i] == a[0];
        var j :| 0 <= j < |a| && a[j] == b[0];
        assert Below(b[0], a[0]) && Below(a[0], b[0]);
        BelowAsymmetric(a[0], b[0]);
      }
      forall y
        ensures y in a[1..] <==> y in b[1..]
      {
        if y in a[1..] {
          var i :| 1 <= i < |a| && a[i] == y;
          assert Below(a[0], y);
          BelowIrreflexive(y);
          assert y in a;
          var i2 :| 0 <= i2 < |b| && b[i2] == y;
          assert i2 != 0 && b[1..][i2 - 1] == y;
        }
        if y in b[1..] {
          var i :| 1 <= i < |b| && b[i] == y;
          assert Below(b[0], y);
          BelowIrreflexive(y);
          assert y in b;
          var i2 :| 0 <= i2 < |a| && a[i2] == y;
          assert i2 != 0 && a[1..][i2 - 1] == y;
        }
      }
      StrictlyAscendingUnique(a[1..], b[1..]);
      assert a == [a[0]] + a[1..] && b == [b[0]] + b[1..];
    }
  }

  /** The elements of a finite set, in some order, each once. */
  ghost function Enumerate(keys: set<string>): (r: seq<string>)
    ensures Distinct(r)
    ensures forall y :: y in r <==> y in keys
  {
    if keys == {} then []
    else
      var k :| k in keys;
      [k] + Enumerate(keys - {k})
  }

  /** The elements of a finite set in ascending order: what `sort.Strings` makes of them. */
  ghost function SortedKeys(keys: set<string>): (r: seq<string>)
    ensures StrictlyAscending(r)
    ensures forall y :: y in r <==> y in keys
  {
    SortedListingExists(keys);
    var r :| StrictlyAscending(r) && forall y :: y in r <==> y in keys;
    r
  }

  /** Sorting a listing of a set puts it in ascending order. */
  lemma SortedListingExists(keys: set<string>)
    ensures exists r :: StrictlyAscending(r) && forall y :: y in r <==> y in keys
  {
    var r := Sort(Enumerate(keys));
    SortKeepsDistinct(Enumerate(keys));
    AscendingDistinctIsStrict(r);
  }

  /** Sorting any duplicate-free listing of a set gives its ascending order. */
  lemma SortListing(s: seq<string>, keys: set<string>)
    requires Distinct(s)
    requires forall y :: y in s <==> y in keys
    ensures Sort(s) == SortedKeys(keys)
  {
    SortKeepsDistinct(s);
    AscendingDistinctIsStrict(Sort(s));
    StrictlyAscendingUnique(Sort(s), SortedKeys(keys));
  }

  // ---------------------------------------------------------------------------------------
  // fmt's %d, and its inverse
  // ---------------------------------------------------------------------------------------

  predicate IsDigit(c: char)
  {
    '0' <= c <= '9'
  }

  function DigitChar(d: nat): (c: char)
    requires d < 10
    ensures IsDigit(c) && c as int - '0' as int == d
  {
    (('0' as int) + d) as char
  }

  /** The decimal digits of `n`, most significant first, without leading zeros. */
  function NatDecimal(n: nat): (r: string)
    ensures r != [] && forall k :: 0 <= k < |r| ==> IsDigit(r[k])
  {
    if n < 10 then [DigitChar(n)] else NatDecimal(n / 10) + [DigitChar(n % 10)]
  }

  /** `fmt.Sprintf("%d", n)`. */
  function Decimal(n: int): (r: string)
    ensures r != [] && forall k :: 0 <= k < |r| ==> IsDigit(r[k]) || (k == 0 && r[k] == '-')
  {
    if n < 0 then "-" + NatDecimal(-n) else NatDecimal(n)
  }

  /** The number a string of decimal digits denotes. */
  function DigitsValue(s: string): nat
    requires forall k :: 0 <= k < |s| ==> IsDigit(s[k])
  {
    if s == [] then 0
    else
      assert IsDigit(s[|s| - 1]);
      DigitsValue(s[..|s| - 1]) * 10 + (s[|s| - 1] as int - '0' as int)
  }

  /** Reads back a decimal integer with an optional minus sign; None for anything else. */
  function ParseDecimal(s: string): Option<int>
  {
    if s != [] && s[0] == '-' then
      if |s| > 1 && forall k :: 1 <= k < |s| ==> IsDigit(s[k]) then Some(-(DigitsValue(s[1..]) as int)) else None
    else if s != [] && forall k :: 0 <= k < |s| ==> IsDigit(s[k]) then Some(DigitsValue(s))
    else None
  }

  lemma {:induction false} NatDecimalValue(n: nat)
    ensures DigitsValue(NatDecimal(n)) == n
  {
    if n >= 10 {
      NatDecimalValue(n / 10);
      var r := NatDecimal(n);
      assert r[..|r| - 1] == NatDecimal(n / 10);
    }
  }

  /** `%d` is read back exactly. */
  lemma DecimalRoundTrip(n: int)
    ensures ParseDecimal(Decimal(n)) == Some(n)
  {
    var s := Decimal(n);
    if n < 0 {
      NatDecimalValue(-n);
      assert s[0] == '-' && s[1..] == NatDecimal(-n);
    } else {
      NatDecimalValue(n);
      assert IsDigit(s[0]);
    }
  }

  // ---------------------------------------------------------------------------------------
  // len(s) of a Go string: its length in UTF-8 bytes
  // ---------------------------------------------------------------------------------------

  /** `utf8.RuneLen`: how many bytes UTF-8 spends on `c`. */
  function RuneLen(c: char): (n: nat)
    ensures 1 <= n <= 4 && (n == 1 <==> c as int < 0x80)
  {
    if c as int < 0x80 then 1 else if c as int < 0x800 then 2 else if c as int < 0x1_0000 then 3 else 4
  }

  /** `len(s)`: the number of bytes of the UTF-8 encoding of `s`. */
  function ByteLength(s: string): (n: nat)
    ensures |s| <= n <= 4 * |s|
    ensures n == |s| <==> forall k :: 0 <= k < |s| ==> s[k] as int < 0x80
  {
    if s == [] then 0 else RuneLen(s[0]) + ByteLength(s[1..])
  }

  /** Text of characters that take three bytes each (the CJK ideographs among them) is three times as long in bytes. */
  lemma {:induction false} ByteLengthOfWide(s: string)
    requires forall k :: 0 <= k < |s| ==> 0x800 <= s[k] as int < 0x1_0000
    ensures ByteLength(s) == 3 * |s|
  {
    if s != [] {
      ByteLengthOfWide(s[1..]);
    }
  }
}
