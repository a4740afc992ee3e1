/** The ECMAScript string built-ins the two scripts rely on: `trim`, `parseInt`
    with radix 10, `padEnd`, `Array.prototype.join`, `repeat` and
    `split(sep)[0]`. A JavaScript string is a sequence of UTF-16 code units;
    here a string is a sequence of Unicode scalar values, and `Utf16Length`
    gives the length JavaScript reports for it. */
module JsString {
  import opened Wrappers

  // ---------------------------------------------------------------------
  // White space, trim
  // ---------------------------------------------------------------------

  /** The WhiteSpace and LineTerminator code points of ECMA-262 (sections 12.2
      and 12.3): what `String.prototype.trim` removes and what `parseInt`
      skips before the number. */
  predicate IsWhiteSpace(c: char) {
    InRanges(c as int, WhiteSpaceRanges)
  }

  /** Those code points as inclusive ranges: TAB, LF, VT, FF, CR; SPACE;
      NO-BREAK SPACE; OGHAM SPACE MARK; EN QUAD to HAIR SPACE; LINE and
      PARAGRAPH SEPARATOR; NARROW NO-BREAK SPACE; MEDIUM MATHEMATICAL SPACE;
      IDEOGRAPHIC SPACE; ZERO WIDTH NO-BREAK SPACE. */
  const WhiteSpaceRanges: seq<(int, int)> :=
    [(0x09, 0x0D), (0x20, 0x20), (0xA0, 0xA0), (0x1680, 0x1680), (0x2000, 0x200A),
     (0x2028, 0x2029), (0x202F, 0x202F), (0x205F, 0x205F), (0x3000, 0x3000), (0xFEFF, 0xFEFF)]

  predicate InRanges(n: int, ranges: seq<(int, int)>) {
    ranges != [] && ((ranges[0].0 <= n <= ranges[0].1) || InRanges(n, ranges[1..]))
  }

  lemma {:induction false} OutsideRanges(n: int, ranges: seq<(int, int)>)
    requires forall i :: 0 <= i < |ranges| ==> n < ranges[i].0 || ranges[i].1 < n
    ensures !InRanges(n, ranges)
  {
    if ranges != [] {
      OutsideRanges(n, ranges[1..]);
    }
  }

  /** Printable ASCII (digits and signs among it) is not white space. */
  lemma PrintableNotWhiteSpace(c: char)
    requires 0x20 < c as int < 0x7F
    ensures !IsWhiteSpace(c)
  {
    OutsideRanges(c as int, WhiteSpaceRanges);
  }

  /** Drops the leading white space: the result is a suffix of `s`, everything
      dropped is white space, and what is left does not start with white space. */
  function TrimStart(s: string): (r: string)
    ensures |r| <= |s| && r == s[|s| - |r|..]
    ensures forall i :: 0 <= i < |s| - |r| ==> IsWhiteSpace(s[i])
    ensures r == [] || !IsWhiteSpace(r[0])
  {
    if s != [] && IsWhiteSpace(s[0]) then TrimStart(s[1..]) else s
  }

  /** Drops the trailing white space: the result is a prefix of `s`, everything
      dropped is white space, and what is left does not end with white space. */
  function TrimEnd(s: string): (r: string)
    ensures |r| <= |s| && r == s[..|r|]
    ensures forall i :: |r| <= i < |s| ==> IsWhiteSpace(s[i])
    ensures r == [] || !IsWhiteSpace(r[|r| - 1])
  {
    if s != [] && IsWhiteSpace(s[|s| - 1]) then TrimEnd(s[..|s| - 1]) else s
  }

  /** `s.trim()`: the result is the slice `s[i..i + |r|]` obtained by cutting
      white space off both ends, and it neither starts nor ends with white space. */
  function Trim(s: string): (r: string)
    ensures var i := |s| - |TrimStart(s)|;
      i + |r| <= |s| && r == s[i..i + |r|]
      && (forall k :: 0 <= k < i ==> IsWhiteSpace(s[k]))
      && (forall k :: i + |r| <= k < |s| ==> IsWhiteSpace(s[k]))
    ensures r == [] || (!IsWhiteSpace(r[0]) && !IsWhiteSpace(r[|r| - 1]))
  {
    var t := TrimStart(s);
    var r := TrimEnd(t);
    TrimSlices(s, t, r);
    r
  }

  /** Cutting a white-space prefix off `s` and then a white-space suffix off
      what is left cuts a slice out of `s`. */
  lemma TrimSlices(s: string, t: string, r: string)
    requires |t| <= |s| && t == s[|s| - |t|..]
    requires forall i :: 0 <= i < |s| - |t| ==> IsWhiteSpace(s[i])
    requires t == [] || !IsWhiteSpace(t[0])
    requires |r| <= |t| && r == t[..|r|]
    requires forall i :: |r| <= i < |t| ==> IsWhiteSpace(t[i])
    requires r == [] || !IsWhiteSpace(r[|r| - 1])
    ensures var i := |s| - |t|;
      i + |r| <= |s| && r == s[i..i + |r|]
      && (forall k :: 0 <= k < i ==> IsWhiteSpace(s[k]))
      && (forall k :: i + |r| <= k < |s| ==> IsWhiteSpace(s[k]))
    ensures r == [] || (!IsWhiteSpace(r[0]) && !IsWhiteSpace(r[|r| - 1]))
  {
    var i := |s| - |t|;
    assert s[i..][..|r|] == s[i..i + |r|];
    forall k | i + |r| <= k < |s| ensures IsWhiteSpace(s[k]) {
      assert s[k] == t[k - i];
    }
    if r != [] {
      assert r[0] == t[0];
    }
  }

  /** Trimming twice is trimming once. */
  lemma {:induction false} TrimIdempotent(s: string)
    ensures Trim(Trim(s)) == Trim(s)
  {
    var r := Trim(s);
    if r != [] {
      assert TrimStart(r) == r;
      assert TrimEnd(r) == r;
    }
  }

  /** An answer is empty after trimming exactly when it is all white space. */
  lemma {:induction false} TrimEmpty(s: string)
    ensures Trim(s) == [] <==> forall k :: 0 <= k < |s| ==> IsWhiteSpace(s[k])
  {
    if forall k :: 0 <= k < |s| ==> IsWhiteSpace(s[k]) {
      AllWhiteSpaceTrimStart(s);
    }
  }

  lemma {:induction false} AllWhiteSpaceTrimStart(s: string)
    requires forall k :: 0 <= k < |s| ==> IsWhiteSpace(s[k])
    ensures TrimStart(s) == []
  {
    if s != [] {
      AllWhiteSpaceTrimStart(s[1..]);
    }
  }

  // ---------------------------------------------------------------------
  // parseInt(s, 10)
  // ---------------------------------------------------------------------

  predicate IsDigit(c: char) {
    '0' <= c <= '9'
  }

  predicate AllDigits(s: string) {
    forall i :: 0 <= i < |s| ==> IsDigit(s[i])
  }

  /** The longest prefix of `s` made of decimal digits. */
  function LeadingDigits(s: string): (r: string)
    ensures r <= s && AllDigits(r)
    ensures |r| == |s| || !IsDigit(s[|r|])
  {
    if s != [] && IsDigit(s[0]) then [s[0]] + LeadingDigits(s[1..]) else []
  }

  /** The number a string of decimal digits denotes, most significant first. */
  function DigitsValue(ds: string): (v: nat)
    requires AllDigits(ds)
  {
    if ds == [] then 0
    else DigitsValue(ds[..|ds| - 1]) * 10 + (ds[|ds| - 1] as int - '0' as int)
  }

  /** `parseInt(s, 10)` of ECMA-262 (section 19.2.5): skip leading white space,
      take one optional sign, then the longest run of decimal digits; `None`
      stands for `NaN` when that run is empty. The integer is exact where
      JavaScript would round above 2^53; the scripts only compare it with
      small bounds. */
  function ParseInt(s: string): (r: Option<int>)
    ensures r.Some? <==> var u := AfterSign(TrimStart(s)); u != [] && IsDigit(u[0])
    ensures r.Some? && r.value < 0 ==> TrimStart(s)[0] == '-'
  {
    ParseSigned(TrimStart(s))
  }

  /** `parseInt` once the leading white space is gone. */
  function ParseSigned(t: string): (r: Option<int>)
    ensures r.Some? <==> AfterSign(t) != [] && IsDigit(AfterSign(t)[0])
    ensures r.Some? && r.value < 0 ==> t[0] == '-'
  {
    var negative := t != [] && t[0] == '-';
    var ds := LeadingDigits(AfterSign(t));
    if ds == [] then None
    else if negative then Some(-(DigitsValue(ds) as int))
    else Some(DigitsValue(ds))
  }

  /** What follows the one optional sign. */
  function AfterSign(t: string): (u: string)
    ensures u == t || (t != [] && (t[0] == '-' || t[0] == '+') && u == t[1..])
  {
    if t != [] && (t[0] == '-' || t[0] == '+') then t[1..] else t
  }

  /** The decimal numeral of a natural number, without leading zeros. */
  function NatToString(n: nat): (r: string)
    ensures r != [] && AllDigits(r)
    decreases n
  {
    if n < 10 then [Digit(n)] else NatToString(n / 10) + [Digit(n % 10)]
  }

  function Digit(d: nat): (c: char)
    requires d < 10
    ensures IsDigit(c) && c as int - '0' as int == d
  {
    ['0', '1', '2', '3', '4', '5', '6', '7', '8', '9'][d]
  }

  /** The decimal numeral of an integer, as `String(n)` writes it. */
  function IntToString(n: int): (r: string)
  {
    if n < 0 then "-" + NatToString(-n) else NatToString(n)
  }

  lemma {:induction false} DigitsValueOfNatToString(n: nat)
    ensures DigitsValue(NatToString(n)) == n
    decreases n
  {
    if n >= 10 {
      var s := NatToString(n);
      assert s[..|s| - 1] == NatToString(n / 10);
      DigitsValueOfNatToString(n / 10);
    }
  }

  lemma {:induction false} LeadingDigitsOf(ds: string, rest: string)
    requires AllDigits(ds)
    requires rest == [] || !IsDigit(rest[0])
    ensures LeadingDigits(ds + rest) == ds
  {
    if ds != [] {
      assert (ds + rest)[1..] == ds[1..] + rest;
      LeadingDigitsOf(ds[1..], rest);
    }
  }

  /** Round trip: `parseInt` reads back the numeral of any integer, whatever
      white space precedes it and whatever non-digit text follows it
      (`parseInt("2abc", 10)` is 2). */
  lemma {:induction false} ParseIntOfNumeral(ws: string, n: int, rest: string)
    requires forall k :: 0 <= k < |ws| ==> IsWhiteSpace(ws[k])
    requires rest == [] || !IsDigit(rest[0])
    ensures ParseInt(ws + (IntToString(n) + rest)) == Some(n)
  {
    var t := IntToString(n) + rest;
    NumeralStart(n, rest);
    ParseSignedNumeral(t, n, rest);
    ParseIntSkipsWhiteSpace(ws, t);
  }

  /** A numeral starts with a digit or a minus sign, neither of which is
      white space. */
  lemma NumeralStart(n: int, rest: string)
    ensures var t := IntToString(n) + rest; t != [] && !IsWhiteSpace(t[0])
  {
    var t := IntToString(n) + rest;
    assert t[0] == IntToString(n)[0];
    assert IsDigit(t[0]) || t[0] == '-';
    PrintableNotWhiteSpace(t[0]);
  }

  /** `parseInt` skips the white space in front of the number. */
  lemma ParseIntSkipsWhiteSpace(ws: string, t: string)
    requires forall k :: 0 <= k < |ws| ==> IsWhiteSpace(ws[k])
    requires t == [] || !IsWhiteSpace(t[0])
    ensures ParseInt(ws + t) == ParseSigned(t)
  {
    TrimStartSkips(ws, t);
  }

  /** With the white space gone, the sign and the digits are read back. */
  lemma {:induction false} ParseSignedNumeral(t: string, n: int, rest: string)
    requires rest == [] || !IsDigit(rest[0])
    requires t == IntToString(n) + rest
    ensures ParseSigned(t) == Some(n)
  {
    var m: nat := if n < 0 then -n else n;
    var ds := NatToString(m);
    assert DigitsValue(ds) == m by {
      DigitsValueOfNatToString(m);
    }
    if n < 0 {
      assert ParseSigned(t) == Some(-(DigitsValue(ds) as int)) by {
        ParseSignedNegative(t, ds, rest);
      }
    } else {
      assert ParseSigned(t) == Some(DigitsValue(ds)) by {
        ParseSignedDigits(t, ds, rest);
      }
    }
  }

  lemma {:induction false} ParseSignedDigits(t: string, ds: string, rest: string)
    requires ds != [] && AllDigits(ds)
    requires rest == [] || !IsDigit(rest[0])
    requires t == ds + rest
    ensures ParseSigned(t) == Some(DigitsValue(ds))
  {
    assert t[0] == ds[0];
    LeadingDigitsOf(ds, rest);
  }

  lemma {:induction false} ParseSignedNegative(t: string, ds: string, rest: string)
    requires ds != [] && AllDigits(ds)
    requires rest == [] || !IsDigit(rest[0])
    requires t == "-" + ds + rest
    ensures ParseSigned(t) == Some(-(DigitsValue(ds) as int))
  {
    assert t[0] == '-';
    assert t[1..] == ds + rest;
    LeadingDigitsOf(ds, rest);
  }

  lemma {:induction false} TrimStartSkips(ws: string, s: string)
    requires forall k :: 0 <= k < |ws| ==> IsWhiteSpace(ws[k])
    requires s == [] || !IsWhiteSpace(s[0])
    ensures TrimStart(ws + s) == s
  {
    if ws == [] {
      assert ws + s == s;
    } else {
      assert (ws + s)[1..] == ws[1..] + s;
      TrimStartSkips(ws[1..], s);
    }
  }

  /** `parseInt` is `NaN` for an answer with no digit at all. */
  lemma {:induction false} ParseIntWithoutDigits(s: string)
    requires forall k :: 0 <= k < |s| ==> !IsDigit(s[k])
    ensures ParseInt(s) == None
  {
    var u := AfterSign(TrimStart(s));
    assert u == [] || u[0] in s;
  }

  // ---------------------------------------------------------------------
  // UTF-16 length, repeat, padEnd, join, split
  // ---------------------------------------------------------------------

  /** Code units of one code point: two (a surrogate pair) above U+FFFF. */
  function CodeUnits(c: char): (n: nat)
    ensures 1 <= n <= 2
  {
    if c as int > 0xFFFF then 2 else 1
  }

  /** `s.length` in JavaScript: the number of UTF-16 code units, at least one
      and at most two per code point. */
  function Utf16Length(s: string): (n: nat)
    ensures |s| <= n <= 2 * |s|
  {
    if s == [] then 0 else CodeUnits(s[0]) + Utf16Length(s[1..])
  }

  lemma {:induction false} Utf16LengthAppend(a: string, b: string)
    ensures Utf16Length(a + b) == Utf16Length(a) + Utf16Length(b)
  {
    if a == [] {
      assert a + b == b;
    } else {
      assert (a + b)[1..] == a[1..] + b;
      Utf16LengthAppend(a[1..], b);
    }
  }

  /** `String(c).repeat(n)`. */
  function Repeat(c: char, n: nat): (r: string)
    ensures |r| == n && forall i :: 0 <= i < n ==> r[i] == c
  {
    if n == 0 then [] else [c] + Repeat(c, n - 1)
  }

  lemma {:induction false} Utf16LengthRepeat(c: char, n: nat)
    requires c as int <= 0xFFFF
    ensures Utf16Length(Repeat(c, n)) == n
  {
    if n > 0 {
      assert Repeat(c, n)[1..] == Repeat(c, n - 1);
      Utf16LengthRepeat(c, n - 1);
    }
  }

  /** `s.padEnd(width)` (ECMA-262, `String.prototype.padEnd`) with the default filler
      " ": never shortens `s`, keeps it as a prefix, appends only spaces, and
      makes it exactly `width` code units long when it was shorter. */
  function PadEnd(s: string, width: nat): (r: string)
    ensures s <= r
    ensures forall i :: |s| <= i < |r| ==> r[i] == ' '
    ensures Utf16Length(r) == if Utf16Length(s) < width then width else Utf16Length(s)
  {
    if width <= Utf16Length(s) then s
    else
      var fill := Repeat(' ', width - Utf16Length(s));
      Utf16LengthAppend(s, fill);
      Utf16LengthRepeat(' ', width - Utf16Length(s));
      s + fill
  }

  /** `xs.join(sep)`: the elements in order with `sep` between neighbours. */
  function Join(sep: string, xs: seq<string>): (r: string)
    ensures xs == [] ==> r == ""
    ensures xs != [] ==> xs[0] <= r
    ensures |xs| == 1 ==> r == xs[0]
  {
    if xs == [] then ""
    else if |xs| == 1 then xs[0]
    else xs[0] + sep + Join(sep, xs[1..])
  }

  /** Joining splits at any inner position into the two joins around one separator. */
  lemma {:induction false} JoinSplit(sep: string, xs: seq<string>, k: nat)
    requires 0 < k < |xs|
    ensures Join(sep, xs) == Join(sep, xs[..k]) + sep + Join(sep, xs[k..])
  {
    if k > 1 {
      JoinSplit(sep, xs[1..], k - 1);
      assert xs[1..][..k - 1] == xs[..k][1..];
      assert xs[1..][k - 1..] == xs[k..];
    } else {
      assert xs[..k] == [xs[0]];
    }
  }

  /** Joining `n` strings of `w` code units each gives `n * w` units plus one
      separator between every two of them. */
  lemma {:induction false} JoinWidth(sep: string, xs: seq<string>, w: nat)
    requires xs != []
    requires forall i :: 0 <= i < |xs| ==> Utf16Length(xs[i]) == w
    ensures Utf16Length(Join(sep, xs)) == |xs| * w + (|xs| - 1) * Utf16Length(sep)
  {
    var n, u := |xs|, Utf16Length(sep);
    if n > 1 {
      var tail := Join(sep, xs[1..]);
      assert forall i :: 0 <= i < n - 1 ==> Utf16Length(xs[1..][i]) == w by {
        forall i | 0 <= i < n - 1 ensures Utf16Length(xs[1..][i]) == w {
          assert xs[1..][i] == xs[i + 1];
        }
      }
      JoinWidth(sep, xs[1..], w);
      assert Utf16Length(tail) == (n - 1) * w + (n - 2) * u;
      Utf16LengthAppend(xs[0], sep);
      Utf16LengthAppend(xs[0] + sep, tail);
      assert Join(sep, xs) == xs[0] + sep + tail;
      assert Utf16Length(Join(sep, xs)) == w + u + Utf16Length(tail);
      MulPred(n, w);
      MulPred(n - 1, u);
    }
  }

  lemma MulPred(n: int, w: int)
    ensures (n - 1) * w + w == n * w
  {
  }

  /** `s.split(sep)[0]` for a one-character separator: the part of `s` before
      the first `sep`, or all of `s` when `sep` does not occur. */
  function BeforeFirst(s: string, sep: char): (r: string)
    ensures r <= s && sep !in r
    ensures |r| == |s| || s[|r|] == sep
  {
    if s == [] || s[0] == sep then [] else [s[0]] + BeforeFirst(s[1..], sep)
  }

  /** `split` is undone by joining with the separator: the text before the
      first `sep` of `a + [sep] + b` is `a` when `a` holds no `sep`. */
  lemma {:induction false} BeforeFirstOfJoined(a: string, sep: char, b: string)
    requires sep !in a
    ensures BeforeFirst(a + [sep] + b, sep) == a
  {
    if a != [] {
      assert (a + [sep] + b)[1..] == a[1..] + [sep] + b;
      BeforeFirstOfJoined(a[1..], sep, b);
    }
  }
}
