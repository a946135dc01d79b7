/** String primitives of the JavaScript runtime that the application relies on:
    `String.prototype.trim`, `split` on one character, `Array.prototype.join`,
    `parseInt` with no radix, `length` in UTF-16 code units, ASCII lower-casing,
    and the decimal rendering of integers used by template literals. */
module Text {
  import opened Wrappers

  // ---------------------------------------------------------------------------
  // White space
  // ---------------------------------------------------------------------------

  /** ECMAScript WhiteSpace and LineTerminator code points: what `trim`, the
      leading-space skip of `parseInt` and the regular-expression class `\s`
      all treat as space. */
  predicate IsSpace(c: char) {
    || c == '\t' || c == '\n' || c == '\U{000B}' || c == '\U{000C}' || c == '\r'
    || c == ' ' || c == '\U{00A0}' || c == '\U{1680}'
    || ('\U{2000}' <= c <= '\U{200A}')
    || c == '\U{2028}' || c == '\U{2029}' || c == '\U{202F}' || c == '\U{205F}'
    || c == '\U{3000}' || c == '\U{FEFF}'
  }

  predicate AllSpace(s: string) {
    forall i :: 0 <= i < |s| ==> IsSpace(s[i])
  }

  /** No white space at either end: the strings `trim` leaves unchanged. */
  predicate IsTrimmed(s: string) {
    s == [] || (!IsSpace(s[0]) && !IsSpace(s[|s| - 1]))
  }

  /** `trimStart`: the suffix left after dropping the leading white space. */
  function TrimStart(s: string): (r: string)
    ensures |r| <= |s| && r == s[|s| - |r|..]
    ensures r == [] || !IsSpace(r[0])
  {
    if |s| > 0 && IsSpace(s[0]) then
      var r := TrimStart(s[1..]);
      assert r == s[|s| - |r|..];
      r
    else s
  }

  /** `trimEnd`: the prefix left after dropping the trailing white space. */
  function TrimEnd(s: string): (r: string)
    ensures |r| <= |s| && r == s[..|r|]
    ensures r == [] || !IsSpace(r[|r| - 1])
  {
    if |s| > 0 && IsSpace(s[|s| - 1]) then
      var r := TrimEnd(s[..|s| - 1]);
      assert r == s[..|r|];
      r
    else s
  }

  lemma {:induction false} TrimStartRemovesSpace(s: string)
    ensures AllSpace(s[..|s| - |TrimStart(s)|])
  {
    if |s| > 0 && IsSpace(s[0]) {
      TrimStartRemovesSpace(s[1..]);
      var k := |s| - |TrimStart(s)|;
      assert forall i :: 0 < i < k ==> s[i] == s[1..][..k - 1][i - 1];
    }
  }

  lemma {:induction false} TrimEndRemovesSpace(s: string)
    ensures AllSpace(s[|TrimEnd(s)|..])
  {
    if |s| > 0 && IsSpace(s[|s| - 1]) {
      TrimEndRemovesSpace(s[..|s| - 1]);
      var r := TrimEnd(s);
      assert s[|r|..] == s[..|s| - 1][|r|..] + [s[|s| - 1]];
    }
  }

  /** The number of white-space characters in front of `s`. */
  function LeadingSpace(s: string): (k: nat)
    ensures k <= |s|
  {
    |s| - |TrimStart(s)|
  }

  /** `String.prototype.trim`: the longest infix with no white space at its
      ends, obtained by removing only white space (see `TrimRemovesSpace`). */
  function Trim(s: string): (r: string)
    ensures IsTrimmed(r)
    ensures LeadingSpace(s) + |r| <= |s|
    ensures r == s[LeadingSpace(s)..LeadingSpace(s) + |r|]
  {
    var t := TrimStart(s);
    var r := TrimEnd(t);
    var k := |s| - |t|;
    assert t == s[k..];
    assert r == t[..|r|];
    assert r == s[k..k + |r|];
    assert r == [] || r[0] == t[0];
    r
  }

  /** What `trim` removes is white space. */
  lemma TrimRemovesSpace(s: string)
    ensures AllSpace(s[..LeadingSpace(s)]) && AllSpace(s[LeadingSpace(s) + |Trim(s)|..])
  {
    var t := TrimStart(s);
    var r := TrimEnd(t);
    var k := |s| - |t|;
    TrimStartRemovesSpace(s);
    TrimEndRemovesSpace(t);
    assert t == s[k..];
    assert s[k + |r|..] == t[|r|..];
  }

  lemma {:induction false} TrimStartAfterSpace(pre: string, s: string)
    requires AllSpace(pre)
    ensures TrimStart(pre + s) == TrimStart(s)
  {
    if |pre| > 0 {
      assert (pre + s)[1..] == pre[1..] + s;
      TrimStartAfterSpace(pre[1..], s);
    } else {
      assert pre + s == s;
    }
  }

  lemma {:induction false} TrimStartOfTrimmed(s: string)
    requires s == [] || !IsSpace(s[0])
    ensures TrimStart(s) == s
  {
  }

  lemma {:induction false} TrimEndOfTrimmed(s: string)
    requires s == [] || !IsSpace(s[|s| - 1])
    ensures TrimEnd(s) == s
  {
  }

  /** `trim` is the identity on trimmed strings and ignores white space in front. */
  lemma TrimAfterSpace(pre: string, s: string)
    requires AllSpace(pre) && IsTrimmed(s)
    ensures Trim(pre + s) == s
  {
    TrimStartAfterSpace(pre, s);
    TrimStartOfTrimmed(s);
    TrimEndOfTrimmed(s);
  }

  // ---------------------------------------------------------------------------
  // split / join
  // ---------------------------------------------------------------------------

  function Occurrences(s: string, c: char): (n: nat)
    ensures n <= |s|
    ensures n == 0 <==> c !in s
  {
    if |s| == 0 then 0 else (if s[0] == c then 1 else 0) + Occurrences(s[1..], c)
  }

  /** `s.split(d)`: the pieces between occurrences of `d`, one more piece than
      there are delimiters; the empty string splits into one empty piece. */
  function Split(s: string, d: char): (parts: seq<string>)
    ensures |parts| == Occurrences(s, d) + 1
    ensures forall i :: 0 <= i < |parts| ==> d !in parts[i]
  {
    if |s| == 0 then [""]
    else
      var rest := Split(s[1..], d);
      if s[0] == d then [""] + rest
      else [[s[0]] + rest[0]] + rest[1..]
  }

  /** `xs.join(sep)`: the empty list joins to the empty string. */
  function Join(xs: seq<string>, sep: string): string
  {
    if |xs| == 0 then ""
    else if |xs| == 1 then xs[0]
    else xs[0] + sep + Join(xs[1..], sep)
  }

  lemma JoinCons(x: string, xs: seq<string>, sep: string)
    requires |xs| > 0
    ensures Join([x] + xs, sep) == x + sep + Join(xs, sep)
  {
    assert ([x] + xs)[1..] == xs;
  }

  /** Joining the pieces with the delimiter gives back the split string. */
  lemma {:induction false} JoinSplit(s: string, d: char)
    ensures Join(Split(s, d), [d]) == s
  {
    if |s| > 0 {
      var rest := Split(s[1..], d);
      JoinSplit(s[1..], d);
      if s[0] == d {
        JoinCons("", rest, [d]);
        assert s == [d] + s[1..];
      } else if |rest| == 1 {
        assert s == [s[0]] + s[1..];
      } else {
        JoinCons([s[0]] + rest[0], rest[1..], [d]);
        assert rest == [rest[0]] + rest[1..];
        JoinCons(rest[0], rest[1..], [d]);
        assert s == [s[0]] + s[1..];
      }
    }
  }

  lemma {:induction false} SplitWithoutDelimiter(s: string, d: char)
    requires d !in s
    ensures Split(s, d) == [s]
  {
    if |s| > 0 {
      SplitWithoutDelimiter(s[1..], d);
      assert [s[0]] + s[1..] == s;
    }
  }

  lemma {:induction false} SplitAtDelimiter(a: string, b: string, d: char)
    requires d !in a
    ensures Split(a + [d] + b, d) == [a] + Split(b, d)
  {
    if |a| == 0 {
      assert a + [d] + b == [d] + b;
      assert ([d] + b)[1..] == b;
    } else {
      assert (a + [d] + b)[1..] == a[1..] + [d] + b;
      SplitAtDelimiter(a[1..], b, d);
      assert [a[0]] + a[1..] == a;
    }
  }

  /** Splitting a join of delimiter-free pieces gives back the pieces. */
  lemma {:induction false} SplitJoin(xs: seq<string>, d: char)
    requires |xs| > 0
    requires forall i :: 0 <= i < |xs| ==> d !in xs[i]
    ensures Split(Join(xs, [d]), d) == xs
  {
    if |xs| == 1 {
      SplitWithoutDelimiter(xs[0], d);
    } else {
      SplitJoin(xs[1..], d);
      SplitAtDelimiter(xs[0], Join(xs[1..], [d]), d);
      assert [xs[0]] + xs[1..] == xs;
    }
  }

  // ---------------------------------------------------------------------------
  // length and case
  // ---------------------------------------------------------------------------

  /** `s.length`: JavaScript counts UTF-16 code units, so a code point above
      U+FFFF (a surrogate pair) counts twice. */
  function Utf16Length(s: string): (n: nat)
    ensures |s| <= n <= 2 * |s|
  {
    if |s| == 0 then 0 else (if s[0] as int > 0xFFFF then 2 else 1) + Utf16Length(s[1..])
  }

  function LowerChar(c: char): (r: char)
    ensures 'A' <= c <= 'Z' ==> r as int == c as int + 32
    ensures !('A' <= c <= 'Z') ==> r == c
  {
    if 'A' <= c <= 'Z' then (c as int + 32) as char else c
  }

  /** `toLowerCase` restricted to the ASCII letters. */
  function ToLower(s: string): (r: string)
    ensures |r| == |s|
    ensures forall i :: 0 <= i < |s| ==> r[i] == LowerChar(s[i])
  {
    if |s| == 0 then "" else [LowerChar(s[0])] + ToLower(s[1..])
  }

  /** Lower-casing is idempotent, so a stored lower-cased value is found again
      by lower-casing any spelling of it. */
  lemma ToLowerIdempotent(s: string)
    ensures ToLower(ToLower(s)) == ToLower(s)
  {
  }

  // ---------------------------------------------------------------------------
  // Digits, decimal rendering and parseInt
  // ---------------------------------------------------------------------------

  predicate IsDigit(c: char) {
    '0' <= c <= '9'
  }

  predicate AllDigits(s: string) {
    forall i :: 0 <= i < |s| ==> IsDigit(s[i])
  }

  /** The value of a digit in bases up to 16; 99 for any other character. */
  function DigitValue(c: char): (v: nat)
    ensures IsDigit(c) ==> v == c as int - '0' as int
    ensures v < 16 || v == 99
  {
    if '0' <= c <= '9' then c as int - '0' as int
    else if 'a' <= c <= 'f' then c as int - 'a' as int + 10
    else if 'A' <= c <= 'F' then c as int - 'A' as int + 10
    else 99
  }

  function DigitChar(d: nat): (c: char)
    requires d < 10
    ensures IsDigit(c) && DigitValue(c) == d
  {
    ('0' as int + d) as char
  }

  /** Every character of `s` is a digit of the given base. */
  predicate InBase(s: string, radix: nat) {
    forall i :: 0 <= i < |s| ==> DigitValue(s[i]) < radix
  }

  /** The value of a string of digits in the given base, most significant first. */
  function DigitsValue(s: string, radix: nat): nat
    requires InBase(s, radix)
  {
    if |s| == 0 then 0
    else
      var prefix := s[..|s| - 1];
      assert forall i :: 0 <= i < |prefix| ==> prefix[i] == s[i];
      var high := DigitsValue(prefix, radix);
      NatProduct(high, radix);
      high * radix + DigitValue(s[|s| - 1])
  }

  lemma NatProduct(a: nat, b: nat)
    ensures a * b >= 0
  {
  }

  function Pow10(w: nat): (p: nat)
    ensures p >= 1
  {
    if w == 0 then 1 else 10 * Pow10(w - 1)
  }

  /** `n` in exactly `w` decimal digits, with leading zeros (as `padStart`). */
  function PadDigits(n: nat, w: nat): (s: string)
    ensures |s| == w && AllDigits(s)
  {
    if w == 0 then "" else PadDigits(n / 10, w - 1) + [DigitChar(n % 10)]
  }

  lemma {:induction false} PadDigitsValue(n: nat, w: nat)
    requires n < Pow10(w)
    ensures DigitsValue(PadDigits(n, w), 10) == n
  {
    if w > 0 {
      var s := PadDigits(n, w);
      assert s[..|s| - 1] == PadDigits(n / 10, w - 1);
      assert n / 10 < Pow10(w - 1);
      PadDigitsValue(n / 10, w - 1);
      assert DigitValue(s[|s| - 1]) == n % 10;
      assert DigitsValue(s, 10) == DigitsValue(PadDigits(n / 10, w - 1), 10) * 10 + n % 10;
    }
  }

  /** The number of decimal digits of `n` written without leading zeros. */
  function DecimalWidth(n: nat): (w: nat)
    ensures w >= 1
    ensures n < Pow10(w)
    ensures w > 1 ==> Pow10(w - 1) <= n
  {
    if n < 10 then 1 else 1 + DecimalWidth(n / 10)
  }

  /** How a template literal renders a non-negative integer. */
  function NatToString(n: nat): (s: string)
    ensures |s| >= 1 && AllDigits(s)
  {
    PadDigits(n, DecimalWidth(n))
  }

  lemma {:induction false} PadDigitsLeading(n: nat, w: nat)
    requires w >= 1 && Pow10(w - 1) <= n < Pow10(w)
    ensures PadDigits(n, w)[0] != '0'
  {
    if w > 1 {
      assert PadDigits(n, w)[0] == PadDigits(n / 10, w - 1)[0];
      PadDigitsLeading(n / 10, w - 1);
    }
  }

  /** Rendering then reading back a non-negative integer is the identity, and
      the rendering has no leading zero unless it is the single digit 0. */
  lemma NatToStringValue(n: nat)
    ensures DigitsValue(NatToString(n), 10) == n
    ensures |NatToString(n)| > 1 ==> NatToString(n)[0] != '0'
  {
    PadDigitsValue(n, DecimalWidth(n));
    if DecimalWidth(n) > 1 {
      PadDigitsLeading(n, DecimalWidth(n));
    }
  }

  /** How a template literal renders an integer. */
  function IntToString(n: int): (s: string)
    ensures |s| >= 1
    ensures n >= 0 ==> AllDigits(s)
    ensures n < 0 ==> s[0] == '-' && AllDigits(s[1..])
  {
    if n < 0 then "-" + NatToString(-n) else NatToString(n)
  }

  /** Length of the longest prefix of `s` made of digits of the given base. */
  function DigitRun(s: string, radix: nat): (n: nat)
    ensures n <= |s|
  {
    if |s| > 0 && DigitValue(s[0]) < radix then 1 + DigitRun(s[1..], radix) else 0
  }

  /** The run is the longest: every character in it is a digit of the base
      and the character after it, if any, is not. */
  lemma {:induction false} DigitRunIsLongest(s: string, radix: nat)
    ensures InBase(s[..DigitRun(s, radix)], radix)
    ensures DigitRun(s, radix) < |s| ==> DigitValue(s[DigitRun(s, radix)]) >= radix
  {
    var n := DigitRun(s, radix);
    if |s| > 0 && DigitValue(s[0]) < radix {
      var m := DigitRun(s[1..], radix);
      DigitRunIsLongest(s[1..], radix);
      assert s[..n] == [s[0]] + s[1..][..m];
      if n < |s| {
        assert s[n] == s[1..][m];
      }
    }
  }

  /** `parseInt(s)` without a radix, with `None` for `NaN`: leading white space
      is skipped, one sign is read, a `0x`/`0X` prefix selects base 16, and the
      longest run of digits that follows is the value. Trailing characters are
      ignored. */
  function ParseInt(s: string): Option<int>
  {
    var (radix, body) := ParseIntBody(s);
    ReadDigits(ParseIntNegative(s), radix, body)
  }

  /** The value of the longest run of digits at the start of `body`, negated
      when a minus sign was read; None when there is no digit at all. */
  function ReadDigits(negative: bool, radix: nat, body: string): Option<int> {
    var digits := LeadingDigits(body, radix);
    if |digits| == 0 then None
    else
      var v: int := DigitsValue(digits, radix);
      Some(if negative then -v else v)
  }

  /** The longest prefix of `body` made of digits of the given base. */
  function LeadingDigits(body: string, radix: nat): (digits: string)
    ensures InBase(digits, radix)
  {
    DigitRunIsLongest(body, radix);
    body[..DigitRun(body, radix)]
  }

  /** Whether `parseInt` reads a minus sign after the leading white space. */
  predicate ParseIntNegative(s: string) {
    var t := TrimStart(s);
    |t| > 0 && t[0] == '-'
  }

  /** The base `parseInt` selects and the text whose leading digits it reads. */
  function ParseIntBody(s: string): (nat, string) {
    var t := TrimStart(s);
    var u := if |t| > 0 && (t[0] == '-' || t[0] == '+') then t[1..] else t;
    if |u| >= 2 && u[0] == '0' && (u[1] == 'x' || u[1] == 'X') then (16, u[2..]) else (10, u)
  }

  lemma {:induction false} DigitRunAll(s: string)
    requires AllDigits(s)
    ensures DigitRun(s, 10) == |s|
  {
    if |s| > 0 {
      assert AllDigits(s[1..]) by {
        assert forall i :: 0 <= i < |s| - 1 ==> s[1..][i] == s[i + 1];
      }
      DigitRunAll(s[1..]);
    }
  }

  lemma ReadAllDigits(negative: bool, s: string)
    requires |s| > 0 && AllDigits(s)
    ensures ReadDigits(negative, 10, s) == Some(if negative then -(DigitsValue(s, 10) as int) else DigitsValue(s, 10))
  {
    DigitRunAll(s);
    assert LeadingDigits(s, 10) == s;
  }

  lemma ParseIntOfUnsigned(s: string)
    requires |s| > 0 && AllDigits(s)
    ensures ParseInt(s) == Some(DigitsValue(s, 10))
  {
    assert ParseIntBody(s) == (10, s) && !ParseIntNegative(s) by {
      TrimStartOfTrimmed(s);
    }
    ReadAllDigits(false, s);
  }

  lemma ParseIntOfNegated(s: string)
    requires |s| > 0 && AllDigits(s)
    ensures ParseInt("-" + s) == Some(-(DigitsValue(s, 10) as int))
  {
    var t := "-" + s;
    assert ParseIntBody(t) == (10, s) && ParseIntNegative(t) by {
      TrimStartOfTrimmed(t);
      assert t[1..] == s;
    }
    ReadAllDigits(true, s);
  }

  /** On a non-empty string of decimal digits `parseInt` is the decimal value,
      and a minus sign in front negates it. */
  lemma ParseIntOfDigits(s: string)
    requires |s| > 0 && AllDigits(s)
    ensures ParseInt(s) == Some(DigitsValue(s, 10))
    ensures ParseInt("-" + s) == Some(-(DigitsValue(s, 10) as int))
  {
    ParseIntOfUnsigned(s);
    ParseIntOfNegated(s);
  }

  /** `parseInt` reads back every integer a template literal renders. */
  lemma ParseIntOfIntToString(n: int)
    ensures ParseInt(IntToString(n)) == Some(n)
  {
    var m := if n < 0 then -n else n;
    NatToStringValue(m);
    ParseIntOfDigits(NatToString(m));
  }
}
