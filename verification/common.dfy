/** Values and JavaScript built-ins that several parts of the quiz application share:
    optional values, HTTP-style responses, truthiness, rounding, string splitting,
    integer parsing and formatting, string ordering and the twelve month names. */
module Common {

  datatype Option<+T> = None | Some(value: T) {
    function GetOr(default: T): T {
      if Some? then value else default
    }
  }

  /** The outcome of a request handler: a success status with its body, or an
      error status with its message. */
  datatype Response<+T> = Ok(status: nat, body: T) | Err(status: nat, message: string)

  /** Document ids. The database allocates them; the model allocates them from a counter. */
  type Id = nat

  /** JavaScript truthiness of a field that may be absent: undefined, null and "" are falsy. */
  predicate Truthy(s: Option<string>) {
    s.Some? && s.value != ""
  }

  /** The filter condition `{ path: cond }` on a document whose path holds `value`.
      Mongoose drops a condition whose value is undefined (None), so it then holds for
      every document. */
  predicate Holds<T(==)>(cond: Option<T>, value: T) {
    cond.None? || cond.value == value
  }

  /** `Math.round(p / q)` for a positive denominator: the nearest integer, halves rounded up. */
  function Round(p: int, q: int): (r: int)
    requires q > 0
    ensures q * (2 * r - 1) <= 2 * p < q * (2 * r + 1)
  {
    var r := (2 * p + q) / (2 * q);
    assert 2 * q * r <= 2 * p + q < 2 * q * r + 2 * q;
    r
  }

  /** The bounds in Round's contract pin the result down: at most one integer satisfies them. */
  lemma RoundUnique(p: int, q: int, r: int)
    requires q > 0
    requires q * (2 * r - 1) <= 2 * p < q * (2 * r + 1)
    ensures Round(p, q) == r
  {
    var x := Round(p, q);
    if x > r {
      MulMonotone(q, 2 * r + 1, 2 * x - 1);
    }
    if x < r {
      MulMonotone(q, 2 * x + 1, 2 * r - 1);
    }
  }

  lemma MulMonotone(a: int, b: int, c: int)
    requires a >= 0 && b <= c
    ensures a * b <= a * c
  {
    assert a * c - a * b == a * (c - b);
  }

  /** A share `c` of `n`, as a rounded percentage, lies in 0..100. */
  lemma RoundedPercentInRange(c: int, n: int)
    requires 0 <= c <= n && n > 0
    ensures 0 <= Round(100 * c, n) <= 100
  {
    var r := Round(100 * c, n);
    if r < 0 {
      MulMonotone(n, 2 * r + 1, -1);
    }
    if r > 100 {
      MulMonotone(n, 201, 2 * r - 1);
      MulMonotone(200, c, n);
    }
  }

  // ---------------------------------------------------------------------------
  // Characters and case

  function ToLowerChar(c: char): char {
    if 'A' <= c <= 'Z' then (c as int + 32) as char else c
  }

  /** `String.prototype.toLowerCase` on the ASCII letters. */
  function ToLower(s: string): (r: string)
    ensures |r| == |s|
    ensures forall i :: 0 <= i < |s| ==> r[i] == ToLowerChar(s[i])
  {
    if s == [] then [] else [ToLowerChar(s[0])] + ToLower(s[1..])
  }

  /** The characters `trim` and `parseInt` skip: JavaScript's white space (tab, vertical
      tab, form feed, space, no-break space, the byte order mark and the other space
      separators of Unicode category Zs) and its four line terminators. */
  predicate IsWhitespace(c: char) {
    || c == '\t' || c == '\n' || c == '\U{000B}' || c == '\U{000C}' || c == '\r' || c == ' '
    || c == '\U{00A0}' || c == '\U{1680}' || '\U{2000}' <= c <= '\U{200A}'
    || c == '\U{2028}' || c == '\U{2029}' || c == '\U{202F}' || c == '\U{205F}'
    || c == '\U{3000}' || c == '\U{FEFF}'
  }

  function TrimStart(s: string): (r: string)
    ensures |r| <= |s| && r == s[|s| - |r|..]
    ensures r != [] ==> !IsWhitespace(r[0])
    ensures forall i :: 0 <= i < |s| - |r| ==> IsWhitespace(s[i])
  {
    if s != [] && IsWhitespace(s[0]) then TrimStart(s[1..]) else s
  }

  function TrimEnd(s: string): (r: string)
    ensures |r| <= |s| && r == s[..|r|]
    ensures r != [] ==> !IsWhitespace(r[|r| - 1])
    ensures forall i :: |r| <= i < |s| ==> IsWhitespace(s[i])
  {
    if s != [] && IsWhitespace(s[|s| - 1]) then TrimEnd(s[..|s| - 1]) else s
  }

  /** `r` appears in `s` starting at position `i`. */
  predicate OccursAt(r: string, s: string, i: int) {
    0 <= i <= |s| - |r| && r == s[i..i + |r|]
  }

  /** `String.prototype.trim`: the string without leading and trailing whitespace. */
  function Trim(s: string): (r: string)
    ensures r != [] ==> !IsWhitespace(r[0]) && !IsWhitespace(r[|r| - 1])
    ensures exists i :: OccursAt(r, s, i)
    ensures (forall i :: 0 <= i < |s| ==> IsWhitespace(s[i])) <==> r == []
  {
    var t := TrimStart(s);
    var r := TrimEnd(t);
    TrimOccurs(s, t, r);
    TrimAllWhitespace(s, t, r);
    assert OccursAt(r, s, |s| - |t|);
    r
  }

  /** A non-empty string with no whitespace at either end: what a schema's `trim` followed
      by `required` leaves. */
  predicate Trimmed(s: string) {
    s != [] && !IsWhitespace(s[0]) && !IsWhitespace(s[|s| - 1])
  }

  /** A string with no whitespace at either end is its own trimmed form. */
  lemma TrimTrimmed(r: string)
    requires r != [] ==> !IsWhitespace(r[0]) && !IsWhitespace(r[|r| - 1])
    ensures Trim(r) == r
  {
    assert TrimStart(r) == r;
  }

  /** A prefix of a suffix of `s` occurs in `s` where the suffix starts. */
  lemma TrimOccurs(s: string, t: string, r: string)
    requires |t| <= |s| && t == s[|s| - |t|..]
    requires |r| <= |t| && r == t[..|r|]
    ensures OccursAt(r, s, |s| - |t|)
  {
    var k := |s| - |t|;
    assert r == s[k..k + |r|];
  }

  lemma TrimAllWhitespace(s: string, t: string, r: string)
    requires t == TrimStart(s) && r == TrimEnd(t)
    ensures r != [] ==> !IsWhitespace(r[0]) && !IsWhitespace(r[|r| - 1])
    ensures (forall i :: 0 <= i < |s| ==> IsWhitespace(s[i])) <==> r == []
  {
    var k := |s| - |t|;
    if r == [] {
      AllWhitespaceWhenEmpty(s, t, k);
    } else {
      assert s[k] == t[0] == r[0];
    }
  }

  lemma AllWhitespaceWhenEmpty(s: string, t: string, k: nat)
    requires t == TrimStart(s) && TrimEnd(t) == [] && k == |s| - |t|
    ensures forall i :: 0 <= i < |s| ==> IsWhitespace(s[i])
  {
    assert forall i :: 0 <= i < |t| ==> IsWhitespace(t[i]);
    assert forall i :: k <= i < |s| ==> s[i] == t[i - k];
  }

  // ---------------------------------------------------------------------------
  // Splitting

  /** `s.split(sep)[0]`: the part of `s` before the first `sep`, or all of `s`. */
  function SplitFirst(s: string, sep: char): (r: string)
    ensures |r| <= |s| && r == s[..|r|]
    ensures sep !in r
    ensures |r| < |s| ==> s[|r|] == sep
  {
    if s == [] || s[0] == sep then [] else [s[0]] + SplitFirst(s[1..], sep)
  }

  /** `s.split(sep)[1]`: the part between the first and the second `sep`, or
      undefined when `s` holds no `sep`. */
  function SplitSecond(s: string, sep: char): (r: Option<string>)
    ensures r.None? <==> sep !in s
    ensures r.Some? ==> sep !in r.value && |SplitFirst(s, sep)| + 1 + |r.value| <= |s|
    ensures r.Some? ==> s[..|SplitFirst(s, sep)| + 1 + |r.value|] == SplitFirst(s, sep) + [sep] + r.value
  {
    var head := SplitFirst(s, sep);
    if |head| == |s| then
      assert s == head;
      None
    else
      var rest := s[|head| + 1..];
      var r := SplitFirst(rest, sep);
      assert s[..|head| + 1 + |r|] == s[..|head| + 1] + rest[..|r|];
      assert s[..|head| + 1] == head + [sep];
      Some(r)
  }

  /** Splitting a joined pair at a separator absent from both halves gives the halves back. */
  lemma {:induction false} SplitFirstJoined(a: string, sep: char, b: string)
    requires sep !in a
    ensures SplitFirst(a + [sep] + b, sep) == a
  {
    if a != [] {
      assert (a + [sep] + b)[1..] == a[1..] + [sep] + b;
      SplitFirstJoined(a[1..], sep, b);
    }
  }

  lemma SplitSecondJoined(a: string, sep: char, b: string)
    requires sep !in a && sep !in b
    ensures SplitSecond(a + [sep] + b, sep) == Some(b)
  {
    var s := a + [sep] + b;
    SplitFirstJoined(a, sep, b);
    assert s[|a| + 1..] == b;
    assert SplitFirst(b, sep) == b;
  }

  /** `s.split(sep).pop()`: the part of `s` after the last `sep`, or all of `s`. */
  function LastSegment(s: string, sep: char): (r: string)
    ensures |r| <= |s| && r == s[|s| - |r|..]
    ensures sep !in r
    ensures |r| < |s| ==> s[|s| - |r| - 1] == sep
  {
    if s == [] || s[|s| - 1] == sep then []
    else
      var init := s[..|s| - 1];
      var rest := LastSegment(init, sep);
      var r := rest + [s[|s| - 1]];
      assert s[|s| - |r|..] == init[|init| - |rest|..] + [s[|s| - 1]];
      assert |r| < |s| ==> s[|s| - |r| - 1] == init[|init| - |rest| - 1];
      r
  }

  // ---------------------------------------------------------------------------
  // Decimal numbers

  predicate IsDigit(c: char) {
    '0' <= c <= '9'
  }

  predicate AllDigits(s: string) {
    forall i :: 0 <= i < |s| ==> IsDigit(s[i])
  }

  function Digit(d: nat): (c: char)
    requires d < 10
    ensures IsDigit(c)
  {
    (48 + d) as char
  }

  /** The value of a string of decimal digits. */
  function DigitsValue(s: string): nat
    requires AllDigits(s)
  {
    if s == [] then 0 else DigitsValue(s[..|s| - 1]) * 10 + (s[|s| - 1] as int - 48)
  }

  /** The longest prefix of `s` made of decimal digits. */
  function LeadingDigits(s: string): (r: string)
    ensures |r| <= |s| && r == s[..|r|] && AllDigits(r)
    ensures |r| < |s| ==> !IsDigit(s[|r|])
  {
    if s == [] || !IsDigit(s[0]) then [] else [s[0]] + LeadingDigits(s[1..])
  }

  /** `String(n)` for a natural number. */
  function NatToString(n: nat): (s: string)
    ensures s != [] && AllDigits(s)
    ensures DigitsValue(s) == n
    ensures s[0] == '0' ==> s == "0"
  {
    if n < 10 then [Digit(n)]
    else
      var s := NatToString(n / 10) + [Digit(n % 10)];
      assert s[..|s| - 1] == NatToString(n / 10);
      s
  }

  /** `String(n)` / a template literal `${n}` for an integer. */
  function IntToString(n: int): (s: string)
    ensures s != []
    ensures forall i :: 0 <= i < |s| ==> s[i] == '-' || IsDigit(s[i])
  {
    if n < 0 then "-" + NatToString(-n) else NatToString(n)
  }

  function TrimLeadingWhitespace(s: string): (r: string)
    ensures |r| <= |s| && r == s[|s| - |r|..]
    ensures r != [] ==> !IsWhitespace(r[0])
  {
    if s != [] && IsWhitespace(s[0]) then TrimLeadingWhitespace(s[1..]) else s
  }

  predicate IsHexDigit(c: char) {
    IsDigit(c) || 'a' <= c <= 'f' || 'A' <= c <= 'F'
  }

  predicate AllHexDigits(s: string) {
    forall i :: 0 <= i < |s| ==> IsHexDigit(s[i])
  }

  function HexDigitValue(c: char): (d: nat)
    requires IsHexDigit(c)
    ensures d < 16
  {
    if IsDigit(c) then c as int - 48 else if 'a' <= c <= 'f' then c as int - 87 else c as int - 55
  }

  /** The value of a string of hexadecimal digits. */
  function HexValue(s: string): nat
    requires AllHexDigits(s)
  {
    if s == [] then 0 else HexValue(s[..|s| - 1]) * 16 + HexDigitValue(s[|s| - 1])
  }

  /** The longest prefix of `s` made of hexadecimal digits. */
  function LeadingHexDigits(s: string): (r: string)
    ensures |r| <= |s| && r == s[..|r|] && AllHexDigits(r)
    ensures |r| < |s| ==> !IsHexDigit(s[|r|])
  {
    if s == [] || !IsHexDigit(s[0]) then [] else [s[0]] + LeadingHexDigits(s[1..])
  }

  /** What `parseInt` reads its digits from: `s` after leading white space and a sign. */
  function Unsigned(s: string): string {
    var t := TrimLeadingWhitespace(s);
    if t != [] && (t[0] == '-' || t[0] == '+') then t[1..] else t
  }

  /** The sign `parseInt` reads is a minus. */
  predicate Negative(s: string) {
    var t := TrimLeadingWhitespace(s);
    t != [] && t[0] == '-'
  }

  /** Without a radix, `parseInt` reads text starting `0x` or `0X` in base 16. */
  predicate HasHexPrefix(u: string) {
    |u| >= 2 && u[0] == '0' && (u[1] == 'x' || u[1] == 'X')
  }

  /** The magnitude `parseInt` reads from text after the sign: `0x`/`0X` and the longest
      run of hexadecimal digits, or else the longest run of decimal digits; None when that
      run is empty. */
  function ParseUnsigned(u: string): (r: Option<nat>)
    ensures r.Some? <==>
      if HasHexPrefix(u) then |u| > 2 && IsHexDigit(u[2]) else u != [] && IsDigit(u[0])
  {
    if HasHexPrefix(u) then
      var digits := LeadingHexDigits(u[2..]);
      if digits == [] then None else Some(HexValue(digits))
    else
      var digits := LeadingDigits(u);
      if digits == [] then None else Some(DigitsValue(digits))
  }

  /** `parseInt(s)` without a radix: leading white space, an optional sign, then the
      magnitude. None stands for NaN. */
  function ParseInt(s: string): (r: Option<int>)
    ensures r.Some? <==> ParseUnsigned(Unsigned(s)).Some?
    ensures r.Some? ==> r.value == if Negative(s) then -(ParseUnsigned(Unsigned(s)).value as int)
                                   else ParseUnsigned(Unsigned(s)).value
  {
    var m := ParseUnsigned(Unsigned(s));
    if m.None? then None else Some(if Negative(s) then -(m.value as int) else m.value)
  }

  /** Optional query-string values: `parseInt(undefined)` is NaN. */
  function ParseOptionalInt(s: Option<string>): Option<int> {
    if s.Some? then ParseInt(s.value) else None
  }

  lemma {:induction false} LeadingDigitsOfDigits(s: string)
    requires AllDigits(s)
    ensures LeadingDigits(s) == s
  {
    if s != [] {
      LeadingDigitsOfDigits(s[1..]);
    }
  }

  /** A non-empty run of digits, after an optional minus sign, parses to its value. */
  lemma ParseDigits(s: string, digits: string, negative: bool)
    requires digits != [] && AllDigits(digits)
    requires s == if negative then "-" + digits else digits
    ensures ParseInt(s) == Some(if negative then -(DigitsValue(digits) as int) else DigitsValue(digits))
  {
    SignedUnsigned(s, digits, negative);
    ParseUnsignedDecimal(digits);
  }

  lemma ParseUnsignedDecimal(digits: string)
    requires digits != [] && AllDigits(digits)
    ensures ParseUnsigned(digits) == Some(DigitsValue(digits))
  {
    assert !HasHexPrefix(digits) by {
      if |digits| >= 2 {
        assert IsDigit(digits[1]);
      }
    }
    LeadingDigitsOfDigits(digits);
  }

  /** `0x` followed by hexadecimal digits, after an optional minus sign, parses to their
      value in base 16. */
  lemma ParseHexDigits(s: string, digits: string, negative: bool)
    requires digits != [] && AllHexDigits(digits)
    requires s == (if negative then "-" else "") + "0x" + digits
    ensures ParseInt(s) == Some(if negative then -(HexValue(digits) as int) else HexValue(digits))
  {
    var sign: string := if negative then "-" else "";
    assert s == sign + ("0x" + digits);
    SignedUnsigned(s, "0x" + digits, negative);
    ParseUnsignedHex(digits);
  }

  lemma ParseUnsignedHex(digits: string)
    requires digits != [] && AllHexDigits(digits)
    ensures ParseUnsigned("0x" + digits) == Some(HexValue(digits))
  {
    var u := "0x" + digits;
    assert HasHexPrefix(u);
    assert u[2..] == digits;
    LeadingHexDigitsOfHexDigits(digits);
  }

  /** Text that starts with a digit, after an optional minus sign. */
  lemma SignedUnsigned(s: string, u: string, negative: bool)
    requires u != [] && IsDigit(u[0])
    requires s == (if negative then "-" else "") + u
    ensures Unsigned(s) == u && Negative(s) == negative
  {
    var c := s[0];
    assert c == (if negative then '-' else u[0]);
    assert !IsWhitespace(c) by {
      assert c == '-' || '0' <= c <= '9';
    }
    if negative {
      assert s[1..] == u;
    }
  }

  lemma {:induction false} LeadingHexDigitsOfHexDigits(s: string)
    requires AllHexDigits(s)
    ensures LeadingHexDigits(s) == s
  {
    if s != [] {
      LeadingHexDigitsOfHexDigits(s[1..]);
    }
  }

  /** A year written in hexadecimal reads as that year. */
  lemma ParseIntHexYear()
    ensures ParseInt("0x7E9") == Some(2025)
  {
    ParseHexDigits("0x7E9", "7E9", false);
    HexValueOfYear();
  }

  lemma HexValueOfYear()
    ensures AllHexDigits("7E9") && HexValue("7E9") == 2025
  {
    assert "7E9"[..2] == "7E" && "7E"[..1] == "7" && "7"[..0] == "";
  }

  /** A bare prefix reads as NaN. */
  lemma ParseIntBarePrefix()
    ensures ParseInt("0x") == None
  {
    SignedUnsigned("0x", "0x", false);
  }

  /** Formatting an integer and parsing it back yields the integer. */
  lemma ParseIntToString(n: int)
    ensures ParseInt(IntToString(n)) == Some(n)
  {
    var digits := NatToString(if n < 0 then -n else n);
    ParseDigits(IntToString(n), digits, n < 0);
  }

  // ---------------------------------------------------------------------------
  // String order

  /** Lexicographic order on strings, by character code: the order of JavaScript's
      string comparison and of MongoDB's default sort on ASCII text. */
  predicate LexLe(a: string, b: string) {
    a == [] || (b != [] && (a[0] < b[0] || (a[0] == b[0] && LexLe(a[1..], b[1..]))))
  }

  lemma {:induction false} LexLeTotal(a: string, b: string)
    ensures LexLe(a, b) || LexLe(b, a)
  {
    if a != [] && b != [] && a[0] == b[0] {
      LexLeTotal(a[1..], b[1..]);
    }
  }

  lemma {:induction false} LexLeTransitive(a: string, b: string, c: string)
    requires LexLe(a, b) && LexLe(b, c)
    ensures LexLe(a, c)
  {
    if a != [] && b != [] && c != [] && a[0] == b[0] && b[0] == c[0] {
      LexLeTransitive(a[1..], b[1..], c[1..]);
    }
  }

  lemma {:induction false} LexLeAntisymmetric(a: string, b: string)
    requires LexLe(a, b) && LexLe(b, a)
    ensures a == b
  {
    if a != [] && b != [] {
      LexLeAntisymmetric(a[1..], b[1..]);
    }
  }

  // ---------------------------------------------------------------------------
  // Months

  const MonthNames: seq<string> := [
    "January", "February", "March", "April", "May", "June",
    "July", "August", "September", "October", "November", "December"
  ]

  /** The n-th month name, counting January as 1; None outside 1..12. */
  function MonthName(n: int): (r: Option<string>)
    ensures r.Some? <==> 1 <= n <= 12
    ensures r.Some? ==> r.value in MonthNames && r.value == MonthNames[n - 1]
  {
    if 1 <= n <= 12 then Some(MonthNames[n - 1]) else None
  }
}
