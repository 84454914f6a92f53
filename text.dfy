/** The JavaScript string operations the front end relies on, stated over
    `seq<char>`: `includes`, `startsWith`, `trim`, `toLowerCase`, the decimal
    rendering of a non-negative integer and `padStart`. */
module Text {

  /** `s.startsWith(p)`. */
  predicate StartsWith(s: string, p: string) {
    |p| <= |s| && s[..|p|] == p
  }

  /** `s.endsWith(p)`. */
  predicate EndsWith(s: string, p: string) {
    |p| <= |s| && s[|s| - |p|..] == p
  }

  /** `s.includes(t)`: some suffix of `s` starts with `t`. */
  predicate Contains(s: string, t: string)
    decreases |s|
  {
    StartsWith(s, t) || (|s| > 0 && Contains(s[1..], t))
  }

  /** `t` occurs in `s` at position `i`. */
  ghost predicate OccursAt(s: string, t: string, i: int) {
    0 <= i && i + |t| <= |s| && s[i..i + |t|] == t
  }

  /** `Contains` is the substring relation. */
  lemma {:induction false} ContainsIff(s: string, t: string)
    ensures Contains(s, t) <==> exists i :: OccursAt(s, t, i)
    decreases |s|
  {
    if Contains(s, t) {
      if StartsWith(s, t) {
        assert OccursAt(s, t, 0);
      } else {
        ContainsIff(s[1..], t);
        var i :| OccursAt(s[1..], t, i);
        assert s[i + 1..i + 1 + |t|] == s[1..][i..i + |t|];
        assert OccursAt(s, t, i + 1);
      }
    }
    forall i | OccursAt(s, t, i) ensures Contains(s, t) {
      if i == 0 {
        assert s[..|t|] == t;
      } else {
        assert s[1..][i - 1..i - 1 + |t|] == s[i..i + |t|];
        assert OccursAt(s[1..], t, i - 1);
        ContainsIff(s[1..], t);
      }
    }
  }

  /** A string none of whose characters starts `t` does not contain `t`. */
  lemma {:induction false} NotContainsFirst(s: string, t: string)
    requires |t| > 0 && t[0] !in s
    ensures !Contains(s, t)
    decreases |s|
  {
    if |s| > 0 {
      assert forall i :: 0 <= i < |s[1..]| ==> s[1..][i] == s[i + 1];
      NotContainsFirst(s[1..], t);
    }
  }

  /** An occurrence anywhere makes `Contains` true. */
  lemma ContainsAt(s: string, t: string, i: int)
    requires OccursAt(s, t, i)
    ensures Contains(s, t)
  {
    ContainsIff(s, t);
  }

  /** The characters `String.prototype.trim` removes: ECMAScript's
      WhiteSpace (TAB, VT, FF, SP, NBSP, ZWNBSP and the Zs category) and
      LineTerminator (LF, CR, LS, PS). */
  predicate IsWhitespace(c: char) {
    || c == '\t' || c == '\n' || c == '\U{000B}' || c == '\U{000C}' || c == '\r'
    || c == ' ' || c == '\U{00A0}' || c == '\U{1680}'
    || ('\U{2000}' <= c <= '\U{200A}')
    || c == '\U{2028}' || c == '\U{2029}' || c == '\U{202F}' || c == '\U{205F}'
    || c == '\U{3000}' || c == '\U{FEFF}'
  }

  /** The number of whitespace characters `s` starts with. */
  function LeadingSpace(s: string): (n: nat)
    ensures n <= |s|
    decreases |s|
  {
    if s != [] && IsWhitespace(s[0]) then 1 + LeadingSpace(s[1..]) else 0
  }

  /** The length of `s` without its trailing whitespace. */
  function Unpadded(s: string): (n: nat)
    ensures n <= |s|
    decreases |s|
  {
    if s != [] && IsWhitespace(s[|s| - 1]) then Unpadded(s[..|s| - 1]) else |s|
  }

  /** `LeadingSpace` counts exactly the leading run of whitespace. */
  lemma {:induction false} LeadingSpaceRun(s: string)
    ensures forall i :: 0 <= i < LeadingSpace(s) ==> IsWhitespace(s[i])
    ensures LeadingSpace(s) < |s| ==> !IsWhitespace(s[LeadingSpace(s)])
    decreases |s|
  {
    if s != [] && IsWhitespace(s[0]) {
      LeadingSpaceRun(s[1..]);
      forall i | 0 <= i < LeadingSpace(s) ensures IsWhitespace(s[i]) {
        if i > 0 {
          assert s[i] == s[1..][i - 1];
        }
      }
    }
  }

  /** `Unpadded` stops exactly before the trailing run of whitespace. */
  lemma {:induction false} UnpaddedRun(s: string)
    ensures forall i :: Unpadded(s) <= i < |s| ==> IsWhitespace(s[i])
    ensures Unpadded(s) > 0 ==> !IsWhitespace(s[Unpadded(s) - 1])
    decreases |s|
  {
    if s != [] && IsWhitespace(s[|s| - 1]) {
      UnpaddedRun(s[..|s| - 1]);
    }
  }

  /** `trimStart`: `s` without its leading whitespace. */
  function TrimStart(s: string): string {
    s[LeadingSpace(s)..]
  }

  /** `trimEnd`: `s` without its trailing whitespace. */
  function TrimEnd(s: string): string {
    s[..Unpadded(s)]
  }

  /** `s.trim()`. */
  function Trim(s: string): string {
    TrimEnd(TrimStart(s))
  }

  /** A string that neither starts with whitespace has no leading run; one
      that does not end with whitespace has no trailing run. */
  lemma NoSpaceAtEnds(s: string)
    ensures s == [] || !IsWhitespace(s[0]) ==> LeadingSpace(s) == 0
    ensures s == [] || !IsWhitespace(s[|s| - 1]) ==> Unpadded(s) == |s|
  {
  }

  /** Trimming removes exactly the whitespace at the two ends, so a trimmed
      string neither starts nor ends with whitespace and trimming it again
      changes nothing. */
  lemma TrimIdempotent(s: string)
    ensures var r := Trim(s);
      exists a: nat, b: nat :: a <= b <= |s| && r == s[a..b]
        && (forall i :: 0 <= i < a ==> IsWhitespace(s[i]))
        && (forall i :: b <= i < |s| ==> IsWhitespace(s[i]))
    ensures Trim(s) != [] ==> !IsWhitespace(Trim(s)[0]) && !IsWhitespace(Trim(s)[|Trim(s)| - 1])
    ensures Trim(Trim(s)) == Trim(s)
  {
    var a := LeadingSpace(s);
    var t := s[a..];
    var u := Unpadded(t);
    var r := t[..u];
    LeadingSpaceRun(s);
    UnpaddedRun(t);
    assert r == s[a..a + u];
    forall i | a + u <= i < |s| ensures IsWhitespace(s[i]) {
      assert s[i] == t[i - a];
    }
    if r != [] {
      assert r[0] == t[0];
    }
    NoSpaceAtEnds(r);
    assert TrimStart(r) == r;
  }

  /** `toLowerCase` on one character; only the ASCII capitals are mapped. */
  function LowerChar(c: char): char {
    if 'A' <= c <= 'Z' then (c as int + 32) as char else c
  }

  /** `s.toLowerCase()`, restricted to ASCII case mapping. */
  function ToLower(s: string): (r: string)
    ensures |r| == |s|
    ensures forall i :: 0 <= i < |s| ==> r[i] == LowerChar(s[i])
  {
    seq(|s|, i requires 0 <= i < |s| => LowerChar(s[i]))
  }

  /** Lower-casing never creates or removes a '.'. */
  lemma LowerCharDot(c: char)
    ensures LowerChar(c) == '.' <==> c == '.'
  {
  }

  /** Lower-cased text has no ASCII capital left, so lower-casing it again
      changes nothing; whitespace stays whitespace, so lower-casing neither
      adds nor removes what `trim` would cut. */
  lemma ToLowerIdempotent(s: string)
    ensures forall i :: 0 <= i < |s| ==> !('A' <= ToLower(s)[i] <= 'Z')
    ensures forall i :: 0 <= i < |s| ==> (IsWhitespace(ToLower(s)[i]) <==> IsWhitespace(s[i]))
    ensures ToLower(ToLower(s)) == ToLower(s)
  {
  }

  /** Lower-casing a string with no whitespace at its ends gives one that
      trimming leaves alone. */
  lemma TrimmedStaysTrimmed(s: string)
    requires s != [] ==> !IsWhitespace(s[0]) && !IsWhitespace(s[|s| - 1])
    ensures Trim(ToLower(s)) == ToLower(s)
  {
    var n := ToLower(s);
    if n != [] {
      assert n[0] == LowerChar(s[0]) && n[|n| - 1] == LowerChar(s[|s| - 1]);
    }
    NoSpaceAtEnds(n);
    assert TrimStart(n) == n;
  }

  function DigitChar(d: nat): char
    requires d < 10
  {
    ("0123456789")[d]
  }

  predicate IsDigit(c: char) {
    '0' <= c <= '9'
  }

  /** `String(n)` for a non-negative integer: its decimal digits with no
      leading zero. */
  function NatToString(n: nat): (r: string)
    ensures |r| >= 1
    decreases n
  {
    if n < 10 then [DigitChar(n)] else NatToString(n / 10) + [DigitChar(n % 10)]
  }

  /** The rendering is all digits, ends in the last digit of `n`, has no
      leading zero and has one digit exactly for numbers below ten. */
  lemma {:induction false} NatToStringDigits(n: nat)
    ensures var r := NatToString(n);
      && (forall i :: 0 <= i < |r| ==> IsDigit(r[i]))
      && r[|r| - 1] == DigitChar(n % 10)
      && (n >= 1 ==> r[0] != '0')
      && (n < 10 <==> |r| == 1)
    decreases n
  {
    if n >= 10 {
      NatToStringDigits(n / 10);
      var p := NatToString(n / 10);
      assert NatToString(n) == p + [DigitChar(n % 10)];
      assert NatToString(n)[0] == p[0];
    }
  }

  /** Distinct numbers have distinct decimal renderings. */
  lemma {:induction false} NatToStringInjective(a: nat, b: nat)
    requires NatToString(a) == NatToString(b)
    ensures a == b
    decreases a
  {
    var sa, sb := NatToString(a), NatToString(b);
    NatToStringDigits(a);
    NatToStringDigits(b);
    assert DigitChar(a % 10) == sa[|sa| - 1] == sb[|sb| - 1] == DigitChar(b % 10);
    assert a % 10 == b % 10;
    if a >= 10 {
      assert sa == NatToString(a / 10) + [DigitChar(a % 10)];
      assert sb == NatToString(b / 10) + [DigitChar(b % 10)];
      assert NatToString(a / 10) == sa[..|sa| - 1] == NatToString(b / 10);
      NatToStringInjective(a / 10, b / 10);
    }
  }

  /** `s.padStart(width, c)`: `c` repeated in front of `s` up to `width`. */
  function PadStart(s: string, width: nat, c: char): (r: string)
    ensures |r| == if |s| >= width then |s| else width
    ensures r[|r| - |s|..] == s
    ensures forall i :: 0 <= i < |r| - |s| ==> r[i] == c
  {
    if |s| >= width then s else seq(width - |s|, _ => c) + s
  }

  /** In a zero-padded positive number the padding is all '0' and the first
      digit after it is not. */
  lemma PaddedFirstDigit(s: string, width: nat)
    requires |s| >= 1 && s[0] != '0'
    ensures var p := PadStart(s, width, '0');
      && (forall i :: 0 <= i < |p| - |s| ==> p[i] == '0')
      && p[|p| - |s|] != '0'
  {
  }

  /** Zero-padding positive numbers to a fixed width keeps them apart. */
  lemma PadStartNatInjective(a: nat, b: nat, width: nat)
    requires a >= 1 && b >= 1
    requires PadStart(NatToString(a), width, '0') == PadStart(NatToString(b), width, '0')
    ensures a == b
  {
    var sa, sb := NatToString(a), NatToString(b);
    var p := PadStart(sa, width, '0');
    NatToStringDigits(a);
    NatToStringDigits(b);
    PaddedFirstDigit(sa, width);
    PaddedFirstDigit(sb, width);
    assert |sa| == |sb|;
    assert sa == p[|p| - |sa|..] == sb;
    NatToStringInjective(a, b);
  }

  /** The number of decimal digits `s` starts with. */
  function DigitRun(s: string): (n: nat)
    ensures n <= |s|
    ensures forall i :: 0 <= i < n ==> IsDigit(s[i])
    ensures n < |s| ==> !IsDigit(s[n])
    decreases |s|
  {
    if s != [] && IsDigit(s[0]) then 1 + DigitRun(s[1..]) else 0
  }

  /** The value of a string of decimal digits. */
  function DecimalValue(d: string): nat
    requires forall i :: 0 <= i < |d| ==> IsDigit(d[i])
    decreases |d|
  {
    if d == [] then 0
    else
      var c := d[|d| - 1];
      assert IsDigit(c);
      10 * DecimalValue(d[..|d| - 1]) + (c as int - '0' as int)
  }

  /** `parseInt(s)` in base ten, with NaN read as 0: leading whitespace and
      one sign are skipped, then the longest run of digits is read. NaN and 0
      are the two falsy results, so `parseInt(s) || 0` and a truthiness test
      of `parseInt(s, 10)` both see this value. */
  function ParseIntOr0(s: string): int {
    var t := s[LeadingSpace(s)..];
    var negative := t != [] && t[0] == '-';
    var body := IntBody(s);
    var n := DigitRun(body);
    var v: int := DecimalValue(body[..n]);
    if negative then -v else v
  }

  /** What `parseInt` reads digits from: `s` after its leading whitespace
      and one sign. */
  function IntBody(s: string): string {
    var t := s[LeadingSpace(s)..];
    if t != [] && (t[0] == '-' || t[0] == '+') then t[1..] else t
  }

  /** `parseInt(s)` with no radix switches to base sixteen when "0x" or "0X"
      follows the whitespace and sign. */
  predicate HexPrefixed(s: string) {
    var b := IntBody(s);
    |b| >= 2 && b[0] == '0' && (b[1] == 'x' || b[1] == 'X')
  }

  function HexDigitValue(c: char): int {
    if '0' <= c <= '9' then c as int - '0' as int
    else if 'a' <= c <= 'f' then c as int - 'a' as int + 10
    else if 'A' <= c <= 'F' then c as int - 'A' as int + 10
    else -1
  }

  /** The number of hexadecimal digits `s` starts with. */
  function HexDigitRun(s: string): (n: nat)
    ensures n <= |s|
    ensures forall i :: 0 <= i < n ==> HexDigitValue(s[i]) >= 0
    decreases |s|
  {
    if s != [] && HexDigitValue(s[0]) >= 0 then 1 + HexDigitRun(s[1..]) else 0
  }

  /** The value of a string of hexadecimal digits. */
  function HexValue(d: string): nat
    requires forall i :: 0 <= i < |d| ==> HexDigitValue(d[i]) >= 0
    decreases |d|
  {
    if d == [] then 0
    else
      var c := d[|d| - 1];
      assert HexDigitValue(c) >= 0;
      16 * HexValue(d[..|d| - 1]) + HexDigitValue(c)
  }

  /** `parseInt(s) || 0` with no radix: as `ParseIntOr0` unless a "0x" or
      "0X" prefix follows the whitespace and sign, in which case the longest
      run of hexadecimal digits after it is read (none gives NaN, so 0). */
  function ParseNumberOr0(s: string): (r: int)
    ensures !HexPrefixed(s) ==> r == ParseIntOr0(s)
  {
    if HexPrefixed(s) then
      var t := s[LeadingSpace(s)..];
      var negative := t != [] && t[0] == '-';
      var h := IntBody(s)[2..];
      var v: int := HexValue(h[..HexDigitRun(h)]);
      if negative then -v else v
    else ParseIntOr0(s)
  }

  /** A decimal rendering never carries the hexadecimal prefix, so both
      readings give the number back. */
  lemma ParseNumberOfNat(k: nat)
    ensures !HexPrefixed(NatToString(k))
    ensures ParseNumberOr0(NatToString(k)) == k
  {
    var s := NatToString(k);
    NatToStringDigits(k);
    assert !IsWhitespace(s[0]);
    assert s[LeadingSpace(s)..] == s;
    ParseIntOfNat(k);
  }

  /** A "0x" text is read in base sixteen, which the base-ten reading gives
      as 0: `parseInt("0x1A")` is 26 where `parseInt("0x1A", 10)` is 0. */
  lemma HexReading(x: string)
    requires x == "0x1A"
    ensures HexPrefixed(x) && ParseNumberOr0(x) == 26 && ParseIntOr0(x) == 0
  {
    assert LeadingSpace(x) == 0;
    assert x[0..] == x;
    var h := x[2..];
    assert h == "1A";
    assert h[1..][1..] == [];
    assert HexDigitRun(h) == 2;
    assert h[..2] == h && h[..1] == "1" && h[..1][..0] == [];
    assert HexValue(h[..1]) == 1;
    assert HexValue(h) == 26;
    assert IntBody(x) == x;
    assert x[1..] == "x1A";
    assert DigitRun(x) == 1;
    assert x[..1] == "0" && x[..1][..0] == [];
    assert DecimalValue(x[..1]) == 0;
  }

  /** `!isNaN(parseInt(s, 10))`: a digit follows the whitespace and sign. */
  predicate ParsesAsInt(s: string) {
    DigitRun(IntBody(s)) > 0
  }

  /** Where `parseInt` gives NaN the model reads 0. */
  lemma NotParsedIsZero(s: string)
    requires !ParsesAsInt(s)
    ensures ParseIntOr0(s) == 0
  {
    assert IntBody(s)[..0] == [];
  }

  /** Digit strings read back as the number they render. */
  lemma {:induction false} DecimalValueOfNat(k: nat)
    ensures forall i :: 0 <= i < |NatToString(k)| ==> IsDigit(NatToString(k)[i])
    ensures DecimalValue(NatToString(k)) == k
    decreases k
  {
    NatToStringDigits(k);
    var s := NatToString(k);
    if k >= 10 {
      DecimalValueOfNat(k / 10);
      assert s == NatToString(k / 10) + [DigitChar(k % 10)];
      assert s[..|s| - 1] == NatToString(k / 10);
    }
  }

  /** A number written in decimal is read back unchanged. */
  lemma ParseIntOfNat(k: nat)
    ensures ParseIntOr0(NatToString(k)) == k
  {
    var s := NatToString(k);
    NatToStringDigits(k);
    DecimalValueOfNat(k);
    assert !IsWhitespace(s[0]);
    assert s[LeadingSpace(s)..] == s;
    assert s[..DigitRun(s)] == s;
  }

  /** `String(i)` or `${i}` for any integer. */
  function IntToString(i: int): (r: string)
    ensures |r| >= 1
  {
    if i < 0 then "-" + NatToString(-i) else NatToString(i)
  }

  /** Reading back a rendered integer gives the integer. */
  lemma ParseIntOfInt(i: int)
    ensures ParsesAsInt(IntToString(i))
    ensures ParseIntOr0(IntToString(i)) == i
  {
    if i >= 0 {
      var s := NatToString(i);
      ParseIntOfNat(i);
      NatToStringDigits(i);
      DecimalValueOfNat(i);
      assert !IsWhitespace(s[0]);
      assert s[LeadingSpace(s)..] == s;
    } else {
      var d := NatToString(-i);
      var s := IntToString(i);
      NatToStringDigits(-i);
      DecimalValueOfNat(-i);
      assert !IsWhitespace(s[0]);
      assert s[LeadingSpace(s)..] == s;
      assert s[1..] == d;
      assert d[..DigitRun(d)] == d;
    }
  }
}
