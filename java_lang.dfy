/**
 * The parts of java.lang that the spawn-request parser depends on:
 * String.indexOf, String.substring, String.split, Integer.parseInt and
 * Long.decode, and Integer.toString as the encoder on the other end of the
 * wire. Only ASCII digits are recognised.
 */
module JavaLang {
  import opened Wrappers

  const INT_MIN: int := -0x8000_0000
  const INT_MAX: int := 0x7FFF_FFFF
  const LONG_MIN: int := -0x8000_0000_0000_0000
  const LONG_MAX: int := 0x7FFF_FFFF_FFFF_FFFF
  const TWO_TO_64: int := 0x1_0000_0000_0000_0000

  /** String.startsWith, compared a character at a time. */
  predicate StartsWith(s: string, prefix: string) {
    |prefix| <= |s| && (|prefix| == 0 || (s[0] == prefix[0] && StartsWith(s[1..], prefix[1..])))
  }

  /** String.equals, in the same terms as StartsWith. */
  predicate Equals(s: string, t: string) {
    |s| == |t| && StartsWith(s, t)
  }

  /** StartsWith holds exactly when s begins with prefix. */
  lemma {:induction false} StartsWithIsPrefix(s: string, prefix: string)
    ensures StartsWith(s, prefix) <==> |prefix| <= |s| && s[..|prefix|] == prefix
    decreases |prefix|
  {
    if 0 < |prefix| <= |s| {
      StartsWithIsPrefix(s[1..], prefix[1..]);
      assert s[..|prefix|] == [s[0]] + s[1..][..|prefix| - 1];
      assert prefix == [prefix[0]] + prefix[1..];
    }
  }

  /** Equals is string equality. */
  lemma EqualsIsEquality(s: string, t: string)
    ensures Equals(s, t) <==> s == t
  {
    StartsWithIsPrefix(s, t);
    assert |s| == |t| ==> s[..|t|] == s;
  }

  /** A string that starts with p neither starts with nor equals a q that differs from p at position k. */
  lemma StartsWithExcludes(s: string, p: string, q: string, k: nat)
    requires StartsWith(s, p) && k < |p| && k < |q| && p[k] != q[k]
    ensures !StartsWith(s, q) && !Equals(s, q)
  {
    StartsWithIsPrefix(s, p);
    StartsWithIsPrefix(s, q);
    assert s[..|p|][k] == s[k];
    if |q| <= |s| {
      assert s[..|q|][k] == s[k];
    }
  }

  // ---------------------------------------------------------------------
  // indexOf and substring

  /** String.indexOf(char): the first position of c in s, or -1 when there is none. */
  function IndexOf(s: string, c: char): (r: int)
    ensures -1 <= r < |s|
  {
    if |s| == 0 then -1
    else if s[0] == c then 0
    else
      var k := IndexOf(s[1..], c);
      if k == -1 then -1 else k + 1
  }

  /** IndexOf finds the first occurrence, and -1 means there is none. */
  lemma {:induction false} IndexOfFindsFirst(s: string, c: char)
    ensures IndexOf(s, c) == -1 <==> c !in s
    ensures 0 <= IndexOf(s, c) ==> s[IndexOf(s, c)] == c && c !in s[..IndexOf(s, c)]
  {
    if |s| > 0 && s[0] != c {
      var k := IndexOf(s[1..], c);
      IndexOfFindsFirst(s[1..], c);
      assert s == [s[0]] + s[1..];
      if k != -1 {
        assert s[..k + 1] == [s[0]] + s[1..][..k];
      }
    }
  }

  /** arg.substring(arg.indexOf('=') + 1): what follows the first '=', or all of arg if it has none. */
  function AfterEquals(arg: string): string {
    arg[IndexOf(arg, '=') + 1..]
  }

  /** For an argument that starts with a flag ending in its only '=', the value is what follows the flag. */
  lemma AfterEqualsOfFlag(arg: string, flag: string)
    requires StartsWith(arg, flag)
    requires |flag| > 0 && flag[|flag| - 1] == '=' && '=' !in flag[..|flag| - 1]
    ensures AfterEquals(arg) == arg[|flag|..]
  {
    StartsWithIsPrefix(arg, flag);
    IndexOfFindsFirst(arg, '=');
    var n := |flag| - 1;
    var r := IndexOf(arg, '=');
    assert arg[n] == '=';
    assert arg[..n] == flag[..n];
  }

  // ---------------------------------------------------------------------
  // split

  /** Joins fields with commas; the inverse of Fields. */
  function JoinFields(fs: seq<string>): string
    requires |fs| >= 1
  {
    if |fs| == 1 then fs[0] else fs[0] + "," + JoinFields(fs[1..])
  }

  /** Every comma-separated field of s, empty ones included: "a,,b," has four fields. */
  function Fields(s: string): (r: seq<string>)
    ensures |r| >= 1
    decreases |s|
  {
    var k := IndexOf(s, ',');
    if k == -1 then [s] else [s[..k]] + Fields(s[k + 1..])
  }

  /** No field holds a comma. */
  lemma {:induction false} FieldsHaveNoComma(s: string)
    ensures forall k :: 0 <= k < |Fields(s)| ==> ',' !in Fields(s)[k]
    decreases |s|
  {
    IndexOfFindsFirst(s, ',');
    var k := IndexOf(s, ',');
    if k != -1 {
      var rest := s[k + 1..];
      FieldsHaveNoComma(rest);
      assert Fields(s) == [s[..k]] + Fields(rest);
    }
  }

  /** A string is the part before its first comma, the comma, and the rest. */
  lemma CommaAt(s: string, k: int)
    requires k == IndexOf(s, ',') && k != -1
    ensures s == s[..k] + "," + s[k + 1..]
  {
    IndexOfFindsFirst(s, ',');
    assert s == s[..k] + [s[k]] + s[k + 1..];
  }

  /** Joining the fields with commas gives the string back. */
  lemma {:induction false} JoinFieldsOfFields(s: string)
    ensures JoinFields(Fields(s)) == s
    decreases |s|
  {
    var k := IndexOf(s, ',');
    if k != -1 {
      var rest := s[k + 1..];
      JoinFieldsOfFields(rest);
      var fs := Fields(s);
      assert fs[1..] == Fields(rest);
      CommaAt(s, k);
    }
  }

  /** fs with its trailing empty strings removed. */
  function DropTrailingEmpty(fs: seq<string>): (r: seq<string>)
    ensures |r| <= |fs|
  {
    if |fs| == 0 || fs[|fs| - 1] != "" then fs else DropTrailingEmpty(fs[..|fs| - 1])
  }

  /** Only empty strings are dropped, from the end, and the result does not end in one. */
  lemma {:induction false} DropTrailingEmptyDropsEmpty(fs: seq<string>)
    ensures var r := DropTrailingEmpty(fs);
      && r == fs[..|r|]
      && (r == [] || r[|r| - 1] != "")
      && forall k :: |r| <= k < |fs| ==> fs[k] == ""
  {
    if |fs| > 0 && fs[|fs| - 1] == "" {
      var front := fs[..|fs| - 1];
      DropTrailingEmptyDropsEmpty(front);
      var r := DropTrailingEmpty(front);
      assert fs[..|r|] == front[..|r|];
    }
  }

  /**
   * String.split(","): a string without a comma comes back whole (so ""
   * splits into [""]); otherwise its fields with trailing empty ones dropped.
   */
  function Split(s: string): seq<string> {
    if IndexOf(s, ',') == -1 then [s] else DropTrailingEmpty(Fields(s))
  }

  /**
   * Split keeps every field in order and drops only empty fields at the end;
   * no part holds a comma.
   */
  lemma SplitParts(s: string)
    ensures forall k :: 0 <= k < |Split(s)| ==> ',' !in Split(s)[k]
    ensures ',' !in s ==> Split(s) == [s]
    ensures ',' in s ==> var r := Split(s); var fs := Fields(s);
      |r| <= |fs| && r == fs[..|r|] && (r == [] || r[|r| - 1] != "")
      && forall k :: |r| <= k < |fs| ==> fs[k] == ""
  {
    IndexOfFindsFirst(s, ',');
    if ',' in s {
      FieldsHaveNoComma(s);
      DropTrailingEmptyDropsEmpty(Fields(s));
      var r := Split(s);
      forall k | 0 <= k < |r|
        ensures ',' !in r[k]
      {
        assert r[k] == Fields(s)[k];
      }
    }
  }

  /** String.split(",", 2): at most two parts, split at the first comma; nothing is dropped. */
  function SplitLimit2(s: string): (r: seq<string>)
    ensures 1 <= |r| <= 2
  {
    var k := IndexOf(s, ',');
    if k == -1 then [s] else [s[..k], s[k + 1..]]
  }

  /** One part without a comma; otherwise the part before the first comma and all that follows it. */
  lemma SplitLimit2Parts(s: string)
    ensures var r := SplitLimit2(s);
      && (|r| == 1 <==> ',' !in s)
      && (|r| == 1 ==> r[0] == s)
      && (|r| == 2 ==> ',' !in r[0] && r[0] + "," + r[1] == s)
  {
    IndexOfFindsFirst(s, ',');
    var k := IndexOf(s, ',');
    if k != -1 {
      assert s == s[..k] + "," + s[k + 1..];
    }
  }

  // ---------------------------------------------------------------------
  // numbers

  /** Character.digit(c, radix) for ASCII: the digit's value, or -1. */
  function Digit(c: char, radix: nat): (d: int)
    ensures -1 <= d < radix
  {
    var v :=
      if '0' <= c <= '9' then c as int - '0' as int
      else if 'a' <= c <= 'z' then c as int - 'a' as int + 10
      else if 'A' <= c <= 'Z' then c as int - 'A' as int + 10
      else -1;
    if v < radix then v else -1
  }

  /** Every character of ds is a digit in the radix. */
  predicate AllDigits(ds: string, radix: nat) {
    |ds| == 0 || (AllDigits(ds[..|ds| - 1], radix) && 0 <= Digit(ds[|ds| - 1], radix))
  }

  /** The value of a digit string, most significant digit first. */
  function DigitsValue(ds: string, radix: nat): nat
    requires AllDigits(ds, radix)
  {
    if |ds| == 0 then 0
    else DigitsValue(ds[..|ds| - 1], radix) * radix + Digit(ds[|ds| - 1], radix)
  }

  /**
   * Integer.parseInt(s) in radix 10: an optional '-', one or more decimal
   * digits, and a value that fits in 32 bits. None is NumberFormatException.
   */
  function ParseInt(s: string): (r: Option<int>)
    ensures r.Some? ==> INT_MIN <= r.value <= INT_MAX
    ensures r.Some? ==> |s| > 0 && (s[0] == '-' || AllDigits(s, 10))
  {
    var negative := |s| > 0 && s[0] == '-';
    var ds := if negative then s[1..] else s;
    if |ds| == 0 || !AllDigits(ds, 10) then None
    else
      var magnitude: int := DigitsValue(ds, 10);
      var v := if negative then -magnitude else magnitude;
      if INT_MIN <= v <= INT_MAX then Some(v) else None
  }

  /** Whether body starts with the hexadecimal prefix "0x" or "0X". */
  predicate HexPrefix(body: string) {
    |body| >= 2 && body[0] == '0' && (body[1] == 'x' || body[1] == 'X')
  }

  /** The radix Long.decode reads the digits after the sign in. */
  function DecodeRadix(body: string): nat {
    if HexPrefix(body) || (|body| >= 1 && body[0] == '#') then 16
    else if |body| > 1 && body[0] == '0' then 8
    else 10
  }

  /** The digits Long.decode reads after the sign and the radix prefix. */
  function DecodeDigits(body: string): string {
    if HexPrefix(body) then body[2..]
    else if (|body| >= 1 && body[0] == '#') || (|body| > 1 && body[0] == '0') then body[1..]
    else body
  }

  /**
   * Long.decode(s): an optional '-', then "0x", "0X" or "#" and hexadecimal
   * digits, or "0" and octal digits, or decimal digits, and a value that fits
   * in a signed 64-bit long. None is NumberFormatException.
   */
  function DecodeLong(s: string): (r: Option<int>)
    ensures r.Some? ==> LONG_MIN <= r.value <= LONG_MAX
  {
    var negative := |s| > 0 && s[0] == '-';
    var body := if negative then s[1..] else s;
    var radix := DecodeRadix(body);
    var ds := DecodeDigits(body);
    if |ds| == 0 || !AllDigits(ds, radix) then None
    else
      var magnitude: int := DigitsValue(ds, radix);
      var v := if negative then -magnitude else magnitude;
      if LONG_MIN <= v <= LONG_MAX then Some(v) else None
  }

  /** The two's-complement bits of a Java long. */
  function ToBits64(v: int): bv64
    requires LONG_MIN <= v <= LONG_MAX
  {
    if v >= 0 then v as bv64 else (v + TWO_TO_64) as bv64
  }

  // ---------------------------------------------------------------------
  // Integer.toString, the encoder the requesting side uses

  function DigitChar(d: nat): (c: char)
    requires d < 10
    ensures Digit(c, 10) == d
  {
    ('0' as int + d) as char
  }

  /** The decimal digits of n without leading zeros. */
  function NatToString(n: nat): (s: string)
    ensures |s| >= 1 && AllDigits(s, 10) && DigitsValue(s, 10) == n
    ensures n > 0 ==> s[0] != '0'
    ensures s[0] != '-' && s[0] != '#'
    decreases n
  {
    if n < 10 then [DigitChar(n)]
    else
      var prefix := NatToString(n / 10);
      var s := prefix + [DigitChar(n % 10)];
      assert s[..|s| - 1] == prefix;
      s
  }

  /** Integer.toString(n) / Long.toString(n). */
  function IntToString(n: int): string {
    if n < 0 then "-" + NatToString(-n) else NatToString(n)
  }

  /** Integer.parseInt reads back what Integer.toString writes. */
  lemma ParseIntOfToString(n: int)
    requires INT_MIN <= n <= INT_MAX
    ensures ParseInt(IntToString(n)) == Some(n)
  {
    var s := IntToString(n);
    if n < 0 {
      assert s[1..] == NatToString(-n);
    }
  }

  /** Long.decode reads back the decimal form of every long. */
  lemma DecodeLongOfToString(n: int)
    requires LONG_MIN <= n <= LONG_MAX
    ensures DecodeLong(IntToString(n)) == Some(n)
  {
    var s := IntToString(n);
    var body := if n < 0 then NatToString(-n) else NatToString(n);
    if n < 0 {
      assert s[1..] == body;
    }
  }

  // ---------------------------------------------------------------------
  // Long.toHexString, the form capability sets are usually written in

  function HexDigitChar(d: nat): (c: char)
    requires d < 16
    ensures Digit(c, 16) == d
  {
    if d < 10 then ('0' as int + d) as char else ('a' as int + d - 10) as char
  }

  /** The lower-case hexadecimal digits of n without leading zeros. */
  function NatToHex(n: nat): (s: string)
    ensures |s| >= 1 && AllDigits(s, 16) && DigitsValue(s, 16) == n
    decreases n
  {
    if n < 16 then [HexDigitChar(n)]
    else
      var prefix := NatToHex(n / 16);
      var s := prefix + [HexDigitChar(n % 16)];
      assert s[..|s| - 1] == prefix;
      s
  }

  /** Long.decode reads back "0x" and the hexadecimal digits of every long, with a '-' before a negative one. */
  lemma DecodeLongOfHex(n: int)
    requires LONG_MIN <= n <= LONG_MAX
    ensures n >= 0 ==> DecodeLong("0x" + NatToHex(n)) == Some(n)
    ensures n < 0 ==> DecodeLong("-0x" + NatToHex(-n)) == Some(n)
  {
    var body := "0x" + NatToHex(if n < 0 then -n else n);
    assert HexPrefix(body) && DecodeDigits(body) == NatToHex(if n < 0 then -n else n);
    if n < 0 {
      var s := "-0x" + NatToHex(-n);
      assert s[0] == '-' && s[1..] == body;
    } else {
      assert body[0] != '-';
    }
  }

  // ---------------------------------------------------------------------
  // Long.toOctalString, the other prefixed form capability sets may take

  function OctalDigitChar(d: nat): (c: char)
    requires d < 8
    ensures Digit(c, 8) == d && '0' <= c <= '7'
  {
    ('0' as int + d) as char
  }

  /** The octal digits of n without leading zeros. */
  function NatToOctal(n: nat): (s: string)
    ensures |s| >= 1 && AllDigits(s, 8) && DigitsValue(s, 8) == n
    ensures '0' <= s[0] <= '7'
    decreases n
  {
    if n < 8 then [OctalDigitChar(n)]
    else
      var prefix := NatToOctal(n / 8);
      var s := prefix + [OctalDigitChar(n % 8)];
      assert s[..|s| - 1] == prefix;
      s
  }

  /** Long.decode reads back "0" and the octal digits of every long, with a '-' before a negative one. */
  lemma DecodeLongOfOctal(n: int)
    requires LONG_MIN <= n <= LONG_MAX
    ensures n >= 0 ==> DecodeLong("0" + NatToOctal(n)) == Some(n)
    ensures n < 0 ==> DecodeLong("-0" + NatToOctal(-n)) == Some(n)
  {
    var digits := NatToOctal(if n < 0 then -n else n);
    var body := "0" + digits;
    assert |body| > 1 && body[0] == '0' && body[1] == digits[0];
    assert !HexPrefix(body) && body[0] != '#';
    assert DecodeRadix(body) == 8 && DecodeDigits(body) == digits;
    if n < 0 {
      var s := "-0" + digits;
      assert s[0] == '-' && s[1..] == body;
    } else {
      assert body[0] != '-';
    }
  }
}
