/**
 * `autoInstanceId`: the 4-byte instance id derived from the last two
 * octets of the device address string, with the JavaScript built-ins it
 * relies on (`substring`, `parseInt` with radix 16, storing into a
 * `Uint8Array`) written out.
 */
module InstanceId {
  import opened Wrappers

  /** `String.prototype.substring(start, end)` for start <= end: both indices clamp to the length. */
  function Substring(s: string, start: nat, end: nat): (r: string)
    requires start <= end
    ensures |r| <= end - start
    ensures end <= |s| ==> r == s[start..end]
    ensures end > |s| ==> r == s[(if start <= |s| then start else |s|)..]
  {
    var a := if start <= |s| then start else |s|;
    var b := if end <= |s| then end else |s|;
    s[a..b]
  }

  function HexDigit(c: char): (d: Option<int>)
    ensures d.Some? ==> 0 <= d.value < 16
  {
    if '0' <= c <= '9' then Some(c as int - '0' as int)
    else if 'a' <= c <= 'f' then Some(c as int - 'a' as int + 10)
    else if 'A' <= c <= 'F' then Some(c as int - 'A' as int + 10)
    else None
  }

  predicate IsHexDigit(c: char) { HexDigit(c).Some? }

  /** The length of the longest prefix of hex digits. */
  function HexRun(s: string): (n: nat)
    ensures n <= |s|
    ensures forall i :: 0 <= i < n ==> IsHexDigit(s[i])
    ensures n < |s| ==> !IsHexDigit(s[n])
  {
    if s == [] || !IsHexDigit(s[0]) then 0 else 1 + HexRun(s[1..])
  }

  /** The value of a string of hex digits, most significant first. */
  function HexValue(s: string): nat
    requires forall i :: 0 <= i < |s| ==> IsHexDigit(s[i])
  {
    if s == [] then 0
    else
      assert IsHexDigit(s[|s| - 1]);
      16 * HexValue(s[..|s| - 1]) + HexDigit(s[|s| - 1]).value as nat
  }

  /** White space and line terminators, which `parseInt` skips at the front. */
  predicate IsStrWhiteSpace(c: char) {
    c == '\t' || c == '\n' || c == '\U{000B}' || c == '\U{000C}' || c == '\r' || c == ' ' ||
    c == '\U{00A0}' || c == '\U{1680}' || ('\U{2000}' <= c <= '\U{200A}') ||
    c == '\U{2028}' || c == '\U{2029}' || c == '\U{202F}' || c == '\U{205F}' ||
    c == '\U{3000}' || c == '\U{FEFF}'
  }

  function TrimStart(s: string): (r: string)
    ensures |r| <= |s| && r == s[|s| - |r|..]
    ensures forall c :: c in s[..|s| - |r|] ==> IsStrWhiteSpace(c)
    ensures r == [] || !IsStrWhiteSpace(r[0])
  {
    if s != [] && IsStrWhiteSpace(s[0]) then TrimStart(s[1..]) else s
  }

  /**
   * How many characters of the trimmed text `parseInt(_, 16)` skips before
   * the digits: one optional sign, then an optional "0x"/"0X" prefix.
   */
  function SkippedPrefix(t: string): (k: nat)
    ensures k <= |t| && k <= 3
  {
    var sign := if |t| > 0 && (t[0] == '-' || t[0] == '+') then 1 else 0;
    if |t| >= sign + 2 && t[sign] == '0' && (t[sign + 1] == 'x' || t[sign + 1] == 'X')
    then sign + 2 else sign
  }

  /** The text `parseInt(s, 16)` reads digits from: leading white space and the prefix above are skipped. */
  function DigitsOf(s: string): (d: string)
    ensures |d| <= |s|
  {
    var t := TrimStart(s);
    t[SkippedPrefix(t)..]
  }

  /** The sign `parseInt` finds after the leading white space. */
  predicate IsNegative(s: string) {
    var t := TrimStart(s);
    |t| > 0 && t[0] == '-'
  }

  /**
   * `parseInt(s, 16)`; `None` stands for NaN. The longest run of hex digits
   * after the skipped prefix is read; without any digit the result is NaN.
   */
  function ParseIntHex(s: string): Option<int> {
    var digits := DigitsOf(s);
    var n := HexRun(digits);
    if n == 0 then None
    else
      var magnitude: int := HexValue(digits[..n]);
      Some(if IsNegative(s) then -magnitude else magnitude)
  }

  /**
   * What `parseInt` skips before the digits: white space, then at most a
   * sign and a "0x" prefix, so the digits are a suffix of the trimmed text.
   */
  lemma DigitsOfSkips(s: string)
    ensures var t, d := TrimStart(s), DigitsOf(s);
      |d| <= |t| && d == t[|t| - |d|..] && |t| - |d| <= 3
  {
  }

  /** `parseInt(_, 16)` is NaN exactly when no hex digit follows the skipped prefix. */
  lemma ParseIntHexNaN(s: string)
    ensures ParseIntHex(s).None? <==> DigitsOf(s) == [] || !IsHexDigit(DigitsOf(s)[0])
  {
    var d := DigitsOf(s);
    if d != [] && IsHexDigit(d[0]) {
      assert HexRun(d) > 0;
    }
  }

  /** Only a '-' after the white space makes the result negative. */
  lemma ParseIntHexSign(s: string)
    ensures ParseIntHex(s).Some? && !IsNegative(s) ==> ParseIntHex(s).value >= 0
    ensures ParseIntHex(s).Some? && ParseIntHex(s).value < 0 ==> IsNegative(s)
  {
  }

  /** A string of hex digits has nothing for `parseInt` to skip. */
  lemma HexDigitsAreBare(s: string)
    requires s != [] && forall i :: 0 <= i < |s| ==> IsHexDigit(s[i])
    ensures DigitsOf(s) == s && !IsNegative(s)
  {
    assert IsHexDigit(s[0]) && !IsStrWhiteSpace(s[0]);
    assert TrimStart(s) == s;
    assert s[0] != '-' && s[0] != '+';
    if |s| >= 2 {
      assert IsHexDigit(s[1]) && s[1] != 'x' && s[1] != 'X';
    }
    assert SkippedPrefix(s) == 0;
    assert s[0..] == s;
  }

  /** In a string of hex digits the run of digits is the whole string. */
  lemma HexRunOfDigits(s: string)
    requires forall i :: 0 <= i < |s| ==> IsHexDigit(s[i])
    ensures HexRun(s) == |s|
  {
  }

  /** `parseInt(_, 16)` of a non-empty string of hex digits is their value. */
  lemma ParseHexDigits(s: string)
    requires s != [] && forall i :: 0 <= i < |s| ==> IsHexDigit(s[i])
    ensures ParseIntHex(s) == Some(HexValue(s))
  {
    calc {
      ParseIntHex(s);
    == { HexDigitsAreBare(s); HexRunOfDigits(s); assert s[..|s|] == s; }
      Some(HexValue(s));
    }
  }

  /** What storing a number into a `Uint8Array` keeps: NaN becomes 0, anything else is taken modulo 256. */
  function ToUint8(v: Option<int>): (b: int)
    ensures 0 <= b < 256
    ensures v.Some? && 0 <= v.value < 256 ==> b == v.value
  {
    match v
    case None => 0
    case Some(n) => n % 256
  }

  /** One id byte: the two address characters from `start`, parsed as hex and stored as a byte. */
  function OctetAt(address: string, start: nat): (b: int)
    ensures 0 <= b < 256
  {
    ToUint8(ParseIntHex(Substring(address, start, start + 2)))
  }

  /**
   * `autoInstanceId`: two zero bytes, then the values of the address
   * characters 12-13 and 15-16 read as hex.
   */
  function AutoInstanceId(address: string): (id: seq<int>)
    ensures |id| == 4 && id[0] == 0 && id[1] == 0
    ensures 0 <= id[2] < 256 && 0 <= id[3] < 256
  {
    var fifth, sixth := OctetAt(address, 12), OctetAt(address, 15);
    [0x00, 0x00, fifth, sixth]
  }

  /** The value of two hex digits. */
  lemma HexValueOfPair(s: string)
    requires |s| == 2 && IsHexDigit(s[0]) && IsHexDigit(s[1])
    ensures HexValue(s) == 16 * HexDigit(s[0]).value + HexDigit(s[1]).value
  {
    assert s[..1][..0] == [];
    assert HexValue(s[..1]) == HexDigit(s[0]).value;
  }

  /** Two hex digits parse as one octet. */
  lemma ParseTwoHexDigits(s: string, d0: int, d1: int)
    requires |s| == 2 && HexDigit(s[0]) == Some(d0) && HexDigit(s[1]) == Some(d1)
    ensures ParseIntHex(s) == Some(16 * d0 + d1)
  {
    calc {
      ParseIntHex(s);
    == { ParseHexDigits(s); }
      Some(HexValue(s));
    == { HexValueOfPair(s); }
      Some(16 * d0 + d1);
    }
  }

  /** A value 0..15 as a lower-case hex digit. */
  function HexChar(d: int): (c: char)
    requires 0 <= d < 16
    ensures HexDigit(c) == Some(d)
  {
    if d < 10 then ('0' as int + d) as char else ('a' as int + d - 10) as char
  }

  /** An octet as two lower-case hex digits, the way a device address prints it. */
  function HexByte(b: int): (s: string)
    requires 0 <= b < 256
    ensures |s| == 2 && HexDigit(s[0]) == Some(b / 16) && HexDigit(s[1]) == Some(b % 16)
  {
    [HexChar(b / 16), HexChar(b % 16)]
  }

  /** The id byte read at `start` when the two address characters there are the hex digits d0, d1. */
  lemma OctetAtDigits(address: string, start: nat, d0: int, d1: int)
    requires start + 2 <= |address|
    requires HexDigit(address[start]) == Some(d0) && HexDigit(address[start + 1]) == Some(d1)
    ensures OctetAt(address, start) == 16 * d0 + d1
  {
    var t := Substring(address, start, start + 2);
    assert t[0] == address[start] && t[1] == address[start + 1];
    ParseTwoHexDigits(t, d0, d1);
  }

  /** Any four hex digits in those positions, in either case, are read as two octets. */
  lemma AutoInstanceIdHexDigits(address: string)
    requires |address| >= 17
    requires IsHexDigit(address[12]) && IsHexDigit(address[13])
    requires IsHexDigit(address[15]) && IsHexDigit(address[16])
    ensures AutoInstanceId(address)[2] == 16 * HexDigit(address[12]).value + HexDigit(address[13]).value
    ensures AutoInstanceId(address)[3] == 16 * HexDigit(address[15]).value + HexDigit(address[16]).value
  {
    OctetAtDigits(address, 12, HexDigit(address[12]).value, HexDigit(address[13]).value);
    OctetAtDigits(address, 15, HexDigit(address[15]).value, HexDigit(address[16]).value);
  }

  /** An address too short to hold a fifth octet parses as NaN twice, giving the all-zero id. */
  lemma ShortAddressGivesZeroId(address: string)
    requires |address| <= 12
    ensures AutoInstanceId(address) == [0, 0, 0, 0]
  {
    assert Substring(address, 12, 14) == [] && Substring(address, 15, 17) == [];
    assert TrimStart([]) == [];
  }

  /** The digits of the octet printed at `start`. */
  lemma OctetDigits(address: string, start: nat, v: int)
    requires 0 <= v < 256 && start + 2 <= |address| && address[start..start + 2] == HexByte(v)
    ensures HexDigit(address[start]) == Some(v / 16) && HexDigit(address[start + 1]) == Some(v % 16)
  {
    assert address[start] == address[start..start + 2][0];
    assert address[start + 1] == address[start..start + 2][1];
  }

  /** The octet printed at `start` is read back as itself. */
  lemma OctetOfHexByte(address: string, start: nat, v: int)
    requires 0 <= v < 256 && start + 2 <= |address| && address[start..start + 2] == HexByte(v)
    ensures OctetAt(address, start) == v
  {
    OctetDigits(address, start, v);
    OctetAtDigits(address, start, v / 16, v % 16);
  }

  /**
   * An address whose fifth and sixth octets print as `a` and `b` yields the
   * instance id [0, 0, a, b].
   */
  lemma AutoInstanceIdOfAddress(address: string, a: int, b: int)
    requires 0 <= a < 256 && 0 <= b < 256 && |address| >= 17
    requires address[12..14] == HexByte(a) && address[15..17] == HexByte(b)
    ensures AutoInstanceId(address) == [0, 0, a, b]
  {
    OctetOfHexByte(address, 12, a);
    OctetOfHexByte(address, 15, b);
    var id := AutoInstanceId(address);
    assert id[2] == a && id[3] == b;
    assert id == [0, 0, a, b] by {
      assert |id| == 4 && id[0] == 0 && id[1] == 0;
    }
  }
}
