/** The renderings the library's toString methods use: std::to_string of an
    unsigned value (decimal, no leading zeros) and the stream manipulators
    hex, uppercase, setw(2), setfill('0') applied to a byte. */
module Text {
  import opened Wire

  predicate IsDigit(c: char)
  {
    '0' <= c <= '9'
  }

  predicate AllDigits(s: string)
  {
    forall i :: 0 <= i < |s| ==> IsDigit(s[i])
  }

  function DigitChar(d: nat): (c: char)
    requires d < 10
    ensures IsDigit(c) && c as int - '0' as int == d
  {
    ('0' as int + d) as char
  }

  /** The number a string of decimal digits denotes. */
  function DecimalValue(s: string): nat
    requires AllDigits(s)
  {
    if s == [] then 0
    else DecimalValue(s[..|s| - 1]) * 10 + (s[|s| - 1] as int - '0' as int)
  }

  /** std::to_string of an unsigned value. */
  function Decimal(n: nat): (s: string)
    ensures |s| >= 1 && AllDigits(s)
    ensures DecimalValue(s) == n
    ensures s[0] == '0' ==> s == "0"
    decreases n
  {
    if n < 10 then [DigitChar(n)]
    else
      var prefix := Decimal(n / 10);
      var s := prefix + [DigitChar(n % 10)];
      assert s[..|s| - 1] == prefix;
      s
  }

  /** Different values never print the same. */
  lemma DecimalInjective(m: nat, n: nat)
    requires Decimal(m) == Decimal(n)
    ensures m == n
  {
  }

  /** A decimal rendering contains no line break and no space, so text that
      follows it can always be told apart from it. */
  lemma DecimalHasNoSeparator(n: nat, c: char)
    requires !IsDigit(c)
    ensures c !in Decimal(n)
  {
  }

  /** The position of the first `sep` in `s`, or |s| when there is none. */
  function FirstIndex(s: string, sep: char): (i: nat)
    ensures i <= |s|
  {
    if s == [] || s[0] == sep then 0 else 1 + FirstIndex(s[1..], sep)
  }

  lemma {:induction false} FirstIndexAfter(a: string, b: string, sep: char)
    requires sep !in a
    ensures FirstIndex(a + [sep] + b, sep) == |a|
  {
    if a != [] {
      assert (a + [sep] + b)[1..] == a[1..] + [sep] + b;
      FirstIndexAfter(a[1..], b, sep);
    }
  }

  /** Text split at the first occurrence of a separator: when neither
      prefix contains it, equal texts have equal prefixes and suffixes. */
  lemma SeparatorSplit(a: string, b: string, c: string, d: string, sep: char)
    requires sep !in a && sep !in c
    requires a + [sep] + b == c + [sep] + d
    ensures a == c && b == d
  {
    var x := a + [sep] + b;
    FirstIndexAfter(a, b, sep);
    FirstIndexAfter(c, d, sep);
    assert a == x[..|a|] == c;
    assert b == x[|a| + 1..] == d;
  }

  function HexDigitChar(d: nat): (c: char)
    requires d < 16
  {
    if d < 10 then ('0' as int + d) as char else ('A' as int + d - 10) as char
  }

  predicate IsUpperHexDigit(c: char)
  {
    '0' <= c <= '9' || 'A' <= c <= 'F'
  }

  function HexDigitValue(c: char): nat
    requires IsUpperHexDigit(c)
  {
    if c <= '9' then c as int - '0' as int else c as int - 'A' as int + 10
  }

  /** A byte as exactly two upper-case hexadecimal digits, zero padded. */
  function Hex2(b: byte): (s: string)
    ensures |s| == 2 && IsUpperHexDigit(s[0]) && IsUpperHexDigit(s[1])
    ensures HexDigitValue(s[0]) * 16 + HexDigitValue(s[1]) == b as int
  {
    [HexDigitChar(b as int / 16), HexDigitChar(b as int % 16)]
  }

  /** Text made of groups of two upper-case hex digits and a space. */
  predicate HexListing(s: string)
  {
    s == [] || (|s| >= 3 && IsUpperHexDigit(s[0]) && IsUpperHexDigit(s[1]) && s[2] == ' ' && HexListing(s[3..]))
  }

  /** Each byte of `bytes` as two hex digits followed by a space. */
  function HexList(bytes: seq<byte>): (s: string)
    ensures |s| == 3 * |bytes| && HexListing(s)
  {
    if bytes == [] then ""
    else
      var s := Hex2(bytes[0]) + " " + HexList(bytes[1..]);
      assert s[3..] == HexList(bytes[1..]);
      s
  }

  /** The listing grows by one group per byte appended. */
  lemma {:induction false} HexListAppend(bytes: seq<byte>, b: byte)
    ensures HexList(bytes + [b]) == HexList(bytes) + Hex2(b) + " "
  {
    if bytes != [] {
      assert (bytes + [b])[1..] == bytes[1..] + [b];
      HexListAppend(bytes[1..], b);
    } else {
      assert HexList([b]) == Hex2(b) + " " + HexList([]);
    }
  }

  /** Reading a hex listing back, one group at a time. */
  function UnHexList(s: string): (bytes: seq<byte>)
    requires HexListing(s)
    ensures |bytes| == |s| / 3
  {
    if s == [] then []
    else [(HexDigitValue(s[0]) * 16 + HexDigitValue(s[1])) as byte] + UnHexList(s[3..])
  }

  /** The hex listing loses nothing: it decodes back to the bytes. */
  lemma {:induction false} HexListRoundTrip(bytes: seq<byte>)
    ensures UnHexList(HexList(bytes)) == bytes
  {
    if bytes != [] {
      var s := HexList(bytes);
      assert s == Hex2(bytes[0]) + " " + HexList(bytes[1..]);
      assert s[3..] == HexList(bytes[1..]);
      HexListRoundTrip(bytes[1..]);
    }
  }
}
