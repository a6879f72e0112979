/**
 * The lowercase hexadecimal rendering that `Cache.key` builds by folding
 * `"%02x".format(byte)` over a digest. Digest bytes are JVM bytes (signed);
 * Java's `%x` conversion prints a negative byte as its value plus 2^8, and the
 * `02` flag zero-pads the digits to width two.
 */
module Hex {

  /** A JVM `byte`: a signed two's-complement value. */
  newtype JByte = x: int | -128 <= x < 128

  /** The value `%x` prints for a byte: negative bytes have 2^8 added. */
  function Unsigned(b: JByte): (u: nat)
    ensures u < 256
    ensures (u - b as int) % 256 == 0
    ensures b >= 0 ==> u == b as int
  {
    if b < 0 then b as int + 256 else b as int
  }

  /** The JVM byte whose unsigned reading is `u`. */
  function Signed(u: nat): (b: JByte)
    requires u < 256
    ensures Unsigned(b) == u
  {
    if u < 128 then u as JByte else (u - 256) as JByte
  }

  const Digits: string := "0123456789abcdef"

  predicate IsLowerHexDigit(c: char) {
    ('0' <= c <= '9') || ('a' <= c <= 'f')
  }

  predicate IsLowerHex(s: string) {
    forall i | 0 <= i < |s| :: IsLowerHexDigit(s[i])
  }

  /** The numeric value of a lowercase hex digit. */
  function DigitValue(c: char): (n: nat)
    requires IsLowerHexDigit(c)
    ensures n < 16
  {
    if c <= '9' then c as int - '0' as int else c as int - 'a' as int + 10
  }

  /** The lowercase hex digit of a value below 16. */
  function Digit(n: nat): (c: char)
    requires n < 16
    ensures IsLowerHexDigit(c)
    ensures DigitValue(c) == n
  {
    Digits[n]
  }

  /** `Integer.toHexString` of a non-negative value: the shortest digit string. */
  function ToHex(n: nat): (s: string)
    ensures 1 <= |s|
    ensures IsLowerHex(s)
    ensures n < 16 ==> |s| == 1
    ensures 16 <= n < 256 ==> |s| == 2
    decreases n
  {
    if n < 16 then [Digit(n)] else ToHex(n / 16) + [Digit(n % 16)]
  }

  /** The `0` flag with width `w`: left-pad with '0' up to `w` characters. */
  function ZeroPad(s: string, w: nat): (r: string)
    ensures |r| == if |s| >= w then |s| else w
    ensures r[|r| - |s|..] == s
    ensures forall i | 0 <= i < |r| - |s| :: r[i] == '0'
  {
    if |s| >= w then s else seq(w - |s|, _ => '0') + s
  }

  /** `"%02x".format(b)`: the high and the low digit of the unsigned value of `b`. */
  function Format02x(b: JByte): (r: string)
    ensures |r| == 2
    ensures IsLowerHexDigit(r[0]) && IsLowerHexDigit(r[1])
    ensures 16 * DigitValue(r[0]) + DigitValue(r[1]) == Unsigned(b)
  {
    var u := Unsigned(b);
    [Digit(u / 16), Digit(u % 16)]
  }

  /**
   * Java's general rule for `%0wx` is `toHexString` of the unsigned value,
   * zero-padded to width `w`; for a byte and width two that is exactly
   * `Format02x`: never one digit, never three.
   */
  lemma Format02xIsPaddedToHex(b: JByte)
    ensures Format02x(b) == ZeroPad(ToHex(Unsigned(b)), 2)
  {
    var u := Unsigned(b);
    if u < 16 {
      assert ToHex(u) == [Digit(u)];
    } else {
      assert ToHex(u / 16) == [Digit(u / 16)];
    }
  }

  /** The digest rendering written as a right fold: each byte's two digits, in order. */
  function Render(d: seq<JByte>): (s: string)
    ensures |s| == 2 * |d|
    ensures IsLowerHex(s)
    decreases |d|
  {
    if d == [] then [] else Format02x(d[0]) + Render(d[1..])
  }

  /** `digest.fold(acc) { acc, it -> acc + "%02x".format(it) }`. */
  function HexFold(acc: string, bytes: seq<JByte>): (r: string)
    ensures r == acc + Render(bytes)
    decreases |bytes|
  {
    if bytes == [] then acc
    else
      var f, rest := Format02x(bytes[0]), Render(bytes[1..]);
      var r := HexFold(acc + f, bytes[1..]);
      assert Render(bytes) == f + rest;
      assert (acc + f) + rest == acc + (f + rest);
      r
  }

  /** The lowercase hex rendering of a digest, as `Cache.key` builds it. */
  function DigestHex(d: seq<JByte>): (s: string)
    ensures s == Render(d)
    ensures |s| == 2 * |d|
    ensures IsLowerHex(s)
  {
    HexFold("", d)
  }

  /** Byte `i` of the digest owns characters `2i` and `2i+1` of its rendering. */
  lemma {:induction false} RenderPairs(d: seq<JByte>, i: nat)
    requires i < |d|
    ensures Render(d)[2 * i] == Format02x(d[i])[0]
    ensures Render(d)[2 * i + 1] == Format02x(d[i])[1]
    decreases i
  {
    if i > 0 {
      RenderPairs(d[1..], i - 1);
      assert Render(d)[2 * i] == Render(d[1..])[2 * (i - 1)];
      assert Render(d)[2 * i + 1] == Render(d[1..])[2 * (i - 1) + 1];
    }
  }

  /** Reads pairs of lowercase hex digits back into JVM bytes. */
  function Unhex(s: string): (d: seq<JByte>)
    requires |s| % 2 == 0
    requires IsLowerHex(s)
    ensures |d| == |s| / 2
    decreases |s|
  {
    if s == [] then []
    else [Signed(16 * DigitValue(s[0]) + DigitValue(s[1]))] + Unhex(s[2..])
  }

  /** Reading a rendering back yields the bytes it was rendered from. */
  lemma {:induction false} UnhexRender(d: seq<JByte>)
    ensures Unhex(Render(d)) == d
    decreases |d|
  {
    if d != [] {
      var s := Render(d);
      var f := Format02x(d[0]);
      assert s[0] == f[0] && s[1] == f[1];
      assert s[2..] == Render(d[1..]);
      var b := Signed(16 * DigitValue(s[0]) + DigitValue(s[1]));
      assert Unsigned(b) == Unsigned(d[0]);
      UnhexRender(d[1..]);
    }
  }

  /** Decoding inverts the digest rendering. */
  lemma DigestHexRoundTrip(d: seq<JByte>)
    ensures Unhex(DigestHex(d)) == d
  {
    UnhexRender(d);
  }

  /** Distinct digests render to distinct hex strings. */
  lemma DigestHexInjective(d1: seq<JByte>, d2: seq<JByte>)
    ensures DigestHex(d1) == DigestHex(d2) <==> d1 == d2
  {
    DigestHexRoundTrip(d1);
    DigestHexRoundTrip(d2);
  }
}
