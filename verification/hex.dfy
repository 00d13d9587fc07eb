/** Hex encoding of digests, the message of the IP hash and the UTC date stamp
    (src/lib/crypto.ts). */
module Hex {
  import opened Text

  newtype byte = x: int | 0 <= x < 256

  predicate IsLowerHex(c: char) {
    ('0' <= c <= '9') || ('a' <= c <= 'f')
  }

  function HexDigit(d: nat): (c: char)
    requires d < 16
    ensures IsLowerHex(c)
  {
    if d < 10 then ('0' as int + d) as char else ('a' as int + d - 10) as char
  }

  /** `b.toString(16).padStart(2, '0')`: one or two hex digits, left-padded with `0`. */
  function ByteHex(b: byte): (r: string)
    ensures |r| == 2 && IsLowerHex(r[0]) && IsLowerHex(r[1])
  {
    var digits := if b < 16 then [HexDigit(b as nat)] else [HexDigit(b as nat / 16), HexDigit(b as nat % 16)];
    if |digits| < 2 then "0" + digits else digits
  }

  /** `toHex`: the bytes of a digest as lower-case hex, two digits per byte, in order. */
  function ToHex(bytes: seq<byte>): (r: string)
    ensures |r| == 2 * |bytes|
    ensures forall i :: 0 <= i < |r| ==> IsLowerHex(r[i])
    ensures forall i :: 0 <= i < |bytes| ==> r[2 * i..2 * i + 2] == ByteHex(bytes[i])
  {
    if bytes == [] then []
    else
      var rest := ToHex(bytes[1..]);
      var r := ByteHex(bytes[0]) + rest;
      PairsShift(ByteHex(bytes[0]), rest);
      r
  }

  /** Two characters in front move every pair of the rest along by one. */
  lemma PairsShift(h: string, rest: string)
    requires |h| == 2 && |rest| % 2 == 0
    ensures forall i :: 1 <= i <= |rest| / 2 ==> (h + rest)[2 * i..2 * i + 2] == rest[2 * (i - 1)..2 * (i - 1) + 2]
  {
    forall i | 1 <= i <= |rest| / 2
      ensures (h + rest)[2 * i..2 * i + 2] == rest[2 * (i - 1)..2 * (i - 1) + 2]
    {
      assert (h + rest)[2 * i] == rest[2 * i - 2];
      assert (h + rest)[2 * i + 1] == rest[2 * i - 1];
    }
  }

  /** The value of a hex digit, if it is one. */
  function DigitValue(c: char): (r: Option<nat>)
    ensures r.Some? ==> r.value < 16
  {
    if '0' <= c <= '9' then Some(c as int - '0' as int)
    else if 'a' <= c <= 'f' then Some(c as int - 'a' as int + 10)
    else None
  }

  lemma DigitValueHexDigit(d: nat)
    requires d < 16
    ensures DigitValue(HexDigit(d)) == Some(d)
  {
  }

  /** Reads a string of hex digit pairs back into bytes. */
  function FromHex(s: string): Option<seq<byte>>
    decreases |s|
  {
    if s == [] then Some([])
    else if |s| == 1 then None
    else match (DigitValue(s[0]), DigitValue(s[1]), FromHex(s[2..]))
      case (Some(hi), Some(lo), Some(rest)) => Some([(16 * hi + lo) as byte] + rest)
      case _ => None
  }

  /** Each pair of output digits reads back as the byte it came from. */
  lemma ByteHexValue(b: byte)
    ensures DigitValue(ByteHex(b)[0]).Some? && DigitValue(ByteHex(b)[1]).Some?
    ensures 16 * DigitValue(ByteHex(b)[0]).value + DigitValue(ByteHex(b)[1]).value == b as int
  {
    if b < 16 {
      DigitValueHexDigit(b as nat);
    } else {
      DigitValueHexDigit(b as nat / 16);
      DigitValueHexDigit(b as nat % 16);
    }
  }

  /** Decoding the hex form gives back the bytes. */
  lemma {:induction false} FromHexToHex(bytes: seq<byte>)
    ensures FromHex(ToHex(bytes)) == Some(bytes)
  {
    if bytes != [] {
      FromHexToHex(bytes[1..]);
      ByteHexValue(bytes[0]);
      var s := ToHex(bytes);
      assert s[2..] == ToHex(bytes[1..]);
      assert s[0] == ByteHex(bytes[0])[0] && s[1] == ByteHex(bytes[0])[1];
      var hi := DigitValue(s[0]).value;
      var lo := DigitValue(s[1]).value;
      assert (16 * hi + lo) as byte == bytes[0];
      assert FromHex(s) == Some([(16 * hi + lo) as byte] + bytes[1..]);
      assert [bytes[0]] + bytes[1..] == bytes;
    }
  }

  /** Distinct digests have distinct hex forms. */
  lemma ToHexInjective(a: seq<byte>, b: seq<byte>)
    requires ToHex(a) == ToHex(b)
    ensures a == b
  {
    FromHexToHex(a);
    FromHexToHex(b);
  }

  // ---------------------------------------------------------------------------
  // The IP hash

  /** The HMAC message: the address followed by the date, with the salt as the key. */
  function HmacMessage(ip: string, dateIso: string): (m: string)
    ensures |m| == |ip| + |dateIso| && m[..|ip|] == ip && m[|ip|..] == dateIso
  {
    ip + dateIso
  }

  /** `hmacIpHash`: `mac` stands for HMAC-SHA-256 of RFC 2104 over the UTF-8 encodings,
      keyed by the salt. */
  function IpHash(mac: (string, string) -> seq<byte>, salt: string, ip: string, dateIso: string): (h: string)
    ensures h == ToHex(mac(salt, HmacMessage(ip, dateIso)))
    ensures forall i :: 0 <= i < |h| ==> IsLowerHex(h[i])
  {
    ToHex(mac(salt, ip + dateIso))
  }

  /** The same address on the same day under the same salt hashes alike; a different day
      gives a different message. */
  lemma HashMessageSeparatesDays(ip: string, d1: string, d2: string)
    requires d1 != d2
    ensures HmacMessage(ip, d1) != HmacMessage(ip, d2)
  {
    assert HmacMessage(ip, d1)[|ip|..] == d1;
  }

  // ---------------------------------------------------------------------------
  // Dates

  /** A UTC instant with the fields `toISOString` prints, for years 0 to 9999. */
  datatype Instant = Instant(year: nat, month: nat, day: nat, hour: nat, minute: nat, second: nat, milli: nat)

  predicate ValidInstant(t: Instant) {
    t.year < 10000 && 1 <= t.month <= 12 && 1 <= t.day <= 31 && t.hour < 24 && t.minute < 60
    && t.second < 60 && t.milli < 1000
  }

  function Pow10(k: nat): (p: nat)
    ensures p >= 1
  {
    if k == 0 then 1 else 10 * Pow10(k - 1)
  }

  lemma MulGap(d: nat, a: nat, b: nat)
    ensures a > b ==> d * a >= d * b + d
  {
    if a > b {
      var g: nat := a - b - 1;
      assert d * a == d * b + d * g + d;
    }
  }

  /** A remainder is the only one of its range: n = d*k + r with 0 <= r < d gives n % d == r. */
  lemma ModUnique(n: nat, d: nat, k: nat, r: nat)
    requires d >= 1 && n == d * k + r && r < d
    ensures n % d == r
  {
    var x: nat := n / d;
    assert n == d * x + n % d;
    MulGap(d, x, k);
    MulGap(d, k, x);
  }

  /** Splitting off the last decimal digit commutes with keeping the last digits. */
  lemma LastDigitMod(n: nat, p: nat)
    requires p >= 1
    ensures 10 * ((n / 10) % p) + n % 10 == n % (10 * p)
  {
    var q, dg := n / 10, n % 10;
    var k, m := q / p, q % p;
    assert n == 10 * q + dg;
    assert q == p * k + m;
    assert 10 * q == (10 * p) * k + 10 * m;
    ModUnique(n, 10 * p, k, 10 * m + dg);
  }

  /** n in `width` decimal digits, zero-padded; a field too wide for `width` keeps its last
      `width` digits. The digits read back as the number: as `n` itself whenever it fits. */
  function Padded(n: nat, width: nat): (s: string)
    ensures |s| == width
    ensures forall i :: 0 <= i < |s| ==> IsDigit(s[i])
    ensures width >= 1 ==> ParseNat(s) == Some(n % Pow10(width))
    ensures width >= 1 && n < Pow10(width) ==> ParseNat(s) == Some(n)
    decreases width
  {
    if width == 0 then []
    else
      var init := Padded(n / 10, width - 1);
      PaddedStep(n, width, init);
      init + [DigitChar(n % 10)]
  }

  /** The last digit of n after the first `width - 1` digits of n / 10. */
  lemma PaddedStep(n: nat, width: nat, init: string)
    requires width >= 1 && |init| == width - 1 && forall i :: 0 <= i < |init| ==> IsDigit(init[i])
    requires width >= 2 ==> ParseNat(init) == Some((n / 10) % Pow10(width - 1))
    ensures ParseNat(init + [DigitChar(n % 10)]) == Some(n % Pow10(width))
    ensures n < Pow10(width) ==> ParseNat(init + [DigitChar(n % 10)]) == Some(n)
  {
    var s := init + [DigitChar(n % 10)];
    assert s[..|s| - 1] == init;
    LastDigitMod(n, Pow10(width - 1));
    if n < Pow10(width) {
      ModUnique(n, Pow10(width), 0, n);
    }
  }

  /** `Date.prototype.toISOString`: `YYYY-MM-DDTHH:mm:ss.sssZ`. */
  function IsoString(t: Instant): string {
    Padded(t.year, 4) + "-" + Padded(t.month, 2) + "-" + Padded(t.day, 2) + "T"
    + Padded(t.hour, 2) + ":" + Padded(t.minute, 2) + ":" + Padded(t.second, 2) + "."
    + Padded(t.milli, 3) + "Z"
  }

  /** `isoDateUTC`: the first ten characters of the ISO form. */
  function IsoDateUtc(t: Instant): string {
    IsoString(t)[..10]
  }

  /** The date stamp is exactly `YYYY-MM-DD` and does not depend on the time of day. */
  lemma IsoDateIsCalendarDay(t: Instant)
    ensures IsoDateUtc(t) == Padded(t.year, 4) + "-" + Padded(t.month, 2) + "-" + Padded(t.day, 2)
    ensures |IsoDateUtc(t)| == 10
  {
    var d := Padded(t.year, 4) + "-" + Padded(t.month, 2) + "-" + Padded(t.day, 2);
    assert |d| == 10;
    assert IsoString(t)[..10] == d;
  }

  lemma SameDaySameStamp(t: Instant, u: Instant)
    requires t.year == u.year && t.month == u.month && t.day == u.day
    ensures IsoDateUtc(t) == IsoDateUtc(u)
  {
    IsoDateIsCalendarDay(t);
    IsoDateIsCalendarDay(u);
  }
}
