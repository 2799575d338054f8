/** The pure text encodings the wallet relies on: lower-case hexadecimal as
    produced by `toString(16).padStart(2, '0')` and by Node's `toString('hex')`,
    the recipient-address pattern of the send form, and Base64 as in section 4
    of RFC 4648 (`btoa` to store a credential's raw id, `atob` to read it back). */
module Encoding {
  import opened Wrappers

  /** An octet, as held by a `Uint8Array` or a Node `Buffer`. */
  type byte = x: int | 0 <= x < 256

  /** A SHA-256 digest: always 32 bytes. The hash itself is not modelled. */
  type Digest = d: seq<byte> | |d| == 32 witness seq(32, _ => 0)

  // ---------------------------------------------------------------- hexadecimal

  predicate IsLowerHexDigit(c: char) {
    '0' <= c <= '9' || 'a' <= c <= 'f'
  }

  /** The character class `[a-fA-F0-9]`. */
  predicate IsHexDigit(c: char) {
    IsLowerHexDigit(c) || 'A' <= c <= 'F'
  }

  /** The digit `Number.prototype.toString(16)` prints for `n`. */
  function HexDigit(n: nat): (c: char)
    requires n < 16
    ensures IsLowerHexDigit(c)
  {
    if n < 10 then ('0' as int + n) as char else ('a' as int + (n - 10)) as char
  }

  /** The value of a hexadecimal digit of either case; None for any other character. */
  function HexValue(c: char): (v: Option<nat>)
    ensures v.Some? <==> IsHexDigit(c)
    ensures v.Some? ==> v.value < 16
  {
    if '0' <= c <= '9' then Some(c as int - '0' as int)
    else if 'a' <= c <= 'f' then Some(c as int - 'a' as int + 10)
    else if 'A' <= c <= 'F' then Some(c as int - 'A' as int + 10)
    else None
  }

  lemma HexValueOfDigit(n: nat)
    requires n < 16
    ensures HexValue(HexDigit(n)) == Some(n)
  {
  }

  /** `n.toString(16)`: lower-case digits, most significant first, no leading zero. */
  function ToRadix16(n: nat): (s: string)
    ensures 1 <= |s|
    ensures n < 16 <==> |s| == 1
    decreases n
  {
    if n < 16 then [HexDigit(n)] else ToRadix16(n / 16) + [HexDigit(n % 16)]
  }

  /** `s.padStart(width, c)` for a one-character pad string. */
  function PadStart(s: string, width: nat, c: char): (r: string)
    ensures |r| == if |s| < width then width else |s|
  {
    if |s| < width then seq(width - |s|, _ => c) + s else s
  }

  /** `b.toString(16).padStart(2, '0')`. */
  function ByteToHex(b: byte): string {
    PadStart(ToRadix16(b), 2, '0')
  }

  /** The padding makes every byte exactly two digits, high nibble first. */
  lemma ByteToHexDigits(b: byte)
    ensures ByteToHex(b) == [HexDigit(b / 16), HexDigit(b % 16)]
  {
    if b < 16 {
      assert ToRadix16(b) == [HexDigit(b)];
    } else {
      assert ToRadix16(b) == ToRadix16(b / 16) + [HexDigit(b % 16)];
      assert ToRadix16(b / 16) == [HexDigit(b / 16)];
    }
  }

  /** `Array.from(bytes).map(b => b.toString(16).padStart(2, '0')).join('')`,
      which is also what Node's `buffer.toString('hex')` prints. */
  function HexEncode(bs: seq<byte>): (s: string)
    ensures |s| == 2 * |bs|
  {
    if bs == [] then []
    else
      ByteToHexDigits(bs[0]);
      ByteToHex(bs[0]) + HexEncode(bs[1..])
  }

  /** The encoding uses lower-case digits only. */
  lemma {:induction false} HexEncodeLower(bs: seq<byte>)
    ensures forall i :: 0 <= i < |HexEncode(bs)| ==> IsLowerHexDigit(HexEncode(bs)[i])
  {
    if bs != [] {
      var s, d, t := HexEncode(bs), ByteToHex(bs[0]), HexEncode(bs[1..]);
      HexEncodeLower(bs[1..]);
      ByteToHexDigits(bs[0]);
      forall i | 0 <= i < |s| ensures IsLowerHexDigit(s[i]) {
        if i < 2 {
          assert s[i] == d[i];
        } else {
          assert s[i] == t[i - 2];
        }
      }
    }
  }

  /** Two hexadecimal digits of either case per byte; None when the length is
      odd or a character is not a hexadecimal digit. */
  function HexDecode(s: string): Option<seq<byte>>
    decreases |s|
  {
    if s == [] then Some([])
    else if |s| == 1 then None
    else
      match (HexValue(s[0]), HexValue(s[1]), HexDecode(s[2..]))
      case (Some(hi), Some(lo), Some(rest)) => Some([hi * 16 + lo] + rest)
      case _ => None
  }

  /** One byte's two digits in front of any text decode to that byte in front. */
  lemma HexDecodeByte(b: byte, rest: string)
    ensures HexDecode(ByteToHex(b) + rest) ==
      match HexDecode(rest) case Some(r) => Some([b] + r) case None => None
  {
    var s := ByteToHex(b) + rest;
    ByteToHexDigits(b);
    assert s[0] == HexDigit(b / 16) && s[1] == HexDigit(b % 16) && s[2..] == rest;
    HexValueOfDigit(b / 16);
    HexValueOfDigit(b % 16);
  }

  /** Hexadecimal encoding is fixed-width, so it decodes back to the same bytes. */
  lemma {:induction false} HexRoundTrip(bs: seq<byte>)
    ensures HexDecode(HexEncode(bs)) == Some(bs)
  {
    if bs != [] {
      HexDecodeByte(bs[0], HexEncode(bs[1..]));
      HexRoundTrip(bs[1..]);
      assert bs == [bs[0]] + bs[1..];
    }
  }

  /** A string decodes exactly when it is an even number of hexadecimal digits. */
  lemma {:induction false} HexDecodeShape(s: string)
    ensures HexDecode(s).Some? <==> |s| % 2 == 0 && forall i :: 0 <= i < |s| ==> IsHexDigit(s[i])
    ensures HexDecode(s).Some? ==> |HexDecode(s).value| == |s| / 2
    decreases |s|
  {
    if |s| >= 2 {
      HexDecodeShape(s[2..]);
      if HexDecode(s).None? && IsHexDigit(s[0]) && IsHexDigit(s[1]) {
        assert HexDecode(s[2..]).None?;
        assert !(|s[2..]| % 2 == 0 && forall i :: 0 <= i < |s[2..]| ==> IsHexDigit(s[2..][i]));
      }
      if HexDecode(s).Some? {
        forall i | 0 <= i < |s| ensures IsHexDigit(s[i]) {
          if i >= 2 { assert s[i] == s[2..][i - 2]; }
        }
      }
    }
  }

  /** `'0x' + hex`, the form of the client address, the private key and the transaction hash. */
  function PrefixedHex(bs: seq<byte>): (s: string)
    ensures |s| == 2 + 2 * |bs|
  {
    "0x" + HexEncode(bs)
  }

  // --------------------------------------------------- recipient address check

  /** `/^0x[a-fA-F0-9]{40}$/.test(s)`: the literal `0x` (lower-case x) and then
      exactly forty hexadecimal digits of either case, nothing before or after. */
  predicate MatchesAddressPattern(s: string) {
    |s| == 42 && s[0] == '0' && s[1] == 'x' && forall i :: 2 <= i < 42 ==> IsHexDigit(s[i])
  }

  /** The pattern accepts exactly the `0x`-prefixed hexadecimal spellings of a 20-byte value. */
  lemma AddressPatternIsTwentyBytes(s: string)
    ensures MatchesAddressPattern(s) <==>
      |s| >= 2 && s[..2] == "0x" && HexDecode(s[2..]).Some? && |HexDecode(s[2..]).value| == 20
  {
    if |s| >= 2 {
      HexDecodeShape(s[2..]);
      if MatchesAddressPattern(s) {
        forall i | 0 <= i < |s[2..]| ensures IsHexDigit(s[2..][i]) {
          assert s[2..][i] == s[i + 2];
        }
      }
      if s[..2] == "0x" && HexDecode(s[2..]).Some? && |HexDecode(s[2..]).value| == 20 {
        assert s[0] == s[..2][0] && s[1] == s[..2][1];
        forall i | 2 <= i < 42 ensures IsHexDigit(s[i]) {
          assert s[i] == s[2..][i - 2];
        }
      }
    }
  }

  /** Every `0x` + hex spelling of twenty bytes passes the recipient check. */
  lemma PrefixedHexMatchesPattern(bs: seq<byte>)
    requires |bs| == 20
    ensures MatchesAddressPattern(PrefixedHex(bs))
  {
    var s := PrefixedHex(bs);
    HexEncodeLower(bs);
    assert s[0] == s[..2][0] && s[1] == s[..2][1];
    forall i | 2 <= i < 42 ensures IsHexDigit(s[i]) {
      assert s[i] == s[2..][i - 2];
    }
  }

  // -------------------------------------------------- Base64, RFC 4648 section 4

  /** The 64-character alphabet of Table 1 in RFC 4648. */
  predicate IsBase64Char(c: char) {
    'A' <= c <= 'Z' || 'a' <= c <= 'z' || '0' <= c <= '9' || c == '+' || c == '/'
  }

  function Base64Char(n: nat): (c: char)
    requires n < 64
    ensures IsBase64Char(c)
  {
    if n < 26 then ('A' as int + n) as char
    else if n < 52 then ('a' as int + (n - 26)) as char
    else if n < 62 then ('0' as int + (n - 52)) as char
    else if n == 62 then '+'
    else '/'
  }

  function Base64Value(c: char): (v: Option<nat>)
    ensures v.Some? <==> IsBase64Char(c)
    ensures v.Some? ==> v.value < 64
  {
    if 'A' <= c <= 'Z' then Some(c as int - 'A' as int)
    else if 'a' <= c <= 'z' then Some(c as int - 'a' as int + 26)
    else if '0' <= c <= '9' then Some(c as int - '0' as int + 52)
    else if c == '+' then Some(62)
    else if c == '/' then Some(63)
    else None
  }

  lemma Base64ValueOfChar(n: nat)
    requires n < 64
    ensures Base64Value(Base64Char(n)) == Some(n)
  {
  }

  /** Three bytes as four characters of six bits each. */
  function EncodeGroup(b0: byte, b1: byte, b2: byte): (s: string)
    ensures |s| == 4
  {
    [Base64Char(b0 / 4), Base64Char(b0 % 4 * 16 + b1 / 16),
     Base64Char(b1 % 16 * 4 + b2 / 64), Base64Char(b2 % 64)]
  }

  /** The encoding without its `=` padding: four characters per three bytes and
      two or three characters for a final group of one or two bytes. */
  function EncodeUnpadded(bs: seq<byte>): (s: string)
    ensures |s| == 0 <==> |bs| == 0
  {
    if |bs| == 0 then []
    else if |bs| == 1 then EncodeGroup(bs[0], 0, 0)[..2]
    else if |bs| == 2 then EncodeGroup(bs[0], bs[1], 0)[..3]
    else EncodeGroup(bs[0], bs[1], bs[2]) + EncodeUnpadded(bs[3..])
  }

  /** `btoa(String.fromCharCode(...bytes))`: `fromCharCode` turns each byte into
      the character with that code, and `btoa` encodes those codes as bytes,
      padding the last group with `=` to a multiple of four characters. */
  function Base64Encode(bs: seq<byte>): string {
    EncodeUnpadded(bs) + (if |bs| % 3 == 1 then "==" else if |bs| % 3 == 2 then "=" else "")
  }

  /** The padding brings every encoding to a whole number of four-character groups. */
  lemma Base64EncodeLength(bs: seq<byte>)
    ensures |Base64Encode(bs)| % 4 == 0
  {
    UnpaddedLength(bs);
    var n := |EncodeUnpadded(bs)|;
    if |bs| % 3 == 1 {
      assert n % 4 == 2 && |Base64Encode(bs)| == n + 2;
    } else if |bs| % 3 == 2 {
      assert n % 4 == 3 && |Base64Encode(bs)| == n + 1;
    } else {
      assert n % 4 == 0 && |Base64Encode(bs)| == n;
    }
  }

  /** Four characters of the alphabet as the three bytes their 24 bits spell. */
  function DecodeQuad(c0: char, c1: char, c2: char, c3: char): Option<seq<byte>> {
    match (Base64Value(c0), Base64Value(c1), Base64Value(c2), Base64Value(c3))
    case (Some(v0), Some(v1), Some(v2), Some(v3)) =>
      Some([v0 * 4 + v1 / 16, v1 % 16 * 16 + v2 / 4, v2 % 4 * 64 + v3])
    case _ => None
  }

  /** Decodes characters of the alphabet, with no padding; a trailing group of
      two or three characters yields one or two bytes and its spare bits are
      dropped. */
  function DecodeUnpadded(t: string): Option<seq<byte>>
    decreases |t|
  {
    if |t| == 0 then Some([])
    else if |t| == 1 then None
    else if |t| == 2 then
      match (Base64Value(t[0]), Base64Value(t[1]))
      case (Some(c0), Some(c1)) => Some([c0 * 4 + c1 / 16])
      case _ => None
    else if |t| == 3 then
      match (Base64Value(t[0]), Base64Value(t[1]), Base64Value(t[2]))
      case (Some(c0), Some(c1), Some(c2)) => Some([c0 * 4 + c1 / 16, c1 % 16 * 16 + c2 / 4])
      case _ => None
    else
      var head := DecodeQuad(t[0], t[1], t[2], t[3]);
      var tail := DecodeUnpadded(t[4..]);
      if head.Some? && tail.Some? then Some(head.value + tail.value) else None
  }

  /** The first step of the forgiving-base64 decoder: a length that is a
      multiple of four may end in one or two `=`, which are removed. */
  function StripPadding(s: string): string {
    if |s| % 4 == 0 && |s| >= 2 && s[|s| - 2..] == "==" then s[..|s| - 2]
    else if |s| % 4 == 0 && |s| >= 1 && s[|s| - 1] == '=' then s[..|s| - 1]
    else s
  }

  /** `Uint8Array.from(atob(s), c => c.charCodeAt(0))`, with `atob` running the
      forgiving-base64 decoder: after the padding is removed, a length of 4k+1
      or any character outside the alphabet makes `atob` throw (None). */
  function Base64Decode(s: string): Option<seq<byte>> {
    var t := StripPadding(s);
    if |t| % 4 == 1 then None else DecodeUnpadded(t)
  }

  /** The characters of a group decode back to the group's bytes. */
  lemma GroupValues(b0: byte, b1: byte, b2: byte)
    ensures var g := EncodeGroup(b0, b1, b2);
      && Base64Value(g[0]).Some? && Base64Value(g[1]).Some?
      && Base64Value(g[2]).Some? && Base64Value(g[3]).Some?
      && var c0, c1, c2, c3 := Base64Value(g[0]).value, Base64Value(g[1]).value,
                               Base64Value(g[2]).value, Base64Value(g[3]).value;
      c0 * 4 + c1 / 16 == b0 && c1 % 16 * 16 + c2 / 4 == b1 && c2 % 4 * 64 + c3 == b2
  {
    Base64ValueOfChar(b0 / 4);
    Base64ValueOfChar(b0 % 4 * 16 + b1 / 16);
    Base64ValueOfChar(b1 % 16 * 4 + b2 / 64);
    Base64ValueOfChar(b2 % 64);
  }

  lemma DecodeGroup(b0: byte, b1: byte, b2: byte, rest: string, r: seq<byte>)
    requires DecodeUnpadded(rest) == Some(r)
    ensures DecodeUnpadded(EncodeGroup(b0, b1, b2) + rest) == Some([b0, b1, b2] + r)
  {
    var g := EncodeGroup(b0, b1, b2);
    var s := g + rest;
    GroupValues(b0, b1, b2);
    assert DecodeQuad(g[0], g[1], g[2], g[3]) == Some([b0, b1, b2]);
    assert s[0] == g[0] && s[1] == g[1] && s[2] == g[2] && s[3] == g[3] && s[4..] == rest;
  }

  /** A final group of one byte (two characters) decodes back. */
  lemma DecodeFinalOne(b0: byte)
    ensures DecodeUnpadded(EncodeUnpadded([b0])) == Some([b0])
  {
    var g := EncodeGroup(b0, 0, 0);
    GroupValues(b0, 0, 0);
    assert EncodeUnpadded([b0]) == [g[0], g[1]];
  }

  /** A final group of two bytes (three characters) decodes back. */
  lemma DecodeFinalTwo(b0: byte, b1: byte)
    ensures DecodeUnpadded(EncodeUnpadded([b0, b1])) == Some([b0, b1])
  {
    var g := EncodeGroup(b0, b1, 0);
    GroupValues(b0, b1, 0);
    assert EncodeUnpadded([b0, b1]) == [g[0], g[1], g[2]];
  }

  lemma {:induction false} DecodeEncodeUnpadded(bs: seq<byte>)
    ensures DecodeUnpadded(EncodeUnpadded(bs)) == Some(bs)
    decreases |bs|
  {
    if |bs| == 1 {
      assert bs == [bs[0]];
      DecodeFinalOne(bs[0]);
    } else if |bs| == 2 {
      assert bs == [bs[0], bs[1]];
      DecodeFinalTwo(bs[0], bs[1]);
    } else if |bs| >= 3 {
      DecodeFullGroup(bs);
    }
  }

  /** The encoding of three or more bytes is the first group's four
      characters followed by the encoding of the rest. */
  lemma EncodeFirstGroup(bs: seq<byte>)
    requires |bs| >= 3
    ensures EncodeUnpadded(bs) == EncodeGroup(bs[0], bs[1], bs[2]) + EncodeUnpadded(bs[3..])
  {
  }

  lemma {:induction false} DecodeFullGroup(bs: seq<byte>)
    requires |bs| >= 3
    ensures DecodeUnpadded(EncodeUnpadded(bs)) == Some(bs)
    decreases |bs|, 0
  {
    var tail := bs[3..];
    DecodeEncodeUnpadded(tail);
    DecodeGroup(bs[0], bs[1], bs[2], EncodeUnpadded(tail), tail);
    EncodeFirstGroup(bs);
    assert bs == [bs[0], bs[1], bs[2]] + tail;
  }

  /** An unpadded encoding is four characters per full group plus two or three
      for a partial one, so its length is never one past a multiple of four. */
  lemma {:induction false} UnpaddedLength(bs: seq<byte>)
    ensures |EncodeUnpadded(bs)| % 4 == if |bs| % 3 == 0 then 0 else |bs| % 3 + 1
    decreases |bs|
  {
    if |bs| >= 3 {
      var rest := bs[3..];
      UnpaddedLength(rest);
      EncodeFirstGroup(bs);
      var n, m := |EncodeUnpadded(rest)|, |rest|;
      assert |EncodeUnpadded(bs)| == n + 4 && |bs| == m + 3;
      assert (n + 4) % 4 == n % 4 && (m + 3) % 3 == m % 3;
    } else if |bs| == 1 {
      assert |EncodeUnpadded(bs)| == 2;
    } else if |bs| == 2 {
      assert |EncodeUnpadded(bs)| == 3;
    }
  }

  /** The unpadded encoding ends in a character of the alphabet, never in `=`. */
  lemma {:induction false} UnpaddedLastChar(bs: seq<byte>)
    requires |bs| > 0
    ensures var u := EncodeUnpadded(bs); IsBase64Char(u[|u| - 1])
    decreases |bs|
  {
    var u := EncodeUnpadded(bs);
    if |bs| == 1 {
      assert u[1] == EncodeGroup(bs[0], 0, 0)[1];
    } else if |bs| == 2 {
      assert u[2] == EncodeGroup(bs[0], bs[1], 0)[2];
    } else if |bs| == 3 {
      assert u == EncodeGroup(bs[0], bs[1], bs[2]);
    } else {
      var rest := EncodeUnpadded(bs[3..]);
      UnpaddedLastChar(bs[3..]);
      assert u == EncodeGroup(bs[0], bs[1], bs[2]) + rest;
      assert u[|u| - 1] == rest[|rest| - 1];
    }
  }

  /** Removing the padding of an encoding leaves exactly its unpadded part:
      the character before a single `=` is never itself `=`. */
  lemma StripPaddingOfEncoding(bs: seq<byte>)
    ensures StripPadding(Base64Encode(bs)) == EncodeUnpadded(bs)
  {
    var u := EncodeUnpadded(bs);
    var s := Base64Encode(bs);
    Base64EncodeLength(bs);
    if |bs| % 3 == 1 {
      assert s == u + "==";
      assert s[|s| - 2..] == "==";
      assert s[..|s| - 2] == u;
    } else if |bs| % 3 == 2 {
      assert s == u + "=";
      UnpaddedLastChar(bs);
      assert s[|s| - 2] == u[|u| - 1];
      assert s[|s| - 2..] != "==";
      assert s[..|s| - 1] == u;
    } else {
      assert s == u;
      if |s| > 0 {
        UnpaddedLastChar(bs);
        assert s[|s| - 2..][1] == s[|s| - 1];
      }
    }
  }

  /** What `btoa` stores, `atob` restores: the raw id bytes come back unchanged. */
  lemma Base64RoundTrip(bs: seq<byte>)
    ensures Base64Decode(Base64Encode(bs)) == Some(bs)
  {
    var u := EncodeUnpadded(bs);
    StripPaddingOfEncoding(bs);
    DecodeEncodeUnpadded(bs);
    UnpaddedLength(bs);
  }
}
