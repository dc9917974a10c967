/** Base 64 encoding with the URL- and filename-safe alphabet and no padding, as in
    section 5 of RFC 4648 (what Node's `Buffer.toString("base64url")` produces). */
module Base64Url {
  import opened Wrappers

  newtype byte = x: int | 0 <= x < 256

  /** A six-bit group. */
  type Sextet = x: int | 0 <= x < 64

  /** Characters of the URL- and filename-safe alphabet. */
  predicate IsUrlSafe(c: char)
  {
    ('A' <= c <= 'Z') || ('a' <= c <= 'z') || ('0' <= c <= '9') || c == '-' || c == '_'
  }

  /** The alphabet of section 5 of RFC 4648: A-Z, a-z, 0-9, '-', '_'. */
  function CharOf(v: Sextet): (c: char)
    ensures IsUrlSafe(c)
  {
    if v < 26 then ('A' as int + v) as char
    else if v < 52 then ('a' as int + (v - 26)) as char
    else if v < 62 then ('0' as int + (v - 52)) as char
    else if v == 62 then '-'
    else '_'
  }

  /** The value a character stands for, or None outside the alphabet. */
  function ValueOf(c: char): Option<Sextet>
  {
    if 'A' <= c <= 'Z' then Some(c as int - 'A' as int)
    else if 'a' <= c <= 'z' then Some(c as int - 'a' as int + 26)
    else if '0' <= c <= '9' then Some(c as int - '0' as int + 52)
    else if c == '-' then Some(62)
    else if c == '_' then Some(63)
    else None
  }

  lemma ValueOfCharOf(v: Sextet)
    ensures ValueOf(CharOf(v)) == Some(v)
  {
  }

  /** Length of the unpadded encoding of `n` bytes: four characters per three bytes,
      and two or three characters for a final group of one or two bytes. */
  function EncodedLength(n: nat): nat
  {
    4 * (n / 3) + (if n % 3 == 0 then 0 else n % 3 + 1)
  }

  function EncodeGroup(b0: byte, b1: byte, b2: byte): string
  {
    [ CharOf(b0 as int / 4),
      CharOf((b0 as int % 4) * 16 + b1 as int / 16),
      CharOf((b1 as int % 16) * 4 + b2 as int / 64),
      CharOf(b2 as int % 64) ]
  }

  function Encode(b: seq<byte>): (s: string)
    ensures |s| == EncodedLength(|b|)
    ensures forall k :: 0 <= k < |s| ==> IsUrlSafe(s[k])
  {
    if |b| >= 3 then
      var g, rest := EncodeGroup(b[0], b[1], b[2]), Encode(b[3..]);
      assert forall k :: 0 <= k < |g| ==> IsUrlSafe(g[k]);
      assert EncodedLength(|b|) == 4 + EncodedLength(|b| - 3);
      g + rest
    else if |b| == 2 then
      [ CharOf(b[0] as int / 4),
        CharOf((b[0] as int % 4) * 16 + b[1] as int / 16),
        CharOf((b[1] as int % 16) * 4) ]
    else if |b| == 1 then
      [ CharOf(b[0] as int / 4), CharOf((b[0] as int % 4) * 16) ]
    else
      []
  }

  /** Decodes four characters into three bytes. */
  function DecodeGroup(v0: Sextet, v1: Sextet, v2: Sextet, v3: Sextet): seq<byte>
  {
    [ (v0 * 4 + v1 / 16) as byte,
      ((v1 % 16) * 16 + v2 / 4) as byte,
      ((v2 % 4) * 64 + v3) as byte ]
  }

  /** Number of bytes `n` characters decode to: three per full group of four, and one
      less than the number of characters in a final partial group. */
  function DecodedLength(n: nat): nat
  {
    if n < 4 then (if n == 0 then 0 else n - 1) else 3 + DecodedLength(n - 4)
  }

  /** Decoding an encoding of `n` bytes yields `n` bytes again, as far as lengths go. */
  lemma {:induction false} DecodedLengthOfEncoded(n: nat)
    ensures EncodedLength(n) % 4 != 1
    ensures DecodedLength(EncodedLength(n)) == n
  {
    if n >= 3 {
      DecodedLengthOfEncoded(n - 3);
      assert EncodedLength(n) == 4 + EncodedLength(n - 3);
    }
  }

  /** The reference inverse of Encode (the server never decodes): None for a character outside the alphabet or for a length
      that leaves a single character in the last group. The unused low bits of a final
      partial group are ignored. */
  function Decode(s: string): (r: Option<seq<byte>>)
    ensures r.Some? ==> |s| % 4 != 1 && |r.value| == DecodedLength(|s|)
  {
    if |s| == 0 then Some([])
    else if |s| == 1 || ValueOf(s[0]).None? || ValueOf(s[1]).None? then None
    else
      var v0, v1 := ValueOf(s[0]).value, ValueOf(s[1]).value;
      if |s| == 2 then Some([(v0 * 4 + v1 / 16) as byte])
      else if ValueOf(s[2]).None? then None
      else
        var v2 := ValueOf(s[2]).value;
        if |s| == 3 then Some([(v0 * 4 + v1 / 16) as byte, ((v1 % 16) * 16 + v2 / 4) as byte])
        else if ValueOf(s[3]).None? then None
        else
          match Decode(s[4..])
          case None => None
          case Some(rest) => Some(DecodeGroup(v0, v1, v2, ValueOf(s[3]).value) + rest)
  }

  lemma GroupRoundTrip(b0: byte, b1: byte, b2: byte)
    ensures DecodeGroup(b0 as int / 4, (b0 as int % 4) * 16 + b1 as int / 16,
                        (b1 as int % 16) * 4 + b2 as int / 64, b2 as int % 64) == [b0, b1, b2]
  {
  }

  /** Four characters that decode on their own decode the same way in front of any
      decodable rest. */
  lemma DecodeFullGroupPrefix(g: string, t: string)
    requires |g| == 4 && Decode(g).Some? && Decode(t).Some?
    ensures Decode(g + t) == Some(Decode(g).value + Decode(t).value)
  {
    var s := g + t;
    assert s[0] == g[0] && s[1] == g[1] && s[2] == g[2] && s[3] == g[3];
    assert s[4..] == t;
    assert g[4..] == [];
    var group := DecodeGroup(ValueOf(g[0]).value, ValueOf(g[1]).value, ValueOf(g[2]).value, ValueOf(g[3]).value);
    assert group + [] == group;
    assert Decode(g) == Some(group);
    assert Decode(s) == Some(group + Decode(t).value);
  }

  /** The four characters of a full group decode to its three bytes. */
  lemma DecodeFullGroup(b0: byte, b1: byte, b2: byte)
    ensures Decode(EncodeGroup(b0, b1, b2)) == Some([b0, b1, b2])
  {
    var v0, v1 := b0 as int / 4, (b0 as int % 4) * 16 + b1 as int / 16;
    var v2, v3 := (b1 as int % 16) * 4 + b2 as int / 64, b2 as int % 64;
    var g := EncodeGroup(b0, b1, b2);
    ValueOfCharOf(v0);
    ValueOfCharOf(v1);
    ValueOfCharOf(v2);
    ValueOfCharOf(v3);
    assert g[4..] == [];
    GroupRoundTrip(b0, b1, b2);
    assert DecodeGroup(v0, v1, v2, v3) + [] == [b0, b1, b2];
    assert Decode(g) == Some(DecodeGroup(v0, v1, v2, v3) + []);
  }

  lemma DecodeTwoBytes(b0: byte, b1: byte)
    ensures Decode(Encode([b0, b1])) == Some([b0, b1])
  {
    var v0, v1, v2 := b0 as int / 4, (b0 as int % 4) * 16 + b1 as int / 16, (b1 as int % 16) * 4;
    ValueOfCharOf(v0);
    ValueOfCharOf(v1);
    ValueOfCharOf(v2);
    assert v1 / 16 == b0 as int % 4 && v1 % 16 == b1 as int / 16 && v2 / 4 == b1 as int % 16;
  }

  lemma DecodeOneByte(b0: byte)
    ensures Decode(Encode([b0])) == Some([b0])
  {
    var v0, v1 := b0 as int / 4, (b0 as int % 4) * 16;
    ValueOfCharOf(v0);
    ValueOfCharOf(v1);
    assert v1 / 16 == b0 as int % 4;
  }

  /** Encoding takes the bytes three at a time. */
  lemma EncodeFirstGroup(b: seq<byte>)
    requires |b| >= 3
    ensures Encode(b) == EncodeGroup(b[0], b[1], b[2]) + Encode(b[3..])
  {
  }

  /** The encoding of the first three bytes, in front of a string that decodes to the
      remaining bytes, decodes to all of them. */
  lemma DecodeGroupThenRest(b: seq<byte>, t: string)
    requires |b| >= 3 && Decode(t) == Some(b[3..])
    ensures Decode(EncodeGroup(b[0], b[1], b[2]) + t) == Some(b)
  {
    DecodeFullGroup(b[0], b[1], b[2]);
    DecodeFullGroupPrefix(EncodeGroup(b[0], b[1], b[2]), t);
    assert b == [b[0], b[1], b[2]] + b[3..];
  }

  /** Decoding undoes encoding, for every byte sequence. */
  lemma {:induction false} DecodeEncode(b: seq<byte>)
    ensures Decode(Encode(b)) == Some(b)
  {
    if |b| >= 3 {
      DecodeEncode(b[3..]);
      EncodeFirstGroup(b);
      DecodeGroupThenRest(b, Encode(b[3..]));
    } else if |b| == 2 {
      assert b == [b[0], b[1]];
      DecodeTwoBytes(b[0], b[1]);
    } else if |b| == 1 {
      assert b == [b[0]];
      DecodeOneByte(b[0]);
    }
  }

  /** Encoding never produces the padding character. */
  lemma NoPadding(b: seq<byte>)
    ensures '=' !in Encode(b)
  {
  }
}
