/**
 * Base64 as RFC 4648 section 4 defines it: the 64-character alphabet
 * A-Z, a-z, 0-9, '+', '/', 24-bit groups written as four characters,
 * and '=' padding in the last group.
 *
 * The codec calls Python's `base64.b64encode` and `base64.b64decode`;
 * the encoder here produces the canonical padded form, and the decoder
 * accepts exactly the strings made of whole 4-character groups with
 * padding only in the last group. Like Python's decoder it ignores the
 * unused low bits of a padded final group.
 */
module Base64 {
  import opened Wrappers

  type byte = bv8

  const Pad: char := '='

  /** The character for a 6-bit value (Table 1 of RFC 4648). */
  function CharOf(n: int): (c: char)
    requires 0 <= n < 64
    ensures c != Pad
  {
    if n < 26 then ('A' as int + n) as char
    else if n < 52 then ('a' as int + (n - 26)) as char
    else if n < 62 then ('0' as int + (n - 52)) as char
    else if n == 62 then '+'
    else '/'
  }

  /** The 6-bit value of an alphabet character, or None for any other character. */
  function ValueOf(c: char): (r: Option<int>)
    ensures r.Some? ==> 0 <= r.value < 64 && CharOf(r.value) == c
  {
    if 'A' <= c <= 'Z' then Some(c as int - 'A' as int)
    else if 'a' <= c <= 'z' then Some(c as int - 'a' as int + 26)
    else if '0' <= c <= '9' then Some(c as int - '0' as int + 52)
    else if c == '+' then Some(62)
    else if c == '/' then Some(63)
    else None
  }

  lemma ValueOfCharOf(n: int)
    requires 0 <= n < 64
    ensures ValueOf(CharOf(n)) == Some(n)
  {
  }

  predicate InAlphabet(c: char)
  {
    ValueOf(c).Some?
  }

  /** The character for a sextet held in a byte. */
  function Sym(v: byte): (c: char)
    requires v < 64
    ensures ValueOf(c) == Some(v as int) && c != Pad
  {
    ValueOfCharOf(v as int);
    CharOf(v as int)
  }

  /** The sextet of an alphabet character, as a byte. */
  function SextetOf(c: char): (r: Option<byte>)
    ensures r.Some? ==> r.value < 64
    ensures forall v: byte :: v < 64 && c == Sym(v) ==> r == Some(v)
  {
    match ValueOf(c)
    case None => None
    case Some(n) => Some(n as byte)
  }

  // The four sextets of a 24-bit group a b c.
  function S0(a: byte): byte { a >> 2 }
  function S1(a: byte, b: byte): byte { ((a & 3) << 4) | (b >> 4) }
  function S2(b: byte, c: byte): byte { ((b & 15) << 2) | (c >> 6) }
  function S3(c: byte): byte { c & 63 }

  // The bytes of a 24-bit group written as sextets v0 v1 v2 v3.
  function B0(v0: byte, v1: byte): byte { (v0 << 2) | (v1 >> 4) }
  function B1(v1: byte, v2: byte): byte { ((v1 & 15) << 4) | (v2 >> 2) }
  function B2(v2: byte, v3: byte): byte { ((v2 & 3) << 6) | v3 }

  lemma SextetsRoundTrip(a: byte, b: byte, c: byte)
    ensures S0(a) < 64 && S1(a, b) < 64 && S2(b, c) < 64 && S3(c) < 64
    ensures B0(S0(a), S1(a, b)) == a
    ensures B1(S1(a, b), S2(b, c)) == b
    ensures B2(S2(b, c), S3(c)) == c
  {
  }

  /** Canonical padded encoding of a byte string. */
  function Encode(bs: seq<byte>): (s: string)
    ensures |s| == 4 * ((|bs| + 2) / 3)
    decreases |bs|
  {
    SextetsRoundTrip(if |bs| > 0 then bs[0] else 0, if |bs| > 1 then bs[1] else 0, if |bs| > 2 then bs[2] else 0);
    if |bs| >= 3 then
      [Sym(S0(bs[0])), Sym(S1(bs[0], bs[1])), Sym(S2(bs[1], bs[2])), Sym(S3(bs[2]))]
      + Encode(bs[3..])
    else if |bs| == 2 then
      [Sym(S0(bs[0])), Sym(S1(bs[0], bs[1])), Sym(S2(bs[1], 0)), Pad]
    else if |bs| == 1 then
      [Sym(S0(bs[0])), Sym(S1(bs[0], 0)), Pad, Pad]
    else
      []
  }

  /** Decodes one group of four alphabet characters into three bytes. */
  function DecodeGroup(c0: char, c1: char, c2: char, c3: char): (r: Option<seq<byte>>)
    ensures r.Some? ==> |r.value| == 3
  {
    match (SextetOf(c0), SextetOf(c1), SextetOf(c2), SextetOf(c3))
    case (Some(v0), Some(v1), Some(v2), Some(v3)) => Some([B0(v0, v1), B1(v1, v2), B2(v2, v3)])
    case _ => None
  }

  /** Decodes the last group, which may end in "=" (two bytes) or "==" (one byte). */
  function DecodeLastGroup(c0: char, c1: char, c2: char, c3: char): (r: Option<seq<byte>>)
    ensures r.Some? ==> 1 <= |r.value| <= 3
  {
    if c3 != Pad then DecodeGroup(c0, c1, c2, c3)
    else if c2 == Pad then
      match (SextetOf(c0), SextetOf(c1))
      case (Some(v0), Some(v1)) => Some([B0(v0, v1)])
      case _ => None
    else
      match (SextetOf(c0), SextetOf(c1), SextetOf(c2))
      case (Some(v0), Some(v1), Some(v2)) => Some([B0(v0, v1), B1(v1, v2)])
      case _ => None
  }

  /** Decodes a padded Base64 string; None when it is not one. */
  function Decode(s: string): (r: Option<seq<byte>>)
    ensures r.Some? ==> |s| % 4 == 0 && |r.value| <= 3 * (|s| / 4)
    decreases |s|
  {
    if |s| == 0 then Some([])
    else if |s| < 4 then None
    else if |s| == 4 then DecodeLastGroup(s[0], s[1], s[2], s[3])
    else
      match DecodeGroup(s[0], s[1], s[2], s[3])
      case None => None
      case Some(g) =>
        match Decode(s[4..])
        case None => None
        case Some(rest) => Some(g + rest)
  }

  /** Every character of an encoding is in the alphabet or is padding, and padding only ends it. */
  lemma {:induction false} EncodeAlphabet(bs: seq<byte>)
    ensures forall i :: 0 <= i < |Encode(bs)| ==> InAlphabet(Encode(bs)[i]) || Encode(bs)[i] == Pad
    ensures forall i :: 0 <= i < |Encode(bs)| - 2 ==> Encode(bs)[i] != Pad
    decreases |bs|
  {
    SextetsRoundTrip(if |bs| > 0 then bs[0] else 0, if |bs| > 1 then bs[1] else 0, if |bs| > 2 then bs[2] else 0);
    if |bs| >= 3 {
      EncodeAlphabet(bs[3..]);
      var g := Encode(bs)[..4];
      assert Encode(bs) == g + Encode(bs[3..]);
      forall i | 0 <= i < |Encode(bs)|
        ensures InAlphabet(Encode(bs)[i]) || Encode(bs)[i] == Pad
        ensures i < |Encode(bs)| - 2 ==> Encode(bs)[i] != Pad
      {
        if i >= 4 {
          assert Encode(bs)[i] == Encode(bs[3..])[i - 4];
        } else {
          assert Encode(bs)[i] == g[i];
        }
      }
    }
  }

  /** Decoding inverts encoding on every byte string, the empty one included. */
  lemma {:induction false} DecodeEncode(bs: seq<byte>)
    ensures Decode(Encode(bs)) == Some(bs)
    decreases |bs|
  {
    var s := Encode(bs);
    if |bs| == 0 {
    } else {
      SextetsRoundTrip(bs[0], if |bs| > 1 then bs[1] else 0, if |bs| > 2 then bs[2] else 0);
      if |bs| >= 3 {
        assert s[..4] == [Sym(S0(bs[0])), Sym(S1(bs[0], bs[1])), Sym(S2(bs[1], bs[2])), Sym(S3(bs[2]))];
        assert SextetOf(s[0]) == Some(S0(bs[0])) && SextetOf(s[1]) == Some(S1(bs[0], bs[1]));
        assert SextetOf(s[2]) == Some(S2(bs[1], bs[2])) && SextetOf(s[3]) == Some(S3(bs[2]));
        assert bs[..3] == [bs[0], bs[1], bs[2]];
        assert DecodeGroup(s[0], s[1], s[2], s[3]) == Some(bs[..3]);
        if |bs| == 3 {
          assert s[3] != Pad;
          assert bs[..3] == bs;
        } else {
          DecodeEncode(bs[3..]);
          assert s[4..] == Encode(bs[3..]);
          assert bs[..3] + bs[3..] == bs;
        }
      } else if |bs| == 2 {
        assert SextetOf(s[0]) == Some(S0(bs[0])) && SextetOf(s[1]) == Some(S1(bs[0], bs[1]));
        assert SextetOf(s[2]) == Some(S2(bs[1], 0));
        assert [bs[0], bs[1]] == bs;
      } else {
        assert SextetOf(s[0]) == Some(S0(bs[0])) && SextetOf(s[1]) == Some(S1(bs[0], 0));
        assert [bs[0]] == bs;
      }
    }
  }
}
