/**
 * The masked-payload codec of the daemon (daemon/src/core/state.py):
 * a mask derived from the password by SHA-512, and an encoding that
 * compresses the UTF-8 text with gzip, drops the two gzip magic bytes,
 * runs a feedback XOR over the rest and writes the result as Base64.
 *
 * UTF-8, gzip and SHA-512 are library calls whose internals are outside
 * the model; they are fields of an `Externals` value, and `Lawful` states
 * the facts about them that the codec relies on.
 */
module AromaCodec {
  import opened Wrappers
  import Base64

  type byte = Base64.byte

  datatype Externals = Externals(
    utf8Encode: string -> seq<byte>,
    utf8Decode: seq<byte> -> Option<string>,
    gzipCompress: seq<byte> -> seq<byte>,
    gzipDecompress: seq<byte> -> Option<seq<byte>>,
    sha512: seq<byte> -> seq<byte>)

  /** ID1 and ID2 of a gzip member (section 2.3.1 of RFC 1952). */
  const GzipMagic: seq<byte> := [0x1F, 0x8B]

  /** A gzip member has a 10-byte header and an 8-byte trailer (section 2.3 of RFC 1952). */
  const GzipMinLength: nat := 18

  /** A SHA-512 digest is 64 bytes (FIPS 180-4). */
  const DigestLength: nat := 64

  /** The salt written around the password before hashing. */
  const SaltPrefix: string := "-<f!-"
  const SaltSuffix: string := "<8z."

  /** What the codec assumes of the UTF-8, gzip and SHA-512 implementations. */
  ghost predicate Lawful(ext: Externals)
  {
    && (forall s :: ext.utf8Decode(ext.utf8Encode(s)) == Some(s))
    && (forall b :: ext.gzipDecompress(ext.gzipCompress(b)) == Some(b))
    && (forall b :: |ext.gzipCompress(b)| >= GzipMinLength && ext.gzipCompress(b)[..2] == GzipMagic)
    && (forall b :: |ext.sha512(b)| == DigestLength)
  }

  datatype CodecError =
    | ZeroDivision   // an empty mask meets a non-empty payload: `i % len(mask)` raises
    | InvalidBase64
    | InvalidGzip
    | InvalidUtf8

  // ---------------------------------------------------------------- mask

  function Salted(pw: string): (s: string)
    ensures |s| == |SaltPrefix| + |pw| + |SaltSuffix|
    ensures s[..|SaltPrefix|] == SaltPrefix && s[|s| - |SaltSuffix|..] == SaltSuffix
    ensures s[|SaltPrefix|..|s| - |SaltSuffix|] == pw
  {
    SaltPrefix + pw + SaltSuffix
  }

  /** generate_mask: SHA-512 of the UTF-8 bytes of the salted password. */
  function GenerateMask(ext: Externals, pw: string): (m: seq<byte>)
    ensures Lawful(ext) ==> |m| == DigestLength
  {
    ext.sha512(ext.utf8Encode(Salted(pw)))
  }

  /** Distinct passwords give distinct hash inputs, so their masks differ unless SHA-512 collides. */
  lemma DistinctPasswordsDistinctDigestInputs(ext: Externals, pw1: string, pw2: string)
    requires Lawful(ext)
    requires pw1 != pw2
    ensures ext.utf8Encode(Salted(pw1)) != ext.utf8Encode(Salted(pw2))
  {
    var s1, s2 := Salted(pw1), Salted(pw2);
    assert s1[|SaltPrefix|..|s1| - |SaltSuffix|] == pw1;
    assert s1 != s2;
    assert ext.utf8Decode(ext.utf8Encode(s1)) == Some(s1);
    assert ext.utf8Decode(ext.utf8Encode(s2)) == Some(s2);
  }

  /** A missing mask is replaced by the single byte 0x00. */
  function EffectiveMask(mask: Option<seq<byte>>): (m: seq<byte>)
    ensures |m| == 0 <==> mask == Some([])
    ensures mask.Some? ==> m == mask.value
  {
    match mask
    case None => [0x00]
    case Some(m) => m
  }

  // ------------------------------------------------------- feedback XOR

  /** The mask byte used at position i: `mask[i % len(mask)]`. */
  function KeyByte(mask: seq<byte>, i: nat): byte
    requires |mask| > 0
  {
    mask[i % |mask|]
  }

  /** The XOR of three bytes. */
  function Mix(a: byte, b: byte, c: byte): byte
  {
    a ^ b ^ c
  }

  /** XORing the same two bytes in again, in either order, restores the first. */
  lemma MixCancels(a: byte, b: byte, c: byte)
    ensures Mix(Mix(a, b, c), c, b) == a
  {
  }

  /** The last byte written so far, 0 before the first. */
  function Last(c: seq<byte>): byte
  {
    if c == [] then 0 else c[|c| - 1]
  }

  /**
   * The output of the encoder's XOR loop on payload p:
   * c[i] = p[i] ^ mask[i % |mask|] ^ c[i - 1], with c[-1] = 0.
   */
  function Chain(mask: seq<byte>, p: seq<byte>): (c: seq<byte>)
    requires |mask| > 0
    ensures |c| == |p|
    decreases |p|
  {
    if p == [] then []
    else
      var prev := Chain(mask, p[..|p| - 1]);
      prev + [Mix(p[|p| - 1], KeyByte(mask, |p| - 1), Last(prev))]
  }

  /** The output of the decoder's XOR loop: p[i] = c[i] ^ c[i - 1] ^ mask[i % |mask|]. */
  function Unchain(mask: seq<byte>, c: seq<byte>): (p: seq<byte>)
    requires |mask| > 0
    ensures |p| == |c|
    decreases |c|
  {
    if c == [] then []
    else
      var front := c[..|c| - 1];
      Unchain(mask, front) + [Mix(c[|c| - 1], Last(front), KeyByte(mask, |c| - 1))]
  }

  lemma {:induction false} UnchainPrefix(mask: seq<byte>, c: seq<byte>, k: nat)
    requires |mask| > 0 && k <= |c|
    ensures Unchain(mask, c)[..k] == Unchain(mask, c[..k])
    decreases |c|
  {
    if k < |c| {
      var front := c[..|c| - 1];
      assert Unchain(mask, c)[..|c| - 1] == Unchain(mask, front);
      UnchainPrefix(mask, front, k);
      assert front[..k] == c[..k];
    } else {
      assert c[..k] == c;
    }
  }

  /** Each decoded byte is the encoded byte, the previous encoded byte and the mask byte XORed. */
  lemma UnchainAt(mask: seq<byte>, c: seq<byte>, i: nat)
    requires |mask| > 0 && i < |c|
    ensures Unchain(mask, c)[i] == Mix(c[i], if i == 0 then 0 else c[i - 1], KeyByte(mask, i))
  {
    var q := c[..i + 1];
    UnchainPrefix(mask, c, i + 1);
    assert q[..i] == c[..i];
    assert Unchain(mask, q) == Unchain(mask, c[..i]) + [Mix(q[i], Last(c[..i]), KeyByte(mask, i))];
    assert Unchain(mask, c)[i] == Unchain(mask, c)[..i + 1][i];
  }

  lemma {:induction false} ChainPrefix(mask: seq<byte>, p: seq<byte>, k: nat)
    requires |mask| > 0 && k <= |p|
    ensures Chain(mask, p)[..k] == Chain(mask, p[..k])
    decreases |p|
  {
    if k < |p| {
      var q := p[..|p| - 1];
      assert Chain(mask, p)[..|p| - 1] == Chain(mask, q);
      ChainPrefix(mask, q, k);
      assert q[..k] == p[..k];
    } else {
      assert p[..k] == p;
    }
  }

  /** Each encoded byte is the payload byte, the mask byte and the previous encoded byte XORed. */
  lemma ChainAt(mask: seq<byte>, p: seq<byte>, i: nat)
    requires |mask| > 0 && i < |p|
    ensures Chain(mask, p)[i] == Mix(p[i], KeyByte(mask, i), if i == 0 then 0 else Chain(mask, p)[i - 1])
  {
    var c := Chain(mask, p);
    var q := p[..i + 1];
    ChainPrefix(mask, p, i + 1);
    ChainPrefix(mask, p, i);
    assert q[..i] == p[..i];
    var prev := Chain(mask, p[..i]);
    assert Chain(mask, q) == prev + [Mix(q[i], KeyByte(mask, i), Last(prev))];
    assert c[i] == c[..i + 1][i];
    assert prev == c[..i];
  }

  /** The decoder's loop undoes the encoder's, for every non-empty mask. */
  lemma UnchainChain(mask: seq<byte>, p: seq<byte>)
    requires |mask| > 0
    ensures Unchain(mask, Chain(mask, p)) == p
  {
    forall i | 0 <= i < |p| ensures Unchain(mask, Chain(mask, p))[i] == p[i] {
      UnchainChainAt(mask, p, i);
    }
  }

  lemma UnchainChainAt(mask: seq<byte>, p: seq<byte>, i: nat)
    requires |mask| > 0 && i < |p|
    ensures Unchain(mask, Chain(mask, p))[i] == p[i]
  {
    var c := Chain(mask, p);
    var k := KeyByte(mask, i);
    var x: byte := if i == 0 then 0 else c[i - 1];
    ChainAt(mask, p, i);
    UnchainAt(mask, c, i);
    MixCancels(p[i], k, x);
  }

  /** And the encoder's loop undoes the decoder's: the feedback XOR is a bijection. */
  lemma {:induction false} ChainUnchain(mask: seq<byte>, c: seq<byte>)
    requires |mask| > 0
    ensures Chain(mask, Unchain(mask, c)) == c
  {
    var p := Unchain(mask, c);
    var d := Chain(mask, p);
    forall i | 0 <= i < |c| ensures d[i] == c[i] {
      ChainFromUnchain(mask, c, i);
    }
  }

  lemma {:induction false} ChainFromUnchain(mask: seq<byte>, c: seq<byte>, i: nat)
    requires |mask| > 0 && i < |c|
    ensures Chain(mask, Unchain(mask, c))[i] == c[i]
    decreases i
  {
    var d := Chain(mask, Unchain(mask, c));
    ChainAt(mask, Unchain(mask, c), i);
    if i > 0 {
      ChainFromUnchain(mask, c, i - 1);
    }
    RechainAt(mask, c, i);
  }

  lemma RechainAt(mask: seq<byte>, c: seq<byte>, i: nat)
    requires |mask| > 0 && i < |c|
    ensures Mix(Unchain(mask, c)[i], KeyByte(mask, i), if i == 0 then 0 else c[i - 1]) == c[i]
  {
    UnchainAt(mask, c, i);
    MixCancels(c[i], if i == 0 then 0 else c[i - 1], KeyByte(mask, i));
  }

  // ------------------------------------------------------ encode/decode

  /** Python's `b[2:]`: everything after the first two bytes, or nothing. */
  function DropMagic(z: seq<byte>): (b: seq<byte>)
    ensures |z| >= 2 && z[..2] == GzipMagic ==> GzipMagic + b == z
  {
    if |z| >= 2 then z[2..] else []
  }

  /** The XOR feedback pass of aroma_encode over the gzip body. */
  function Masked(m: seq<byte>, body: seq<byte>): Result<seq<byte>, CodecError>
  {
    if |body| == 0 then Ok([])
    else if |m| == 0 then Err(ZeroDivision)
    else Ok(Chain(m, body))
  }

  /** The XOR feedback pass of aroma_decode over the Base64-decoded bytes. */
  function Unmasked(m: seq<byte>, c: seq<byte>): Result<seq<byte>, CodecError>
  {
    if |c| == 0 then Ok([])
    else if |m| == 0 then Err(ZeroDivision)
    else Ok(Unchain(m, c))
  }

  /** What aroma_encode returns; the method AromaEncode computes it. */
  function EncodeSpec(ext: Externals, mask: Option<seq<byte>>, s: string): Result<string, CodecError>
  {
    match Masked(EffectiveMask(mask), DropMagic(ext.gzipCompress(ext.utf8Encode(s))))
    case Err(e) => Err(e)
    case Ok(c) => Ok(Base64.Encode(c))
  }

  /** What aroma_decode returns; the method AromaDecode computes it. */
  function DecodeSpec(ext: Externals, mask: Option<seq<byte>>, s: string): Result<string, CodecError>
  {
    match Base64.Decode(s)
    case None => Err(InvalidBase64)
    case Some(c) =>
      match Unmasked(EffectiveMask(mask), c)
      case Err(e) => Err(e)
      case Ok(b) => Inflate(ext, b)
  }

  /** The last steps of aroma_decode: put the magic bytes back, gunzip, decode UTF-8. */
  function Inflate(ext: Externals, body: seq<byte>): (r: Result<string, CodecError>)
    ensures r.Err? ==> r.error == InvalidGzip || r.error == InvalidUtf8
    ensures r.Ok? ==>
      && ext.gzipDecompress(GzipMagic + body).Some?
      && ext.utf8Decode(ext.gzipDecompress(GzipMagic + body).value) == Some(r.value)
  {
    match ext.gzipDecompress(GzipMagic + body)
    case None => Err(InvalidGzip)
    case Some(raw) =>
      match ext.utf8Decode(raw)
      case None => Err(InvalidUtf8)
      case Some(t) => Ok(t)
  }

  lemma EncodeStep(m: seq<byte>, body: seq<byte>, done: seq<byte>, i: nat)
    requires |m| > 0 && i < |body|
    requires done == Chain(m, body[..i])
    ensures done + [Mix(body[i], KeyByte(m, i), Last(done))] == Chain(m, body[..i + 1])
  {
    assert body[..i + 1][..i] == body[..i];
  }

  /** The in-place XOR loop of aroma_encode over a byte array. */
  method MaskBytes(m: seq<byte>, body: seq<byte>) returns (r: Result<seq<byte>, CodecError>)
    ensures r == Masked(m, body)
  {
    var b := new byte[|body|](i requires 0 <= i < |body| => body[i]);
    var l := |m|;
    var last: byte := 0;
    for i := 0 to b.Length
      invariant l == 0 ==> i == 0
      invariant l > 0 ==> b[..i] == Chain(m, body[..i])
      invariant b[i..] == body[i..]
      invariant last == Last(b[..i])
    {
      if l == 0 {
        return Err(ZeroDivision);
      }
      EncodeStep(m, body, b[..i], i);
      ghost var before := b[..];
      b[i] := Mix(b[i], m[i % l], last);
      assert b[..i + 1] == before[..i] + [b[i]];
      assert b[i + 1..] == before[i + 1..];
      last := b[i];
    }
    assert b[..] == b[..b.Length] && body[..b.Length] == body;
    return Ok(b[..]);
  }

  /** aroma_encode. */
  method AromaEncode(ext: Externals, mask: Option<seq<byte>>, s: string) returns (r: Result<string, CodecError>)
    ensures r == EncodeSpec(ext, mask, s)
  {
    var m := EffectiveMask(mask);
    var body := DropMagic(ext.gzipCompress(ext.utf8Encode(s)));
    var masked := MaskBytes(m, body);
    if masked.Err? {
      return Err(masked.error);
    }
    return Ok(Base64.Encode(masked.value));
  }

  lemma DecodeStep(m: seq<byte>, c: seq<byte>, done: seq<byte>, i: nat)
    requires |m| > 0 && i < |c|
    requires done == Unchain(m, c[..i])
    ensures done + [Mix(c[i], Last(c[..i]), KeyByte(m, i))] == Unchain(m, c[..i + 1])
  {
    assert c[..i + 1][..i] == c[..i];
  }

  /** The in-place XOR loop of aroma_decode over a byte array. */
  method UnmaskBytes(m: seq<byte>, c: seq<byte>) returns (r: Result<seq<byte>, CodecError>)
    ensures r == Unmasked(m, c)
  {
    var b := new byte[|c|](i requires 0 <= i < |c| => c[i]);
    var last: byte := 0;
    var l := |m|;
    for i := 0 to b.Length
      invariant l == 0 ==> i == 0
      invariant l > 0 ==> b[..i] == Unchain(m, c[..i])
      invariant b[i..] == c[i..]
      invariant last == Last(c[..i])
    {
      if l == 0 {
        return Err(ZeroDivision);
      }
      var t := b[i];
      DecodeStep(m, c, b[..i], i);
      ghost var before := b[..];
      b[i] := Mix(t, last, m[i % l]);
      assert b[..i + 1] == before[..i] + [b[i]];
      assert b[i + 1..] == before[i + 1..];
      last := t;
    }
    assert b[..] == b[..b.Length] && c[..|c|] == c;
    return Ok(b[..]);
  }

  /** aroma_decode. */
  method AromaDecode(ext: Externals, mask: Option<seq<byte>>, s: string) returns (r: Result<string, CodecError>)
    ensures r == DecodeSpec(ext, mask, s)
  {
    var m := EffectiveMask(mask);
    var decoded := Base64.Decode(s);
    if decoded.None? {
      return Err(InvalidBase64);
    }
    var unmasked := UnmaskBytes(m, decoded.value);
    if unmasked.Err? {
      return Err(unmasked.error);
    }
    return Inflate(ext, unmasked.value);
  }

  /** Encoding fails exactly when the mask is present but empty. */
  lemma EncodeFailsIffEmptyMask(ext: Externals, mask: Option<seq<byte>>, s: string)
    requires Lawful(ext)
    ensures EncodeSpec(ext, mask, s).Err? <==> mask == Some([])
  {
    var z := ext.gzipCompress(ext.utf8Encode(s));
    assert |DropMagic(z)| >= GzipMinLength - 2;
  }

  /** A missing mask and the one-byte mask 0x00 encode alike. */
  lemma NoMaskIsZeroByte(ext: Externals, s: string, t: string)
    ensures EncodeSpec(ext, None, s) == EncodeSpec(ext, Some([0x00]), s)
    ensures DecodeSpec(ext, None, t) == DecodeSpec(ext, Some([0x00]), t)
  {
  }

  /** Decoding with the same mask returns the encoded text. */
  lemma DecodeEncode(ext: Externals, mask: Option<seq<byte>>, s: string)
    requires Lawful(ext)
    requires EncodeSpec(ext, mask, s).Ok?
    ensures DecodeSpec(ext, mask, EncodeSpec(ext, mask, s).value) == Ok(s)
  {
    var m := EffectiveMask(mask);
    var raw := ext.utf8Encode(s);
    var z := ext.gzipCompress(raw);
    var body := DropMagic(z);
    assert GzipMagic + body == z by {
      assert z[..2] == GzipMagic;
      assert z[..2] + z[2..] == z;
    }
    if |body| == 0 {
      Base64.DecodeEncode([]);
    } else {
      var c := Chain(m, body);
      Base64.DecodeEncode(c);
      UnchainChain(m, body);
    }
  }

  /** The round trip of the whole codec for a mask made by GenerateMask. */
  lemma PasswordRoundTrip(ext: Externals, pw: string, s: string)
    requires Lawful(ext)
    ensures EncodeSpec(ext, Some(GenerateMask(ext, pw)), s).Ok?
    ensures DecodeSpec(ext, Some(GenerateMask(ext, pw)), EncodeSpec(ext, Some(GenerateMask(ext, pw)), s).value) == Ok(s)
  {
    EncodeFailsIffEmptyMask(ext, Some(GenerateMask(ext, pw)), s);
    DecodeEncode(ext, Some(GenerateMask(ext, pw)), s);
  }
}
