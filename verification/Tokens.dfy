/**
 The textual forms of secrets and keys: base64 as in sections 4 and 5 of RFC 4648,
 decoded strictly (no stray bits after the last byte, padding exactly where the
 variant puts it). Secret tokens use the URL-safe alphabet without padding, WireGuard
 keys the standard alphabet with padding; both are 32 bytes.
*/
module Tokens {
  import opened Wrappers

  type Byte = x: int | 0 <= x < 256

  type Sextet = x: int | 0 <= x < 64

  /** The last two characters of the alphabet; the first 62 are common to both variants. */
  datatype Variant = Standard | UrlSafe {
    function Digit(v: Sextet): char {
      if v < 26 then 'A' + v as char
      else if v < 52 then 'a' + (v - 26) as char
      else if v < 62 then '0' + (v - 52) as char
      else if v == 62 then (if Standard? then '+' else '-')
      else (if Standard? then '/' else '_')
    }

    function Value(c: char): (r: Option<Sextet>)
      ensures r.Some? ==> Digit(r.value) == c
    {
      if 'A' <= c <= 'Z' then Some((c - 'A') as int)
      else if 'a' <= c <= 'z' then Some((c - 'a') as int + 26)
      else if '0' <= c <= '9' then Some((c - '0') as int + 52)
      else if c == Digit(62) then Some(62)
      else if c == Digit(63) then Some(63)
      else None
    }

    lemma ValueOfDigit(v: Sextet)
      ensures Value(Digit(v)) == Some(v)
    {}
  }

  const TOKEN_BYTES := 32

  // ---------- Encoding and decoding without padding ----------

  function Encode(variant: Variant, bytes: seq<Byte>): (s: string)
    ensures |s| == (4 * |bytes| + 2) / 3
    ensures forall c | c in s :: variant.Value(c).Some?
  {
    if bytes == [] then ""
    else
      EncodeGroup(variant, bytes[..if |bytes| < 3 then |bytes| else 3])
      + if |bytes| <= 3 then "" else Encode(variant, bytes[3..])
  }

  /** One to three bytes become two to four characters. */
  function EncodeGroup(variant: Variant, b: seq<Byte>): (s: string)
    requires 1 <= |b| <= 3
    ensures |s| == |b| + 1
    ensures forall c | c in s :: variant.Value(c).Some?
  {
    Digits(variant, Pack(b))
  }

  function Digits(variant: Variant, sextets: seq<Sextet>): (s: string)
    ensures |s| == |sextets|
    ensures forall i | 0 <= i < |s| :: variant.Value(s[i]) == Some(sextets[i])
  {
    seq(|sextets|, i requires 0 <= i < |sextets| => variant.ValueOfDigit(sextets[i]); variant.Digit(sextets[i]))
  }

  /** The bits of one to three bytes in groups of six, the last filled up with zeros. */
  function Pack(b: seq<Byte>): (v: seq<Sextet>)
    requires 1 <= |b| <= 3
    ensures |v| == |b| + 1
  {
    match |b|
    case 1 => [b[0] / 4, b[0] % 4 * 16]
    case 2 => [b[0] / 4, b[0] % 4 * 16 + b[1] / 16, b[1] % 16 * 4]
    case _ => [b[0] / 4, b[0] % 4 * 16 + b[1] / 16, b[1] % 16 * 4 + b[2] / 64, b[2] % 64]
  }

  function Unpack(v: seq<Sextet>): (b: Option<seq<Byte>>)
    requires |v| <= 4
    ensures b.Some? ==> |v| >= 2 && |b.value| == |v| - 1
  {
    match |v|
    case 2 => if v[1] % 16 == 0 then Some([First(v[0], v[1])]) else None
    case 3 => if v[2] % 4 == 0 then Some([First(v[0], v[1]), Second(v[1], v[2])]) else None
    case 4 => Some([First(v[0], v[1]), Second(v[1], v[2]), Third(v[2], v[3])])
    case _ => None
  }

  function First(v0: int, v1: int): (b: Byte)
    requires 0 <= v0 < 64 && 0 <= v1 < 64
    ensures b / 4 == v0 && b % 4 == v1 / 16
  {
    v0 * 4 + v1 / 16
  }

  function Second(v1: int, v2: int): (b: Byte)
    requires 0 <= v1 < 64 && 0 <= v2 < 64
    ensures b / 16 == v1 % 16 && b % 16 == v2 / 4
  {
    v1 % 16 * 16 + v2 / 4
  }

  function Third(v2: int, v3: int): (b: Byte)
    requires 0 <= v2 < 64 && 0 <= v3 < 64
    ensures b / 64 == v2 % 4 && b % 64 == v3
  {
    v2 % 4 * 64 + v3
  }

  lemma PackedUnpacks(b: seq<Byte>)
    requires 1 <= |b| <= 3
    ensures Unpack(Pack(b)) == Some(b)
  {
    var v := Pack(b);
    assert First(v[0], v[1]) == b[0];
    if |b| == 1 {
      assert v[1] % 16 == 0;
    } else if |b| == 2 {
      assert v[2] % 4 == 0 && Second(v[1], v[2]) == b[1];
    } else {
      assert Second(v[1], v[2]) == b[1] && Third(v[2], v[3]) == b[2];
    }
    assert Unpack(v).value == b;
  }

  lemma UnpackedPacks(v: seq<Sextet>)
    requires |v| <= 4 && Unpack(v).Some?
    ensures Pack(Unpack(v).value) == v
  {
    var p := Pack(Unpack(v).value);
    assert p[0] == v[0] && p[1] == v[1];
  }

  function Decode(variant: Variant, s: string): Option<seq<Byte>> {
    if s == "" then Some([])
    else
      match DecodeGroup(variant, s[..if |s| < 4 then |s| else 4])
      case None => None
      case Some(first) =>
        if |s| <= 4 then Some(first)
        else
          match Decode(variant, s[4..])
          case None => None
          case Some(rest) => Some(first + rest)
  }

  /** A group of two to four characters; bits past the last whole byte must be zero. */
  function DecodeGroup(variant: Variant, s: string): (r: Option<seq<Byte>>)
    requires 1 <= |s| <= 4
    ensures r.Some? ==> |r.value| == |s| - 1 && |s| >= 2
  {
    if exists i | 0 <= i < |s| :: variant.Value(s[i]).None? then None
    else Unpack(Values(variant, s))
  }

  function Values(variant: Variant, s: string): (v: seq<Sextet>)
    requires forall i | 0 <= i < |s| :: variant.Value(s[i]).Some?
    ensures |v| == |s| && Digits(variant, v) == s
  {
    seq(|s|, i requires 0 <= i < |s| => variant.Value(s[i]).value)
  }

  lemma GroupDecodes(variant: Variant, b: seq<Byte>)
    requires 1 <= |b| <= 3
    ensures DecodeGroup(variant, EncodeGroup(variant, b)) == Some(b)
  {
    PackedUnpacks(b);
    assert Values(variant, EncodeGroup(variant, b)) == Pack(b);
  }

  lemma GroupIsCanonical(variant: Variant, s: string)
    requires 1 <= |s| <= 4 && DecodeGroup(variant, s).Some?
    ensures EncodeGroup(variant, DecodeGroup(variant, s).value) == s
  {
    UnpackedPacks(Values(variant, s));
  }

  /** Decoding undoes encoding. */
  lemma {:induction false} EncodedDecodes(variant: Variant, bytes: seq<Byte>)
    ensures Decode(variant, Encode(variant, bytes)) == Some(bytes)
  {
    if bytes != [] {
      var n := if |bytes| < 3 then |bytes| else 3;
      GroupDecodes(variant, bytes[..n]);
      var s, group := Encode(variant, bytes), EncodeGroup(variant, bytes[..n]);
      if |bytes| <= 3 {
        assert bytes[..n] == bytes && s == group && s[..|s|] == s;
      } else {
        EncodedDecodes(variant, bytes[3..]);
        assert s[..4] == group && s[4..] == Encode(variant, bytes[3..]);
        assert bytes[..3] + bytes[3..] == bytes;
      }
    }
  }

  /** Nothing else decodes: a text that decodes is the encoding of what it decodes to. */
  lemma {:induction false} DecodedEncodes(variant: Variant, s: string)
    ensures Decode(variant, s).Some? ==> Encode(variant, Decode(variant, s).value) == s
  {
    if s != "" && Decode(variant, s).Some? {
      var n := if |s| < 4 then |s| else 4;
      GroupIsCanonical(variant, s[..n]);
      var bytes := Decode(variant, s).value;
      var first := DecodeGroup(variant, s[..n]).value;
      if |s| <= 4 {
        assert s[..n] == s && bytes[..|bytes|] == bytes;
      } else {
        DecodedEncodes(variant, s[4..]);
        var rest := Decode(variant, s[4..]).value;
        assert Encode(variant, rest) == s[4..] != "";
        assert rest != [];
        assert bytes[..3] == first && bytes[3..] == rest;
        assert s[..4] + s[4..] == s;
      }
    }
  }

  // ---------- The alphabets and the order of bits ----------

  /** The digits, in the order of their values: A to Z, a to z, 0 to 9, and two more. */
  lemma AlphabetIsExact(variant: Variant, v: Sextet)
    ensures variant.Digit(0) == 'A' && variant.Digit(25) == 'Z' && variant.Digit(26) == 'a' && variant.Digit(51) == 'z'
    ensures variant.Digit(52) == '0' && variant.Digit(61) == '9'
    ensures UrlSafe.Digit(62) == '-' && UrlSafe.Digit(63) == '_' && Standard.Digit(62) == '+' && Standard.Digit(63) == '/'
    ensures v < 61 && v != 25 && v != 51 ==> variant.Digit(v + 1) as int == variant.Digit(v) as int + 1
  {}

  function ByteAt(b: seq<Byte>, i: nat): int {
    if i < |b| then b[i] else 0
  }

  function SextetAt(v: seq<Sextet>, i: nat): int {
    if i < |v| then v[i] else 0
  }

  /** The bytes of a group as a number in base 256, and its sextets as a number in base 64; what is missing to the right is zero. */
  ghost predicate SameNumber(b: seq<Byte>, v: seq<Sextet>) {
    (ByteAt(b, 0) * 256 + ByteAt(b, 1)) * 256 + ByteAt(b, 2)
    == ((SextetAt(v, 0) * 64 + SextetAt(v, 1)) * 64 + SextetAt(v, 2)) * 64 + SextetAt(v, 3)
  }

  /** A group of bytes is written with the digits of its number, the first byte first. */
  lemma GroupsAreBigEndian(variant: Variant, b: seq<Byte>)
    requires 1 <= |b| <= 3
    ensures exists v: seq<Sextet> :: |v| == |b| + 1 == |EncodeGroup(variant, b)| && SameNumber(b, v)
              && forall i | 0 <= i < |v| :: EncodeGroup(variant, b)[i] == variant.Digit(v[i])
  {
    var v := Pack(b);
    assert forall i | 0 <= i < |v| :: variant.Value(EncodeGroup(variant, b)[i]) == Some(v[i]);
    assert SameNumber(b, v);
  }

  /** Groups of three bytes are encoded one after the other. */
  lemma GroupsFollow(variant: Variant, bytes: seq<Byte>)
    requires |bytes| > 3
    ensures Encode(variant, bytes) == EncodeGroup(variant, bytes[..3]) + Encode(variant, bytes[3..])
  {}

  // ---------- Secret tokens ----------

  type Secret = b: seq<Byte> | |b| == TOKEN_BYTES witness seq(TOKEN_BYTES, _ => 0)

  function Expose(token: Secret): string {
    Encode(UrlSafe, token)
  }

  /** `None` is the source's invalid-token error. */
  function Parse(value: string): Option<Secret> {
    match Decode(UrlSafe, value)
    case None => None
    case Some(bytes) => if |bytes| == TOKEN_BYTES then Some(bytes) else None
  }

  /** Parsing and exposing are inverse: each token has one text of 43 characters, and only those texts parse. */
  lemma ParseInvertsExpose(value: string, token: Secret)
    ensures Parse(value) == Some(token) <==> value == Expose(token)
    ensures |Expose(token)| == 43
  {
    EncodedDecodes(UrlSafe, token);
    DecodedEncodes(UrlSafe, value);
  }

  // ---------- WireGuard keys ----------

  /** Padding is required, and canonical: up to two signs that fill the last group. */
  function DecodePadded(value: string): Option<seq<Byte>> {
    var n := |value|;
    if n % 4 != 0 then None
    else if n > 0 && value[n - 1] == '=' then
      if value[n - 2] == '=' then Decode(Standard, value[..n - 2]) else Decode(Standard, value[..n - 1])
    else Decode(Standard, value)
  }

  function NewPublicKey(value: string): Option<string> {
    match DecodePadded(value)
    case None => None
    case Some(decoded) =>
      if |value| == 44 && value[|value| - 1] == '=' && |decoded| == 32 then Some(value) else None
  }

  /** What an accepted text decodes to, and back. */
  lemma KeyDecodes(value: string)
    requires NewPublicKey(value).Some?
    ensures |DecodePadded(value).value| == 32 && value == Encode(Standard, DecodePadded(value).value) + "="
  {
    var n, key := |value|, DecodePadded(value).value;
    if value[n - 2] == '=' {
      DecodedEncodes(Standard, value[..n - 2]);
      assert false;
    } else {
      DecodedEncodes(Standard, value[..n - 1]);
    }
  }

  lemma PaddedIsAccepted(body: string, key: Secret)
    requires |body| == 43 && Standard.Value(body[42]).Some? && Decode(Standard, body) == Some(key)
    ensures NewPublicKey(body + "=").Some?
  {
    var value := body + "=";
    assert Standard.Value('=').None?;
    assert value[..43] == body && value[42] == body[42];
  }

  lemma EncodedKeyIsAccepted(key: Secret)
    ensures NewPublicKey(Encode(Standard, key) + "=").Some?
  {
    var body := Encode(Standard, key);
    assert body[42] in body;
    EncodedDecodes(Standard, key);
    PaddedIsAccepted(body, key);
  }

  /** The accepted key texts are the encodings of 32-byte keys. */
  lemma AcceptedKeysAreEncodings(value: string)
    ensures NewPublicKey(value).Some? <==> exists key: Secret :: value == Encode(Standard, key) + "="
  {
    if NewPublicKey(value).Some? {
      KeyDecodes(value);
      var key: Secret := DecodePadded(value).value;
    }
    forall key: Secret | value == Encode(Standard, key) + "="
      ensures NewPublicKey(value).Some?
    {
      EncodedKeyIsAccepted(key);
    }
  }

  /** Comparing key texts, as enrollment and rotation do, compares the keys. */
  lemma KeyTextIdentifiesKey(a: string, b: string)
    requires NewPublicKey(a).Some? && NewPublicKey(b).Some?
    ensures a == b <==> DecodePadded(a) == DecodePadded(b)
  {
    KeyDecodes(a);
    KeyDecodes(b);
  }
}
