/** Proof keys for code exchange (oauth/pkce.go, RFC 7636 sections 4.1 to 4.6). SHA-256
    with base64url is a parameter; random bytes are a stream. */
module Pkce {
  import opened Options

  type Byte = b: int | 0 <= b < 256

  // generateS256Challenge
  type Hash = string -> string

  datatype Challenge = Challenge(verifier: string, challenge: string, method_: string)

  predicate IsUnreserved(c: char) {
    'A' <= c <= 'Z' || 'a' <= c <= 'z' || '0' <= c <= '9' || c == '-' || c == '.' || c == '_' || c == '~'
  }

  ghost predicate AllUnreserved(s: string) {
    forall i :: 0 <= i < |s| ==> IsUnreserved(s[i])
  }

  // ---- challenges ----

  function MakeChallenge(hash: Hash, method_: string, verifier: string): Option<Challenge> {
    if method_ == "S256" then Some(Challenge(verifier, hash(verifier), method_))
    else if method_ == "plain" then Some(Challenge(verifier, verifier, method_))
    else None
  }

  predicate ValidatePkceChallenge(hash: Hash, verifier: string, challenge: string, method_: string) {
    if method_ == "S256" then challenge == hash(verifier)
    else if method_ == "plain" then verifier == challenge
    else false
  }

  /** A challenge is made for exactly the two methods, and a verifier passes against it if and
      only if it is the original one, or hashes as it does. */
  lemma {:induction false} WhatValidates(hash: Hash, method_: string, verifier: string, other: string)
    ensures MakeChallenge(hash, method_, verifier).Some? <==> method_ == "S256" || method_ == "plain"
    ensures var c := MakeChallenge(hash, method_, verifier);
            c.Some? ==>
              (ValidatePkceChallenge(hash, other, c.value.challenge, c.value.method_)
               <==> if method_ == "S256" then hash(other) == hash(verifier) else other == verifier)
  {
  }

  // ---- verifiers ----

  // One character of base64url.
  function Sextet(d: nat): (c: char)
    requires d < 64
    ensures IsUnreserved(c)
  {
    if d < 26 then ('A' as int + d) as char
    else if d < 52 then ('a' as int + d - 26) as char
    else if d < 62 then ('0' as int + d - 52) as char
    else if d == 62 then '-'
    else '_'
  }

  // base64.RawURLEncoding of the bytes from i on.
  function EncodeFrom(data: seq<Byte>, i: nat): (s: string)
    requires i <= |data|
    ensures |s| == (4 * (|data| - i) + 2) / 3
    ensures AllUnreserved(s)
    decreases |data| - i
  {
    if |data| - i == 0 then ""
    else if |data| - i == 1 then [Sextet(data[i] / 4), Sextet(data[i] % 4 * 16)]
    else if |data| - i == 2 then
      [Sextet(data[i] / 4), Sextet(data[i] % 4 * 16 + data[i + 1] / 16), Sextet(data[i + 1] % 16 * 4)]
    else
      [Sextet(data[i] / 4), Sextet(data[i] % 4 * 16 + data[i + 1] / 16),
       Sextet(data[i + 1] % 16 * 4 + data[i + 2] / 64), Sextet(data[i + 2] % 64)]
      + EncodeFrom(data, i + 3)
  }

  // The value of a character of base64url.
  function SextetValue(c: char): (d: nat)
    ensures d < 64
  {
    if 'A' <= c <= 'Z' then c as int - 'A' as int
    else if 'a' <= c <= 'z' then c as int - 'a' as int + 26
    else if '0' <= c <= '9' then c as int - '0' as int + 52
    else if c == '-' then 62
    else 63
  }

  lemma {:induction false} SextetValueOf(d: nat)
    requires d < 64
    ensures SextetValue(Sextet(d)) == d
  {
  }

  // base64.RawURLEncoding.DecodeString: four characters give three bytes, and a rest of two or
  // three characters one or two (section 5 of RFC 4648).
  function Decode(s: string): seq<Byte> {
    if |s| < 2 then []
    else
      var a, b := SextetValue(s[0]), SextetValue(s[1]);
      if |s| == 2 then [a * 4 + b / 16]
      else
        var d := SextetValue(s[2]);
        if |s| == 3 then [a * 4 + b / 16, b % 16 * 16 + d / 4]
        else [a * 4 + b / 16, b % 16 * 16 + d / 4, d % 4 * 64 + SextetValue(s[3])] + Decode(s[4..])
  }

  // The bits of two bytes in two characters and a half.
  lemma {:induction false} Halves(x: Byte, y: Byte)
    ensures var b := x % 4 * 16 + y / 16; b < 64 && x / 4 * 4 + b / 16 == x && b % 16 == y / 16
  {
  }

  lemma {:induction false} Quarters(y: Byte, z: Byte)
    ensures var d := y % 16 * 4 + z / 64; d < 64 && d / 4 == y % 16 && d % 4 == z / 64
    ensures y / 16 * 16 + y % 16 == y && z / 64 * 64 + z % 64 == z
  {
  }

  lemma {:induction false} DecodeTriple(x: Byte, y: Byte, z: Byte, t: string)
    ensures Decode([Sextet(x / 4), Sextet(x % 4 * 16 + y / 16), Sextet(y % 16 * 4 + z / 64), Sextet(z % 64)] + t)
         == [x, y, z] + Decode(t)
  {
    hide Sextet, SextetValue;
    var b, d := x % 4 * 16 + y / 16, y % 16 * 4 + z / 64;
    Halves(x, y);
    Quarters(y, z);
    SextetValueOf(x / 4);
    SextetValueOf(b);
    SextetValueOf(d);
    SextetValueOf(z % 64);
    var s := [Sextet(x / 4), Sextet(b), Sextet(d), Sextet(z % 64)] + t;
    assert s[4..] == t;
  }

  lemma {:induction false} DecodeRest(x: Byte, y: Byte)
    ensures Decode([Sextet(x / 4), Sextet(x % 4 * 16)]) == [x]
    ensures Decode([Sextet(x / 4), Sextet(x % 4 * 16 + y / 16), Sextet(y % 16 * 4)]) == [x, y]
  {
    hide Sextet, SextetValue;
    Halves(x, y);
    Halves(x, 0);
    Quarters(y, 0);
    SextetValueOf(x / 4);
    SextetValueOf(x % 4 * 16);
    SextetValueOf(x % 4 * 16 + y / 16);
    SextetValueOf(y % 16 * 4);
  }

  /** Decoding gives the bytes back: no bit that was drawn is lost in the encoding. */
  lemma {:induction false} DecodeOfEncode(data: seq<Byte>, i: nat)
    requires i <= |data|
    ensures Decode(EncodeFrom(data, i)) == data[i..]
    decreases |data| - i
  {
    hide Sextet, Decode;
    var n := |data| - i;
    if n >= 3 {
      DecodeTriple(data[i], data[i + 1], data[i + 2], EncodeFrom(data, i + 3));
      DecodeOfEncode(data, i + 3);
      assert data[i..] == [data[i], data[i + 1], data[i + 2]] + data[i + 3..];
    } else if n == 2 {
      DecodeRest(data[i], data[i + 1]);
      assert data[i..] == [data[i], data[i + 1]];
    } else if n == 1 {
      DecodeRest(data[i], 0);
      assert data[i..] == [data[i]];
    } else {
      DecodeNothing();
      assert data[i..] == [];
    }
  }

  lemma {:induction false} DecodeNothing()
    ensures Decode("") == []
  {
  }

  function ByteLength(length: nat): nat {
    if length * 3 / 4 < 32 then 32 else length * 3 / 4
  }

  function Draw(random: nat -> Byte, n: nat): seq<Byte> {
    seq(n, i requires 0 <= i < n => random(i))
  }

  // The encoded bytes, before truncation and padding.
  function Encoded(length: nat, random: nat -> Byte): string {
    EncodeFrom(Draw(random, ByteLength(length)), 0)
  }

  /** For every length a caller may ask for nothing is ever cut off, and padding, which the
      source expects never to happen, happens exactly for the lengths of the form 4n + 1,
      by one character. */
  lemma {:induction false} PaddingNeeded(length: nat, random: nat -> Byte)
    requires length >= 43
    ensures |Encoded(length, random)| == if length % 4 == 1 then length - 1 else length
  {
    hide EncodeFrom;
    var n, r := length / 4, length % 4;
    assert length == 4 * n + r && n >= 10;
    assert ByteLength(length) == 3 * n + r * 3 / 4;
  }

  function Least(a: nat, b: nat): nat {
    if a < b then a else b
  }

  /** The verifier has the length asked for, whatever it is, starts with the encoded bytes,
      continues with the top six bits of further ones, and passes the final validation. */
  method GenerateCodeVerifierWithLength(length: nat, random: nat -> Byte) returns (r: Option<string>)
    ensures r.Some? && |r.value| == length && AllUnreserved(r.value)
    ensures var e := Encoded(length, random);
            && r.value[..Least(length, |e|)] == e[..Least(length, |e|)]
            && forall i :: |e| <= i < length ==>
                 r.value[i] == Sextet(random(ByteLength(length) + i - |e|) / 4)
  {
    hide Sextet, EncodeFrom, IsUnreserved, ByteLength;
    var byteLength := ByteLength(length);
    var verifier := EncodeFrom(Draw(random, byteLength), 0);
    ghost var e := verifier;
    if |verifier| > length {
      verifier := verifier[..length];
    }
    var drawn := byteLength;
    while |verifier| < length
      invariant |verifier| <= length && AllUnreserved(verifier)
      invariant drawn == byteLength + |verifier| - Least(length, |e|)
      invariant verifier[..Least(length, |e|)] == e[..Least(length, |e|)]
      invariant forall i :: |e| <= i < |verifier| ==> verifier[i] == Sextet(random(byteLength + i - |e|) / 4)
    {
      var c := EncodeFrom([random(drawn)], 0);
      FirstOfOne(random(drawn));
      verifier := verifier + [c[0]];
      drawn := drawn + 1;
    }
    for i := 0 to |verifier| {
      if !IsUnreserved(verifier[i]) {
        return None;
      }
    }
    return Some(verifier);
  }

  lemma {:induction false} FirstOfOne(b: Byte)
    ensures EncodeFrom([b], 0) != [] && EncodeFrom([b], 0)[0] == Sextet(b / 4)
  {
  }

  // ValidateVerifier, which counts the same bounds the generator checks.
  method ValidateVerifier(verifier: string) returns (ok: bool)
    ensures ok <==> 43 <= |verifier| <= 128 && AllUnreserved(verifier)
  {
    if |verifier| < 43 || |verifier| > 128 {
      return false;
    }
    for i := 0 to |verifier|
      invariant AllUnreserved(verifier[..i])
    {
      if !IsUnreserved(verifier[i]) {
        return false;
      }
    }
    assert verifier[..|verifier|] == verifier;
    return true;
  }

  /** A challenge of a given length is made for the lengths and methods RFC 7636 knows, and
      then its own verifier passes both validations. */
  method GeneratePkceChallengeWithLength(hash: Hash, method_: string, length: int, random: nat -> Byte)
    returns (r: Option<Challenge>)
    ensures r.Some? <==> 43 <= length <= 128 && (method_ == "S256" || method_ == "plain")
    ensures r.Some? ==>
      && |r.value.verifier| == length && AllUnreserved(r.value.verifier)
      && r.value.method_ == method_
      && ValidatePkceChallenge(hash, r.value.verifier, r.value.challenge, method_)
  {
    if length < 43 || length > 128 {
      return None;
    }
    var verifier := GenerateCodeVerifierWithLength(length, random);
    r := MakeChallenge(hash, method_, verifier.value);
    WhatValidates(hash, method_, verifier.value, verifier.value);
  }
}
