// Well-formed UTF-8: the byte grammar of section 4 of RFC 3629, which is what
// str::from_utf8 checks, next to the encoding of code points it stands for.
module Utf8 {
  import opened Bytes

  predicate Tail(b: byte) { 0x80 <= b <= 0xBF }

  // The length of the UTF8-char that s starts with, or 0 if it starts with none.
  function CharLength(s: seq<byte>): (n: nat)
    ensures n <= |s| && n <= 4
    ensures s == [] ==> n == 0
  {
    if s == [] then 0
    else if s[0] <= 0x7F then 1
    else if |s| >= 2 && 0xC2 <= s[0] <= 0xDF && Tail(s[1]) then 2
    else if |s| >= 3 && Tail(s[2]) && (
              || (s[0] == 0xE0 && 0xA0 <= s[1] <= 0xBF)
              || (0xE1 <= s[0] <= 0xEC && Tail(s[1]))
              || (s[0] == 0xED && 0x80 <= s[1] <= 0x9F)
              || (0xEE <= s[0] <= 0xEF && Tail(s[1]))) then 3
    else if |s| >= 4 && Tail(s[2]) && Tail(s[3]) && (
              || (s[0] == 0xF0 && 0x90 <= s[1] <= 0xBF)
              || (0xF1 <= s[0] <= 0xF3 && Tail(s[1]))
              || (s[0] == 0xF4 && 0x80 <= s[1] <= 0x8F)) then 4
    else 0
  }

  predicate Valid(s: seq<byte>) {
    s == [] || (CharLength(s) > 0 && Valid(s[CharLength(s)..]))
  }

  // A valid string can be extended exactly by valid strings. One half is what makes
  // from_utf8_unchecked sound after checking only the appended bytes.
  lemma {:induction false} ValidConcat(a: seq<byte>, b: seq<byte>)
    requires Valid(a)
    ensures Valid(a + b) <==> Valid(b)
  {
    if a == [] {
      assert a + b == b;
    } else {
      var n := CharLength(a);
      assert CharLength(a + b) == n;
      assert (a + b)[n..] == a[n..] + b;
      ValidConcat(a[n..], b);
    }
  }

  // Unicode scalar values (section 3 of RFC 3629 excludes the surrogates).
  predicate Scalar(c: nat) {
    c < 0xD800 || 0xE000 <= c < 0x110000
  }

  function EncodeScalar(c: nat): (s: seq<byte>)
    requires Scalar(c)
    ensures 1 <= |s| <= 4
  {
    if c < 0x80 then [c as byte]
    else if c < 0x800 then [(0xC0 + c / 64) as byte, (0x80 + c % 64) as byte]
    else if c < 0x10000 then
      [(0xE0 + c / 4096) as byte, (0x80 + c / 64 % 64) as byte, (0x80 + c % 64) as byte]
    else
      [(0xF0 + c / 262144) as byte, (0x80 + c / 4096 % 64) as byte,
       (0x80 + c / 64 % 64) as byte, (0x80 + c % 64) as byte]
  }

  function EncodeScalars(cs: seq<nat>): seq<byte>
    requires forall c <- cs :: Scalar(c)
  {
    if cs == [] then [] else EncodeScalar(cs[0]) + EncodeScalars(cs[1..])
  }

  function DecodeChar(s: seq<byte>): (c: nat)
    requires CharLength(s) > 0
  {
    match CharLength(s)
    case 1 => s[0] as nat
    case 2 => (s[0] as nat - 0xC0) * 64 + (s[1] as nat - 0x80)
    case 3 => (s[0] as nat - 0xE0) * 4096 + (s[1] as nat - 0x80) * 64 + (s[2] as nat - 0x80)
    case _ => (s[0] as nat - 0xF0) * 262144 + (s[1] as nat - 0x80) * 4096
              + (s[2] as nat - 0x80) * 64 + (s[3] as nat - 0x80)
  }

  // The three six-bit digits of a number are recovered by division.
  lemma {:induction false} Sextets(u: nat, z: nat, y: nat, x: nat)
    requires z < 64 && y < 64 && x < 64
    ensures var c := u * 262144 + z * 4096 + y * 64 + x;
            c / 262144 == u && c / 4096 % 64 == z && c / 64 % 64 == y && c % 64 == x
  {
    var c := u * 262144 + z * 4096 + y * 64 + x;
    assert c / 64 == u * 4096 + z * 64 + y;
    assert c / 4096 == u * 64 + z;
  }

  lemma {:induction false} DecodeCharEncodes(s: seq<byte>)
    requires CharLength(s) > 0
    ensures Scalar(DecodeChar(s)) && EncodeScalar(DecodeChar(s)) == s[..CharLength(s)]
  {
    var c := DecodeChar(s);
    match CharLength(s)
    case 1 =>
    case 2 => Sextets(0, 0, s[0] as nat - 0xC0, s[1] as nat - 0x80);
    case 3 =>
      Sextets(0, s[0] as nat - 0xE0, s[1] as nat - 0x80, s[2] as nat - 0x80);
      assert c / 4096 == s[0] as nat - 0xE0;
    case _ =>
      Sextets(s[0] as nat - 0xF0, s[1] as nat - 0x80, s[2] as nat - 0x80, s[3] as nat - 0x80);
  }

  lemma {:induction false} EncodedIsOneChar(c: nat, rest: seq<byte>)
    requires Scalar(c)
    ensures CharLength(EncodeScalar(c) + rest) == |EncodeScalar(c)|
  {
  }

  lemma {:induction false} EncodedIsValid(cs: seq<nat>)
    requires forall c <- cs :: Scalar(c)
    ensures Valid(EncodeScalars(cs))
  {
    if cs != [] {
      EncodedIsOneChar(cs[0], EncodeScalars(cs[1..]));
      EncodedIsValid(cs[1..]);
    }
  }

  lemma {:induction false} ValidIsEncoded(s: seq<byte>) returns (cs: seq<nat>)
    requires Valid(s)
    ensures forall c <- cs :: Scalar(c)
    ensures EncodeScalars(cs) == s
  {
    if s == [] {
      cs := [];
    } else {
      var n := CharLength(s);
      var rest := ValidIsEncoded(s[n..]);
      DecodeCharEncodes(s);
      cs := [DecodeChar(s)] + rest;
      assert cs[1..] == rest && s == s[..n] + s[n..];
    }
  }

  // The grammar accepts exactly the encodings of sequences of scalar values.
  lemma {:induction false} ValidIffEncoding(s: seq<byte>)
    ensures Valid(s) <==> exists cs: seq<nat> :: (forall c <- cs :: Scalar(c)) && EncodeScalars(cs) == s
  {
    if Valid(s) {
      var cs := ValidIsEncoded(s);
    }
    if cs: seq<nat> :| (forall c <- cs :: Scalar(c)) && EncodeScalars(cs) == s {
      EncodedIsValid(cs);
    }
  }
}
