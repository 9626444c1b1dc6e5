// The examples of section 5.7 of RFC 6455, byte by byte.
module WsExamples {
  import opened Bytes
  import opened WsFrame
  import opened WsParsing
  import opened Messaging
  import Utf8

  const HELLO: seq<byte> := [0x48, 0x65, 0x6C, 0x6C, 0x6F]

  const MASKED_HELLO: seq<byte> := [0x81, 0x85, 0x37, 0xFA, 0x21, 0x3D, 0x7F, 0x9F, 0x4D, 0x51, 0x58]

  lemma {:induction false} HelloIsText()
    ensures Utf8.Valid(HELLO)
  {
    assert HELLO[1..] == [0x65, 0x6C, 0x6C, 0x6F] && HELLO[1..][1..] == [0x6C, 0x6C, 0x6F];
    assert HELLO[1..][1..][1..] == [0x6C, 0x6F] && HELLO[1..][1..][1..][1..] == [0x6F];
    assert Utf8.Valid([0x6F]);
    assert Utf8.Valid([0x6C, 0x6F]);
    assert Utf8.Valid([0x6C, 0x6C, 0x6F]);
  }

  // A number with high and low part: the parts are combined by themselves.
  lemma {:induction false} XorSplits(u: nat, v: nat, s: nat, t: nat, n: nat, k: nat)
    requires v < Pow2(k) && t < Pow2(k)
    ensures XorBits(u * Pow2(k) + v, s * Pow2(k) + t, n + k) == XorBits(u, s, n) * Pow2(k) + XorBits(v, t, k)
    decreases k
  {
    if k > 0 {
      var p := Pow2(k - 1);
      XorSplits(u, v / 2, s, t / 2, n, k - 1);
      HalfOfSum(u, v, p);
      HalfOfSum(s, t, p);
      XorStep(u * (2 * p) + v, s * (2 * p) + t, v, t, n + k);
      Doubled(XorBits(u, s, n), p, XorBits(v / 2, t / 2, k - 1));
    }
  }

  lemma {:induction false} HalfOfSum(u: nat, v: nat, p: nat)
    ensures (u * (2 * p) + v) / 2 == u * p + v / 2
    ensures (u * (2 * p) + v) % 2 == v % 2
  {
    assert u * (2 * p) == 2 * (u * p);
  }

  lemma {:induction false} XorStep(a: nat, b: nat, v: nat, t: nat, n: nat)
    requires n > 0 && a % 2 == v % 2 && b % 2 == t % 2
    ensures XorBits(a, b, n) == 2 * XorBits(a / 2, b / 2, n - 1) + (v + t) % 2
  {
    Parity(a, b);
    Parity(v, t);
  }

  lemma {:induction false} Parity(a: nat, b: nat)
    ensures (a + b) % 2 == if a % 2 == b % 2 then 0 else 1
  {
  }

  lemma {:induction false} Doubled(x: nat, p: nat, y: nat)
    ensures 2 * (x * p + y) == x * (2 * p) + 2 * y
  {
  }

  lemma {:induction false} NibbleXors()
    ensures XorBits(1, 13, 4) == 12
    ensures XorBits(4, 2, 4) == 6
    ensures XorBits(5, 3, 4) == 6
    ensures XorBits(7, 3, 4) == 4
    ensures XorBits(8, 7, 4) == 15
    ensures XorBits(9, 15, 4) == 6
    ensures XorBits(13, 1, 4) == 12
    ensures XorBits(15, 7, 4) == 8
    ensures XorBits(15, 10, 4) == 5
  {
  }

  lemma {:induction false} XorNibbles(u: nat, v: nat, s: nat, t: nat)
    requires u < 16 && v < 16 && s < 16 && t < 16
    ensures XorBits(16 * u + v, 16 * s + t, 8) == 16 * XorBits(u, s, 4) + XorBits(v, t, 4)
  {
    assert Pow2(4) == 16;
    XorSplits(u, v, s, t, 4, 4);
  }

  lemma {:induction false} XorByte(a: byte, b: byte, u: nat, v: nat, s: nat, t: nat)
    requires u < 16 && v < 16 && s < 16 && t < 16 && a as nat == 16 * u + v && b as nat == 16 * s + t
    ensures Xor(a, b) as nat == 16 * XorBits(u, s, 4) + XorBits(v, t, 4)
  {
    XorNibbles(u, v, s, t);
  }

  // The masked bytes and the repeated key, in that order, give the text.
  lemma {:induction false} HelloUnmasks(payload: seq<byte>, key: MaskKey)
    requires payload == [0x7F, 0x9F, 0x4D, 0x51, 0x58] && key == [0x37, 0xFA, 0x21, 0x3D]
    ensures ApplyMask(payload, key) == HELLO
  {
    ApplyFive(payload, key);
    NibbleXors();
    XorByte(payload[0], key[0], 7, 15, 3, 7);
    XorByte(payload[1], key[1], 9, 15, 15, 10);
    XorByte(payload[2], key[2], 4, 13, 2, 1);
    XorByte(payload[3], key[3], 5, 1, 3, 13);
    XorByte(payload[4], key[0], 5, 8, 3, 7);
  }

  lemma {:induction false} ApplyFive(payload: seq<byte>, key: MaskKey)
    requires |payload| == 5
    ensures ApplyMask(payload, key)
         == [Xor(payload[0], key[0]), Xor(payload[1], key[1]), Xor(payload[2], key[2]), Xor(payload[3], key[3]), Xor(payload[4], key[0])]
  {
  }

  lemma {:induction false} HelloFrame(payload: seq<byte>, key: MaskKey)
    requires payload == [0x7F, 0x9F, 0x4D, 0x51, 0x58] && key == [0x37, 0xFA, 0x21, 0x3D]
    ensures ReadFrame(MASKED_HELLO) == Ok((Frame(true, Text, Some(key), payload), []))
  {
    var f := Frame(true, Text, Some(key), payload);
    assert [0x81] + [0x85] + key + payload == MASKED_HELLO;
    assert PrintFrame(f, Short) + [] == MASKED_HELLO;
    ReadPrinted(f, Short, []);
  }

  // A masked text message, as a client sends it.
  lemma {:induction false} MaskedHello()
    ensures ParseMessage(None, MASKED_HELLO).outcome == Parsed(TextMessage(HELLO), [])
  {
    var payload: seq<byte> := [0x7F, 0x9F, 0x4D, 0x51, 0x58];
    var key: MaskKey := [0x37, 0xFA, 0x21, 0x3D];
    HelloFrame(payload, key);
    HelloUnmasks(payload, key);
    HelloIsText();
  }

  // The unmasked one, as the server sends it.
  lemma {:induction false} PlainHello()
    ensures Encode(TextMessage(HELLO)) == [0x81, 0x05, 0x48, 0x65, 0x6C, 0x6C, 0x6F]
  {
  }

  // 256 and 65536 bytes of binary data: the length in two and in eight bytes.
  lemma {:induction false} LongHeaders(m: Message)
    requires m.BinaryMessage?
    ensures |m.content| == 256 ==> Header(m) == [0x82, 0x7E, 0x01, 0x00]
    ensures |m.content| == 65536 ==> Header(m) == [0x82, 0x7F, 0x00, 0x00, 0x00, 0x00, 0x00, 0x01, 0x00, 0x00]
  {
    assert ToBigEndian(256, 2) == [1, 0];
    assert ToBigEndian(65536, 8) == [0, 0, 0, 0, 0, 1, 0, 0];
  }

  // The messenger of a new connection holds an empty binary frame.
  lemma {:induction false} DefaultFrame()
    ensures Encode(DEFAULT_MESSAGE) == [0x82, 0x00]
  {
  }

  // The examples of section 7 of RFC 3629: one to four bytes.
  lemma {:induction false} Utf8Examples()
    ensures Utf8.EncodeScalar(0x41) == [0x41] && Utf8.EncodeScalar(0x391) == [0xCE, 0x91]
    ensures Utf8.EncodeScalar(0x2262) == [0xE2, 0x89, 0xA2] && Utf8.EncodeScalar(0x233B4) == [0xF0, 0xA3, 0x8E, 0xB4]
  {
  }
}
