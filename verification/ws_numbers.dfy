// Frames in the numbers of section 5.2 of RFC 6455: what the reader takes out of its bits and
// bytes, when it gives which error, and what the header of a message holds.
module WsNumbers {
  import opened Bytes
  import opened WsFrame
  import opened WsParsing
  import opened Messaging

  // The numbers of section 5.2 of RFC 6455.
  predicate Numbered(op: Opcode, n: int) {
    match op
    case Continuation => n == 0x0
    case Text => n == 0x1
    case Binary => n == 0x2
    case Close => n == 0x8
    case Ping => n == 0x9
    case Pong => n == 0xA
  }

  // One of the reserved bits is set: bits 4 to 6 of the first byte.
  predicate Reserved(b: nat) {
    Bit(b, 4) == 1 || Bit(b, 5) == 1 || Bit(b, 6) == 1
  }

  lemma {:induction false} ReservedBits(b: nat)
    requires b < 256
    ensures Reserved(b) <==> b / 16 % 8 != 0
    ensures Bit(b, 7) == 1 <==> b >= 128
  {
    assert Pow2(4) == 16 && Pow2(5) == 32 && Pow2(6) == 64 && Pow2(7) == 128;
    var x := b / 16;
    assert b / 32 == x / 2 && b / 64 == x / 4;
  }

  // What the first two bytes demand, with the length in the two or eight bytes behind them.
  function Demanded(data: seq<byte>): nat
    requires |data| >= 6
  {
    var n := data[1] as nat % 128;
    if n < 126 then 6 + n
    else if n == 126 then 8 + (data[2] as nat * 256 + data[3] as nat)
    else if |data| < 14 then 14
    else 14 + FromBigEndian(data[2..10])
  }

  lemma {:induction false} TwoBytes(data: seq<byte>)
    requires |data| >= 4
    ensures FromBigEndian(data[2..4]) == data[2] as nat * 256 + data[3] as nat
  {
    assert data[2..4][..1] == [data[2]] && [data[2]][..0] == [];
    assert FromBigEndian([]) == 0;
  }

  // Each error, exactly, and in this order.
  lemma {:induction false} ReadFrameErrors(data: seq<byte>)
    ensures var long := |data| >= 6;
            var plain := long && !Reserved(data[0] as nat);
            var known := plain && data[0] % 16 in {0, 1, 2, 8, 9, 10};
            var masked := known && Bit(data[1] as nat, 7) == 1;
            && (ReadFrame(data) == Err(UNRESERVED) <==> long && !plain)
            && (ReadFrame(data) == Err(BAD_OPCODE) <==> plain && !known)
            && (ReadFrame(data) == Err(UNMASKED) <==> known && !masked)
            && (ReadFrame(data) == Err(WOULD_BLOCK) <==> !long || (masked && |data| < Demanded(data)))
            && (ReadFrame(data).Ok? <==> masked && |data| >= Demanded(data))
  {
    if |data| >= 6 {
      ReservedBits(data[0] as nat);
      ReservedBits(data[1] as nat);
      TwoBytes(data);
    }
  }

  // What is read, in numbers: the bits of the first byte, the length, the key, the payload.
  lemma {:induction false} ReadFrameNumbers(data: seq<byte>)
    requires ReadFrame(data).Ok?
    ensures var (f, rest) := ReadFrame(data).value;
            var n := Demanded(data);
            && (f.fin <==> Bit(data[0] as nat, 7) == 1) && Numbered(f.opcode, data[0] as int % 16)
            && |f.payload| + 4 < n <= |data| && f.maskKey.Some?
            && data[n - |f.payload| - 4..] == f.maskKey.value + f.payload + rest
  {
    ReservedBits(data[0] as nat);
    TwoBytes(data);
    ReadParts(data);
  }

  // The number in base 256, the most significant byte first.
  predicate Places(s: seq<byte>, n: nat) {
    forall i | 0 <= i < |s| :: s[i] as nat == n / Pow256(|s| - 1 - i) % 256
  }

  lemma {:induction false} AllPlaces(n: nat, w: nat)
    ensures Places(ToBigEndian(n, w), n)
  {
    forall i | 0 <= i < w ensures ToBigEndian(n, w)[i] as nat == n / Pow256(w - 1 - i) % 256 {
      BigEndianPlaces(n, w, i);
    }
  }

  // A header of any message: the final bit with the opcode, then the length.
  lemma {:induction false} HeaderNumbers(m: Message)
    requires Sized(m)
    ensures var h, n := Header(m), |m.content|;
            && h[0] as int == 128 + (if m.TextMessage? then 1 else 2)
            && (n < 126 ==> |h| == 2 && h[1] as int == n)
            && (126 <= n < 65536 ==> |h| == 4 && h[1] == 126 && h[2] as int == n / 256 && h[3] as int == n % 256)
            && (n >= 65536 ==> |h| == 10 && h[1] == 127 && Places(h[2..], n))
  {
    var h, n := Header(m), |m.content|;
    if 126 <= n < 65536 {
      BigEndianPlaces(n, 2, 0);
      BigEndianPlaces(n, 2, 1);
      assert Pow256(1) == 256 && Pow256(0) == 1;
    } else if n >= 65536 {
      assert h[2..] == ToBigEndian(n, 8);
      AllPlaces(n, 8);
    }
  }

  // Frames the parser refuses whatever they carry: control frames, a continuation of nothing,
  // and a new message before the one before it is over. The message held is left as it was.
  lemma {:induction false} RefusedFrames(incoming: Option<Message>, f: Frame, form: LengthForm, tail: seq<byte>)
    requires Printable(f, form)
    ensures var r := ParseMessage(incoming, PrintFrame(f, form) + tail);
            && (f.opcode in {Close, Ping, Pong} ==> r.outcome == Failed(UNIMPLEMENTED) && r.incoming == incoming)
            && (f.opcode == Continuation && incoming == None ==> r.outcome == Failed(BAD_CONTINUE) && r.incoming == None)
            && (f.opcode in {Text, Binary} && incoming != None ==> r.outcome == Failed(CUTTING_IN) && r.incoming == incoming)
  {
    ReadPrinted(f, form, tail);
  }
}
