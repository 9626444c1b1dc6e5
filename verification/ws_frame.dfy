// One WebSocket frame on the wire (sections 5.2 and 5.3 of RFC 6455): the reader of
// src/websocket.rs and the printer it inverts.
module WsFrame {
  import opened Bytes

  datatype WsError =
    | UNRESERVED | UNMASKED | BAD_OPCODE | BAD_CONTINUE | CUTTING_IN | NOT_VALID_UTF8
    | CLOSED_BY_CLIENT | WOULD_BLOCK | WET_HANDSHAKE | UNIMPLEMENTED

  datatype Opcode = Continuation | Text | Binary | Close | Ping | Pong

  function ParseOpcode(value: byte): Result<Opcode, WsError> {
    match value
    case 0 => Ok(Continuation)
    case 1 => Ok(Text)
    case 2 => Ok(Binary)
    case 8 => Ok(Close)
    case 9 => Ok(Ping)
    case 10 => Ok(Pong)
    case _ => Err(BAD_OPCODE)
  }

  function OpcodeNumber(op: Opcode): byte {
    match op
    case Continuation => 0
    case Text => 1
    case Binary => 2
    case Close => 8
    case Ping => 9
    case Pong => 10
  }

  type MaskKey = k: seq<byte> | |k| == 4 witness [0, 0, 0, 0]

  datatype Frame = Frame(fin: bool, opcode: Opcode, maskKey: Option<MaskKey>, payload: seq<byte>)

  // The payload XORed with the repeated key; applying it twice restores the payload.
  function ApplyMask(payload: seq<byte>, key: MaskKey): (r: seq<byte>)
    ensures |r| == |payload|
  {
    seq(|payload|, i requires 0 <= i < |payload| => Xor(payload[i], key[i % 4]))
  }

  lemma {:induction false} ApplyMaskCancels(payload: seq<byte>, key: MaskKey)
    ensures ApplyMask(ApplyMask(payload, key), key) == payload
  {
    forall i | 0 <= i < |payload|
      ensures ApplyMask(ApplyMask(payload, key), key)[i] == payload[i]
    {
      XorCancels(payload[i], key[i % 4]);
    }
  }

  // The three ways to write a payload length.
  datatype LengthForm = Short | Medium | Long

  function ExtraBytes(form: LengthForm): nat {
    match form
    case Short => 0
    case Medium => 2
    case Long => 8
  }

  predicate Fits(form: LengthForm, n: nat) {
    match form
    case Short => n < 126
    case Medium => n < 0x1_0000
    case Long => n < USIZE_LIMIT
  }

  function FormOf(length7: byte): LengthForm {
    if length7 < 126 then Short else if length7 == 126 then Medium else Long
  }

  function ReadFrame(data: seq<byte>): (r: Result<(Frame, seq<byte>), WsError>)
    ensures r.Ok? ==> r.value.0.maskKey.Some? && |r.value.1| < |data|
  {
    if |data| < 2 + 4 then Err(WOULD_BLOCK)
    else
      var fin := data[0] >= 128;
      if data[0] / 16 % 8 != 0 then Err(UNRESERVED)
      else
        var opcode :- ParseOpcode(data[0] % 16);
        if data[1] < 128 then Err(UNMASKED)
        else
          var form := FormOf(data[1] % 128);
          var maskOffset := 2 + ExtraBytes(form);
          if |data| < maskOffset + 4 then Err(WOULD_BLOCK)
          else
            var payloadLen := if form.Short? then (data[1] % 128) as nat
                              else FromBigEndian(data[2..maskOffset]);
            var key := data[maskOffset..maskOffset + 4];
            var payload := data[maskOffset + 4..];
            if payloadLen > |payload| then Err(WOULD_BLOCK)
            else Ok((Frame(fin, opcode, Some(key), payload[..payloadLen]), payload[payloadLen..]))
  }

  // The bytes that say how long a payload of n bytes is; masked frames set the top bit.
  function LengthField(form: LengthForm, n: nat, masked: bool): (s: seq<byte>)
    requires Fits(form, n)
    ensures |s| == 1 + ExtraBytes(form)
  {
    var top := if masked then 128 else 0;
    match form
    case Short => [top + n as byte]
    case Medium => [top + 126] + ToBigEndian(n, 2)
    case Long => [top + 127] + ToBigEndian(n, 8)
  }

  predicate Printable(f: Frame, form: LengthForm) {
    f.maskKey.Some? && Fits(form, |f.payload|)
  }

  function PrintFrame(f: Frame, form: LengthForm): (s: seq<byte>)
    requires Printable(f, form)
    ensures |s| == 2 + ExtraBytes(form) + 4 + |f.payload|
  {
    [(if f.fin then 128 else 0) + OpcodeNumber(f.opcode)]
    + LengthField(form, |f.payload|, true) + f.maskKey.value + f.payload
  }

  // Where each part of a printed frame lies, whatever follows it.
  lemma {:induction false} PrintedLayout(f: Frame, form: LengthForm, rest: seq<byte>)
    requires Printable(f, form)
    ensures var s := PrintFrame(f, form) + rest;
            var m := 2 + ExtraBytes(form);
            && s[1..m] == LengthField(form, |f.payload|, true)
            && s[m..m + 4] == f.maskKey.value
            && s[m + 4..] == f.payload + rest
  {
  }

  lemma {:induction false} PowersOf256()
    ensures Pow256(2) == 0x1_0000 && Pow256(8) == USIZE_LIMIT
  {
    assert Pow256(2) == 256 * (256 * Pow256(0));
    assert Pow256(4) == 256 * (256 * Pow256(2));
    assert Pow256(6) == 256 * (256 * Pow256(4));
    assert Pow256(8) == 256 * (256 * Pow256(6));
  }

  lemma {:induction false} LengthFieldDecodes(form: LengthForm, n: nat)
    requires Fits(form, n)
    ensures var s := LengthField(form, n, true);
            && s[0] >= 128 && FormOf(s[0] % 128) == form
            && n == if form.Short? then (s[0] % 128) as nat else FromBigEndian(s[1..])
  {
    PowersOf256();
    if !form.Short? {
      BigEndianDecodes(n, ExtraBytes(form));
      assert LengthField(form, n, true)[1..] == ToBigEndian(n, ExtraBytes(form));
    }
  }

  // Reading inverts printing, in every length form that fits, and leaves the tail.
  lemma {:induction false} ReadPrinted(f: Frame, form: LengthForm, rest: seq<byte>)
    requires Printable(f, form)
    ensures ReadFrame(PrintFrame(f, form) + rest) == Ok((f, rest))
  {
    var s := PrintFrame(f, form) + rest;
    var m := 2 + ExtraBytes(form);
    PrintedLayout(f, form, rest);
    LengthFieldDecodes(form, |f.payload|);
    assert s[1] == s[1..m][0];
    assert s[2..m] == s[1..m][1..];
    assert (f.payload + rest)[..|f.payload|] == f.payload;
    assert (f.payload + rest)[|f.payload|..] == rest;
  }

  lemma {:induction false} LengthFieldEncodes(field: seq<byte>, form: LengthForm)
    requires |field| == 1 + ExtraBytes(form) && field[0] >= 128 && FormOf(field[0] % 128) == form
    ensures var n := if form.Short? then (field[0] % 128) as nat else FromBigEndian(field[1..]);
            Fits(form, n) && LengthField(form, n, true) == field
  {
    PowersOf256();
    if !form.Short? {
      BigEndianEncodes(field[1..]);
    }
  }

  lemma {:induction false} FirstByteParts(b: byte)
    requires b / 16 % 8 == 0
    ensures b == (if b >= 128 then 128 else 0) + b % 16
  {
  }

  // What the reader has checked and cut out when it accepts.
  lemma {:induction false} ReadParts(data: seq<byte>)
    requires ReadFrame(data).Ok?
    ensures var (f, rest) := ReadFrame(data).value;
            var m := 2 + ExtraBytes(FormOf(data[1] % 128));
            && |data| >= m + 4 + |f.payload|
            && [data[0]] == [(if f.fin then 128 else 0) + OpcodeNumber(f.opcode)]
            && data[1] >= 128
            && |f.payload| == (if m == 2 then (data[1] % 128) as nat else FromBigEndian(data[2..m]))
            && data[m..m + 4] == f.maskKey.value
            && data[m + 4..] == f.payload + rest
  {
    FirstByteParts(data[0]);
  }

  // Printing inverts reading: whatever the reader accepts is a printed frame and the rest.
  lemma {:induction false} PrintRead(data: seq<byte>)
    requires ReadFrame(data).Ok?
    ensures var (f, rest) := ReadFrame(data).value;
            var form := FormOf(data[1] % 128);
            Printable(f, form) && data == PrintFrame(f, form) + rest
  {
    var (f, rest) := ReadFrame(data).value;
    ReadParts(data);
    PrintParts(data, f, rest);
  }

  lemma {:induction false} PrintParts(data: seq<byte>, f: Frame, rest: seq<byte>)
    requires |data| >= 2 && data[1] >= 128 && f.maskKey.Some?
    requires var m := 2 + ExtraBytes(FormOf(data[1] % 128));
             && |data| >= m + 4
             && [data[0]] == [(if f.fin then 128 else 0) + OpcodeNumber(f.opcode)]
             && |f.payload| == (if m == 2 then (data[1] % 128) as nat else FromBigEndian(data[2..m]))
             && data[m..m + 4] == f.maskKey.value
             && data[m + 4..] == f.payload + rest
    ensures var form := FormOf(data[1] % 128);
            Printable(f, form) && data == PrintFrame(f, form) + rest
  {
    var form := FormOf(data[1] % 128);
    var m := 2 + ExtraBytes(form);
    var field := data[1..m];
    assert field[0] == data[1] && field[1..] == data[2..m];
    LengthFieldEncodes(field, form);
    JoinParts(data, m);
  }

  lemma {:induction false} JoinParts(data: seq<byte>, m: nat)
    requires 2 <= m <= |data| - 4
    ensures data == [data[0]] + data[1..m] + data[m..m + 4] + data[m + 4..]
  {
  }

  // The frames the reader accepts are exactly the printed ones.
  lemma {:induction false} ReadFrameExact(data: seq<byte>, f: Frame, rest: seq<byte>)
    ensures ReadFrame(data) == Ok((f, rest))
       <==> exists form :: Printable(f, form) && data == PrintFrame(f, form) + rest
  {
    if ReadFrame(data) == Ok((f, rest)) {
      PrintRead(data);
    }
    if form :| Printable(f, form) && data == PrintFrame(f, form) + rest {
      ReadPrinted(f, form, rest);
    }
  }

  // Success, and every error but WOULD_BLOCK, does not change when more bytes arrive.
  lemma {:induction false} ReadFrameStable(data: seq<byte>, more: seq<byte>)
    requires ReadFrame(data) != Err(WOULD_BLOCK)
    ensures match ReadFrame(data)
            case Ok((f, rest)) => ReadFrame(data + more) == Ok((f, rest + more))
            case Err(e) => ReadFrame(data + more) == Err(e)
  {
    if ReadFrame(data).Ok? {
      var (f, rest) := ReadFrame(data).value;
      PrintRead(data);
      assert data + more == PrintFrame(f, FormOf(data[1] % 128)) + (rest + more);
      ReadPrinted(f, FormOf(data[1] % 128), rest + more);
    }
  }

  // What is accepted depends only on the bytes consumed.
  lemma {:induction false} ReadFrameShrinks(data: seq<byte>, left: seq<byte>, more: seq<byte>, f: Frame)
    requires ReadFrame(data + more) == Ok((f, left + more))
    ensures ReadFrame(data) == Ok((f, left))
  {
    var form := FormOf((data + more)[1] % 128);
    PrintRead(data + more);
    assert (PrintFrame(f, form) + left) + more == data + more;
    assert data == PrintFrame(f, form) + left by {
      assert data == (data + more)[..|data|];
    }
    ReadPrinted(f, form, left);
  }

  // Every proper prefix of one printed frame makes the reader wait.
  lemma {:induction false} PrefixBlocks(f: Frame, form: LengthForm, k: nat)
    requires Printable(f, form) && k < |PrintFrame(f, form)|
    ensures ReadFrame(PrintFrame(f, form)[..k]) == Err(WOULD_BLOCK)
  {
    var s := PrintFrame(f, form);
    var r := ReadFrame(s[..k]);
    assert s == s[..k] + s[k..];
    assert s + [] == s;
    ReadPrinted(f, form, []);
    if r != Err(WOULD_BLOCK) {
      ReadFrameStable(s[..k], s[k..]);
    }
  }
}
