// Messages out: the lazily encoded frame of a Messenger, and its way back through the
// parser once masked as a client masks it (section 5.3 of RFC 6455).
module Messaging {
  import opened Bytes
  import opened Output
  import opened WsFrame
  import opened WsParsing
  import opened WsReassembly
  import opened WsResuming

  // Lengths are u64 on the wire and usize in memory.
  predicate Sized(m: Message) {
    |m.content| < USIZE_LIMIT
  }

  function OpcodeOf(m: Message): Opcode {
    if m.TextMessage? then Text else Binary
  }

  function MinForm(n: nat): LengthForm {
    if n < 126 then Short else if n < 0x1_0000 then Medium else Long
  }

  // An unmasked final frame: the first two to ten bytes, then the content.
  function Header(m: Message): (h: seq<byte>)
    requires Sized(m)
    ensures |h| == 2 + ExtraBytes(MinForm(|m.content|))
  {
    [128 + OpcodeNumber(OpcodeOf(m))] + LengthField(MinForm(|m.content|), |m.content|, false)
  }

  function Encode(m: Message): (s: seq<byte>)
    requires Sized(m)
    ensures |s| == |Header(m)| + |m.content|
  {
    Header(m) + m.content
  }

  const DEFAULT_MESSAGE := BinaryMessage([])

  class Messenger {
    const msg: Message
    var writ: nat

    constructor (msg: Message)
      requires Sized(msg)
      ensures Valid() && this.msg == msg && writ == 0
    {
      this.msg, writ := msg, 0;
    }

    predicate Valid()
      reads this
    {
      Sized(msg) && writ <= |Encode(msg)|
    }

    // The header array of send_to, filled in place.
    method FillHeader(header: array<byte>) returns (headerLen: nat)
      requires Valid() && header.Length == 10
      modifies header
      ensures headerLen == |Header(msg)| && header[..headerLen] == Header(msg)
    {
      var len := |msg.content|;
      headerLen := if len < 126 then 2 else if len < 0x1_0000 then 4 else 10;
      header[0] := 128 + OpcodeNumber(OpcodeOf(msg));
      if headerLen == 2 {
        header[1] := len as byte;
      } else {
        var digits := ToBigEndian(len, headerLen - 2);
        header[1] := if headerLen == 4 then 126 else 127;
        forall i | 0 <= i < |digits| {
          header[2 + i] := digits[i];
        }
        assert header[2..headerLen] == digits;
      }
      assert header[..headerLen] == [header[0], header[1]] + header[2..headerLen];
    }

    method SendTo(wr: Writer) returns (r: IoResult)
      requires Valid()
      modifies this`writ, wr
      ensures Valid()
      ensures Sending(wr.wire, writ, r)
           == Output.SendTo(Header(msg), msg.content, old(writ), old(wr.wire))
    {
      var header := new byte[10](_ => 0);
      var headerLen := FillHeader(header);
      if writ < headerLen {
        assert header[writ..headerLen] == Header(msg)[writ..];
        r := wr.Write(header[writ..headerLen]);
      } else {
        r := wr.Write(msg.content[writ - headerLen..]);
      }
      if r.Done? {
        writ := writ + r.n;
      }
    }

    // send_to as send_all sees it: where its call leaves what is still to be done.
    method Turn(wr: Writer, ghost total: nat) returns (r: IoResult)
      requires Valid()
      modifies this`writ, wr
      ensures Valid()
      ensures Output.SendAll(Header(msg), msg.content, old(writ), old(wr.wire), total)
           == if GoesOn(r) then Output.SendAll(Header(msg), msg.content, writ, wr.wire, total + Count(r))
              else if r.Done? then Flushed(writ, wr.wire, total)
              else Sending(wr.wire, writ, r)
      ensures GoesOn(r) ==> writ > old(writ) || (writ == old(writ) && |wr.wire.script| < old(|wr.wire.script|))
    {
      r := SendTo(wr);
    }

    method SendAll(wr: Writer) returns (r: IoResult)
      requires Valid()
      modifies this`writ, wr
      ensures Valid()
      ensures Sending(wr.wire, writ, r) == Output.SendAll(Header(msg), msg.content, old(writ), old(wr.wire), 0)
    {
      var total: nat := 0;
      while true
        invariant Valid()
        invariant Output.SendAll(Header(msg), msg.content, old(writ), old(wr.wire), 0)
               == Output.SendAll(Header(msg), msg.content, writ, wr.wire, total)
        decreases |Header(msg)| + |msg.content| - writ, |wr.wire.script|
      {
        var o := Turn(wr, total);
        if !GoesOn(o) {
          if !o.Done? { return o; }
          break;
        }
        total := total + Count(o);
      }
      var f := wr.Flush();
      return if f.Done? then Done(total) else f;
    }
  }

  // ---------------------------------------------------------------- masked by a client

  // Section 5.3 of RFC 6455 on the bytes of an unmasked frame: set the mask bit, insert the
  // key before the payload, XOR the payload with it.
  function MaskFrame(frame: seq<byte>, key: MaskKey): seq<byte>
    requires |frame| >= 2 && frame[1] < 128 && |frame| >= 2 + ExtraBytes(FormOf(frame[1]))
  {
    var h := 2 + ExtraBytes(FormOf(frame[1]));
    [frame[0], frame[1] + 128] + frame[2..h] + key + ApplyMask(frame[h..], key)
  }

  function AsSingle(m: Message, key: MaskKey): Single {
    Single(m.TextMessage?, Fragment(m.content, key, MinForm(|m.content|)))
  }

  lemma {:induction false} EncodeLayout(m: Message)
    requires Sized(m)
    ensures var s := Encode(m);
            var h := |Header(m)|;
            && s[0] == 128 + OpcodeNumber(OpcodeOf(m)) && s[1] < 128
            && FormOf(s[1]) == MinForm(|m.content|)
            && [s[1] + 128] + s[2..h] == LengthField(MinForm(|m.content|), |m.content|, true)
            && s[h..] == m.content
  {
    var f := LengthField(MinForm(|m.content|), |m.content|, false);
    assert Encode(m)[1..|Header(m)|] == f;
    assert Encode(m)[2..|Header(m)|] == f[1..];
  }

  lemma {:induction false} MaskedIsClientFrame(m: Message, key: MaskKey)
    requires Sized(m)
    ensures |Encode(m)| >= 2 + ExtraBytes(FormOf(Encode(m)[1])) && Encode(m)[1] < 128
    ensures Fits(MinForm(|m.content|), |m.content|)
    ensures MaskFrame(Encode(m), key)
         == PrintFrame(SingleFrame(AsSingle(m, key)), MinForm(|m.content|))
  {
    EncodeLayout(m);
  }

  // Any message of any length, masked with any key and followed by anything, is parsed back
  // whole, and what follows is untouched.
  lemma {:induction false} EncodeDecodes(m: Message, key: MaskKey, tail: seq<byte>)
    requires Sized(m) && Sound(Some(m))
    ensures |Encode(m)| >= 2 + ExtraBytes(FormOf(Encode(m)[1])) && Encode(m)[1] < 128
    ensures var r := ParseMessage(None, MaskFrame(Encode(m), key) + tail);
            r.outcome == Parsed(m, tail) && r.incoming == None
  {
    MaskedIsClientFrame(m, key);
    SingleParses(AsSingle(m, key), tail);
  }

  // A stream of encoded messages, each masked with its own key.
  function MaskedStream(ms: seq<Message>, keys: seq<MaskKey>): seq<byte>
    requires |ms| == |keys| && forall m <- ms :: Sized(m)
    decreases |ms|
  {
    if ms == [] then []
    else
      MaskedIsClientFrame(ms[0], keys[0]);
      MaskFrame(Encode(ms[0]), keys[0]) + MaskedStream(ms[1..], keys[1..])
  }

  lemma {:induction false} StreamDecodes(ms: seq<Message>, keys: seq<MaskKey>)
    requires |ms| == |keys| && forall m <- ms :: Sized(m) && Sound(Some(m))
    ensures ParseAll(None, MaskedStream(ms, keys)) == Transcript(ms, Starved)
    decreases |ms|
  {
    if ms != [] {
      EncodeDecodes(ms[0], keys[0], MaskedStream(ms[1..], keys[1..]));
      StreamDecodes(ms[1..], keys[1..]);
    }
  }
}
