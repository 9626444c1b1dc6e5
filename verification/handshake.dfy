// The upgrade handshake (section 4.2 of RFC 6455): an HTTP request in, one 101 response out.
module Handshaking {
  import opened Bytes
  import opened Text
  import opened Output
  import opened HttpRequests
  import opened HttpResponses
  import opened HttpRoundTrip

  const WS_KEY: seq<byte> := Lit("sec-websocket-key")

  // compute_sec_websocket_accept, whatever it computes.
  type AcceptFn = seq<byte> -> seq<byte>

  function UpgradeResponse(accept: seq<byte>): Response {
    var r := Response(V_1_1, SwitchingProtocols, [], []);
    var r1 := AddHeader(r, Lit("Upgrade"), Lit("websocket"));
    var r2 := AddHeader(r1, Lit("Connection"), Lit("Upgrade"));
    AddHeader(r2, Lit("Sec-WebSocket-Accept"), accept)
  }

  function Upgrade(key: seq<byte>, accept: AcceptFn): (s: seq<byte>)
    ensures s != []
  {
    Serialized(UpgradeResponse(accept(key)))
  }

  datatype HandshakerState = HandshakerState(buf: seq<byte>, bytesWrit: nat)

  datatype HandshakeStatus = Waiting | Responding | Finished

  datatype HandshakeReply = Progress(status: HandshakeStatus, rest: seq<byte>) | Refused

  function HandshakeStep(h: HandshakerState, buf: seq<byte>, accept: AcceptFn): (HandshakerState, HandshakeReply) {
    if |h.buf| > 0 then
      (h, Progress(if h.bytesWrit < |h.buf| then Responding else Finished, buf))
    else
      match Deserialize(buf)
      case Ok((request, rest)) =>
        if WS_KEY !in request.headers then (h, Refused)
        else (h.(buf := Upgrade(request.headers[WS_KEY], accept)), Progress(Responding, rest))
      case Err(e) => (h, if e.Incomplete? then Progress(Waiting, buf) else Refused)
  }

  // send_all over io::copy. When a copy fails, what it wrote is not counted: lost is how
  // many bytes that is.
  datatype Answering = Answering(wire: Wire, state: HandshakerState, lost: nat, result: IoResult)

  function SendResponse(h: HandshakerState, w: Wire): (r: Answering)
    requires h.bytesWrit <= |h.buf|
    ensures r.state.buf == h.buf && r.state.bytesWrit <= |h.buf|
    ensures r.result.Done? ==> r.state.bytesWrit == |h.buf|
    ensures r.lost <= |h.buf| - h.bytesWrit
    ensures r.lost > 0 ==> r.state == h && r.lost < |h.buf|
  {
    var c := Copy(h.buf[h.bytesWrit..], w);
    if !c.result.Done? then Answering(c.wire, h, c.copied, c.result)
    else
      var (w', f) := FlushOn(c.wire);
      Answering(w', h.(bytesWrit := |h.buf|), 0, if f.Done? then c.result else f)
  }

  lemma {:induction false} SendResponseEmits(h: HandshakerState, w: Wire)
    requires h.bytesWrit <= |h.buf|
    ensures var r := SendResponse(h, w);
            r.wire.sent == w.sent + h.buf[h.bytesWrit..r.state.bytesWrit + r.lost]
  {
    var slice := h.buf[h.bytesWrit..];
    CopyEmits(slice, w);
    var c := Copy(slice, w);
    assert h.buf[h.bytesWrit..h.bytesWrit + c.copied] == slice[..c.copied];
  }

  class WsHandshaker {
    var buf: seq<byte>
    var bytesWrit: nat
    const accept: AcceptFn

    constructor (accept: AcceptFn)
      ensures State() == HandshakerState([], 0) && this.accept == accept
    {
      buf, bytesWrit := [], 0;
      this.accept := accept;
    }

    function State(): HandshakerState
      reads this
    {
      HandshakerState(buf, bytesWrit)
    }

    method SendTo(wr: Writer) returns (r: IoResult)
      requires bytesWrit <= |buf|
      modifies this`bytesWrit, wr
      ensures var c := Copy(buf[old(bytesWrit)..], old(wr.wire));
              && wr.wire == c.wire && r == c.result
              && bytesWrit == if r.Done? then |buf| else old(bytesWrit)
    {
      r := CopyInto(buf[bytesWrit..], wr);
      if r.Done? {
        bytesWrit := bytesWrit + r.n;
      }
    }

    method SendAll(wr: Writer) returns (r: IoResult)
      requires bytesWrit <= |buf|
      modifies this`bytesWrit, wr
      ensures var s := SendResponse(old(State()), old(wr.wire));
              wr.wire == s.wire && State() == s.state && r == s.result
    {
      ghost var whole := Copy(buf[bytesWrit..], wr.wire);
      var total := 0;
      while true
        invariant bytesWrit <= |buf|
        invariant total == bytesWrit - old(bytesWrit)
        invariant if total == 0 then bytesWrit == old(bytesWrit) && wr.wire == old(wr.wire)
                  else bytesWrit == |buf| && whole.result.Done? && wr.wire == whole.wire
        decreases |buf| - bytesWrit
      {
        var o := SendTo(wr);
        match o {
          case Done(n) =>
            if n == 0 { break; }
            total := total + n;
          case _ => return o;
        }
      }
      var f := wr.Flush();
      return if f.Done? then Done(total) else f;
    }

    method Handshake(input: seq<byte>) returns (r: HandshakeReply)
      modifies this`buf
      ensures (State(), r) == HandshakeStep(old(State()), input, accept)
    {
      var len := |buf|;
      if len > 0 {
        if bytesWrit < len { return Progress(Responding, input); }
        return Progress(Finished, input);
      }
      var parsed := DeserializeText(input);
      match parsed {
        case Ok((request, rest)) =>
          if WS_KEY !in request.headers { return Refused; }
          var response := Response(V_1_1, SwitchingProtocols, [], []);
          response := AddHeader(response, Lit("Upgrade"), Lit("websocket"));
          response := AddHeader(response, Lit("Connection"), Lit("Upgrade"));
          response := AddHeader(response, Lit("Sec-WebSocket-Accept"), accept(request.headers[WS_KEY]));
          var data, _ := Serialize(response);
          buf := data;
          return Progress(Responding, rest);
        case Err(e) =>
          if e.Incomplete? { return Progress(Waiting, input); }
          return Refused;
      }
    }
  }

  // A client that scans the response finds its head, and frames start right behind it.
  lemma {:induction false} UpgradeScans(key: seq<byte>, accept: AcceptFn, frames: seq<byte>)
    requires Plain(accept(key))
    ensures Head(Upgrade(key, accept) + frames)
         == Ok((Join(Lines(UpgradeResponse(accept(key))), CRLF), frames))
  {
    LitPlain("Upgrade");
    LitPlain("websocket");
    LitPlain("Connection");
    LitPlain("Sec-WebSocket-Accept");
    ResponseScans(UpgradeResponse(accept(key)), frames);
  }
}
