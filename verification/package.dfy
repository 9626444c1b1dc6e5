// A response head and a cached file, delivered through the same loop as a message.
module Packaging {
  import opened Bytes
  import opened Output

  class Package {
    const head: seq<byte>
    const body: seq<byte>
    var writ: nat

    constructor (head: seq<byte>, body: seq<byte>)
      ensures Valid() && this.head == head && this.body == body && writ == 0
    {
      this.head, this.body, writ := head, body, 0;
    }

    predicate Valid()
      reads this
    {
      writ <= |head| + |body|
    }

    method SendTo(wr: Writer) returns (r: IoResult)
      requires Valid()
      modifies this`writ, wr
      ensures Valid()
      ensures Sending(wr.wire, writ, r) == Output.SendTo(head, body, old(writ), old(wr.wire))
    {
      var source := if writ < |head| then head[writ..] else body[writ - |head|..];
      r := wr.Write(source);
      if r.Done? {
        writ := writ + r.n;
      }
    }

    // send_to as send_all sees it: where its call leaves what is still to be done.
    method Turn(wr: Writer, ghost total: nat) returns (r: IoResult)
      requires Valid()
      modifies this`writ, wr
      ensures Valid()
      ensures Output.SendAll(head, body, old(writ), old(wr.wire), total)
           == if GoesOn(r) then Output.SendAll(head, body, writ, wr.wire, total + Count(r))
              else if r.Done? then Flushed(writ, wr.wire, total)
              else Sending(wr.wire, writ, r)
      ensures GoesOn(r) ==> writ > old(writ) || (writ == old(writ) && |wr.wire.script| < old(|wr.wire.script|))
    {
      r := SendTo(wr);
    }

    method SendAll(wr: Writer) returns (r: IoResult)
      requires Valid()
      modifies this`writ, wr
      ensures Valid()
      ensures Sending(wr.wire, writ, r) == Output.SendAll(head, body, old(writ), old(wr.wire), 0)
    {
      var total: nat := 0;
      while true
        invariant Valid()
        invariant Output.SendAll(head, body, old(writ), old(wr.wire), 0)
               == Output.SendAll(head, body, writ, wr.wire, total)
        decreases |head| + |body| - writ, |wr.wire.script|
      {
        var o := Turn(wr, total);
        if !GoesOn(o) {
          if !o.Done? { return o; }
          break;
        }
        total := total + Count(o);
      }
      var f := wr.Flush();
      return if f.Done? then Done(total) else f;
    }
  }
}
