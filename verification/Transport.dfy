/** From a sending to a receiving connection. */
module Transport {

  import opened Framing
  import opened Connection
  import opened Sending

  function Raws(ms: seq<Message>): (rs: seq<Raw>)
    ensures |rs| == |ms| && forall i :: 0 <= i < |ms| ==> rs[i] == Sent(ms[i])
  {
    seq(|ms|, i requires 0 <= i < |ms| => Sent(ms[i]))
  }

  lemma {:induction false} SameText(ms: seq<Message>)
    ensures FramesOf(ms) == Frames(Raws(ms))
  {
    if ms != [] {
      SameText(ms[1..]);
      assert Raws(ms)[1..] == Raws(ms[1..]);
    }
  }

  /**
    The messages ms go through a sender, the receiver reads what the sender has written.
    However both sockets break up the bytes, and at every moment: the receiver has handed out
    the first of the messages and refuses nothing, and when the sender has nothing left and the
    receiver has read everything, it has handed out all.  Each message is handed out as it was
    given to the sender exactly if no sender's or receiver's name contains the separator.
    */
  lemma Transported(s: Sender, r: Receiver, ms: seq<Message>)
    requires s.Valid() && r.Valid() && r.stream == s.sock.wire
    requires s.sock.wire + s.Unsent() == FramesOf(ms)
    requires forall m :: m in ms ==> Within(Sent(m))
    ensures |r.delivered| <= |ms| && !r.Refused()
    ensures forall i :: 0 <= i < |r.delivered| ==> r.delivered[i] == Sent(ms[i])
    ensures forall i :: 0 <= i < |r.delivered| ==>
              (Received(r.delivered[i]) == ms[i] <==> AT !in ms[i].from.name && AT !in ms[i].to.name)
    ensures s.Unsent() == [] && r.sock.incoming == [] ==> |r.delivered| == |ms|
  {
    var rs, got, rest := Raws(ms), r.head + r.text, r.sock.incoming + s.Unsent();
    SameText(ms);
    forall x | x in rs ensures Within(x) && Addressed(x) {
      var i :| 0 <= i < |rs| && rs[i] == x;
      SentIsAddressed(ms[i]);
    }
    Gather(Frames(r.delivered), r.head, r.text, r.sock.incoming, s.Unsent());
    OneWayToRead(r.delivered, got, rest, rs);
    forall i | 0 <= i < |r.delivered|
      ensures r.delivered[i] == Sent(ms[i])
      ensures Received(r.delivered[i]) == ms[i] <==> AT !in ms[i].from.name && AT !in ms[i].to.name
    {
      assert r.delivered[i] == rs[i];
      SentIsAddressed(ms[i]);
    }
  }

  lemma Gather(a: seq<Byte>, b: seq<Byte>, c: seq<Byte>, d: seq<Byte>, e: seq<Byte>)
    ensures a + b + c + d + e == a + (b + c) + (d + e)
  {
  }
}
