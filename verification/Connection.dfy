/** The receiving side of a connection: a parser that can stop after any byte and go on later. */
module Connection {

  import opened Options
  import opened Framing
  import opened Iovecs
  import opened TcpSocket
  import Codes

  function WholeOf(b: Buffer): Iov<Buffer> {
    Iov(b, 0, b.Length)
  }

  /** The cells of the four strings of a message. */
  function AllOf(name: Buffer, to: Buffer, from: Buffer, body: Buffer): seq<Cell<Buffer>> {
    CellsOf(WholeOf(name)) + CellsOf(WholeOf(to)) + CellsOf(WholeOf(from)) + CellsOf(WholeOf(body))
  }

  lemma AllIs(name: Buffer, to: Buffer, from: Buffer, body: Buffer)
    ensures Cells([WholeOf(name), WholeOf(to), WholeOf(from), WholeOf(body)]) == AllOf(name, to, from, body)
  {
    var a, b, c, d := WholeOf(name), WholeOf(to), WholeOf(from), WholeOf(body);
    assert [a, b, c, d][1..] == [b, c, d] && [b, c, d][1..] == [c, d] && [c, d][1..] == [d] && [d][1..] == [];
    assert Cells([d]) == CellsOf(d) + Cells([d][1..]) == CellsOf(d);
    assert Cells([c, d]) == CellsOf(c) + Cells([c, d][1..]);
    assert Cells([b, c, d]) == CellsOf(b) + Cells([b, c, d][1..]);
    assert Cells([a, b, c, d]) == CellsOf(a) + Cells([a, b, c, d][1..]);
  }

  predicate Apart(name: Buffer, to: Buffer, from: Buffer, body: Buffer) {
    name != to && name != from && name != body && to != from && to != body && from != body
  }

  lemma AllIsSound(name: Buffer, to: Buffer, from: Buffer, body: Buffer)
    requires Apart(name, to, from, body)
    ensures var all := AllOf(name, to, from, body);
      |all| == name.Length + to.Length + from.Length + body.Length && InRange(all, {name, to, from, body}) && Distinct(all)
  {
  }

  lemma AllHolds(name: Buffer, to: Buffer, from: Buffer, body: Buffer, bytes: seq<Byte>)
    requires Apart(name, to, from, body) && InRange(AllOf(name, to, from, body), {name, to, from, body})
    requires |bytes| == |AllOf(name, to, from, body)| && Holds(AllOf(name, to, from, body), bytes, {name, to, from, body})
    ensures name[..] + to[..] + from[..] + body[..] == bytes
  {
    var all := AllOf(name, to, from, body);
    AllIsSound(name, to, from, body);
    var t := name[..] + to[..] + from[..] + body[..];
    forall i | 0 <= i < |t| ensures t[i] == all[i].buf[all[i].at] { }
  }

  lemma HeaderStops(g: seq<Byte>)
    requires |g| == HEADER_LEN
    ensures NotTooMuch(g) && (!GoodHeader(g) ==> Look(g).Bad?)
  {
  }

  lemma StartStops(g: seq<Byte>)
    requires |g| < HEADER_LEN
    ensures NotTooMuch(g)
  {
  }

  /** A header and some of the strings it announces. */
  lemma StringsRead(h: seq<Byte>, text: seq<Byte>, l: Lens)
    requires |h| == HEADER_LEN && GoodHeader(h) && l == LensOf(h) && |text| <= Total(l)
    ensures |text| < Total(l) ==> Look(h + text).More?
    ensures |text| == Total(l) ==> (NotTooMuch(h + text) <==> Look(h + text).Unaddressed?)
    ensures |text| == Total(l) ==>
            var r := Pieces(l, text);
            h + text == Frame(r) && Within(r) && Look(h + text) == if Addressed(r) then Whole(r) else Unaddressed(r)
  {
    LookAfter(h, text, l);
    HeaderOnly(h + text, h);
    assert (h + text)[HEADER_LEN..] == text;
    if |text| == Total(l) { ReadIsFrame(h + text); }
  }

  lemma PiecesAre(a: seq<Byte>, b: seq<Byte>, c: seq<Byte>, d: seq<Byte>)
    ensures Pieces(Lens(|a|, |b|, |c|, |d|), a + b + c + d) == Raw(a, b, c, d)
  {
  }

  lemma Regroup(a: seq<Byte>, text: seq<Byte>, incoming: seq<Byte>, text': seq<Byte>, incoming': seq<Byte>)
    requires text' + incoming' == text + incoming
    ensures a + text' + incoming' == a + text + incoming
  {
    assert a + text' + incoming' == a + (text' + incoming');
    assert a + text + incoming == a + (text + incoming);
  }

  lemma Took(a: seq<Byte>, h: seq<Byte>, k: nat, n: nat, incoming: seq<Byte>, was: seq<Byte>)
    requires k + n <= |h| && h[k..k + n] + incoming == was
    ensures a + h[..k + n] + [] + incoming == a + h[..k] + [] + was
  {
    assert h[..k + n] == h[..k] + h[k..k + n];
    assert a + (h[..k] + h[k..k + n]) + incoming == a + h[..k] + (h[k..k + n] + incoming);
  }

  lemma FramesAppend(ds: seq<Raw>, r: Raw, head: seq<Byte>, text: seq<Byte>, rest: seq<Byte>)
    requires head + text == Frame(r)
    ensures Frames(ds + [r]) + [] + [] + rest == Frames(ds) + head + text + rest
  {
    Codes.FlatAppend(Frame, ds, r);
    assert Frames(ds) + head + text == Frames(ds) + (head + text);
    assert Frames(ds + [r]) + [] + [] == Frames(ds + [r]);
  }

  /** The part of a connection that receives. */
  class Receiver {
    const sock: InSocket
    const header: Buffer
    const vec: array<Iov<Buffer>>
    const msg: MsgHdr<Buffer>
    var connected: bool
    var inBody: bool
    var recvLen: nat
    var totalRecvLen: nat
    var name: Buffer
    var to: Buffer
    var from: Buffer
    var body: Buffer
    var message: Option<Message>
    /** The bytes taken since the last message, the messages so far, and all that was and will be sent. */
    ghost var head: seq<Byte>
    ghost var text: seq<Byte>
    /** The bytes of the four strings, in the order in which they come, and the strings. */
    ghost var all: seq<Cell<Buffer>>
    ghost var bufs: set<Buffer>
    ghost var delivered: seq<Raw>
    ghost var stream: seq<Byte>

    ghost predicate Shape()
      reads msg
    {
      header.Length == HEADER_LEN && vec.Length == 4 && msg.vec == vec
    }

    /** The strings have the lengths of a good header. */
    ghost predicate Announced()
      reads this`head, this`name, this`to, this`from, this`body, this`all, this`bufs
    {
      && |head| == HEADER_LEN && GoodHeader(head) && Apart(name, to, from, body)
      && LensOf(head) == Lens(name.Length, to.Length, from.Length, body.Length)
      && all == AllOf(name, to, from, body) && bufs == {name, to, from, body}
    }

    /** The strings are filled as far as they have come. */
    ghost predicate Filling()
      reads this`all, this`text, this`bufs, this`totalRecvLen, msg, vec, bufs
    {
      Shape() && Filled(msg, all, text, bufs) && (|text| < |all| ==> |text| + totalRecvLen == |all|)
    }

    ghost predicate InHeader()
      reads this`recvLen, this`head, this`text, header
    {
      recvLen < HEADER_LEN == header.Length && head == header[..recvLen] && text == []
    }

    /** Everything taken from the socket is in the messages delivered or in the part of the next one. */
    ghost predicate Booked()
      reads this`stream, this`delivered, this`head, this`text, sock
    {
      Sendable(delivered) && stream == Frames(delivered) + head + text + sock.incoming
    }

    ghost predicate Valid()
      reads this, sock, header, msg, vec, bufs
    {
      && Shape() && Booked() && NotTooMuch(head + text)
      && (connected ==> if inBody then recvLen == 0 && Announced() && Filling() else InHeader())
    }

    constructor (sock: InSocket)
      ensures Valid() && connected && this.sock == sock && stream == sock.incoming
      ensures delivered == [] && head == text == []
      ensures fresh(header) && fresh(msg) && fresh(vec) && fresh(bufs)
    {
      this.sock := sock;
      header := new Byte[HEADER_LEN];
      var none: Buffer := new Byte[0];
      var list := new Iov<Buffer>[4](_ => WholeOf(none));
      vec := list;
      msg := new MsgHdr(list);
      connected, inBody, recvLen, totalRecvLen := true, false, 0, 0;
      name, to, from, body, message := none, none, none, none, None;
      head, text, all, bufs, delivered, stream := [], [], [], {none}, [], sock.incoming;
      new;
      assert Frames(delivered) + head + text + sock.incoming == stream;
    }

    /** The list of buffers for the strings of a message. */
    method ListBuffers()
      requires Shape() && Apart(name, to, from, body) && bufs == {name, to, from, body}
      modifies this`all, msg, vec
      ensures Shape() && all == AllOf(name, to, from, body) && Filled(msg, all, [], bufs)
    {
      vec[0], vec[1], vec[2], vec[3] := WholeOf(name), WholeOf(to), WholeOf(from), WholeOf(body);
      msg.iov, msg.iovlen := 0, 4;
      all := AllOf(name, to, from, body);
      AllIsSound(name, to, from, body);
      AllIs(name, to, from, body);
      assert msg.View() == [WholeOf(name), WholeOf(to), WholeOf(from), WholeOf(body)];
    }

    method Allocate(l: Lens)
      modifies this`name, this`to, this`from, this`body, this`bufs
      ensures fresh(bufs) && Apart(name, to, from, body) && bufs == {name, to, from, body}
      ensures l == Lens(name.Length, to.Length, from.Length, body.Length)
    {
      name := new Byte[l.name];
      to := new Byte[l.to];
      from := new Byte[l.from];
      body := new Byte[l.body];
      bufs := {name, to, from, body};
    }

    /** FillRecvMessage: room for the strings that the header announces. */
    method FillRecvMessage(l: Lens)
      requires Shape() && connected && text == []
      modifies this`connected, this`totalRecvLen, this`name, this`to, this`from, this`body, this`all, this`bufs, msg, vec
      ensures Shape() && connected == GoodLens(l)
      ensures connected ==> fresh(bufs) && Apart(name, to, from, body) && all == AllOf(name, to, from, body) && bufs == {name, to, from, body} && Filling()
      ensures connected ==> l == Lens(name.Length, to.Length, from.Length, body.Length)
      ensures !connected ==> bufs == old(bufs)
    {
      if l.name > MAX_NAME_LEN || l.to > MAX_TO_LEN || l.from > MAX_FROM_LEN || l.body > MAX_BODY_LEN {
        connected := false;
        return;
      }
      Allocate(l);
      ListBuffers();
      totalRecvLen := name.Length + to.Length + from.Length + body.Length;
      AllIsSound(name, to, from, body);
    }

    /** More bytes of the header. */
    method TakeHeader() returns (ok: bool)
      requires Shape() && Booked() && InHeader()
      modifies this`recvLen, this`head, sock, header
      ensures recvLen <= HEADER_LEN && head == header[..recvLen]
      ensures Booked()
      ensures !ok ==> recvLen < HEADER_LEN && Fatal(old(sock.script))
      ensures Later(old(sock.script), sock.script) && (recvLen < HEADER_LEN ==> Halted(old(sock.script), sock.script, sock.incoming))
      ensures Fatal(sock.script) ==> Fatal(old(sock.script))
    {
      ghost var before, was := head, sock.incoming;
      var n;
      ok, n := Receive(sock, header, recvLen, HEADER_LEN - recvLen);
      assert header[..recvLen] == before;
      Took(Frames(delivered), header[..], recvLen, n, sock.incoming, was);
      recvLen := recvLen + n;
      head := header[..recvLen];
    }

    /** A complete header is checked. */
    method CheckHeader()
      requires Shape() && connected && !inBody && |head| == HEADER_LEN && head == header[..] && text == []
      modifies this`connected, this`inBody, this`recvLen, this`totalRecvLen, this`name, this`to, this`from, this`body, this`all, this`bufs, msg, vec
      ensures Shape() && recvLen == 0 && inBody == connected
      ensures connected ==> Announced() && Filling() && fresh(bufs)
      ensures !connected ==> !GoodHeader(head) && bufs == old(bufs)
    {
      recvLen := 0;
      assert header[..4] == head[..4];
      if header[..4] != MAGIC {
        connected := false;
        return;
      }
      FillRecvMessage(LensOf(header[..]));
      inBody := connected;
    }

    /** The first part of ParseMessage: the header is read, as far as it has come. */
    method ReadHeader()
      requires Shape() && Booked() && InHeader() && connected && !inBody
      modifies this, sock, header, msg, vec
      ensures Shape() && Booked() && stream == old(stream) && delivered == old(delivered)
      ensures text == [] && |head| <= HEADER_LEN
      ensures inBody ==> connected && recvLen == 0 && Announced() && Filling() && fresh(bufs)
      ensures !inBody ==> bufs == old(bufs)
      ensures connected && !inBody ==> InHeader()
      ensures Later(old(sock.script), sock.script) && (connected && !inBody ==> Halted(old(sock.script), sock.script, sock.incoming))
      ensures !connected ==> if |head| < HEADER_LEN then Fatal(old(sock.script)) else |head| == HEADER_LEN && !GoodHeader(head)
      ensures Fatal(sock.script) ==> Fatal(old(sock.script))
    {
      var ok := TakeHeader();
      if recvLen == HEADER_LEN {
        CheckHeader();
      } else {
        connected := ok;
      }
    }

    /** More bytes of the strings; true if all have come now. */
    method ReadStrings() returns (full: bool)
      requires Shape() && Booked() && connected && Filling()
      modifies this`connected, this`totalRecvLen, this`text, sock, msg, vec, bufs
      ensures Shape() && Booked() && Filled(msg, all, text, bufs) && (connected ==> Filling())
      ensures full ==> connected && |text| == |all|
      ensures !full && |old(text)| < |all| ==> |text| < |all|
      ensures |old(text)| == |all| ==> text == old(text)
      ensures Later(old(sock.script), sock.script) && (!full ==> Halted(old(sock.script), sock.script, sock.incoming) || |old(text)| == |all|)
      ensures !connected ==> Fatal(old(sock.script)) || |old(text)| == |all|
      ensures Fatal(sock.script) ==> Fatal(old(sock.script))
    {
      var ok, recvLen;
      ghost var now;
      ok, recvLen, now := ReceiveMessage(sock, msg, totalRecvLen, all, text, bufs);
      Regroup(Frames(delivered) + head, text, old(sock.incoming), now, sock.incoming);
      text := now;
      full := recvLen == totalRecvLen;
      if !full {
        connected := ok;
        if ok { totalRecvLen := totalRecvLen - recvLen; }
      }
    }

    /** The bytes of the next message are not a message and cannot become one. */
    ghost predicate Refused()
      reads this`head, this`text
    {
      Look(head + text).Bad? || Look(head + text).Unaddressed?
    }

    /**
      Since the script was as before, the connection was given up only for a broken socket or a refused
      message; and if reading has stopped, the socket gives no more or a message is refused.
      */
    ghost predicate Reported(was: seq<Reply>, stopped: bool)
      reads this`connected, this`head, this`text, sock
    {
      && Later(was, sock.script) && (Fatal(sock.script) ==> Fatal(was))
      && (!connected ==> Fatal(was) || Refused())
      && (stopped ==> Halted(was, sock.script, sock.incoming) || Refused())
    }

    lemma ReportedLater(was: seq<Reply>, mid: seq<Reply>, stopped: bool)
      requires Later(was, mid) && (Fatal(mid) ==> Fatal(was)) && Reported(mid, stopped)
      ensures Reported(was, stopped)
    {
      LaterTrans(was, mid, sock.script);
    }

    /** What the four strings are when all their bytes have come. */
    ghost function Strings(): Raw
      reads this`name, this`to, this`from, this`body, name, to, from, body
    {
      Raw(name[..], to[..], from[..], body[..])
    }

    /** The books when one more message is handed out. */
    ghost predicate Grown(r: Raw)
      reads this`delivered, this`head, this`text, sock
    {
      Frames(delivered + [r]) + [] + [] + sock.incoming == Frames(delivered) + head + text + sock.incoming
    }

    lemma StringsAreAFrame() returns (r: Raw)
      requires Shape() && Announced() && Filled(msg, all, text, bufs) && |text| == |all|
      ensures r == Strings()
      ensures Addressed(r) ==> !NotTooMuch(head + text) && Within(r) && Grown(r)
      ensures !Addressed(r) ==> NotTooMuch(head + text) && Refused()
    {
      r := Strings();
      AllIsSound(name, to, from, body);
      AllHolds(name, to, from, body, text);
      PiecesAre(name[..], to[..], from[..], body[..]);
      StringsRead(head, text, LensOf(head));
      FramesAppend(delivered, r, head, text, sock.incoming);
    }

    lemma StringsAreMore()
      requires Shape() && Announced() && |text| < |all|
      ensures Look(head + text).More?
    {
      AllIsSound(name, to, from, body);
      StringsRead(head, text, LensOf(head));
    }

    /** SetUrlForRecvMessage: refused if neither address contains the separator. */
    method SetUrlForRecvMessage() returns (ok: bool)
      modifies this`message
      ensures ok <==> Addressed(Strings())
      ensures message == if ok then Some(Received(Strings())) else old(message)
    {
      var f, t := Find(from[..]), Find(to[..]);
      if f == from.Length && t == to.Length { return false; }
      message := Some(Message(name[..], AidOf(from[..]), AidOf(to[..]), body[..]));
      ok := true;
    }

    lemma HeadIs()
      requires text == [] && |head| <= HEADER_LEN
      ensures NotTooMuch(head + text) && (|head| == HEADER_LEN && !GoodHeader(head) ==> Look(head + text).Bad?)
    {
      assert head + text == head;
      if |head| == HEADER_LEN { HeaderStops(head); } else { StartStops(head); }
    }

    /** More bytes of the strings, and what they then are. */
    method MoreStrings() returns (full: bool, ghost r: Raw)
      requires Shape() && Booked() && connected && Announced() && Filling() && NotTooMuch(head + text)
      modifies this`connected, this`totalRecvLen, this`text, sock, msg, vec, bufs
      ensures Shape() && Booked() && Announced() && (connected ==> Filling())
      ensures full ==> connected && r == Strings() && (Addressed(r) ==> Within(r) && Grown(r))
      ensures (full && Addressed(r)) || NotTooMuch(head + text)
      ensures Reported(old(sock.script), !full || !Addressed(r))
    {
      if |text| == |all| { r := StringsAreAFrame(); }
      full := ReadStrings();
      if |text| == |all| { r := StringsAreAFrame(); } else { r := Strings(); StringsAreMore(); }
    }

    /** A message is handed out, and the next one starts with a header. */
    method HandOut(ghost r: Raw)
      requires Shape() && Booked() && connected && inBody && recvLen == 0
      requires Grown(r) && Within(r) && Addressed(r)
      modifies this`inBody, this`text, this`head, this`delivered
      ensures Booked() && !inBody && InHeader() && delivered == old(delivered) + [r] && NotTooMuch(head + text)
    {
      inBody := false;
      head, text, delivered := [], [], delivered + [r];
      HeadIs();
    }

    /** A message whose strings have come: its addresses are set, and it is handed out. */
    method Deliver(ghost r: Raw) returns (whole: bool)
      requires Shape() && Booked() && connected && inBody && recvLen == 0 && Announced() && Filling()
      requires r == Strings() && (Addressed(r) ==> Within(r) && Grown(r))
      modifies this`inBody, this`text, this`head, this`delivered, this`message
      ensures Booked() && whole == !inBody == Addressed(r)
      ensures whole ==> InHeader() && NotTooMuch(head + text) && delivered == old(delivered) + [r] && message == Some(Received(r))
      ensures !whole ==> Announced() && Filling() && head == old(head) && text == old(text) && delivered == old(delivered)
    {
      whole := SetUrlForRecvMessage();
      if whole { HandOut(r); }
    }

    /** The first part of ParseMessage. */
    method ParseHeader()
      requires Valid() && connected && !inBody
      modifies this, sock, header, msg, vec
      ensures Valid() && stream == old(stream) && delivered == old(delivered)
      ensures inBody ==> connected && fresh(bufs)
      ensures !inBody ==> bufs == old(bufs)
      ensures Reported(old(sock.script), connected && !inBody)
    {
      ReadHeader();
      HeadIs();
    }

    /** The second part of ParseMessage. */
    method ParseBody() returns (whole: bool, ghost r: Raw)
      requires Valid() && connected && inBody
      modifies this`connected, this`inBody, this`totalRecvLen, this`text, this`head, this`delivered, this`message
      modifies sock, msg, vec, bufs
      ensures Valid() && (whole ==> connected)
      ensures whole ==> delivered == old(delivered) + [r] && message == Some(Received(r))
      ensures !whole ==> delivered == old(delivered)
      ensures Reported(old(sock.script), !whole)
    {
      var full;
      full, r := MoreStrings();
      whole := false;
      if full { whole := Deliver(r); }
    }

    /** ParseMessage. */
    method ParseMessage() returns (whole: bool, ghost r: Raw)
      requires Valid() && connected
      modifies this, sock, header, msg, vec, bufs
      ensures Valid() && stream == old(stream) && (bufs == old(bufs) || fresh(bufs))
      ensures whole ==> connected && delivered == old(delivered) + [r] && message == Some(Received(r))
      ensures !whole ==> delivered == old(delivered)
      ensures Reported(old(sock.script), !whole && connected)
    {
      whole, r := false, Raw([], [], [], []);
      if !inBody { ParseHeader(); }
      ghost var script := sock.script;
      if inBody {
        whole, r := ParseBody();
        ReportedLater(old(sock.script), script, !whole);
      }
    }

    /** ReadCallBack: up to three messages, handed to the message handler in this order. */
    method ReadCallBack() returns (messages: seq<Message>, ghost rs: seq<Raw>)
      requires Valid() && connected
      modifies this, sock, header, msg, vec, bufs
      ensures Valid() && stream == old(stream) && (bufs == old(bufs) || fresh(bufs))
      ensures delivered == old(delivered) + rs && |messages| == |rs| <= 3
      ensures forall i :: 0 <= i < |rs| ==> messages[i] == Received(rs[i])
      ensures Reported(old(sock.script), |rs| < 3 && connected)
    {
      messages, rs := [], [];
      for count := 0 to 3
        invariant Valid() && connected && stream == old(stream) && (bufs == old(bufs) || fresh(bufs))
        invariant delivered == old(delivered) + rs && |messages| == |rs| == count
        invariant forall i :: 0 <= i < |rs| ==> messages[i] == Received(rs[i])
        invariant Later(old(sock.script), sock.script) && (Fatal(sock.script) ==> Fatal(old(sock.script)))
      {
        ghost var script := sock.script;
        var whole;
        ghost var r;
        whole, r := ParseMessage();
        ReportedLater(old(sock.script), script, !whole && connected);
        if !whole { return; }
        messages, rs := messages + [message.value], rs + [r];
      }
    }

    /**
      Whatever the sockets did: what has been delivered of a stream of frames is its first
      messages, no byte of another message has been consumed beyond the one in progress,
      the stream is never refused, and once all bytes have been taken all messages are delivered.
      */
    lemma DeliveredInOrder(rs: seq<Raw>)
      requires Valid() && Sendable(rs) && stream == Frames(rs)
      ensures delivered <= rs && !Refused()
      ensures sock.incoming == [] ==> delivered == rs && head + text == []
      ensures head + text + sock.incoming == Frames(rs[|delivered|..])
      ensures head + text + sock.incoming != [] ==> |delivered| < |rs| && head + text < Frame(rs[|delivered|])
    {
      assert Frames(delivered) + head + text + sock.incoming == Frames(delivered) + (head + text) + sock.incoming;
      OneWayToRead(delivered, head + text, sock.incoming, rs);
    }
  }
}
