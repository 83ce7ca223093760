/**
  Reading and writing a stream socket.  What the kernel answers is a script, so a result
  about all scripts is about every way of breaking the stream into pieces.
  */
module TcpSocket {

  import opened Framing
  import opened Iovecs

  type Buffer = array<Byte>

  /**
    What a call does: transfer up to n bytes (at least one if it can), or fail with EAGAIN,
    with an error that ends the connection, or with another one; or find the stream closed.
    */
  datatype Reply = Data(n: nat) | Again | Reset | Other | Shut

  /** Whether a script ends the connection. */
  ghost predicate Fatal(script: seq<Reply>) {
    exists i :: 0 <= i < |script| && (script[i].Reset? || script[i].Shut?)
  }

  /** now is what is left of the script. */
  ghost predicate Later(was: seq<Reply>, now: seq<Reply>) {
    |now| <= |was| && was[|was| - |now|..] == now
  }

  lemma LaterTrans(was: seq<Reply>, mid: seq<Reply>, now: seq<Reply>)
    requires Later(was, mid) && Later(mid, now)
    ensures Later(was, now)
    ensures |now| < |mid| ==> was[|was| - |now| - 1] == mid[|mid| - |now| - 1]
  {
    assert was[|was| - |now|..] == was[|was| - |mid|..][|mid| - |now|..];
  }

  lemma NextLater(was: seq<Reply>)
    requires was != []
    ensures Later(was, was[1..]) && was[|was| - |was[1..]| - 1] == was[0]
    ensures Fatal(was[1..]) ==> Fatal(was)
  {
  }

  /** No more came: the last answer was no data, or there is no answer or no byte left. */
  ghost predicate Halted(was: seq<Reply>, now: seq<Reply>, incoming: seq<Byte>) {
    Later(was, now) && (now == [] || incoming == [] || (|now| < |was| && !was[|was| - |now| - 1].Data?))
  }

  function Least(a: nat, b: nat): nat {
    if a <= b then a else b
  }

  datatype Answer = Bytes(data: seq<Byte>) | Failed(why: Reply)

  /** The receiving end: the bytes that have not been read, and the script. */
  class InSocket {
    var incoming: seq<Byte>
    var script: seq<Reply>

    constructor (incoming: seq<Byte>, script: seq<Reply>)
      ensures this.incoming == incoming && this.script == script
    {
      this.incoming, this.script := incoming, script;
    }

    /** A read of up to room bytes.  After the script, and on an empty stream, nothing comes any more. */
    method Take(room: nat) returns (r: Answer)
      modifies this
      ensures Later(old(script), script) && (script == old(script) ==> r == Failed(Other))
      ensures r.Failed? ==> Halted(old(script), script, incoming)
      ensures Fatal(script) ==> Fatal(old(script))
      ensures r.Bytes? ==> |r.data| <= room && r.data + incoming == old(incoming) && (r.data == [] ==> room == 0)
      ensures r.Failed? ==> incoming == old(incoming) && !r.why.Data?
      ensures r.Failed? && (r.why.Reset? || r.why.Shut?) ==> Fatal(old(script))
      ensures r == Failed(Again) ==> |script| < |old(script)|
    {
      if script == [] { return Failed(Other); }
      var reply := script[0];
      assert old(script)[0] == reply;
      script := script[1..];
      NextLater(old(script));
      if !reply.Data? { return Failed(reply); }
      if incoming == [] { return Failed(Again); }
      var k := Least(Least(if reply.n == 0 then 1 else reply.n, room), |incoming|);
      r := Bytes(incoming[..k]);
      assert incoming == incoming[..k] + incoming[k..];
      incoming := incoming[k..];
    }
  }

  /** Receive: into a buffer from position at on, until it has all bytes or no more come. */
  method Receive(sock: InSocket, buf: Buffer, at: nat, total: nat) returns (ok: bool, recvLen: nat)
    requires at + total <= buf.Length
    modifies sock, buf
    ensures recvLen <= total && buf[at..at + recvLen] + sock.incoming == old(sock.incoming)
    ensures forall i :: 0 <= i < buf.Length && !(at <= i < at + recvLen) ==> buf[i] == old(buf[i])
    ensures !ok ==> recvLen < total && Fatal(old(sock.script))
    ensures Later(old(sock.script), sock.script) && (recvLen < total ==> Halted(old(sock.script), sock.script, sock.incoming))
    ensures Fatal(sock.script) ==> Fatal(old(sock.script))
  {
    recvLen := 0;
    while recvLen != total
      invariant Later(old(sock.script), sock.script)
      invariant recvLen <= total && buf[at..at + recvLen] + sock.incoming == old(sock.incoming)
      invariant forall i :: 0 <= i < buf.Length && !(at <= i < at + recvLen) ==> buf[i] == old(buf[i])
      invariant Fatal(sock.script) ==> Fatal(old(sock.script))
      decreases total - recvLen
    {
      ghost var before, script := buf[at..at + recvLen], sock.script;
      var r := sock.Take(total - recvLen);
      LaterTrans(old(sock.script), script, sock.script);
      match r
      case Bytes(data) =>
        forall i | 0 <= i < |data| { buf[at + recvLen + i] := data[i]; }
        recvLen := recvLen + |data|;
        assert buf[at..at + recvLen] == before + data;
      case Failed(why) =>
        return !why.Reset? && !why.Shut?, recvLen;
    }
    ok := true;
  }

  // -------------------------------------------------------- scattered buffers

  ghost predicate InRange(cells: seq<Cell<Buffer>>, bufs: set<Buffer>) {
    forall i :: 0 <= i < |cells| ==> cells[i].buf in bufs && cells[i].at < cells[i].buf.Length
  }

  ghost predicate Distinct(cells: seq<Cell<Buffer>>) {
    forall i, j :: 0 <= i < j < |cells| ==> cells[i] != cells[j]
  }

  /** The first cells hold the bytes. */
  ghost predicate Holds(cells: seq<Cell<Buffer>>, bytes: seq<Byte>, bufs: set<Buffer>)
    requires InRange(cells, bufs)
    reads bufs
  {
    |bytes| <= |cells| && forall i :: 0 <= i < |bytes| ==> cells[i].buf[cells[i].at] == bytes[i]
  }

  /** The kernel writes the bytes to the cells after the first ones. */
  method Scatter(todo: seq<Cell<Buffer>>, data: seq<Byte>, ghost all: seq<Cell<Buffer>>, ghost before: seq<Byte>,
                 ghost bufs: set<Buffer>)
    requires InRange(all, bufs) && Distinct(all) && Holds(all, before, bufs)
    requires todo == all[|before|..] && |data| <= |todo|
    modifies bufs
    ensures Holds(all, before + data, bufs)
  {
    for k := 0 to |data|
      invariant Holds(all, before + data[..k], bufs)
    {
      assert todo[k] == all[|before| + k];
      todo[k].buf[todo[k].at] := data[k];
      assert forall i :: 0 <= i < |before| + k ==> all[i] != all[|before| + k];
    }
    assert data[..|data|] == data;
  }

  /** The bytes got are in place, and the list starts at the cell of the next one. */
  ghost predicate Filled(msg: MsgHdr<Buffer>, all: seq<Cell<Buffer>>, got: seq<Byte>, bufs: set<Buffer>)
    reads msg, msg.vec, bufs
  {
    && InRange(all, bufs) && Distinct(all) && Holds(all, got, bufs)
    && msg.Valid() && Cells(msg.View()) == all[|got|..]
  }

  /** recvmsg. */
  method RecvMsg(sock: InSocket, msg: MsgHdr<Buffer>, ghost all: seq<Cell<Buffer>>, ghost got: seq<Byte>,
                 ghost bufs: set<Buffer>) returns (r: Answer)
    requires Filled(msg, all, got, bufs)
    modifies sock, bufs
    ensures Later(old(sock.script), sock.script) && (sock.script == old(sock.script) ==> r == Failed(Other))
    ensures r.Failed? ==> Halted(old(sock.script), sock.script, sock.incoming)
    ensures Fatal(sock.script) ==> Fatal(old(sock.script))
    ensures r.Bytes? ==> |got| + |r.data| <= |all| && r.data + sock.incoming == old(sock.incoming)
    ensures r.Bytes? && r.data == [] ==> |got| == |all|
    ensures r.Bytes? ==> Holds(all, got + r.data, bufs)
    ensures r.Failed? ==> Filled(msg, all, got, bufs) && sock.incoming == old(sock.incoming) && !r.why.Data?
    ensures r.Failed? && (r.why.Reset? || r.why.Shut?) ==> Fatal(old(sock.script))
    ensures r == Failed(Again) ==> |sock.script| < |old(sock.script)|
  {
    var todo := Cells(msg.vec[msg.iov..msg.iov + msg.iovlen]);
    r := sock.Take(|todo|);
    if r.Bytes? { Scatter(todo, r.data, all, got, bufs); }
  }

  /** One call of recvmsg, and the list moved on; left is what has not come of the total asked for. */
  method ReceiveOnce(sock: InSocket, msg: MsgHdr<Buffer>, left: nat, ghost all: seq<Cell<Buffer>>, ghost got: seq<Byte>,
                 ghost bufs: set<Buffer>)
    returns (r: Answer, ghost now: seq<Byte>)
    requires Filled(msg, all, got, bufs)
    requires |got| + left == |all| || |got| == |all|
    modifies sock, msg`iov, msg`iovlen, msg.vec, bufs
    ensures Filled(msg, all, now, bufs)
    ensures got <= now && now + sock.incoming == got + old(sock.incoming) && |now| == |got| + if r.Bytes? then |r.data| else 0
    ensures Later(old(sock.script), sock.script)
    ensures r.Failed? ==> Halted(old(sock.script), sock.script, sock.incoming)
    ensures Fatal(sock.script) ==> Fatal(old(sock.script))
    ensures r.Bytes? && r.data == [] ==> |got| == |all|
    ensures r.Failed? ==> now == got
    ensures r.Failed? && (r.why.Reset? || r.why.Shut?) ==> Fatal(old(sock.script))
    ensures r == Failed(Again) ==> |sock.script| < |old(sock.script)|
  {
    r := RecvMsg(sock, msg, all, got, bufs);
    if r.Failed? { return r, got; }
    now := got + r.data;
    if r.data == [] {
      assert now == got;
    } else if |r.data| == left {
      msg.iovlen := 0;
    } else {
      msg.AdvanceReceived(|r.data|);
    }
  }

  /**
    ReceiveMessage: fills the buffers of the list until all have their bytes or no more come,
    and leaves the list at the first byte that has not come.
    */
  method ReceiveMessage(sock: InSocket, msg: MsgHdr<Buffer>, total: nat, ghost all: seq<Cell<Buffer>>, ghost got: seq<Byte>,
                 ghost bufs: set<Buffer>)
    returns (ok: bool, recvLen: nat, ghost now: seq<Byte>)
    requires Filled(msg, all, got, bufs)
    requires |got| + total == |all| || |got| == |all|
    modifies sock, msg`iov, msg`iovlen, msg.vec, bufs
    ensures Filled(msg, all, now, bufs)
    ensures got <= now && now + sock.incoming == got + old(sock.incoming) && |now| == |got| + recvLen
    ensures !ok ==> Fatal(old(sock.script)) || |got| == |all|
    ensures Later(old(sock.script), sock.script)
    ensures recvLen < total ==> Halted(old(sock.script), sock.script, sock.incoming) || |got| == |all|
    ensures recvLen <= total || |got| == |all|
    ensures Fatal(sock.script) ==> Fatal(old(sock.script))
  {
    now, recvLen := got, 0;
    if total == 0 { return true, 0, got; }
    while recvLen < total
      invariant Later(old(sock.script), sock.script)
      invariant Filled(msg, all, now, bufs) && msg.vec == old(msg.vec)
      invariant got <= now && now + sock.incoming == got + old(sock.incoming) && |now| == |got| + recvLen
      invariant Fatal(sock.script) ==> Fatal(old(sock.script))
      invariant recvLen > 0 ==> |got| + total == |all|
      decreases total - recvLen, |sock.script|
    {
      ghost var script := sock.script;
      var r;
      r, now := ReceiveOnce(sock, msg, total - recvLen, all, now, bufs);
      LaterTrans(old(sock.script), script, sock.script);
      if r.Failed? {
        if r.why.Again? { continue; }
        return !r.why.Reset? && !r.why.Shut?, recvLen, now;
      }
      if r.data == [] { return false, recvLen, now; }
      recvLen := recvLen + |r.data|;
    }
    ok := true;
  }
}
