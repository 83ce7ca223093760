/** The sending side of a connection: messages are written as lists of buffers. */
module Sending {

  import opened Framing
  import opened Iovecs
  import opened TcpSocket
  import Codes

  const EAGAIN_RETRY := 1_024_000

  type Text = seq<Byte>

  predicate Readable(cells: seq<Cell<Text>>) {
    forall i :: 0 <= i < |cells| ==> cells[i].at < |cells[i].buf|
  }

  /** The bytes that a list of buffers stands for. */
  function TextOf(cells: seq<Cell<Text>>): (r: Text)
    requires Readable(cells)
    ensures |r| == |cells|
  {
    seq(|cells|, i requires 0 <= i < |cells| => cells[i].buf[cells[i].at])
  }

  /** The sending end: the bytes on the wire, and the script. */
  class OutSocket {
    var wire: Text
    var script: seq<Reply>

    constructor (script: seq<Reply>)
      ensures wire == [] && this.script == script
    {
      wire, this.script := [], script;
    }

    /** sendmsg: up to n bytes of the text are accepted, possibly none.  After the script the connection is lost. */
    method Put(text: Text) returns (r: Reply)
      modifies this
      ensures script == if old(script) == [] then [] else old(script)[1..]
      ensures r.Data? ==> r.n <= |text| && wire == old(wire) + text[..r.n] && |script| < |old(script)|
      ensures r.Data? ==> old(script)[0].Data? && r.n == Least(old(script)[0].n, |text|)
      ensures !r.Data? ==> wire == old(wire) && r == if old(script) == [] then Reset else old(script)[0]
    {
      r := if script == [] then Reset else script[0];
      script := if script == [] then [] else script[1..];
      if r.Data? {
        r := Data(Least(r.n, |text|));
        wire := wire + text[..r.n];
      }
    }
  }

  // ------------------------------------------------- what a script leads to

  /** How sending goes: all that was asked for is sent, given up after many EAGAIN, or the connection is lost. */
  datatype End = Done | GaveUp | Broken

  /** Also what is left of the script, and the number of bytes that are not on the wire. */
  datatype Outcome = Outcome(end: End, rest: seq<Reply>, left: nat) {
    predicate Leaves(script: seq<Reply>, unsent: nat) {
      rest == script && left == unsent
    }
  }

  /** What SendMessage tells its caller. */
  predicate Ended(ok: bool, all: bool, r: Outcome) {
    match r.end
    case Done => ok && all
    case GaveUp => ok && !all
    case Broken => !ok
  }

  /** One call of SendMessage that still wants so many bytes, when the list of buffers has left of them. */
  function Sends(script: seq<Reply>, left: nat, want: nat, count: nat): (r: Outcome)
    requires left <= want && count < EAGAIN_RETRY
    ensures |r.rest| <= |script| && r.left <= left && (r.end == GaveUp ==> |r.rest| < |script|)
    ensures r.end == Done ==> left == want && r.left == 0
    ensures left == want && r.left == 0 ==> r.end == Done
    decreases |script|
  {
    if want == 0 then Outcome(Done, script, left)
    else if script == [] then Outcome(Broken, [], left)
    else match script[0]
      case Data(n) => Sends(script[1..], left - Least(n, left), want - Least(n, left), 0)
      case Again =>
        if count + 1 == EAGAIN_RETRY then Outcome(GaveUp, script[1..], left)
        else Sends(script[1..], left, want, count + 1)
      case _ => Outcome(Broken, script[1..], left)
  }

  /** The calls of SendMessage in Flush: the number of bytes wanted stays what it was when a call gives up. */
  function Flushes(script: seq<Reply>, left: nat, want: nat): (r: Outcome)
    requires left <= want
    ensures r.end == Done ==> left == want
    ensures r.end != GaveUp
    decreases |script|
  {
    var r := Sends(script, left, want, 0);
    if r.end == GaveUp then Flushes(r.rest, r.left, want) else r
  }

  lemma FlushesInTurns(script: seq<Reply>, left: nat, want: nat, ok: bool, all: bool, rest: seq<Reply>, missing: nat)
    requires left <= want
    requires var r := Sends(script, left, want, 0); Ended(ok, all, r) && r.Leaves(rest, missing)
    ensures var r := Flushes(script, left, want);
      if ok && !all then |rest| < |script| && missing <= want && r == Flushes(rest, missing, want)
      else (ok <==> r.end == Done) && r.Leaves(rest, missing)
  {
  }

  /** The number of bytes for which there is room. */
  function Room(script: seq<Reply>): nat {
    if script == [] then 0
    else (var last := script[|script| - 1]; if last.Data? then last.n else 0) + Room(script[..|script| - 1])
  }

  predicate Lossless(script: seq<Reply>) {
    forall i :: 0 <= i < |script| ==> script[i].Data? || script[i].Again?
  }

  predicate AllAgain(script: seq<Reply>, from: nat, to: nat)
    requires from <= to <= |script|
  {
    forall i :: from <= i < to ==> script[i].Again?
  }

  /** After a part was taken, EAGAIN comes so often in a row that SendMessage gives up. */
  ghost predicate StallsAfterPart(script: seq<Reply>) {
    exists w: nat :: StallAt(script, w)
  }

  predicate StallAt(script: seq<Reply>, w: nat) {
    w + EAGAIN_RETRY <= |script| && Room(script[..w]) > 0 && AllAgain(script, w, w + EAGAIN_RETRY)
  }

  /** The first k answers take all bytes, without an error and without a stall after a part. */
  ghost predicate Takes(script: seq<Reply>, need: nat, k: nat) {
    k <= |script| && Room(script[..k]) >= need && Lossless(script[..k]) && !StallsAfterPart(script[..k])
  }

  lemma RoomStep(script: seq<Reply>, p: nat)
    requires p < |script|
    ensures Room(script[..p + 1]) == Room(script[..p]) + if script[p].Data? then script[p].n else 0
  {
    assert script[..p + 1][..p] == script[..p];
  }

  lemma {:induction false} RoomGrows(script: seq<Reply>, k: nat, p: nat)
    requires k <= p <= |script|
    ensures Room(script[..k]) <= Room(script[..p])
  {
    if k < p {
      RoomGrows(script, k, p - 1);
      RoomStep(script, p - 1);
    }
  }

  /** Flush stands at p: no stall so far, and the count answers before p are EAGAIN. */
  ghost predicate At(script: seq<Reply>, p: nat, count: nat) {
    && count <= p <= |script| && count < EAGAIN_RETRY
    && Lossless(script[..p]) && !StallsAfterPart(script[..p]) && AllAgain(script, p - count, p)
    && (Room(script[..p]) > 0 ==> p > count && script[p - count - 1].Data?)
  }

  function Missing(script: seq<Reply>, need: nat, p: nat): nat
    requires p <= |script|
  {
    var room := Room(script[..p]);
    if room >= need then 0 else need - room
  }

  function FlushesOn(script: seq<Reply>, need: nat, p: nat, count: nat): Outcome
    requires p <= |script| && count < EAGAIN_RETRY
  {
    var r := Sends(script[p..], Missing(script, need, p), Missing(script, need, p), count);
    if r.end == GaveUp then Flushes(r.rest, r.left, need) else r
  }

  lemma NoneShorter(script: seq<Reply>, need: nat, p: nat, k: nat)
    requires p <= |script| && Missing(script, need, p) > 0 && Takes(script, need, k)
    ensures k > p
  {
    if k <= p { RoomGrows(script, k, p); }
  }

  /** The next answer is EAGAIN for the last time that SendMessage accepts. */
  lemma StallIsFatal(script: seq<Reply>, p: nat, k: nat)
    requires At(script, p, EAGAIN_RETRY - 1) && p < |script| && script[p].Again?
    requires Room(script[..p]) > 0 && p < k <= |script|
    ensures StallsAfterPart(script[..k])
  {
    var w := p + 1 - EAGAIN_RETRY;
    RoomOfAgains(script, w, p);
    assert script[..k][..w] == script[..w];
    assert StallAt(script[..k], w);
  }

  lemma {:induction false} RoomOfAgains(script: seq<Reply>, w: nat, p: nat)
    requires w <= p <= |script| && AllAgain(script, w, p)
    ensures Room(script[..w]) == Room(script[..p])
  {
    if w < p {
      RoomOfAgains(script, w, p - 1);
      RoomStep(script, p - 1);
    }
  }

  lemma NextIsAt(script: seq<Reply>, p: nat, count: nat, next: nat)
    requires At(script, p, count) && p < |script|
    requires next == if script[p].Again? then count + 1 else 0
    requires script[p].Data? || (script[p].Again? && next < EAGAIN_RETRY)
    ensures At(script, p + 1, next)
  {
    RoomStep(script, p);
    var front := script[..p + 1];
    forall w: nat ensures !StallAt(front, w) {
      if w + EAGAIN_RETRY <= p + 1 && Room(front[..w]) > 0 {
        assert front[..w] == script[..w];
        var i := NoStallBehind(script, p, count, w);
        assert !front[i].Again?;
      }
    }
  }

  /** Among so many answers there is one that is not EAGAIN. */
  lemma NoStallBehind(script: seq<Reply>, p: nat, count: nat, w: nat) returns (i: nat)
    requires At(script, p, count) && p < |script|
    requires script[p].Data? || (script[p].Again? && count + 1 < EAGAIN_RETRY)
    requires w + EAGAIN_RETRY <= p + 1 && Room(script[..w]) > 0
    ensures w <= i < w + EAGAIN_RETRY && !script[i].Again?
  {
    if w + EAGAIN_RETRY <= p {
      assert script[..p][..w] == script[..w];
      assert !StallAt(script[..p], w);
      i :| w <= i < w + EAGAIN_RETRY && !script[..p][i].Again?;
    } else if script[p].Data? {
      i := p;
    } else {
      RoomGrows(script, w, p);
      i := p - count - 1;
    }
  }

  /** Flush finishes exactly if some first answers take all that is missing. */
  lemma {:induction false} FlushesFrom(script: seq<Reply>, need: nat, p: nat, count: nat)
    requires need > 0 && At(script, p, count)
    ensures FlushesOn(script, need, p, count).end == Done <==> exists k: nat :: Takes(script, need, k)
    decreases |script| - p
  {
    var missing := Missing(script, need, p);
    if missing == 0 {
      assert Takes(script, need, p);
    } else {
      forall k: nat | Takes(script, need, k) ensures p < k <= |script| && script[p] == script[..k][p] { NoneShorter(script, need, p, k); }
      if p < |script| { FlushesAfter(script, need, p, count); }
    }
  }

  lemma {:induction false} FlushesAfter(script: seq<Reply>, need: nat, p: nat, count: nat)
    requires need > 0 && At(script, p, count) && Missing(script, need, p) > 0 && p < |script|
    requires forall k: nat :: Takes(script, need, k) ==> p < k <= |script| && script[p] == script[..k][p]
    ensures FlushesOn(script, need, p, count).end == Done <==> exists k: nat :: Takes(script, need, k)
    decreases |script| - p, 0
  {
    OneAnswer(script, need, p, count);
    match script[p]
    case Data(n) =>
      NextIsAt(script, p, count, 0);
      FlushesFrom(script, need, p + 1, 0);
    case Again =>
      if count + 1 < EAGAIN_RETRY {
        NextIsAt(script, p, count, count + 1);
        FlushesFrom(script, need, p + 1, count + 1);
      } else if Room(script[..p]) > 0 {
        forall k: nat ensures !Takes(script, need, k) { if Takes(script, need, k) { StallIsFatal(script, p, k); } }
      } else {
        GivesUpAt(script, p);
        FlushesFrom(script, need, p + 1, 0);
      }
    case _ =>
  }

  lemma OneAnswer(script: seq<Reply>, need: nat, p: nat, count: nat)
    requires p < |script| && count < EAGAIN_RETRY && Missing(script, need, p) > 0
    ensures var now, next := FlushesOn(script, need, p, count), p + 1;
      && (script[p].Data? ==> now == FlushesOn(script, need, next, 0))
      && (script[p].Again? && count + 1 < EAGAIN_RETRY ==> now == FlushesOn(script, need, next, count + 1))
      && (script[p].Again? && count + 1 == EAGAIN_RETRY ==>
            if Room(script[..p]) == 0 then now == FlushesOn(script, need, next, 0) else now.end == Broken)
      && (!script[p].Data? && !script[p].Again? ==> now.end == Broken)
  {
    RoomStep(script, p);
    assert script[p..][0] == script[p] && script[p..][1..] == script[p + 1..];
  }

  /** Nothing has been taken, so giving up changes nothing. */
  lemma GivesUpAt(script: seq<Reply>, p: nat)
    requires At(script, p, EAGAIN_RETRY - 1) && p < |script| && script[p].Again? && Room(script[..p]) == 0
    ensures At(script, p + 1, 0)
  {
    RoomStep(script, p);
    var front := script[..p + 1];
    forall w: nat ensures !StallAt(front, w) {
      if w <= p + 1 {
        assert front[..w] == script[..w];
        RoomGrows(script, w, p + 1);
      }
    }
  }

  /**
    Flush finishes a message exactly if the first answers take all its bytes, without an error
    and without a stall between its first byte and its last.
    */
  lemma FlushesIff(script: seq<Reply>, need: nat)
    requires need > 0
    ensures Flushes(script, need, need).end == Done <==> exists k: nat :: Takes(script, need, k)
  {
    assert script[0..] == script;
    FlushesFrom(script, need, 0, 0);
  }

  lemma {:induction false} RoomConcat(a: seq<Reply>, b: seq<Reply>)
    ensures Room(a + b) == Room(a) + Room(b)
  {
    if b == [] {
      assert a + b == a;
    } else {
      RoomConcat(a, b[..|b| - 1]);
      assert (a + b)[..|a + b| - 1] == a + b[..|b| - 1];
    }
  }

  lemma RoomFront(script: seq<Reply>)
    requires script != []
    ensures Room(script) == (if script[0].Data? then script[0].n else 0) + Room(script[1..])
  {
    RoomConcat([script[0]], script[1..]);
    assert [script[0]] + script[1..] == script && [script[0]][..0] == [];
  }

  /** So many bytes are left of some when there was room for others. */
  function Less(left: nat, room: nat): nat {
    left - Least(room, left)
  }

  lemma {:induction false} SendsUsesRoom(script: seq<Reply>, left: nat, want: nat, count: nat)
    requires left <= want && count < EAGAIN_RETRY && Lossless(script)
    ensures var r := Sends(script, left, want, count);
      && Lossless(r.rest) && Room(r.rest) <= Room(script) && r.left == Less(left, Room(script) - Room(r.rest))
      && (r.end == Broken ==> r.rest == [])
    decreases |script|
  {
    if want > 0 && script != [] {
      RoomFront(script);
      match script[0]
      case Data(n) => SendsUsesRoom(script[1..], left - Least(n, left), want - Least(n, left), 0);
      case Again => if count + 1 < EAGAIN_RETRY { SendsUsesRoom(script[1..], left, want, count + 1); }
    }
  }

  /**
    Without an error Flush finishes or goes on for ever, using up every script, however long,
    although all bytes go out for which there is room.
    */
  lemma {:induction false} FinishesOrSpins(script: seq<Reply>, left: nat, want: nat)
    requires left <= want && Lossless(script)
    ensures var r := Flushes(script, left, want);
      r.end == Done || (r.rest == [] && r.left == Less(left, Room(script)))
    decreases |script|
  {
    SendsUsesRoom(script, left, want, 0);
    var r := Sends(script, left, want, 0);
    if r.end == GaveUp { FinishesOrSpins(r.rest, r.left, want); }
  }

  function Agains(n: nat): (r: seq<Reply>)
    ensures |r| == n && AllAgain(r, 0, n)
  {
    seq(n, _ => Again)
  }

  /**
    The input on which Flush fails: one byte is taken, then EAGAIN comes until SendMessage
    gives up.  Whatever follows, the message is not finished, even when all of it goes out.
    */
  lemma GivenUpInside(need: nat, rest: seq<Reply>)
    requires need >= 2
    ensures var r := Flushes([Data(1)] + Agains(EAGAIN_RETRY) + rest, need, need);
      r.end == Broken && (Lossless(rest) && Room(rest) >= need - 1 ==> r.left == 0 && r.rest == [])
  {
    var part := [Data(1)] + Agains(EAGAIN_RETRY);
    var script := part + rest;
    RoomFront(part);
    assert part[1..] == Agains(EAGAIN_RETRY);
    RoomOfAgains(part[1..], 0, EAGAIN_RETRY);
    assert part[1..][..EAGAIN_RETRY] == part[1..];
    RoomConcat(part, rest);
    FlushesIff(script, need);
    forall k: nat ensures !Takes(script, need, k) {
      if k <= |script| && Room(script[..k]) >= need { GivenUpBefore(script, part, k); }
    }
    if Lossless(rest) {
      assert forall i :: 0 <= i < |script| ==> script[i] == if i < |part| then part[i] else rest[i - |part|];
      FinishesOrSpins(script, need, need);
    }
  }

  lemma GivenUpBefore(script: seq<Reply>, part: seq<Reply>, k: nat)
    requires part == [Data(1)] + Agains(EAGAIN_RETRY) && part <= script && k <= |script|
    requires Room(script[..k]) >= 2 && Room(part) == 1
    ensures StallsAfterPart(script[..k])
  {
    assert script[..|part|] == part;
    if k <= |part| { RoomGrows(script, k, |part|); }
    assert script[..k][..1] == [Data(1)];
    assert [Data(1)][..0] == [];
    forall i | 1 <= i < 1 + EAGAIN_RETRY ensures script[..k][i].Again? { assert script[i] == part[i]; }
    assert StallAt(script[..k], 1);
  }

  /** What is left of the script, and the n answers before it were EAGAIN. */
  ghost predicate Stalled(script: seq<Reply>, rest: seq<Reply>, n: nat) {
    |rest| + n <= |script| && script[|script| - |rest|..] == rest &&
    forall i :: |script| - |rest| - n <= i < |script| - |rest| ==> script[i].Again?
  }

  /** Giving up means that the last answers were all EAGAIN, with the count before them. */
  lemma {:induction false} GivenUpIsStalled(script: seq<Reply>, left: nat, want: nat, count: nat)
    requires left <= want && count < EAGAIN_RETRY && Sends(script, left, want, count).end == GaveUp
    ensures var rest := Sends(script, left, want, count).rest;
      var n := |script| - |rest|;
      && n + count >= EAGAIN_RETRY
      && Stalled(script, rest, if n < EAGAIN_RETRY then n else EAGAIN_RETRY)
    decreases |script|
  {
    var next, r := script[1..], Sends(script, left, want, count);
    match script[0]
    case Data(n) => GivenUpIsStalled(next, left - Least(n, left), want - Least(n, left), 0);
    case Again => if count + 1 < EAGAIN_RETRY { GivenUpIsStalled(next, left, want, count + 1); }
    assert forall i :: 0 < i < |script| ==> script[i] == next[i - 1];
    assert script[|script| - |r.rest|..] == next[|next| - |r.rest|..];
  }

  /** The socket answers r, when left bytes are offered. */
  predicate Answers(script: seq<Reply>, r: Reply, left: nat) {
    if script == [] then r.Reset?
    else if r.Data? then script[0].Data? && r.n == Least(script[0].n, left)
    else r == script[0]
  }

  function Tail(script: seq<Reply>): seq<Reply> {
    if script == [] then [] else script[1..]
  }

  /** How sending goes on after the answer r. */
  predicate GoesOn(fate: Outcome, r: Reply, rest: seq<Reply>, left: nat, want: nat, count: nat)
    requires left <= want && count < EAGAIN_RETRY
  {
    match r
    case Data(n) => n <= left && fate == Sends(rest, left - n, want - n, 0)
    case Again => fate == if count + 1 == EAGAIN_RETRY then Outcome(GaveUp, rest, left) else Sends(rest, left, want, count + 1)
    case _ => fate == Outcome(Broken, rest, left)
  }

  lemma AnswerLeads(script: seq<Reply>, r: Reply, left: nat, want: nat, count: nat)
    requires left <= want && count < EAGAIN_RETRY && want > 0 && Answers(script, r, left)
    ensures GoesOn(Sends(script, left, want, count), r, Tail(script), left, want, count)
  {
  }

  lemma TextSplit(cells: seq<Cell<Text>>, k: nat, n: nat)
    requires Readable(cells) && k + n <= |cells|
    ensures Readable(cells[k..]) && TextOf(cells)[..k] + TextOf(cells[k..])[..n] == TextOf(cells)[..k + n]
    ensures cells[k..][n..] == cells[k + n..]
  {
  }

  /** The first bytes of the cells are on the wire, and the list starts at the next one. */
  ghost predicate Written(msg: MsgHdr<Text>, sock: OutSocket, all: seq<Cell<Text>>, before: Text, sent: nat)
    reads msg, msg.vec, sock`wire
  {
    && Readable(all) && sent <= |all| && sock.wire == before + TextOf(all)[..sent]
    && msg.Valid() && Cells(msg.View()) == all[sent..]
  }

  /** Sending is at this place, and its fate does not change. */
  ghost predicate Standing(script: seq<Reply>, left: int, want: nat, count: nat, fate: Outcome) {
    0 <= left <= want && count < EAGAIN_RETRY && fate == Sends(script, left, want, count)
  }

  /** One call of sendmsg, and the list moved on. */
  method SendOnce(sock: OutSocket, msg: MsgHdr<Text>, want: nat, ghost all: seq<Cell<Text>>, ghost before: Text, ghost sent: nat,
                  ghost count: nat, ghost fate: Outcome)
    returns (r: Reply, ghost now: nat)
    requires Written(msg, sock, all, before, sent) && Standing(sock.script, |all| - sent, want, count, fate) && want > 0
    modifies sock, msg`iov, msg`iovlen, msg.vec
    ensures Written(msg, sock, all, before, now) && now == sent + if r.Data? then r.n else 0
    ensures r.Data? || r.Again? ==> |sock.script| < |old(sock.script)|
    ensures r.Data? ==> r.n <= want && Standing(sock.script, |all| - now, want - r.n, 0, fate)
    ensures r.Again? && count + 1 < EAGAIN_RETRY ==> Standing(sock.script, |all| - now, want, count + 1, fate)
    ensures r.Again? && count + 1 == EAGAIN_RETRY ==> fate == Outcome(GaveUp, sock.script, |all| - now)
    ensures !r.Data? && !r.Again? ==> fate == Outcome(Broken, sock.script, |all| - now)
  {
    ghost var script := sock.script;
    r := Offer(sock, msg, want, all, before, sent);
    now := sent + if r.Data? then r.n else 0;
    AnswerLeads(script, r, |all| - sent, want, count);
  }

  method Offer(sock: OutSocket, msg: MsgHdr<Text>, want: nat, ghost all: seq<Cell<Text>>, ghost before: Text, ghost sent: nat)
    returns (r: Reply)
    requires Written(msg, sock, all, before, sent) && |all| - sent <= want && want > 0
    modifies sock, msg`iov, msg`iovlen, msg.vec
    ensures sock.script == Tail(old(sock.script)) && Answers(old(sock.script), r, |all| - sent)
    ensures Written(msg, sock, all, before, sent + if r.Data? then r.n else 0)
  {
    assert Cells(msg.vec[msg.iov..msg.iov + msg.iovlen]) == all[sent..];
    r := sock.Put(TextOf(Cells(msg.vec[msg.iov..msg.iov + msg.iovlen])));
    if r.Data? {
      TextSplit(all, sent, r.n);
      if r.n == want {
        msg.iovlen := 0;
      } else {
        msg.AdvanceSent(r.n);
      }
    }
  }

  /**
    SendMessage: writes until all is written, an error occurs, or EAGAIN has come EAGAIN_RETRY
    times in a row; in this case the caller is told that nothing has been written.
    */
  method SendMessage(sock: OutSocket, msg: MsgHdr<Text>, total: nat, ghost all: seq<Cell<Text>>, ghost before: Text, ghost was: nat)
    returns (ok: bool, sendLen: nat, ghost sent: nat)
    requires Written(msg, sock, all, before, was) && |all| - was <= total
    modifies sock, msg`iov, msg`iovlen, msg.vec
    ensures was <= sent && Written(msg, sock, all, before, sent)
    ensures ok && sendLen != total ==> sendLen == 0
    ensures Ended(ok, sendLen == total, Sends(old(sock.script), |all| - was, total, 0))
    ensures Sends(old(sock.script), |all| - was, total, 0).Leaves(sock.script, |all| - sent)
  {
    var eagainCount := 0;
    sendLen, sent := 0, was;
    ghost var fate := Sends(sock.script, |all| - was, total, 0);
    while sendLen != total
      invariant sendLen <= total && was <= sent && msg.vec == old(msg.vec)
      invariant Written(msg, sock, all, before, sent)
      invariant Standing(sock.script, |all| - sent, total - sendLen, eagainCount, fate)
      decreases |sock.script|
    {
      var r;
      r, sent := SendOnce(sock, msg, total - sendLen, all, before, sent, eagainCount, fate);
      if !r.Data? {
        eagainCount := eagainCount + 1;
        if !r.Again? { return false, sendLen, sent; }
        if eagainCount == EAGAIN_RETRY { return true, 0, sent; }
      } else {
        sendLen := sendLen + r.n;
        eagainCount := 0;
      }
    }
    ok := true;
  }

  // ------------------------------------------------------------------ messages

  function Slice(t: Text): Iov<Text> {
    Iov(t, 0, |t|)
  }

  lemma SliceText(t: Text)
    ensures Readable(CellsOf(Slice(t))) && TextOf(CellsOf(Slice(t))) == t
  {
  }

  lemma TextConcat(a: seq<Cell<Text>>, b: seq<Cell<Text>>)
    requires Readable(a) && Readable(b)
    ensures Readable(a + b) && TextOf(a + b) == TextOf(a) + TextOf(b)
  {
  }

  function Slices(ts: seq<Text>): seq<Iov<Text>> {
    if ts == [] then [] else [Slice(ts[0])] + Slices(ts[1..])
  }

  function Joined(ts: seq<Text>): Text {
    if ts == [] then [] else ts[0] + Joined(ts[1..])
  }

  lemma {:induction false} SlicesText(ts: seq<Text>)
    ensures Readable(Cells(Slices(ts))) && TextOf(Cells(Slices(ts))) == Joined(ts)
  {
    if ts != [] {
      SlicesText(ts[1..]);
      CellsCons(Slice(ts[0]), Slices(ts[1..]));
      SliceText(ts[0]);
      TextConcat(CellsOf(Slice(ts[0])), Cells(Slices(ts[1..])));
    }
  }

  lemma Cons(t: Text, ts: seq<Text>)
    ensures Slices([t] + ts) == [Slice(t)] + Slices(ts) && Joined([t] + ts) == t + Joined(ts)
  {
    assert ([t] + ts)[1..] == ts;
  }

  lemma FiveText(a: Text, b: Text, c: Text, d: Text, e: Text)
    ensures var list := [Slice(a), Slice(b), Slice(c), Slice(d), Slice(e)];
      Readable(Cells(list)) && TextOf(Cells(list)) == a + (b + c + d + e)
  {
    Cons(e, []);
    Cons(d, [e]);
    Cons(c, [d, e]);
    Cons(b, [c, d, e]);
    Cons(a, [b, c, d, e]);
    assert [e] + [] == [e] && [d] + [e] == [d, e] && [c] + [d, e] == [c, d, e] && [b] + [c, d, e] == [b, c, d, e];
    SlicesText([a] + [b, c, d, e]);
    assert a + (b + (c + (d + (e + [])))) == a + (b + c + d + e);
    assert [Slice(a)] + ([Slice(b)] + ([Slice(c)] + ([Slice(d)] + ([Slice(e)] + [])))) ==
           [Slice(a), Slice(b), Slice(c), Slice(d), Slice(e)];
  }

  function FrameOf(m: Message): Text {
    Frame(Sent(m))
  }

  function FramesOf(ms: seq<Message>): Text {
    Codes.Flat(FrameOf, ms)
  }

  /** The part of a connection that sends. */
  class Sender {
    const sock: OutSocket
    const vec: array<Iov<Text>>
    const msg: MsgHdr<Text>
    var queue: seq<Message>
    var totalSendLen: nat
    var connected: bool
    /** The message being sent, how much of it is on the wire, and what was there before. */
    ghost var all: seq<Cell<Text>>
    ghost var sent: nat
    ghost var before: Text

    ghost predicate Valid()
      reads this, sock, msg, vec
    {
      && vec.Length == 5 && msg.vec == vec
      && Written(msg, sock, all, before, sent) && |all| - sent <= totalSendLen
    }

    /** What is still to come: the rest of the current message and the messages in the queue. */
    ghost function Unsent(): Text
      reads this, sock, msg, vec
      requires Valid()
    {
      TextOf(all)[sent..] + FramesOf(queue)
    }

    /** What comes of Flush. */
    ghost function Fate(): Outcome
      reads this, sock, msg, vec
      requires Valid()
    {
      if totalSendLen > 0 then Flushes(sock.script, |all| - sent, totalSendLen)
      else if queue == [] then Outcome(Done, sock.script, 0)
      else Flushes(sock.script, |FrameOf(queue[0])|, |FrameOf(queue[0])|)
    }

    constructor (sock: OutSocket)
      ensures Valid() && this.sock == sock && connected && queue == [] && totalSendLen == 0 && Unsent() == []
      ensures fresh(vec) && fresh(msg)
    {
      this.sock := sock;
      var list := new Iov<Text>[5](_ => Slice([]));
      vec := list;
      msg := new MsgHdr(list);
      queue, totalSendLen, connected := [], 0, true;
      all, sent, before := [], 0, sock.wire;
      new;
      msg.iovlen := 0;
    }

    /** FillSendMessage: header, name, receiver, sender and body. */
    method FillSendMessage(m: Message)
      requires Valid() && totalSendLen == 0
      modifies this`totalSendLen, this`all, this`sent, this`before, msg, vec
      ensures Valid() && sent == 0 && TextOf(all) == FrameOf(m) && totalSendLen == |all| > 0
    {
      var r := Sent(m);
      var h := Header(r);
      vec[0], vec[1], vec[2], vec[3], vec[4] := Slice(h), Slice(r.name), Slice(r.to), Slice(r.from), Slice(r.body);
      msg.iov, msg.iovlen := 0, 5;
      totalSendLen := |h| + |r.name| + |r.to| + |r.from| + |r.body|;
      FiveText(h, r.name, r.to, r.from, r.body);
      assert msg.View() == [Slice(h), Slice(r.name), Slice(r.to), Slice(r.from), Slice(r.body)];
      all, sent, before := Cells(msg.View()), 0, sock.wire;
    }

    /** The next message of the queue becomes the current one. */
    method NextMessage()
      requires Valid() && totalSendLen == 0 && queue != []
      modifies this`queue, this`totalSendLen, this`all, this`sent, this`before, msg, vec
      ensures Valid() && Unsent() == old(Unsent()) && queue == old(queue)[1..]
      ensures sent == 0 && totalSendLen == |all| > 0 && Fate() == old(Fate())
    {
      FillSendMessage(queue[0]);
      queue := queue[1..];
    }

    /** More of the current message is written. */
    method SendMore() returns (ok: bool, sendLen: nat)
      requires Valid()
      modifies this`sent, sock, msg`iov, msg`iovlen, vec
      ensures Valid() && sock.wire + Unsent() == old(sock.wire + Unsent())
      ensures ok && sendLen != totalSendLen ==> sendLen == 0
      ensures var r := Sends(old(sock.script), old(|all| - sent), totalSendLen, 0);
        Ended(ok, sendLen == totalSendLen, r) && r.Leaves(sock.script, |all| - sent)
    {
      ghost var now;
      ghost var was := sent;
      ok, sendLen, now := SendMessage(sock, msg, totalSendLen, all, before, sent);
      sent := now;
      assert TextOf(all)[..was] + TextOf(all)[was..] == TextOf(all) == TextOf(all)[..now] + TextOf(all)[now..];
      Moved(before, TextOf(all), was, now, FramesOf(queue));
    }

    /** A turn of Flush when a message is under way. */
    method Proceed() returns (done: bool)
      requires Valid() && connected && totalSendLen > 0
      modifies this`totalSendLen, this`connected, this`sent, sock, msg`iov, msg`iovlen, vec
      ensures Valid() && sock.wire + Unsent() == old(sock.wire + Unsent())
      ensures !done ==> connected && totalSendLen > 0 && |sock.script| < |old(sock.script)|
      ensures !done ==> Flushes(sock.script, |all| - sent, totalSendLen) == old(Flushes(sock.script, |all| - sent, totalSendLen))
      ensures var r := old(Flushes(sock.script, |all| - sent, totalSendLen));
        done ==> (connected <==> r.end == Done) && r.Leaves(sock.script, |all| - sent)
      ensures done && connected ==> totalSendLen == 0
    {
      ghost var script, left := sock.script, |all| - sent;
      var ok, sendLen := SendMore();
      FlushesInTurns(script, left, totalSendLen, ok, sendLen == totalSendLen, sock.script, |all| - sent);
      if ok && sendLen > 0 {
        totalSendLen := totalSendLen - sendLen;
        return totalSendLen == 0;
      }
      connected := ok;
      done := !ok;
    }

    /** One turn of Flush; done if the turn was the last one. */
    method Turn() returns (done: bool)
      requires Valid() && connected && (totalSendLen == 0 ==> queue != [])
      modifies this`queue, this`totalSendLen, this`connected, this`all, this`sent, this`before, sock, msg, vec
      ensures Valid() && sock.wire + Unsent() == old(sock.wire + Unsent())
      ensures queue == if old(totalSendLen) == 0 then old(queue)[1..] else old(queue)
      ensures !done ==> connected && totalSendLen > 0 && |sock.script| < |old(sock.script)| && Fate() == old(Fate())
      ensures done ==> (connected <==> old(Fate()).end == Done) && old(Fate()).Leaves(sock.script, |all| - sent)
      ensures done && connected ==> totalSendLen == 0
    {
      if totalSendLen == 0 { NextMessage(); }
      done := Proceed();
    }

    /**
      Flush: finishes the current message, or the first one of the queue, or loses the
      connection.  Between two calls on a live connection no message is under way.
      */
    method Flush()
      requires Valid() && connected
      modifies this`queue, this`totalSendLen, this`connected, this`all, this`sent, this`before, sock, msg, vec
      ensures Valid() && sock.wire + Unsent() == old(sock.wire + Unsent())
      ensures connected <==> old(Fate()).end == Done
      ensures old(Fate()).Leaves(sock.script, |all| - sent)
      ensures connected ==> totalSendLen == 0 && sent == |all|
      ensures queue == if old(totalSendLen) == 0 && old(queue) != [] then old(queue)[1..] else old(queue)
    {
      if queue == [] && totalSendLen == 0 { return; }
      var done := Turn();
      while !done
        invariant Valid() && sock.wire + Unsent() == old(sock.wire + Unsent())
        invariant queue == if old(totalSendLen) == 0 then old(queue)[1..] else old(queue)
        invariant !done ==> connected && totalSendLen > 0 && Fate() == old(Fate())
        invariant done ==> (connected <==> old(Fate()).end == Done) && old(Fate()).Leaves(sock.script, |all| - sent)
        invariant done && connected ==> totalSendLen == 0
        decreases if done then 0 else 1 + |sock.script|
      {
        done := Turn();
      }
    }
  }

  lemma Moved(before: Text, text: Text, was: nat, now: nat, rest: Text)
    requires was <= now <= |text|
    ensures before + text[..was] + (text[was..] + rest) == before + text[..now] + (text[now..] + rest)
  {
    assert text[was..] == text[was..now] + text[now..] && text[..now] == text[..was] + text[was..now];
    assert before + text[..was] + (text[was..now] + text[now..] + rest) == before + (text[..was] + text[was..now]) + (text[now..] + rest);
  }
}
