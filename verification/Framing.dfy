/**
  The bytes of a message on the wire: a header of 20 bytes with four lengths in network
  byte order, then name, receiver, sender and body.
  */
module Framing {

  import opened Integers
  import Codes

  type Byte = x: int | 0 <= x < 256

  const MAGIC: seq<Byte> := [82, 80, 67, 48]
  const AT: Byte := 64
  const HEADER_LEN := 20
  const MAX_NAME_LEN := 1024
  const MAX_TO_LEN := 1024
  const MAX_FROM_LEN := 1024
  const MAX_BODY_LEN := 1_073_741_824

  /** The four strings of a message as they travel. */
  datatype Raw = Raw(name: seq<Byte>, to: seq<Byte>, from: seq<Byte>, body: seq<Byte>)

  // ------------------------------------------------------- network byte order

  /** htonl of the low 32 bits. */
  function Be32(n: nat): (r: seq<Byte>)
    ensures |r| == 4
  {
    var m := n % TWO32;
    [m / 0x100_0000, m / 0x1_0000 % 256, m / 256 % 256, m % 256]
  }

  /** ntohl. */
  function Num(b: seq<Byte>): nat
    requires |b| == 4
  {
    var b0: int, b1: int, b2: int, b3: int := b[0], b[1], b[2], b[3];
    ((b0 * 256 + b1) * 256 + b2) * 256 + b3
  }

  lemma NumBe32(n: nat)
    ensures Num(Be32(n)) == n % TWO32
  {
    var m := n % TWO32;
    assert m / 0x1_0000 == m / 0x100_0000 * 256 + m / 0x1_0000 % 256;
    assert m / 256 == m / 0x1_0000 * 256 + m / 256 % 256;
  }

  lemma Be32Num(b: seq<Byte>)
    requires |b| == 4
    ensures Num(b) < TWO32 && Be32(Num(b)) == b
  {
    var b0: int, b1: int, b2: int, b3: int := b[0], b[1], b[2], b[3];
    var top := b0 * 256 + b1;
    assert Num(b) == (top * 256 + b2) * 256 + b3;
  }

  // ------------------------------------------------------------------- frames

  function Header(r: Raw): (h: seq<Byte>)
    ensures |h| == HEADER_LEN
  {
    MAGIC + Be32(|r.name|) + Be32(|r.to|) + Be32(|r.from|) + Be32(|r.body|)
  }

  function Content(r: Raw): seq<Byte> {
    r.name + r.to + r.from + r.body
  }

  function Frame(r: Raw): seq<Byte> {
    Header(r) + Content(r)
  }

  function Frames(rs: seq<Raw>): seq<Byte> {
    Codes.Flat(Frame, rs)
  }

  predicate Within(r: Raw) {
    |r.name| <= MAX_NAME_LEN && |r.to| <= MAX_TO_LEN && |r.from| <= MAX_FROM_LEN && |r.body| <= MAX_BODY_LEN
  }

  predicate Addressed(r: Raw) {
    AT in r.from || AT in r.to
  }

  // ------------------------------------------------------ reading a byte string

  /** What some received bytes are: the start of a message, a message, or not to be accepted. */
  datatype Verdict = More | Bad | Unaddressed(raw: Raw) | Whole(raw: Raw)

  /** The lengths announced in a header. */
  datatype Lens = Lens(name: nat, to: nat, from: nat, body: nat)

  function LensOf(h: seq<Byte>): Lens
    requires |h| >= HEADER_LEN
  {
    Lens(Num(h[4..8]), Num(h[8..12]), Num(h[12..16]), Num(h[16..20]))
  }

  predicate GoodLens(l: Lens) {
    l.name <= MAX_NAME_LEN && l.to <= MAX_TO_LEN && l.from <= MAX_FROM_LEN && l.body <= MAX_BODY_LEN
  }

  function Total(l: Lens): nat {
    l.name + l.to + l.from + l.body
  }

  predicate GoodHeader(h: seq<Byte>)
    requires |h| >= HEADER_LEN
  {
    h[..4] == MAGIC && GoodLens(LensOf(h))
  }

  /** The content cut into its strings. */
  function Pieces(l: Lens, c: seq<Byte>): Raw
    requires |c| >= Total(l)
  {
    Raw(c[..l.name], c[l.name..l.name + l.to], c[l.name + l.to..l.name + l.to + l.from],
        c[l.name + l.to + l.from..Total(l)])
  }

  function Look(g: seq<Byte>): Verdict {
    if |g| < HEADER_LEN then More
    else if !GoodHeader(g) then Bad
    else if |g| < HEADER_LEN + Total(LensOf(g)) then More
    else
      var r := Pieces(LensOf(g), g[HEADER_LEN..]);
      if Addressed(r) then Whole(r) else Unaddressed(r)
  }

  lemma HeaderLens(r: Raw)
    ensures Header(r)[..4] == MAGIC
    ensures LensOf(Header(r)) == Lens(|r.name| % TWO32, |r.to| % TWO32, |r.from| % TWO32, |r.body| % TWO32)
  {
    var h := Header(r);
    assert h[4..8] == Be32(|r.name|) && h[8..12] == Be32(|r.to|);
    assert h[12..16] == Be32(|r.from|) && h[16..20] == Be32(|r.body|);
    NumBe32(|r.name|);
    NumBe32(|r.to|);
    NumBe32(|r.from|);
    NumBe32(|r.body|);
  }

  lemma Small(n: nat)
    requires n < TWO32
    ensures n % TWO32 == n
  {
  }

  lemma ExactLens(r: Raw)
    requires |r.name| < TWO32 && |r.to| < TWO32 && |r.from| < TWO32 && |r.body| < TWO32
    ensures Header(r)[..4] == MAGIC
    ensures LensOf(Header(r)) == Lens(|r.name|, |r.to|, |r.from|, |r.body|)
  {
    HeaderLens(r);
    Small(|r.name|);
    Small(|r.to|);
    Small(|r.from|);
    Small(|r.body|);
  }

  lemma HeaderOnly(g: seq<Byte>, h: seq<Byte>)
    requires |h| == HEADER_LEN && h <= g
    ensures g[..4] == h[..4] && LensOf(g) == LensOf(h)
  {
    assert g[4..8] == h[4..8] && g[8..12] == h[8..12];
    assert g[12..16] == h[12..16] && g[16..20] == h[16..20];
  }

  /** The verdict on a header and what follows it. */
  lemma LookAfter(h: seq<Byte>, c: seq<Byte>, l: Lens)
    requires |h| == HEADER_LEN && h[..4] == MAGIC && LensOf(h) == l
    ensures Look(h + c) ==
            if !GoodLens(l) then Bad
            else if |c| < Total(l) then More
            else if Addressed(Pieces(l, c)) then Whole(Pieces(l, c)) else Unaddressed(Pieces(l, c))
  {
    HeaderOnly(h + c, h);
    assert (h + c)[HEADER_LEN..] == c;
  }

  lemma PiecesOfContent(r: Raw)
    ensures |Content(r)| == Total(Lens(|r.name|, |r.to|, |r.from|, |r.body|))
    ensures Pieces(Lens(|r.name|, |r.to|, |r.from|, |r.body|), Content(r)) == r
  {
  }

  lemma PiecesJoin(l: Lens, c: seq<Byte>)
    requires |c| == Total(l)
    ensures Content(Pieces(l, c)) == c
  {
  }

  /** A frame is read back exactly if it keeps the limits and one address contains the separator. */
  lemma FrameIsRead(r: Raw)
    requires |r.name| < TWO32 && |r.to| < TWO32 && |r.from| < TWO32 && |r.body| < TWO32
    ensures Look(Frame(r)) == Whole(r) <==> Within(r) && Addressed(r)
    ensures Look(Frame(r)) == Unaddressed(r) <==> Within(r) && !Addressed(r)
    ensures Look(Frame(r)).Bad? <==> !Within(r)
  {
    ExactLens(r);
    PiecesOfContent(r);
    LookAfter(Header(r), Content(r), Lens(|r.name|, |r.to|, |r.from|, |r.body|));
  }

  /** Lengths above the limit are refused with the header; from 2^32 on they are taken modulo 2^32. */
  lemma TooLongIsRefused(r: Raw)
    ensures Look(Header(r)).Bad? <==>
            !(|r.name| % TWO32 <= 1024 && |r.to| % TWO32 <= 1024 &&
              |r.from| % TWO32 <= 1024 && |r.body| % TWO32 <= 0x4000_0000)
  {
    HeaderLens(r);
  }

  /** No proper prefix of a frame is a message. */
  lemma PartIsMore(r: Raw, g: seq<Byte>)
    requires Within(r) && g < Frame(r)
    ensures Look(g).More?
  {
    if |g| >= HEADER_LEN {
      var part := g[HEADER_LEN..];
      assert g == Header(r) + part;
      ExactLens(r);
      LookAfter(Header(r), part, Lens(|r.name|, |r.to|, |r.from|, |r.body|));
    }
  }

  /** Bytes that just make a message are its frame. */
  lemma ReadIsFrame(g: seq<Byte>)
    requires |g| >= HEADER_LEN && GoodHeader(g) && |g| == HEADER_LEN + Total(LensOf(g))
    ensures var r := Pieces(LensOf(g), g[HEADER_LEN..]); g == Frame(r) && Within(r)
  {
    var l := LensOf(g);
    var r := Pieces(l, g[HEADER_LEN..]);
    PiecesJoin(l, g[HEADER_LEN..]);
    assert |r.name| == l.name && |r.to| == l.to && |r.from| == l.from && |r.body| == l.body;
    Be32Num(g[4..8]);
    Be32Num(g[8..12]);
    Be32Num(g[12..16]);
    Be32Num(g[16..20]);
    assert g[..HEADER_LEN] == g[..4] + g[4..8] + g[8..12] + g[12..16] + g[16..20];
    assert g == g[..HEADER_LEN] + g[HEADER_LEN..];
  }

  lemma MoreBefore(g: seq<Byte>, p: seq<Byte>)
    requires Look(g).More? && p <= g
    ensures Look(p).More?
  {
    if |p| >= HEADER_LEN { HeaderOnly(g, p[..HEADER_LEN]); HeaderOnly(p, p[..HEADER_LEN]); }
  }

  // --------------------------------------------------------- several messages

  ghost predicate Sendable(rs: seq<Raw>) {
    forall r :: r in rs ==> Within(r) && Addressed(r)
  }

  lemma SameLength<T>(a: seq<T>, b: seq<T>)
    requires a <= b && !(a < b)
    ensures a == b
  {
  }

  /** One frame does not start with another one. */
  lemma FramesDiffer(a: Raw, b: Raw)
    requires Within(a) && Within(b) && Frame(a) <= Frame(b)
    ensures a == b
  {
    FrameIsRead(a);
    FrameIsRead(b);
    if Frame(a) < Frame(b) {
      PartIsMore(b, Frame(a));
    } else {
      SameLength(Frame(a), Frame(b));
    }
  }

  /** Where a reader of the bytes has to stop: it has no byte more than it needs for its verdict. */
  predicate NotTooMuch(got: seq<Byte>) {
    match Look(got)
    case More => true
    case Bad => |got| == HEADER_LEN
    case Unaddressed(_) => |got| == HEADER_LEN + Total(LensOf(got))
    case Whole(_) => false
  }

  lemma NoFrameWithin(got: seq<Byte>, a: Raw)
    requires NotTooMuch(got) && Within(a) && Addressed(a)
    ensures !(Frame(a) <= got)
  {
    FrameIsRead(a);
    if Frame(a) <= got {
      match Look(got)
      case More => MoreBefore(got, Frame(a));
      case Bad => SameLength(Frame(a), got);
      case Unaddressed(r) =>
        ReadIsFrame(got);
        FramesDiffer(a, r);
    }
  }

  /**
    Some messages and a part of one more can be cut out of a stream of frames in one way only:
    the messages are the first ones of the stream, and nothing of a whole message is left over.
    */
  lemma OneWayToRead(ds: seq<Raw>, got: seq<Byte>, rest: seq<Byte>, rs: seq<Raw>)
    requires Sendable(ds) && Sendable(rs) && NotTooMuch(got)
    requires Frames(ds) + got + rest == Frames(rs)
    ensures ds <= rs && Look(got).More?
    ensures rest == [] ==> ds == rs && got == []
    ensures got + rest == Frames(rs[|ds|..])
    ensures got + rest != [] ==> |ds| < |rs| && got < Frame(rs[|ds|])
  {
    forall a, b | a in ds + rs && b in ds + rs && Frame(a) <= Frame(b) ensures a == b { FramesDiffer(a, b); }
    forall a | a in rs ensures !(Frame(a) <= got) { NoFrameWithin(got, a); }
    Codes.OneWay(Frame, ds, got, rest, rs);
    if got + rest != [] { PartIsMore(rs[|ds|], got); }
  }

  // ---------------------------------------------------------------- addresses

  datatype Aid = Aid(name: seq<Byte>, url: seq<Byte>)

  /** The conversion of an address to a string. */
  function Show(a: Aid): seq<Byte> {
    a.name + [AT] + a.url
  }

  /** The position of the first separator, or the length if there is none. */
  function Find(s: seq<Byte>): (i: nat)
    ensures i <= |s| && forall j :: 0 <= j < i ==> s[j] != AT
    ensures i < |s| <==> AT in s
    ensures i < |s| ==> s[i] == AT
  {
    if s == [] then 0 else if s[0] == AT then 0 else
      Find(s[1..]) + 1
  }

  /** Without a separator both parts are the whole string. */
  function AidOf(s: seq<Byte>): Aid {
    var i := Find(s);
    if i < |s| then Aid(s[..i], s[i + 1..]) else Aid(s, s)
  }

  lemma AidIsRead(a: Aid)
    ensures AidOf(Show(a)) == a <==> AT !in a.name
    ensures Show(AidOf(Show(a))) == Show(a)
  {
    var s := Show(a);
    var i := Find(s);
    assert s[|a.name|] == AT;
    assert s[..i] + [AT] + s[i + 1..] == s;
    if i < |a.name| {
      assert a.name[i] == AT;
    } else {
      assert s[..i] == a.name && s[i + 1..] == a.url;
    }
  }

  lemma AddressIsKept(s: seq<Byte>)
    ensures Show(AidOf(s)) == s <==> AT in s
  {
    var i := Find(s);
    if i < |s| {
      assert s[..i] + [AT] + s[i + 1..] == s;
    } else {
      assert |Show(AidOf(s))| == 2 * |s| + 1;
    }
  }

  /** A message as sender and receiver see it. */
  datatype Message = Message(name: seq<Byte>, from: Aid, to: Aid, body: seq<Byte>)

  function Sent(m: Message): Raw {
    Raw(m.name, Show(m.to), Show(m.from), m.body)
  }

  function Received(r: Raw): Message {
    Message(r.name, AidOf(r.from), AidOf(r.to), r.body)
  }

  /** The conversion puts a separator into both addresses, so what is sent is always addressed. */
  lemma SentIsAddressed(m: Message)
    ensures Addressed(Sent(m))
    ensures Received(Sent(m)) == m <==> AT !in m.from.name && AT !in m.to.name
  {
    AidIsRead(m.from);
    AidIsRead(m.to);
    assert Show(m.from)[|m.from.name|] == AT;
  }
}
