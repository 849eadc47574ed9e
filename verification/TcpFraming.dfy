/**
 TCP framing (src/lib/tcptransport.cc): each message becomes one length-prefixed frame, and
 a read callback cuts frames out of a byte stream that arrives in arbitrary pieces.
 */
module TcpFraming {
  import opened Bytes

  const MAGIC: nat := 0x06121983
  const FRAME_LIMIT: nat := 1073741826

  function FrameSize(m: Message): nat {
    |m.kind| + 8 + |m.data| + 8 + 8 + 4
  }

  /** magic, total size, type size, type, data size, data; integers little-endian. */
  function Frame(m: Message): (f: seq<Byte>)
    ensures |f| == FrameSize(m)
  {
    Le(MAGIC, 4) + Le(FrameSize(m), 8) + Le(|m.kind|, 8) + m.kind + Le(|m.data|, 8) + m.data
  }

  /** SendMessageInternal fills a buffer through a moving pointer. None stands for a failed
      assertion: bytes must follow the data size, so a message without data cannot be sent. */
  method WriteFrame(m: Message) returns (r: Option<seq<Byte>>)
    requires FrameSize(m) < U64_RANGE
    ensures r == if m.data == [] then None else Some(Frame(m))
  {
    var total := FrameSize(m);
    var buf := new Byte[total];
    var ptr := Put(buf, 0, Le(MAGIC, 4));
    assert buf[..ptr] == Le(MAGIC, 4);
    if !(ptr < total) { return None; }
    ptr := Put(buf, ptr, Le(total, 8));
    if !(ptr < total) { return None; }
    ptr := Put(buf, ptr, Le(|m.kind|, 8));
    if !(ptr < total) || !(ptr + |m.kind| < total) { return None; }
    ptr := Put(buf, ptr, m.kind);
    ptr := Put(buf, ptr, Le(|m.data|, 8));
    if !(ptr < total) || ptr + |m.data| != total { return None; }
    ptr := Put(buf, ptr, m.data);
    assert buf[..] == buf[..ptr] == Frame(m);
    return Some(buf[..]);
  }

  // ---------------------------------------------------------------- reading

  /** What one round of the read loop finds at the front of the input buffer. Bad covers the
      failed assertions and every field that would be read from outside the frame. */
  datatype Parsed = NeedMore | Bad | Complete(msg: Message, size: nat)

  function ParseOne(buf: seq<Byte>): (p: Parsed)
    ensures p.Complete? ==> 0 < p.size <= |buf|
  {
    if |buf| < 4 then NeedMore
    else if FromLe(buf[..4]) != MAGIC then Bad
    else if |buf| < 12 then NeedMore
    else
      var total := FromLe(buf[4..12]);
      if total >= FRAME_LIMIT then Bad
      else if |buf| < total then NeedMore
      else ParseBody(buf[..total])
  }

  /** A whole frame, its size already checked. */
  function ParseBody(frame: seq<Byte>): (p: Parsed)
    ensures p.Complete? ==> 0 < p.size == |frame|
    ensures !p.NeedMore?
  {
    var total := |frame|;
    if total <= 20 then Bad else
    var typeLen := FromLe(frame[12..20]);
    if 20 + typeLen >= total || 28 + typeLen >= total then Bad else
    var msgLen := FromLe(frame[20 + typeLen..28 + typeLen]);
    if 28 + typeLen + msgLen > total then Bad
    else Complete(Message(frame[20..20 + typeLen], frame[28 + typeLen..28 + typeLen + msgLen]), total)
  }

  /** What is left in the input buffer, or the assertion failure that ended the process. */
  datatype Tail = Kept(rest: seq<Byte>) | Panicked

  datatype Progress = Progress(delivered: seq<Message>, tail: Tail)

  /** The read loop on a buffer: deliver frames off the front until one is incomplete. */
  function Drain(buf: seq<Byte>): Progress
    decreases |buf|
  {
    match ParseOne(buf)
    case NeedMore => Progress([], Kept(buf))
    case Bad => Progress([], Panicked)
    case Complete(msg, size) =>
      var later := Drain(buf[size..]);
      Progress([msg] + later.delivered, later.tail)
  }

  /** A chunk arrives and the read callback runs. */
  function Feed(p: Progress, chunk: seq<Byte>): Progress {
    match p.tail
    case Panicked => p
    case Kept(rest) =>
      var q := Drain(rest + chunk);
      Progress(p.delivered + q.delivered, q.tail)
  }

  /** All chunks of a connection in order. */
  function Run(chunks: seq<seq<Byte>>): Progress {
    if chunks == [] then Progress([], Kept([]))
    else Feed(Run(chunks[..|chunks| - 1]), chunks[|chunks| - 1])
  }

  function Concat(chunks: seq<seq<Byte>>): seq<Byte> {
    if chunks == [] then []
    else Concat(chunks[..|chunks| - 1]) + chunks[|chunks| - 1]
  }

  /** One connection: the input buffer and the messages handed to the receiver. */
  class Connection {
    var evbuf: seq<Byte>
    var delivered: seq<Message>
    var panicked: bool

    ghost function State(): Progress
      reads this
    {
      Progress(delivered, if panicked then Panicked else Kept(evbuf))
    }

    constructor ()
      ensures State() == Run([])
    {
      evbuf, delivered, panicked := [], [], false;
    }

    /** TCPReadableCallback, run after a chunk has been added to the buffer. */
    method OnReadable(chunk: seq<Byte>)
      requires !panicked
      modifies this
      ensures State() == Feed(old(State()), chunk)
    {
      evbuf := evbuf + chunk;
      ghost var before, all := delivered, Drain(evbuf);
      assert before + all.delivered == delivered + all.delivered;
      while |evbuf| > 0
        invariant !panicked
        invariant before + all.delivered == delivered + Drain(evbuf).delivered
        invariant all.tail == Drain(evbuf).tail
        decreases |evbuf|
      {
        var p := ParseOne(evbuf);
        if p.NeedMore? {
          return;
        }
        if p.Bad? {
          panicked := true;
          return;
        }
        ghost var later := Drain(evbuf[p.size..]).delivered;
        assert delivered + ([p.msg] + later) == delivered + [p.msg] + later;
        evbuf := evbuf[p.size..];
        delivered := delivered + [p.msg];
      }
    }
  }

  // ---------------------------------------------------------------- chunking does not matter

  /** A decision taken on a buffer stands when more bytes follow. */
  lemma ParseStable(buf: seq<Byte>, more: seq<Byte>)
    requires !ParseOne(buf).NeedMore?
    ensures ParseOne(buf + more) == ParseOne(buf)
  {
    assert (buf + more)[..4] == buf[..4];
    if |buf| >= 12 {
      assert (buf + more)[4..12] == buf[4..12];
      var total := FromLe(buf[4..12]);
      if total <= |buf| {
        assert (buf + more)[..total] == buf[..total];
      }
    }
  }

  /** Draining early and again later is draining once. */
  lemma {:induction false} DrainAppend(buf: seq<Byte>, more: seq<Byte>)
    ensures Drain(buf + more) == Feed(Drain(buf), more)
    decreases |buf|
  {
    match ParseOne(buf)
    case NeedMore =>
    case Bad =>
      ParseStable(buf, more);
    case Complete(msg, size) =>
      ParseStable(buf, more);
      DrainAppend(buf[size..], more);
      assert (buf + more)[size..] == buf[size..] + more;
      FeedPrepend(msg, Drain(buf[size..]), more);
  }

  lemma FeedPrepend(msg: Message, p: Progress, chunk: seq<Byte>)
    ensures Feed(Progress([msg] + p.delivered, p.tail), chunk)
         == Progress([msg] + Feed(p, chunk).delivered, Feed(p, chunk).tail)
  {
    if p.tail.Kept? {
      var q := Drain(p.tail.rest + chunk).delivered;
      assert [msg] + p.delivered + q == [msg] + (p.delivered + q);
    }
  }

  /** For every byte stream, well-formed or not, and every way of cutting it into chunks, the
      connection ends as if the whole stream had arrived at once. */
  lemma {:induction false} ChunkingDoesNotMatter(chunks: seq<seq<Byte>>)
    ensures Run(chunks) == Drain(Concat(chunks))
  {
    if chunks != [] {
      var front, last := chunks[..|chunks| - 1], chunks[|chunks| - 1];
      ChunkingDoesNotMatter(front);
      DrainAppend(Concat(front), last);
    }
  }

  // ---------------------------------------------------------------- frames come back

  /** Where each field of a frame lies, with anything behind the frame. */
  lemma FrameFields(m: Message, more: seq<Byte>)
    ensures var f, t := Frame(m) + more, |m.kind|;
            && f[..4] == Le(MAGIC, 4) && f[4..12] == Le(FrameSize(m), 8) && f[..FrameSize(m)] == Frame(m)
  {
    var f := Frame(m) + more;
    var rest := Le(|m.kind|, 8) + m.kind + Le(|m.data|, 8) + m.data + more;
    assert f == Le(MAGIC, 4) + Le(FrameSize(m), 8) + rest;
    Cut([], Le(MAGIC, 4), Le(FrameSize(m), 8) + rest);
    assert [] + Le(MAGIC, 4) + (Le(FrameSize(m), 8) + rest) == f;
    Cut(Le(MAGIC, 4), Le(FrameSize(m), 8), rest);
  }

  lemma BodyFields(m: Message)
    ensures var f, t := Frame(m), |m.kind|;
            && f[12..20] == Le(t, 8) && f[20..20 + t] == m.kind
            && f[20 + t..28 + t] == Le(|m.data|, 8) && f[28 + t..] == m.data
  {
    var head := Le(MAGIC, 4) + Le(FrameSize(m), 8);
    var t := Le(|m.kind|, 8);
    var d := Le(|m.data|, 8);
    assert Frame(m) == head + t + (m.kind + d + m.data);
    Cut(head, t, m.kind + d + m.data);
    assert Frame(m) == (head + t) + m.kind + (d + m.data);
    Cut(head + t, m.kind, d + m.data);
    assert Frame(m) == (head + t + m.kind) + d + m.data;
    Cut(head + t + m.kind, d, m.data);
  }

  /** Reading back a frame, alone or followed by more bytes, yields its message exactly when
      it has data and stays below the size limit; otherwise the reader's assertions fail. */
  lemma FrameParses(m: Message, more: seq<Byte>)
    requires FrameSize(m) < U64_RANGE
    ensures ParseOne(Frame(m) + more)
         == if m.data != [] && FrameSize(m) < FRAME_LIMIT then Complete(m, FrameSize(m)) else Bad
  {
    RangeValues();
    FrameFields(m, more);
    LeRoundTrip(MAGIC, 4);
    LeRoundTrip(FrameSize(m), 8);
    BodyParses(m);
  }

  lemma BodyParses(m: Message)
    requires FrameSize(m) < U64_RANGE
    ensures ParseBody(Frame(m)) == if m.data != [] then Complete(m, FrameSize(m)) else Bad
  {
    RangeValues();
    BodyFields(m);
    LeRoundTrip(|m.kind|, 8);
    LeRoundTrip(|m.data|, 8);
  }

  /** The limit and the first bytes, written out. */
  lemma FrameParsesBelowLimit(m: Message, more: seq<Byte>)
    requires 28 + |m.kind| + |m.data| < U64_RANGE
    ensures Frame(m)[..4] == [0x83, 0x19, 0x12, 0x06]
    ensures ParseOne(Frame(m) + more) ==
              if m.data != [] && 28 + |m.kind| + |m.data| < 1073741826 then Complete(m, 28 + |m.kind| + |m.data|) else Bad
  {
    FrameParses(m, more);
    MagicBytes();
    FrameStarts(m);
  }

  lemma MagicBytes()
    ensures Le(MAGIC, 4) == [0x83, 0x19, 0x12, 0x06]
  {}

  lemma FrameStarts(m: Message)
    ensures Frame(m)[..4] == Le(MAGIC, 4)
  {
    FrameFields(m, []);
    assert Frame(m) + [] == Frame(m);
  }

  // ---------------------------------------------------------------- what is a frame

  /** The bytes are a frame of this message that says it has this size, with bytes behind the data that nobody
      reads; data or such bytes are not missing. */
  ghost predicate IsFrameOf(bytes: seq<Byte>, m: Message, pad: seq<Byte>) {
    && bytes == Le(MAGIC, 4) + Le(|bytes|, 8) + Le(|m.kind|, 8) + m.kind + Le(|m.data|, 8) + m.data + pad
    && |bytes| < FRAME_LIMIT && m.data + pad != []
  }

  lemma SixFields(a: seq<Byte>, b: seq<Byte>, c: seq<Byte>, kind: seq<Byte>, d: seq<Byte>, data: seq<Byte>, pad: seq<Byte>)
    requires |a| == 4 && |b| == 8 && |c| == 8 && |d| == 8
    ensures var f, t := a + b + c + kind + d + data + pad, |kind|;
            && f[..4] == a && f[4..12] == b && f[12..20] == c && f[20..20 + t] == kind && f[20 + t..28 + t] == d
            && f[28 + t..28 + t + |data|] == data
  {}

  lemma FrameOfParses(bytes: seq<Byte>, m: Message, pad: seq<Byte>)
    requires IsFrameOf(bytes, m, pad)
    ensures ParseOne(bytes) == Complete(m, |bytes|)
  {
    RangeValues();
    SixFields(Le(MAGIC, 4), Le(|bytes|, 8), Le(|m.kind|, 8), m.kind, Le(|m.data|, 8), m.data, pad);
    LeRoundTrip(MAGIC, 4);
    LeRoundTrip(|bytes|, 8);
    LeRoundTrip(|m.kind|, 8);
    LeRoundTrip(|m.data|, 8);
    assert bytes[..|bytes|] == bytes;
  }

  lemma ParsedIsFrame(buf: seq<Byte>) returns (pad: seq<Byte>)
    requires ParseOne(buf).Complete?
    ensures IsFrameOf(buf[..ParseOne(buf).size], ParseOne(buf).msg, pad)
  {
    var frame, m := buf[..ParseOne(buf).size], ParseOne(buf).msg;
    RangeValues();
    assert frame[..4] == buf[..4] && frame[4..12] == buf[4..12];
    pad := BodyOf(frame, m);
  }

  lemma BodyOf(frame: seq<Byte>, m: Message) returns (pad: seq<Byte>)
    requires |frame| >= 12 && FromLe(frame[..4]) == MAGIC && FromLe(frame[4..12]) == |frame| < FRAME_LIMIT
    requires ParseBody(frame) == Complete(m, |frame|)
    ensures IsFrameOf(frame, m, pad)
  {
    var t := |m.kind|;
    FromLeRoundTrip(frame[..4]);
    FromLeRoundTrip(frame[4..12]);
    FromLeRoundTrip(frame[12..20]);
    FromLeRoundTrip(frame[20 + t..28 + t]);
    pad := frame[28 + t + |m.data|..];
    SevenSlices(frame, t, |m.data|);
  }

  lemma SevenSlices(s: seq<Byte>, t: nat, d: nat)
    requires 28 + t + d <= |s|
    ensures s == s[..4] + s[4..12] + s[12..20] + s[20..20 + t] + s[20 + t..28 + t] + s[28 + t..28 + t + d] + s[28 + t + d..]
  {}

  /** Exactly the frames are read: a buffer yields a message if and only if it starts with a frame of it. */
  lemma ParsesIff(buf: seq<Byte>, m: Message, size: nat)
    ensures ParseOne(buf) == Complete(m, size) <==> size <= |buf| && exists pad :: IsFrameOf(buf[..size], m, pad)
  {
    if ParseOne(buf) == Complete(m, size) {
      var pad := ParsedIsFrame(buf);
    }
    if size <= |buf| {
      if pad :| IsFrameOf(buf[..size], m, pad) {
        FrameOfParses(buf[..size], m, pad);
        ParseStable(buf[..size], buf[size..]);
        assert buf[..size] + buf[size..] == buf;
      }
    }
  }

  /** The reader waits exactly if the magic number or the size is not all there, or a size below the limit
      announces more bytes than there are; with another magic number it never waits. */
  lemma WaitsIff(buf: seq<Byte>)
    ensures ParseOne(buf) == NeedMore <==>
              || |buf| < 4
              || (FromLe(buf[..4]) == 0x06121983 &&
                  (|buf| < 12 || |buf| < FromLe(buf[4..12]) < 1073741826))
  {
    if |buf| >= 12 && FromLe(buf[4..12]) <= |buf| {
      assert ParseBody(buf[..FromLe(buf[4..12])]) != NeedMore;
    }
  }

  /** A frame cut short by any number of bytes is left waiting. */
  lemma PartialFrameWaits(m: Message, k: nat)
    requires k < FrameSize(m) < FRAME_LIMIT
    ensures ParseOne(Frame(m)[..k]) == NeedMore
  {
    RangeValues();
    FrameFields(m, []);
    assert Frame(m) + [] == Frame(m);
    LeRoundTrip(MAGIC, 4);
    LeRoundTrip(FrameSize(m), 8);
    if k >= 4 { assert Frame(m)[..k][..4] == Frame(m)[..4]; }
    if k >= 12 { assert Frame(m)[..k][4..12] == Frame(m)[4..12]; }
  }

  function Frames(msgs: seq<Message>): seq<Byte> {
    if msgs == [] then [] else Frame(msgs[0]) + Frames(msgs[1..])
  }

  predicate Sendable(m: Message) {
    m.data != [] && FrameSize(m) < FRAME_LIMIT
  }

  /** How many whole frames fit in the first k bytes of the stream. */
  function Completed(msgs: seq<Message>, k: nat): (c: nat)
    ensures c <= |msgs|
  {
    if msgs == [] || k < FrameSize(msgs[0]) then 0
    else 1 + Completed(msgs[1..], k - FrameSize(msgs[0]))
  }

  lemma {:induction false} DrainPrefix(msgs: seq<Message>, k: nat)
    requires forall m <- msgs :: Sendable(m)
    requires k <= |Frames(msgs)|
    ensures var c := Completed(msgs, k);
            && |Frames(msgs[..c])| <= k
            && Drain(Frames(msgs)[..k]) == Progress(msgs[..c], Kept(Frames(msgs)[|Frames(msgs[..c])|..k]))
  {
    if msgs != [] {
      var m, rest := msgs[0], msgs[1..];
      assert Sendable(m);
      if k < FrameSize(m) {
        PartialFrameWaits(m, k);
        assert Frames(msgs)[..k] == Frame(m)[..k];
      } else {
        var k' := k - FrameSize(m);
        DrainPrefix(rest, k');
        PrefixSplit(msgs, k);
        FrameParses(m, Frames(rest)[..k']);
        assert (Frame(m) + Frames(rest)[..k'])[FrameSize(m)..] == Frames(rest)[..k'];
      }
    }
  }

  /** A prefix that holds the first frame is that frame and a prefix of the others. */
  lemma PrefixSplit(msgs: seq<Message>, k: nat)
    requires msgs != [] && FrameSize(msgs[0]) <= k <= |Frames(msgs)|
    ensures var m, rest, k', c := msgs[0], msgs[1..], k - FrameSize(msgs[0]), Completed(msgs, k);
            && Frames(msgs)[..k] == Frame(m) + Frames(rest)[..k']
            && c == 1 + Completed(rest, k') && msgs[..c] == [m] + rest[..c - 1]
            && Frames(msgs[..c]) == Frame(m) + Frames(rest[..c - 1])
            && (|Frames(rest[..c - 1])| <= k' ==>
                  Frames(msgs)[|Frames(msgs[..c])|..k] == Frames(rest)[|Frames(rest[..c - 1])|..k'])
  {
    var rest, c := msgs[1..], Completed(msgs, k);
    assert msgs[..c][1..] == rest[..c - 1];
  }

  /** Whatever messages are sent, however far the stream has got and however it was cut into
      chunks: exactly the messages whose frames are complete have been delivered, in order,
      and exactly the bytes of the unfinished frame are still buffered. */
  lemma StreamDelivery(msgs: seq<Message>, chunks: seq<seq<Byte>>)
    requires forall m <- msgs :: Sendable(m)
    requires Concat(chunks) <= Frames(msgs)
    ensures var k := |Concat(chunks)|;
            var c := Completed(msgs, k);
            && |Frames(msgs[..c])| <= k
            && Run(chunks) == Progress(msgs[..c], Kept(Concat(chunks)[|Frames(msgs[..c])|..]))
  {
    var k := |Concat(chunks)|;
    ChunkingDoesNotMatter(chunks);
    DrainPrefix(msgs, k);
    assert Concat(chunks) == Frames(msgs)[..k];
  }

  /** When the whole stream has arrived, everything has been delivered and nothing is left. */
  lemma {:induction false} WholeStreamDelivery(msgs: seq<Message>, chunks: seq<seq<Byte>>)
    requires forall m <- msgs :: Sendable(m)
    requires Concat(chunks) == Frames(msgs)
    ensures Run(chunks) == Progress(msgs, Kept([]))
  {
    StreamDelivery(msgs, chunks);
    AllCompleted(msgs);
    assert msgs[..|msgs|] == msgs;
    assert Concat(chunks)[|Frames(msgs)|..] == [];
  }

  lemma {:induction false} AllCompleted(msgs: seq<Message>)
    ensures Completed(msgs, |Frames(msgs)|) == |msgs|
  {
    if msgs != [] {
      AllCompleted(msgs[1..]);
    }
  }
}
