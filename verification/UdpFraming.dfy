/**
 UDP packets (src/lib/udptransport.cc): serialization, fragmentation of long messages, and
 the reassembly state kept for one sender.
 */
module UdpFraming {
  import opened Bytes

  const NONFRAG_MAGIC: nat := 0x20050318
  const FRAG_MAGIC: nat := 0x20101010

  // ---------------------------------------------------------------- the packet body

  /** type size and type, data size and data. */
  function MessagePart(m: Message): (s: seq<Byte>)
    ensures |s| == 8 + |m.kind| + 8 + |m.data|
  {
    Le(|m.kind|, 8) + m.kind + Le(|m.data|, 8) + m.data
  }

  /** metadata size and metadata, then the message. */
  function Body(m: Message, meta: seq<Byte>): (s: seq<Byte>)
    ensures |s| == 4 + |meta| + 8 + |m.kind| + 8 + |m.data|
  {
    Le(|meta|, 4) + meta + MessagePart(m)
  }

  function Packet(m: Message, meta: seq<Byte>): seq<Byte> {
    Le(NONFRAG_MAGIC, 4) + Body(m, meta)
  }

  /** SerializeMessage; None stands for its assertion, which fails on empty data. */
  method SerializeMessage(m: Message, meta: seq<Byte>) returns (r: Option<seq<Byte>>)
    requires |meta| < U32_RANGE && 4 + |Body(m, meta)| < U64_RANGE / 2
    ensures r == if m.data == [] then None else Some(Packet(m, meta))
  {
    var total := 4 + 4 + |meta| + |m.kind| + 8 + |m.data| + 8;
    var buf := new Byte[total];
    var ptr := Put(buf, 0, Le(NONFRAG_MAGIC, 4));
    assert buf[..ptr] == Le(NONFRAG_MAGIC, 4);
    ptr := Put(buf, ptr, Le(|meta|, 4));
    ptr := Put(buf, ptr, meta);
    ptr := Put(buf, ptr, Le(|m.kind|, 8));
    if !(ptr < total) || !(ptr + |m.kind| < total) { return None; }
    ptr := Put(buf, ptr, m.kind);
    ptr := Put(buf, ptr, Le(|m.data|, 8));
    if !(ptr < total) || ptr + |m.data| != total { return None; }
    ptr := Put(buf, ptr, m.data);
    assert buf[..] == buf[..ptr];
    PacketLayout(m, meta);
    return Some(buf[..]);
  }

  lemma PacketLayout(m: Message, meta: seq<Byte>)
    ensures Packet(m, meta)
         == Le(NONFRAG_MAGIC, 4) + Le(|meta|, 4) + meta + Le(|m.kind|, 8) + m.kind + Le(|m.data|, 8) + m.data
  {
    var a, b, c, d := Le(NONFRAG_MAGIC, 4), Le(|meta|, 4), Le(|m.kind|, 8), Le(|m.data|, 8);
    Regroup(a, b + meta, MessagePart(m));
    Regroup(a, b, meta);
    var head := a + b + meta;
    Regroup(head, c + m.kind + d, m.data);
    Regroup(head, c + m.kind, d);
    Regroup(head, c, m.kind);
  }

  datatype Decoded = Decoded(msg: Message, meta: seq<Byte>)

  /** DecodePacket; None covers its assertions and every field read from outside the packet. */
  function DecodePacket(s: seq<Byte>): Option<Decoded> {
    if |s| < 4 then None else
    var metaLen := FromLe(s[..4]);
    if |s| < 4 + metaLen then None else
    match DecodeMessage(s[4 + metaLen..])
    case None => None
    case Some(m) => Some(Decoded(m, s[4..4 + metaLen]))
  }

  /** The part behind the metadata. */
  function DecodeMessage(s: seq<Byte>): Option<Message> {
    if |s| <= 8 then None else
    var typeLen := FromLe(s[..8]);
    if 8 + typeLen >= |s| || 16 + typeLen >= |s| then None else
    var msgLen := FromLe(s[8 + typeLen..16 + typeLen]);
    if 16 + typeLen + msgLen > |s| then None
    else Some(Message(s[8..8 + typeLen], s[16 + typeLen..16 + typeLen + msgLen]))
  }

  lemma MessageFields(m: Message)
    ensures var s, t := MessagePart(m), |m.kind|;
            && s[..8] == Le(t, 8) && s[8..8 + t] == m.kind
            && s[8 + t..16 + t] == Le(|m.data|, 8) && s[16 + t..16 + t + |m.data|] == m.data
  {
    var k, d := Le(|m.kind|, 8), Le(|m.data|, 8);
    var s := MessagePart(m);
    assert s == k + m.kind + (d + m.data);
    Cut(k, m.kind, d + m.data);
    Cut(k + m.kind, d, m.data);
  }

  lemma MessageDecodes(m: Message)
    requires |m.kind| < U64_RANGE && |m.data| < U64_RANGE
    ensures DecodeMessage(MessagePart(m)) == if m.data == [] then None else Some(m)
  {
    RangeValues();
    MessageFields(m);
    LeRoundTrip(|m.kind|, 8);
    LeRoundTrip(|m.data|, 8);
  }

  /** Decoding a serialized message gives back message and metadata, for all that have data. */
  lemma BodyDecodes(m: Message, meta: seq<Byte>)
    requires |meta| < U32_RANGE && |m.kind| < U64_RANGE && |m.data| < U64_RANGE
    ensures DecodePacket(Body(m, meta)) == if m.data == [] then None else Some(Decoded(m, meta))
  {
    var s, tail := Body(m, meta), MessagePart(m);
    RangeValues();
    LeRoundTrip(|meta|, 4);
    assert s[..4] == Le(|meta|, 4);
    Cut(Le(|meta|, 4), meta, tail);
    assert s[4 + |meta|..] == tail;
    MessageDecodes(m);
  }

  lemma MessageDecodesWith(m: Message, pad: seq<Byte>)
    requires |m.kind| < U64_RANGE && |m.data| < U64_RANGE
    ensures DecodeMessage(MessagePart(m) + pad) == if m.data + pad == [] then None else Some(m)
  {
    var s, t := MessagePart(m), |m.kind|;
    RangeValues();
    MessageFields(m);
    LeRoundTrip(|m.kind|, 8);
    LeRoundTrip(|m.data|, 8);
    SliceOf(s, pad, 0, 8);
    SliceOf(s, pad, 8, 8 + t);
    SliceOf(s, pad, 8 + t, 16 + t);
    SliceOf(s, pad, 16 + t, 16 + t + |m.data|);
    DecodesFields(s + pad, m);
  }

  lemma DecodesFields(s: seq<Byte>, m: Message)
    requires var t := |m.kind|;
             && |s| >= 16 + t + |m.data| && FromLe(s[0..8]) == t && s[8..8 + t] == m.kind
             && FromLe(s[8 + t..16 + t]) == |m.data| && s[16 + t..16 + t + |m.data|] == m.data
    ensures DecodeMessage(s) == if |s| == 16 + |m.kind| then None else Some(m)
  {
    assert s[0..8] == s[..8];
  }

  lemma BodyDecodesWith(m: Message, meta: seq<Byte>, pad: seq<Byte>)
    requires |meta| < U32_RANGE && |m.kind| < U64_RANGE && |m.data| < U64_RANGE
    ensures DecodePacket(Body(m, meta) + pad) == if m.data + pad == [] then None else Some(Decoded(m, meta))
  {
    var s, tail := Body(m, meta) + pad, MessagePart(m) + pad;
    RangeValues();
    LeRoundTrip(|meta|, 4);
    assert s == Le(|meta|, 4) + meta + tail;
    assert s[..4] == Le(|meta|, 4);
    Cut(Le(|meta|, 4), meta, tail);
    assert s[4 + |meta|..] == tail;
    MessageDecodesWith(m, pad);
  }

  /** s is a serialized message with metadata and bytes behind it, and data or such bytes are not missing. */
  ghost predicate IsBodyWith(s: seq<Byte>, d: Decoded, pad: seq<Byte>) {
    && s == Body(d.msg, d.meta) + pad && d.msg.data + pad != []
    && |d.meta| < U32_RANGE && |d.msg.kind| < U64_RANGE && |d.msg.data| < U64_RANGE
  }

  lemma MessageOf(s: seq<Byte>) returns (pad: seq<Byte>)
    requires DecodeMessage(s).Some?
    ensures var m := DecodeMessage(s).value;
            s == MessagePart(m) + pad && m.data + pad != [] && |m.kind| < U64_RANGE && |m.data| < U64_RANGE
  {
    RangeValues();
    var m := DecodeMessage(s).value;
    var t := |m.kind|;
    FromLeRoundTrip(s[..8]);
    FromLeRoundTrip(s[8 + t..16 + t]);
    pad := s[16 + t + |m.data|..];
    Slices(s, 8, 8 + t, 16 + t, 16 + t + |m.data|);
  }

  lemma Slices(s: seq<Byte>, a: nat, b: nat, c: nat, d: nat)
    requires a <= b <= c <= d <= |s|
    ensures s == s[..a] + s[a..b] + s[b..c] + s[c..d] + s[d..]
  {}

  /** What decodes is exactly that: every other packet fails an assertion or is read outside. */
  lemma DecodesIff(s: seq<Byte>, d: Decoded)
    ensures DecodePacket(s) == Some(d) <==> exists pad :: IsBodyWith(s, d, pad)
  {
    RangeValues();
    if DecodePacket(s) == Some(d) {
      var n := |d.meta|;
      FromLeRoundTrip(s[..4]);
      var pad := MessageOf(s[4 + n..]);
      assert s == s[..4] + s[4..4 + n] + s[4 + n..];
      Regroup(Le(n, 4) + d.meta, MessagePart(d.msg), pad);
      assert IsBodyWith(s, d, pad);
    }
    if pad :| IsBodyWith(s, d, pad) {
      BodyDecodesWith(d.msg, d.meta, pad);
    }
  }

  // ---------------------------------------------------------------- fragments

  function FragEnd(body: seq<Byte>, start: nat): nat {
    if start + 9000 < |body| then start + 9000 else |body|
  }

  /** magic, message id, offset and size of the body, then at most 9000 bytes of it. */
  function Fragment(body: seq<Byte>, id: nat, start: nat): seq<Byte>
    requires start <= |body|
  {
    Le(FRAG_MAGIC, 4) + Le(id, 8) + Le(start, 8) + Le(|body|, 8) + body[start..FragEnd(body, start)]
  }

  /** The fragments from offset start on. */
  function Fragments(body: seq<Byte>, id: nat, start: nat): seq<seq<Byte>>
    decreases |body| - start
  {
    if start >= |body| then [] else [Fragment(body, id, start)] + Fragments(body, id, start + 9000)
  }

  /** The packets one message becomes, when id is the number the next fragmented one takes. */
  function PacketsOf(m: Message, id: nat): seq<seq<Byte>> {
    if |Packet(m, [])| <= 9000 then [Packet(m, [])] else Fragments(Body(m, []), id, 0)
  }

  /** Fragment k is the one at offset 9000k, and no fragment has more than 9000 bytes of the body. */
  lemma {:induction false} FragmentIs(body: seq<Byte>, id: nat, start: nat, k: nat)
    requires k < |Fragments(body, id, start)|
    ensures start + 9000 * k < |body|
    ensures Fragments(body, id, start)[k] == Fragment(body, id, start + 9000 * k)
    ensures 28 < |Fragments(body, id, start)[k]| <= 9028
    decreases k
  {
    if k > 0 {
      FragmentIs(body, id, start + 9000, k - 1);
    }
  }

  lemma {:induction false} FragmentsLength(body: seq<Byte>, id: nat, start: nat)
    requires start <= |body|
    ensures var n := |Fragments(body, id, start)|; 9000 * n - 9000 < |body| - start <= 9000 * n
    decreases |body| - start
  {
    if start + 9000 <= |body| {
      FragmentsLength(body, id, start + 9000);
      assert start < |body| ==> |Fragments(body, id, start)| == 1 + |Fragments(body, id, start + 9000)|;
    } else if start < |body| {
      assert Fragments(body, id, start + 9000) == [];
    }
  }

  /** How many packets a message becomes: one if it fits in 9000 bytes with its headers, and else as many as 9000
      bytes of the body each take. */
  lemma PacketCount(m: Message, id: nat)
    ensures var n, size := |PacketsOf(m, id)|, 20 + |m.kind| + |m.data|;
            if size + 4 <= 9000 then n == 1 else 9000 * n - 9000 < size <= 9000 * n
  {
    FragmentsLength(Body(m, []), id, 0);
  }

  /** The first bytes on the wire. */
  lemma MagicBytes(m: Message, meta: seq<Byte>, body: seq<Byte>, id: nat, start: nat)
    requires start <= |body|
    ensures Packet(m, meta)[..4] == [0x18, 0x03, 0x05, 0x20]
    ensures Fragment(body, id, start)[..4] == [0x10, 0x10, 0x10, 0x20]
  {
    assert Le(NONFRAG_MAGIC, 4) == [0x18, 0x03, 0x05, 0x20];
    assert Le(FRAG_MAGIC, 4) == [0x10, 0x10, 0x10, 0x20];
    assert Fragment(body, id, start)[..4] == Le(FRAG_MAGIC, 4);
  }

  function NextId(m: Message, id: nat): nat {
    if |Packet(m, [])| <= 9000 then id else id + 1
  }

  /** What the transport can carry: some data, and sizes within the integer fields. */
  predicate Sendable(m: Message) {
    m.data != [] && 4 + |Body(m, [])| < U64_RANGE / 2
  }

  /** The sending side and its counter of fragmented messages. */
  class Sender {
    var lastFragMsgId: nat

    constructor ()
      ensures lastFragMsgId == 0
    {
      lastFragMsgId := 0;
    }

    /** _SendMessageInternal without metadata; the out-parameter is what goes to the socket. */
    method SendMessage(m: Message) returns (sent: Option<seq<seq<Byte>>>)
      requires 4 + |Body(m, [])| < U64_RANGE / 2
      modifies this
      ensures sent == if m.data == [] then None else Some(PacketsOf(m, old(lastFragMsgId) + 1))
      ensures lastFragMsgId + 1 == if m.data == [] then old(lastFragMsgId) + 1 else NextId(m, old(lastFragMsgId) + 1)
    {
      var packet := SerializeMessage(m, []);
      if packet.None? {
        return None;
      }
      var buf := packet.value;
      if |buf| <= 9000 {
        return Some([buf]);
      }
      var body := buf[4..];
      assert body == Body(m, []);
      lastFragMsgId := lastFragMsgId + 1;
      var out := SplitBody(body, lastFragMsgId);
      return Some(out);
    }
  }

  /** The fragment loop. */
  method SplitBody(body: seq<Byte>, id: nat) returns (out: seq<seq<Byte>>)
    ensures out == Fragments(body, id, 0)
  {
    out := [];
    var start: nat := 0;
    while start < |body|
      invariant out + Fragments(body, id, start) == Fragments(body, id, 0)
    {
      var len := if |body| - start < 9000 then |body| - start else 9000;
      var frag := Le(FRAG_MAGIC, 4) + Le(id, 8) + Le(start, 8) + Le(|body|, 8) + body[start..start + len];
      NextFragment(body, id, start, out, frag);
      out := out + [frag];
      start := start + 9000;
    }
    assert out + [] == out;
  }

  lemma NextFragment(body: seq<Byte>, id: nat, start: nat, out: seq<seq<Byte>>, frag: seq<Byte>)
    requires start < |body| && frag == Fragment(body, id, start)
    ensures out + Fragments(body, id, start) == out + [frag] + Fragments(body, id, start + 9000)
  {}

  // ---------------------------------------------------------------- reassembly

  /** What is kept for one sender: the message under reassembly (0 for none) and its bytes. */
  datatype FragInfo = FragInfo(msgId: nat, data: seq<Byte>)

  const NO_FRAGMENTS := FragInfo(0, [])

  datatype Effect = Deliver(decoded: Decoded) | Ignore | Panic

  datatype Outcome = Outcome(info: FragInfo, effect: Effect)

  function Decide(s: seq<Byte>): Effect {
    match DecodePacket(s)
    case None => Panic
    case Some(d) => Deliver(d)
  }

  /** The receiving half of ProcessPacket: decode a whole packet, or add a fragment. The assertion on the
      size compares unsigned numbers and fails for four bytes only; fewer bytes show no magic number. */
  function Receive(info: FragInfo, packet: seq<Byte>): Outcome {
    if |packet| < 4 then Outcome(info, Ignore)
    else if |packet| == 4 then Outcome(info, Panic) else
    var magic := FromLe(packet[..4]);
    if magic == NONFRAG_MAGIC then Outcome(info, Decide(packet[4..]))
    else if magic != FRAG_MAGIC then Outcome(info, Ignore)
    else if |packet| <= 28 then Outcome(info, Panic)
    else AddFragment(info, FromLe(packet[4..12]), FromLe(packet[12..20]), FromLe(packet[20..28]), packet[28..])
  }

  /** No magic number: fewer than four bytes, or others. */
  predicate Junk(packet: seq<Byte>) {
    |packet| != 4 && (|packet| < 4 || FromLe(packet[..4]) !in {0x20050318, 0x20101010})
  }

  /** Junk is ignored, and four bytes alone fail an assertion. */
  lemma JunkIsIgnored(info: FragInfo, packet: seq<Byte>)
    ensures Junk(packet) ==> Receive(info, packet) == Outcome(info, Ignore)
    ensures |packet| == 4 ==> Receive(info, packet) == Outcome(info, Panic)
  {}

  /** What follows the magic number of a whole packet is delivered exactly if it is a serialized message, and
      fails an assertion otherwise. */
  lemma WholePacket(info: FragInfo, packet: seq<Byte>, d: Decoded)
    requires |packet| > 4 && FromLe(packet[..4]) == 0x20050318
    ensures var o := Receive(info, packet);
            && o.info == info && (o.effect.Panic? || o.effect.Deliver?)
            && (o.effect == Deliver(d) <==> exists pad :: IsBodyWith(packet[4..], d, pad))
  {
    DecodesIff(packet[4..], d);
  }

  /** A fragment fails an assertion exactly if it is cut short, has not the bytes its header says, is of an older
      message than the one under reassembly, or completes something that does not decode. */
  lemma FragmentFails(info: FragInfo, id: nat, start: nat, total: nat, bytes: seq<Byte>)
    requires start <= total < U64_RANGE && id > 0
    ensures var have := if info.msgId == id then info.data else [];
            AddFragment(info, id, start, total, bytes).effect.Panic? <==>
              || |bytes| != (if total - start < 9000 then total - start else 9000)
              || id < info.msgId
              || (|have| == start && start + |bytes| == total && DecodePacket(have + bytes).None?)
  {}

  function AddFragment(info: FragInfo, msgId: nat, fragStart: nat, msgLen: nat, bytes: seq<Byte>): Outcome {
    var left := if fragStart <= msgLen then msgLen - fragStart else msgLen - fragStart + 0x1_0000_0000_0000_0000;
    if |bytes| != (if left < 9000 then left else 9000) then Outcome(info, Panic)
    else if info.msgId != 0 && msgId < info.msgId then Outcome(info, Panic)
    else
      var have := if info.msgId == msgId && msgId != 0 then info.data else [];
      if fragStart != |have| then Outcome(FragInfo(msgId, have), Ignore)
      else if |have + bytes| == msgLen then Outcome(NO_FRAGMENTS, Decide(have + bytes))
      else Outcome(FragInfo(msgId, have + bytes), Ignore)
  }
}
