/**
 Whole runs of the UDP transport between one sender and one receiver: the packets of any messages
 over a lossy, order-preserving link (src/lib/udptransport.cc).
 */
module UdpReassembly {
  import opened Bytes
  import opened UdpFraming

  // ---------------------------------------------------------------- lossy, order-preserving

  /** got is sent with some elements left out. */
  ghost predicate Subsequence<T>(got: seq<T>, sent: seq<T>) {
    if got == [] then true
    else if sent == [] then false
    else (got[0] == sent[0] && Subsequence(got[1..], sent[1..])) || Subsequence(got, sent[1..])
  }

  lemma {:induction false} SubsequenceSplits<T>(got: seq<T>, a: seq<T>, b: seq<T>) returns (x: seq<T>, y: seq<T>)
    requires Subsequence(got, a + b)
    ensures got == x + y && Subsequence(x, a) && Subsequence(y, b)
    decreases |a|
  {
    if a == [] {
      assert a + b == b;
      x, y := [], got;
    } else if got == [] {
      x, y := [], [];
    } else {
      assert (a + b)[1..] == a[1..] + b;
      if got[0] == a[0] && Subsequence(got[1..], a[1..] + b) {
        var x', y' := SubsequenceSplits(got[1..], a[1..], b);
        x, y := [got[0]] + x', y';
        assert x[1..] == x';
      } else {
        x, y := SubsequenceSplits(got, a[1..], b);
      }
    }
  }

  lemma {:induction false} SubsequenceJoins<T>(x: seq<T>, a: seq<T>, y: seq<T>, b: seq<T>)
    requires Subsequence(x, a) && Subsequence(y, b)
    ensures Subsequence(x + y, a + b)
    decreases |a|
  {
    if a == [] {
      assert x + y == y && a + b == b;
    } else {
      assert (a + b)[1..] == a[1..] + b;
      if x != [] && x[0] == a[0] && Subsequence(x[1..], a[1..]) {
        SubsequenceJoins(x[1..], a[1..], y, b);
        assert (x + y)[1..] == x[1..] + y;
      } else {
        SubsequenceJoins(x, a[1..], y, b);
      }
    }
  }

  lemma {:induction false} PrefixIsSubsequence<T>(got: seq<T>, sent: seq<T>, k: nat)
    requires Subsequence(got, sent) && k <= |got|
    ensures Subsequence(got[..k], sent)
    decreases |sent|
  {
    if k > 0 {
      if got[0] == sent[0] && Subsequence(got[1..], sent[1..]) {
        PrefixIsSubsequence(got[1..], sent[1..], k - 1);
        assert got[..k][1..] == got[1..][..k - 1];
      } else {
        PrefixIsSubsequence(got, sent[1..], k);
      }
    }
  }

  // ---------------------------------------------------------------- one sender

  datatype Link = Link(info: FragInfo, delivered: seq<Message>, panicked: bool)

  /** The receiver's work on one sender's packets, in arrival order. */
  function RunPackets(info: FragInfo, packets: seq<seq<Byte>>): Link
    decreases |packets|
  {
    if packets == [] then Link(info, [], false) else
    var o := Receive(info, packets[0]);
    match o.effect
    case Panic => Link(o.info, [], true)
    case Ignore => RunPackets(o.info, packets[1..])
    case Deliver(d) =>
      var later := RunPackets(o.info, packets[1..]);
      Link(later.info, [d.msg] + later.delivered, later.panicked)
  }

  lemma {:induction false} RunAppend(info: FragInfo, a: seq<seq<Byte>>, b: seq<seq<Byte>>)
    requires !RunPackets(info, a).panicked
    ensures var first := RunPackets(info, a);
            var second := RunPackets(first.info, b);
            RunPackets(info, a + b) == Link(second.info, first.delivered + second.delivered, second.panicked)
    decreases |a|
  {
    if a == [] {
      assert a + b == b;
    } else {
      var o := Receive(info, a[0]);
      assert (a + b)[1..] == a[1..] + b;
      RunAppend(o.info, a[1..], b);
      if o.effect.Deliver? {
        var first := RunPackets(o.info, a[1..]);
        var second := RunPackets(first.info, b);
        assert [o.effect.decoded.msg] + (first.delivered + second.delivered)
            == [o.effect.decoded.msg] + first.delivered + second.delivered;
      }
    }
  }

  /** A packet sent whole is delivered as it was sent and leaves the reassembly state alone. */
  lemma PacketReceived(info: FragInfo, m: Message)
    requires Sendable(m)
    ensures Receive(info, Packet(m, [])) == Outcome(info, Deliver(Decoded(m, [])))
  {
    var p := Packet(m, []);
    RangeValues();
    LeRoundTrip(NONFRAG_MAGIC, 4);
    assert p[..4] == Le(NONFRAG_MAGIC, 4);
    assert p[4..] == Body(m, []);
    BodyDecodes(m, []);
  }

  /** The header fields a fragment was built with are the ones read back. */
  lemma FragmentReceived(info: FragInfo, body: seq<Byte>, id: nat, start: nat)
    requires start < |body| < U64_RANGE && id < U64_RANGE
    ensures Receive(info, Fragment(body, id, start))
         == AddFragment(info, id, start, |body|, body[start..FragEnd(body, start)])
  {
    var bytes := body[start..FragEnd(body, start)];
    FragmentFields(body, id, start, bytes);
    RangeValues();
    LeRoundTrip(FRAG_MAGIC, 4);
    LeRoundTrip(id, 8);
    LeRoundTrip(start, 8);
    LeRoundTrip(|body|, 8);
  }

  lemma FragmentFields(body: seq<Byte>, id: nat, start: nat, bytes: seq<Byte>)
    requires start < |body| && bytes == body[start..FragEnd(body, start)]
    ensures var f := Fragment(body, id, start);
            && |f| > 28 && f[..4] == Le(FRAG_MAGIC, 4) && f[4..12] == Le(id, 8)
            && f[12..20] == Le(start, 8) && f[20..28] == Le(|body|, 8) && f[28..] == bytes
  {
    HeaderFields(Le(FRAG_MAGIC, 4), Le(id, 8), Le(start, 8), Le(|body|, 8), bytes);
  }

  lemma HeaderFields(a: seq<Byte>, b: seq<Byte>, c: seq<Byte>, d: seq<Byte>, e: seq<Byte>)
    requires |a| == 4 && |b| == 8 && |c| == 8 && |d| == 8
    ensures var f := a + b + c + d + e;
            f[..4] == a && f[4..12] == b && f[12..20] == c && f[20..28] == d && f[28..] == e
  {}

  /** No fragment of message id has been taken in yet. */
  predicate Fresh(info: FragInfo, id: nat) {
    info.msgId < id
  }

  /** Message id is under reassembly, and what is buffered is a prefix of its body. */
  predicate Partial(info: FragInfo, body: seq<Byte>, id: nat) {
    info.msgId == id && |info.data| < |body| && info.data <= body
  }

  /** What the fragment at offset start does to either state. */
  lemma FragmentAdds(info: FragInfo, m: Message, id: nat, start: nat)
    requires Sendable(m) && 0 < id < U64_RANGE && start < |Body(m, [])|
    requires Fresh(info, id) || Partial(info, Body(m, []), id)
    ensures var body := Body(m, []);
            var have := if Fresh(info, id) then [] else info.data;
            AddFragment(info, id, start, |body|, body[start..FragEnd(body, start)])
            == if |have| != start then Outcome(FragInfo(id, have), Ignore)
               else if start + 9000 >= |body| then Outcome(NO_FRAGMENTS, Deliver(Decoded(m, [])))
               else Outcome(FragInfo(id, body[..start + 9000]), Ignore)
  {
    var body := Body(m, []);
    var have := if Fresh(info, id) then [] else info.data;
    var bytes := body[start..FragEnd(body, start)];
    if |have| == start {
      Extends(have, body, start, FragEnd(body, start));
      BodyDecodes(m, []);
    }
  }

  lemma Extends(have: seq<Byte>, body: seq<Byte>, start: nat, end: nat)
    requires have <= body && |have| == start <= end <= |body|
    ensures have + body[start..end] == body[..end] && body[..|body|] == body
  {}

  lemma FragmentStep(info: FragInfo, m: Message, id: nat, start: nat)
    requires Sendable(m) && 0 < id < U64_RANGE && start < |Body(m, [])|
    requires Fresh(info, id) || Partial(info, Body(m, []), id)
    ensures var body := Body(m, []);
            var have := if Fresh(info, id) then [] else info.data;
            Receive(info, Fragment(body, id, start))
            == if |have| != start then Outcome(FragInfo(id, have), Ignore)
               else if start + 9000 >= |body| then Outcome(NO_FRAGMENTS, Deliver(Decoded(m, [])))
               else Outcome(FragInfo(id, body[..start + 9000]), Ignore)
  {
    FragmentReceived(info, Body(m, []), id, start);
    FragmentAdds(info, m, id, start);
  }

  /** Any selection of one message's fragments, in order, delivers that message or nothing,
      never fails the assertion on message ids, and keeps the buffered bytes a prefix. */
  lemma {:induction false} LossyFragments(info: FragInfo, m: Message, id: nat, start: nat, got: seq<seq<Byte>>)
    requires Sendable(m) && 0 < id < U64_RANGE
    requires Fresh(info, id) || Partial(info, Body(m, []), id)
    requires Subsequence(got, Fragments(Body(m, []), id, start))
    ensures var r := RunPackets(info, got);
            && !r.panicked && r.info.msgId <= id && (r.delivered == [] || r.delivered == [m])
    decreases |Body(m, [])| - start
  {
    var body := Body(m, []);
    if got != [] {
      assert start < |body|;
      var later := Fragments(body, id, start + 9000);
      assert Fragments(body, id, start)[1..] == later;
      if got[0] == Fragment(body, id, start) && Subsequence(got[1..], later) {
        FragmentStep(info, m, id, start);
        var o := Receive(info, got[0]);
        if o.effect.Deliver? {
          assert got[1..] == [];
        } else {
          LossyFragments(o.info, m, id, start + 9000, got[1..]);
        }
      } else {
        LossyFragments(info, m, id, start + 9000, got);
      }
    }
  }

  /** A fragment of message id, at any of its offsets. */
  ghost predicate IsFragmentOf(packet: seq<Byte>, body: seq<Byte>, id: nat) {
    exists start: nat :: start < |body| && packet == Fragment(body, id, start)
  }

  /** One message's fragments in any order and any number of times: no assertion fails, what is buffered stays a
      prefix of the body, and only that message is ever delivered. */
  lemma {:induction false} FragmentsInAnyOrder(info: FragInfo, m: Message, id: nat, got: seq<seq<Byte>>)
    requires Sendable(m) && 0 < id < U64_RANGE
    requires Fresh(info, id) || Partial(info, Body(m, []), id)
    requires forall packet <- got :: IsFragmentOf(packet, Body(m, []), id)
    ensures var r := RunPackets(info, got);
            && !r.panicked && (Fresh(r.info, id) || Partial(r.info, Body(m, []), id))
            && forall d <- r.delivered :: d == m
    decreases |got|
  {
    if got != [] {
      assert IsFragmentOf(got[0], Body(m, []), id);
      var start: nat :| start < |Body(m, [])| && got[0] == Fragment(Body(m, []), id, start);
      FragmentStep(info, m, id, start);
      FragmentsInAnyOrder(Receive(info, got[0]).info, m, id, got[1..]);
    }
  }

  /** Junk between the packets changes nothing. */
  function Sane(packets: seq<seq<Byte>>): seq<seq<Byte>> {
    if packets == [] then [] else (if Junk(packets[0]) then [] else [packets[0]]) + Sane(packets[1..])
  }

  lemma {:induction false} JunkDoesNotMatter(info: FragInfo, packets: seq<seq<Byte>>)
    ensures RunPackets(info, packets) == RunPackets(info, Sane(packets))
    decreases |packets|
  {
    if packets != [] {
      var o := Receive(info, packets[0]);
      JunkIsIgnored(info, packets[0]);
      if Junk(packets[0]) {
        JunkDoesNotMatter(info, packets[1..]);
        assert Sane(packets) == Sane(packets[1..]);
      } else {
        JunkDoesNotMatter(o.info, packets[1..]);
        assert Sane(packets)[1..] == Sane(packets[1..]);
      }
    }
  }

  /** All fragments in order deliver the message and leave nothing behind. */
  lemma {:induction false} AllFragments(info: FragInfo, m: Message, id: nat, start: nat)
    requires Sendable(m) && 0 < id < U64_RANGE && start < |Body(m, [])|
    requires (Fresh(info, id) && start == 0) || (Partial(info, Body(m, []), id) && |info.data| == start)
    ensures RunPackets(info, Fragments(Body(m, []), id, start)) == Link(NO_FRAGMENTS, [m], false)
    decreases |Body(m, [])| - start
  {
    var body := Body(m, []);
    var all, later := Fragments(body, id, start), Fragments(body, id, start + 9000);
    assert all[1..] == later;
    FragmentStep(info, m, id, start);
    if start + 9000 < |body| {
      AllFragments(FragInfo(id, body[..start + 9000]), m, id, start + 9000);
    } else {
      assert RunPackets(NO_FRAGMENTS, []) == Link(NO_FRAGMENTS, [], false);
    }
  }

  // ---------------------------------------------------------------- all messages of one sender

  /** Everything a sender puts on the wire, its next fragmented message taking number id. */
  function SendAll(msgs: seq<Message>, id: nat): seq<seq<Byte>> {
    if msgs == [] then [] else PacketsOf(msgs[0], id) + SendAll(msgs[1..], NextId(msgs[0], id))
  }

  lemma LossyMessage(info: FragInfo, m: Message, id: nat, got: seq<seq<Byte>>)
    requires Sendable(m) && Fresh(info, id) && 0 < id < U64_RANGE
    requires Subsequence(got, PacketsOf(m, id))
    ensures var r := RunPackets(info, got);
            && !r.panicked && r.info.msgId < NextId(m, id) && Subsequence(r.delivered, [m])
  {
    if |Packet(m, [])| <= 9000 {
      if got != [] {
        assert got[1..] == [] && [Packet(m, [])][1..] == [];
        PacketReceived(info, m);
        assert RunPackets(info, []) == Link(info, [], false);
      }
    } else {
      LossyFragments(info, m, id, 0, got);
    }
  }

  /** Over a link that loses packets but keeps their order: no assertion fails, and the
      messages delivered are a subsequence of those sent, byte for byte. */
  lemma {:induction false} LossyRun(info: FragInfo, msgs: seq<Message>, id: nat, got: seq<seq<Byte>>)
    requires forall m <- msgs :: Sendable(m)
    requires Fresh(info, id) && 0 < id && id + |msgs| <= U64_RANGE
    requires Subsequence(got, SendAll(msgs, id))
    ensures !RunPackets(info, got).panicked
    ensures Subsequence(RunPackets(info, got).delivered, msgs)
    decreases |msgs|
  {
    if msgs != [] {
      var m, rest := msgs[0], msgs[1..];
      var x, y := SubsequenceSplits(got, PacketsOf(m, id), SendAll(rest, NextId(m, id)));
      LossyMessage(info, m, id, x);
      var first := RunPackets(info, x);
      LossyRun(first.info, rest, NextId(m, id), y);
      RunAppend(info, x, y);
      SubsequenceJoins(first.delivered, [m], RunPackets(first.info, y).delivered, rest);
      assert [m] + rest == msgs;
    }
  }

  /** Without loss every message arrives: serialize, fragment, reassemble and decode is the
      identity on any list of messages. */
  lemma {:induction false} LosslessRun(info: FragInfo, msgs: seq<Message>, id: nat)
    requires forall m <- msgs :: Sendable(m)
    requires Fresh(info, id) && 0 < id && id + |msgs| <= U64_RANGE
    ensures RunPackets(info, SendAll(msgs, id)).delivered == msgs
    ensures !RunPackets(info, SendAll(msgs, id)).panicked
    decreases |msgs|
  {
    if msgs != [] {
      var m, rest := msgs[0], msgs[1..];
      var x, y := PacketsOf(m, id), SendAll(rest, NextId(m, id));
      assert Sendable(m);
      if |Packet(m, [])| <= 9000 {
        PacketReceived(info, m);
        assert x[1..] == [] && RunPackets(info, []) == Link(info, [], false);
      } else {
        AllFragments(info, m, id, 0);
      }
      var first := RunPackets(info, x);
      assert first.delivered == [m] && !first.panicked && Fresh(first.info, NextId(m, id));
      LosslessRun(first.info, rest, NextId(m, id));
      RunAppend(info, x, y);
    }
  }
}
