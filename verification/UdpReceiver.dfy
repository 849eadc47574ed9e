/**
 The receiving transport as a whole (src/lib/udptransport.cc, ProcessPacket): packets from
 any number of senders, then simulated loss and the one-slot reorder buffer.
 */
module UdpReceiver {
  import opened Bytes
  import opened UdpFraming
  import opened UdpReassembly

  type Address = nat

  /** A packet with its sender, what the receive buffer holds behind it, and the two dice rolls,
      each false when its rate is zero. */
  datatype Arrival = Arrival(from: Address, packet: seq<Byte>, stale: seq<Byte>, drop: bool, hold: bool)

  datatype Delivery = Delivery(from: Address, msg: Message)

  /** A message that was not dropped, with its roll for being held back. */
  datatype Rolled = Rolled(delivery: Delivery, hold: bool)

  /** decoded and accepted are histories: the messages that came out of reassembly, and those
      of them that were not dropped. */
  datatype State = State(
    frags: map<Address, FragInfo>,
    held: Option<Delivery>,
    delivered: seq<Delivery>,
    panicked: bool,
    decoded: seq<Delivery>,
    accepted: seq<Rolled>)

  const START := State(map[], None, [], false, [], [])

  /** A sender without an entry has nothing under reassembly. */
  function InfoOf(frags: map<Address, FragInfo>, a: Address): FragInfo {
    if a in frags then frags[a] else NO_FRAGMENTS
  }

  function HeldBack(held: Option<Delivery>): seq<Delivery> {
    if held.Some? then [held.value] else []
  }

  /** Drop it, hold it back, or deliver it followed by the one held back. */
  function Dispatch(s: State, d: Delivery, drop: bool, hold: bool): State {
    if drop then s
    else if s.held.None? && hold then s.(held := Some(d), accepted := s.accepted + [Rolled(d, hold)])
    else s.(held := None,
            delivered := s.delivered + [d] + HeldBack(s.held),
            accepted := s.accepted + [Rolled(d, hold)])
  }

  /** What the code sees of a packet. It reads four bytes even if fewer came; should the bytes left in
      the buffer complete a magic number, the assertions on the size fail as for the number alone. */
  function Seen(packet: seq<Byte>, stale: seq<Byte>): seq<Byte> {
    if |packet| >= 4 || |packet + stale| < 4 then packet else
    var magic := FromLe((packet + stale)[..4]);
    if magic == NONFRAG_MAGIC || magic == FRAG_MAGIC then (packet + stale)[..4] else packet
  }

  /** ProcessPacket. */
  function Process(s: State, a: Arrival): State {
    if s.panicked then s else
    var o := Receive(InfoOf(s.frags, a.from), Seen(a.packet, a.stale));
    var s' := s.(frags := s.frags[a.from := o.info]);
    match o.effect
    case Panic => s'.(panicked := true)
    case Ignore => s'
    case Deliver(d) =>
      var m := Delivery(a.from, d.msg);
      Dispatch(s'.(decoded := s.decoded + [m]), m, a.drop, a.hold)
  }

  function Run(arrivals: seq<Arrival>): State {
    if arrivals == [] then START
    else Process(Run(arrivals[..|arrivals| - 1]), arrivals[|arrivals| - 1])
  }

  class UdpTransport {
    var fragInfo: map<Address, FragInfo>
    var reorderBuffer: Option<Delivery>
    var delivered: seq<Delivery>
    var panicked: bool
    ghost var decoded: seq<Delivery>
    ghost var accepted: seq<Rolled>

    ghost function View(): State
      reads this
    {
      State(fragInfo, reorderBuffer, delivered, panicked, decoded, accepted)
    }

    constructor ()
      ensures View() == Run([])
    {
      fragInfo, reorderBuffer, delivered, panicked, decoded, accepted := map[], None, [], false, [], [];
    }

    /** One packet, with the jump back that delivers the held message written as a loop. */
    method ProcessPacket(from: Address, packet: seq<Byte>, stale: seq<Byte>, drop: bool, hold: bool)
      requires !panicked
      modifies this
      ensures View() == Process(old(View()), Arrival(from, packet, stale, drop, hold))
    {
      var o := Receive(InfoOf(fragInfo, from), Seen(packet, stale));
      fragInfo := fragInfo[from := o.info];
      if o.effect.Panic? {
        panicked := true;
        return;
      }
      if o.effect.Ignore? {
        return;
      }
      var d := Delivery(from, o.effect.decoded.msg);
      ghost var first := d;
      decoded := decoded + [d];
      if drop {
        return;
      }
      accepted := accepted + [Rolled(d, hold)];
      if reorderBuffer.None? && hold {
        reorderBuffer := Some(d);
        return;
      }
      var more := true;
      ghost var total := delivered + [d] + HeldBack(reorderBuffer);
      while more
        invariant more ==> delivered + [d] + HeldBack(reorderBuffer) == total
        invariant !more ==> delivered == total && reorderBuffer == None
        invariant fragInfo == old(fragInfo)[from := o.info] && !panicked
        invariant decoded == old(decoded) + [first] && accepted == old(accepted) + [Rolled(first, hold)]
        decreases more, reorderBuffer.Some?
      {
        delivered := delivered + [d];
        if reorderBuffer.Some? {
          d := reorderBuffer.value;
          reorderBuffer := None;
        } else {
          more := false;
        }
      }
    }
  }

  // ---------------------------------------------------------------- interleaved senders

  /** The packets of one sender as they came, whatever was left in the buffer behind them. */
  function PacketsFrom(arrivals: seq<Arrival>, a: Address): seq<seq<Byte>> {
    if arrivals == [] then [] else
    var front, last := arrivals[..|arrivals| - 1], arrivals[|arrivals| - 1];
    PacketsFrom(front, a) + (if last.from == a then [last.packet] else [])
  }

  /** What is left in the buffer matters for packets shorter than a magic number that it completes to one, and
      then an assertion fails. Every other packet is received as it came. */
  lemma StaleMatters(info: FragInfo, packet: seq<Byte>, stale: seq<Byte>)
    ensures Receive(info, Seen(packet, stale)) ==
              if |packet| < 4 <= |packet + stale| && FromLe((packet + stale)[..4]) in {0x20050318, 0x20101010}
              then Outcome(info, Panic) else Receive(info, packet)
  {}

  function MessagesFrom(ds: seq<Delivery>, a: Address): seq<Message> {
    if ds == [] then [] else
    var front, last := ds[..|ds| - 1], ds[|ds| - 1];
    MessagesFrom(front, a) + (if last.from == a then [last.msg] else [])
  }

  lemma MessagesFromAppend(ds: seq<Delivery>, d: Delivery, a: Address)
    ensures MessagesFrom(ds + [d], a) == MessagesFrom(ds, a) + (if d.from == a then [d.msg] else [])
  {
    assert (ds + [d])[..|ds|] == ds;
  }

  lemma OnePacket(info: FragInfo, packet: seq<Byte>)
    ensures var o := Receive(info, packet);
            RunPackets(info, [packet])
            == Link(o.info, if o.effect.Deliver? then [o.effect.decoded.msg] else [], o.effect.Panic?)
  {
    var o := Receive(info, packet);
    assert [packet][1..] == [];
    assert RunPackets(o.info, []) == Link(o.info, [], false);
  }

  /** One arrival: nothing changes for other senders, and its own sender's packet is received. */
  lemma OneArrival(s: State, x: Arrival, a: Address)
    requires !Process(s, x).panicked
    ensures var t := Process(s, x);
            var link := RunPackets(InfoOf(s.frags, a), [x.packet]);
            if x.from == a then
              && link.info == InfoOf(t.frags, a) && !link.panicked
              && MessagesFrom(t.decoded, a) == MessagesFrom(s.decoded, a) + link.delivered
            else InfoOf(t.frags, a) == InfoOf(s.frags, a) && MessagesFrom(t.decoded, a) == MessagesFrom(s.decoded, a)
  {
    StaleMatters(InfoOf(s.frags, x.from), x.packet, x.stale);
    OnePacket(InfoOf(s.frags, x.from), x.packet);
    var o := Receive(InfoOf(s.frags, x.from), x.packet);
    if o.effect.Deliver? {
      MessagesFromAppend(s.decoded, Delivery(x.from, o.effect.decoded.msg), a);
    }
  }

  /** However the senders interleave, each one's reassembly state and messages are those of a
      receiver that hears that sender alone. */
  lemma {:induction false} SendersDoNotInterfere(arrivals: seq<Arrival>, a: Address)
    requires !Run(arrivals).panicked
    ensures var s := Run(arrivals);
            RunPackets(NO_FRAGMENTS, PacketsFrom(arrivals, a))
            == Link(InfoOf(s.frags, a), MessagesFrom(s.decoded, a), false)
  {
    if arrivals != [] {
      var front, last := arrivals[..|arrivals| - 1], arrivals[|arrivals| - 1];
      SendersDoNotInterfere(front, a);
      OneArrival(Run(front), last, a);
      var before := PacketsFrom(front, a);
      if last.from == a {
        RunAppend(NO_FRAGMENTS, before, [last.packet]);
      } else {
        assert before + [] == before;
      }
    }
  }

  /** Every arrival comes from a known sender, and each sender's packets arrive in the order
      sent, possibly with some lost. */
  ghost predicate OrderedLossy(arrivals: seq<Arrival>, sent: map<Address, seq<Message>>) {
    && (forall x <- arrivals :: x.from in sent)
    && (forall a <- sent :: Subsequence(PacketsFrom(arrivals, a), SendAll(sent[a], 1)))
  }

  ghost predicate AllSendable(sent: map<Address, seq<Message>>) {
    forall a <- sent :: |sent[a]| < U64_RANGE - 1 && forall m <- sent[a] :: Sendable(m)
  }

  lemma OrderedLossyPrefix(arrivals: seq<Arrival>, sent: map<Address, seq<Message>>)
    requires arrivals != [] && OrderedLossy(arrivals, sent)
    ensures OrderedLossy(arrivals[..|arrivals| - 1], sent)
  {
    var front := arrivals[..|arrivals| - 1];
    forall a <- sent ensures Subsequence(PacketsFrom(front, a), SendAll(sent[a], 1)) {
      var all, some := PacketsFrom(arrivals, a), PacketsFrom(front, a);
      PrefixIsSubsequence(all, SendAll(sent[a], 1), |some|);
      assert all[..|some|] == some;
    }
  }

  lemma {:induction false} SubsequenceMembers<T>(got: seq<T>, sent: seq<T>, x: T)
    requires Subsequence(got, sent) && x in got
    ensures x in sent
    decreases |sent|
  {
    if got[0] == sent[0] && Subsequence(got[1..], sent[1..]) {
      if x != got[0] {
        SubsequenceMembers(got[1..], sent[1..], x);
      }
    } else {
      SubsequenceMembers(got, sent[1..], x);
    }
  }

  /** Every packet that is sent has more than a magic number. */
  lemma {:induction false} PacketsAreLong(msgs: seq<Message>, id: nat, packet: seq<Byte>)
    requires packet in SendAll(msgs, id)
    ensures |packet| > 4
    decreases |msgs|
  {
    var here := PacketsOf(msgs[0], id);
    if packet in here {
      if |Packet(msgs[0], [])| > 9000 {
        var k :| 0 <= k < |here| && here[k] == packet;
        FragmentIs(Body(msgs[0], []), id, 0, k);
      }
    } else {
      PacketsAreLong(msgs[1..], NextId(msgs[0], id), packet);
    }
  }

  lemma SentIsLong(arrivals: seq<Arrival>, sent: map<Address, seq<Message>>)
    requires arrivals != [] && OrderedLossy(arrivals, sent)
    ensures |arrivals[|arrivals| - 1].packet| > 4
  {
    var last := arrivals[|arrivals| - 1];
    assert last.from in sent;
    var all := PacketsFrom(arrivals, last.from);
    assert all[|all| - 1] == last.packet;
    SubsequenceMembers(all, SendAll(sent[last.from], 1), last.packet);
    PacketsAreLong(sent[last.from], 1, last.packet);
  }

  /** Any interleaving of any number of senders over links that lose but do not reorder: no
      assertion ever fails, and from each sender the receiver gets a subsequence of the
      messages that sender sent, unchanged. */
  lemma {:induction false} InterleavedRun(arrivals: seq<Arrival>, sent: map<Address, seq<Message>>)
    requires AllSendable(sent) && OrderedLossy(arrivals, sent)
    ensures !Run(arrivals).panicked
    ensures forall a <- sent :: Subsequence(MessagesFrom(Run(arrivals).decoded, a), sent[a])
  {
    if arrivals != [] {
      var front, last := arrivals[..|arrivals| - 1], arrivals[|arrivals| - 1];
      OrderedLossyPrefix(arrivals, sent);
      InterleavedRun(front, sent);
      var s := Run(front);
      SendersDoNotInterfere(front, last.from);
      LossyRun(NO_FRAGMENTS, sent[last.from], 1, PacketsFrom(arrivals, last.from));
      SentIsLong(arrivals, sent);
      StaleMatters(InfoOf(s.frags, last.from), last.packet, last.stale);
      OnePacket(InfoOf(s.frags, last.from), last.packet);
      RunAppend(NO_FRAGMENTS, PacketsFrom(front, last.from), [last.packet]);
    }
    forall a <- sent ensures Subsequence(MessagesFrom(Run(arrivals).decoded, a), sent[a]) {
      SendersDoNotInterfere(arrivals, a);
      LossyRun(NO_FRAGMENTS, sent[a], 1, PacketsFrom(arrivals, a));
    }
  }

  lemma {:induction false} WholeIsSubsequence<T>(sent: seq<T>)
    ensures Subsequence(sent, sent)
  {
    if sent != [] {
      WholeIsSubsequence(sent[1..]);
    }
  }

  /** Without loss, drops and holds, every message of every sender is delivered, unchanged and in the order in
      which its sender sent it, however the senders interleave. */
  lemma LosslessInterleavedRun(arrivals: seq<Arrival>, sent: map<Address, seq<Message>>, a: Address)
    requires AllSendable(sent) && a in sent
    requires forall x <- arrivals :: x.from in sent && !x.drop && !x.hold
    requires forall b <- sent :: PacketsFrom(arrivals, b) == SendAll(sent[b], 1)
    ensures !Run(arrivals).panicked && MessagesFrom(Run(arrivals).delivered, a) == sent[a]
  {
    forall b <- sent ensures Subsequence(PacketsFrom(arrivals, b), SendAll(sent[b], 1)) {
      WholeIsSubsequence(SendAll(sent[b], 1));
    }
    InterleavedRun(arrivals, sent);
    SendersDoNotInterfere(arrivals, a);
    LosslessRun(NO_FRAGMENTS, sent[a], 1);
    NoRollsNoReorder(arrivals);
  }

  // ---------------------------------------------------------------- what survives the drops

  /** The messages that a receiver of each sender alone decodes, at the arrivals at which it does, without
      those whose arrival rolled a drop. */
  function Survivors(arrivals: seq<Arrival>): seq<Rolled> {
    if arrivals == [] then [] else
    var front, last := arrivals[..|arrivals| - 1], arrivals[|arrivals| - 1];
    var before := RunPackets(NO_FRAGMENTS, PacketsFrom(front, last.from)).delivered;
    var after := RunPackets(NO_FRAGMENTS, PacketsFrom(arrivals, last.from)).delivered;
    Survivors(front) +
    if |after| > |before| && !last.drop then [Rolled(Delivery(last.from, after[|after| - 1]), last.hold)] else []
  }

  /** What is accepted is exactly that. */
  lemma {:induction false} AcceptedSurvives(arrivals: seq<Arrival>)
    requires !Run(arrivals).panicked
    ensures Run(arrivals).accepted == Survivors(arrivals)
  {
    if arrivals != [] {
      var front, last := arrivals[..|arrivals| - 1], arrivals[|arrivals| - 1];
      AcceptedSurvives(front);
      SendersDoNotInterfere(front, last.from);
      SendersDoNotInterfere(arrivals, last.from);
      OneAccepted(Run(front), last);
    }
  }

  lemma OneAccepted(s: State, x: Arrival)
    requires !Process(s, x).panicked
    ensures var t := Process(s, x);
            var before, after := MessagesFrom(s.decoded, x.from), MessagesFrom(t.decoded, x.from);
            t.accepted == s.accepted +
              if |after| > |before| && !x.drop then [Rolled(Delivery(x.from, after[|after| - 1]), x.hold)] else []
  {
    StaleMatters(InfoOf(s.frags, x.from), x.packet, x.stale);
    var o := Receive(InfoOf(s.frags, x.from), x.packet);
    if o.effect.Deliver? {
      MessagesFromAppend(s.decoded, Delivery(x.from, o.effect.decoded.msg), x.from);
    }
  }

  // ---------------------------------------------------------------- the reorder buffer

  /** The order in which messages come out, by their rolls: one with a roll comes right after its
      successor, whose own roll is not drawn; the last one, with a roll, waits for a successor. */
  function Output(acc: seq<Rolled>): seq<Delivery>
    decreases |acc|
  {
    if acc == [] then []
    else if !acc[0].hold then [acc[0].delivery] + Output(acc[1..])
    else if |acc| == 1 then [acc[0].delivery]
    else [acc[1].delivery, acc[0].delivery] + Output(acc[2..])
  }

  /** The last message is still waiting for its successor. */
  predicate Waiting(acc: seq<Rolled>)
    decreases |acc|
  {
    acc != [] && (if !acc[0].hold then Waiting(acc[1..]) else |acc| == 1 || Waiting(acc[2..]))
  }

  /** The one that waits is the last accepted and would come out last. */
  lemma {:induction false} WaitingIsLast(acc: seq<Rolled>)
    requires Waiting(acc)
    ensures Output(acc) != [] && Output(acc)[|Output(acc)| - 1] == acc[|acc| - 1].delivery
    decreases |acc|
  {
    if !acc[0].hold {
      WaitingIsLast(acc[1..]);
    } else if |acc| > 1 {
      WaitingIsLast(acc[2..]);
    }
  }

  /** One more message ends the waiting. */
  lemma {:induction false} WaitingEnds(acc: seq<Rolled>, x: Rolled)
    requires Waiting(acc)
    ensures !Waiting(acc + [x])
    decreases |acc|
  {
    var more := acc + [x];
    if !acc[0].hold {
      assert more[1..] == acc[1..] + [x];
      WaitingEnds(acc[1..], x);
    } else if |acc| == 1 {
      assert more[2..] == [];
    } else {
      assert more[2..] == acc[2..] + [x];
      WaitingEnds(acc[2..], x);
    }
  }

  /** It goes before the one that waits for it. */
  lemma {:induction false} OutputAfterWaiting(acc: seq<Rolled>, x: Rolled)
    requires Waiting(acc)
    ensures Output(acc) != []
    ensures Output(acc + [x]) == Output(acc)[..|Output(acc)| - 1] + [x.delivery, acc[|acc| - 1].delivery]
    decreases |acc|
  {
    var more := acc + [x];
    var late := [x.delivery, acc[|acc| - 1].delivery];
    if !acc[0].hold {
      assert more[1..] == acc[1..] + [x];
      OutputAfterWaiting(acc[1..], x);
      LastReplaced([acc[0].delivery], Output(acc[1..]), late);
    } else if |acc| == 1 {
      assert more[2..] == [];
    } else {
      assert more[2..] == acc[2..] + [x];
      OutputAfterWaiting(acc[2..], x);
      LastReplaced([acc[1].delivery, acc[0].delivery], Output(acc[2..]), late);
    }
  }

  lemma LastReplaced(front: seq<Delivery>, out: seq<Delivery>, late: seq<Delivery>)
    requires out != []
    ensures (front + out)[..|front + out| - 1] + late == front + (out[..|out| - 1] + late)
  {}

  /** When none waits it goes to the end. */
  lemma {:induction false} OutputAppend(acc: seq<Rolled>, x: Rolled)
    requires !Waiting(acc)
    ensures Output(acc + [x]) == Output(acc) + [x.delivery] && Waiting(acc + [x]) == x.hold
    decreases |acc|
  {
    var more := acc + [x];
    if acc == [] {
      assert more == [x] && more[1..] == [];
    } else if !acc[0].hold {
      assert more[1..] == acc[1..] + [x];
      OutputAppend(acc[1..], x);
    } else {
      assert more[2..] == acc[2..] + [x];
      OutputAppend(acc[2..], x);
    }
  }

  /** What is delivered, and the one held back, are the output; the one held back is the last accepted. */
  ghost predicate ReorderInvariant(s: State) {
    && s.delivered + HeldBack(s.held) == Output(s.accepted)
    && (s.held.Some? <==> Waiting(s.accepted))
    && (s.held.Some? ==> s.accepted != [] && s.held.value == s.accepted[|s.accepted| - 1].delivery)
  }

  lemma DispatchKeepsOrder(s: State, d: Delivery, drop: bool, hold: bool)
    requires ReorderInvariant(s)
    ensures ReorderInvariant(Dispatch(s, d, drop, hold))
  {
    if !drop {
      if s.held.None? {
        OutputAppend(s.accepted, Rolled(d, hold));
      } else {
        WaitingIsLast(s.accepted);
        WaitingEnds(s.accepted, Rolled(d, hold));
        OutputAfterWaiting(s.accepted, Rolled(d, hold));
        var out := Output(s.accepted);
        assert out[..|out| - 1] == s.delivered;
        assert s.delivered + [d] + [s.held.value] == s.delivered + [d, s.held.value];
      }
    }
  }

  /** For every packet sequence and every sequence of dice rolls: what was delivered, followed by the
      message held back, is what survived the drops in the order that the rolls for holding back give. */
  lemma {:induction false} HeldComesAfterSuccessor(arrivals: seq<Arrival>)
    ensures ReorderInvariant(Run(arrivals))
  {
    if arrivals != [] {
      var front, last := arrivals[..|arrivals| - 1], arrivals[|arrivals| - 1];
      HeldComesAfterSuccessor(front);
      var s := Run(front);
      if !s.panicked {
        var o := Receive(InfoOf(s.frags, last.from), Seen(last.packet, last.stale));
        if o.effect.Deliver? {
          var m := Delivery(last.from, o.effect.decoded.msg);
          var s' := s.(frags := s.frags[last.from := o.info], decoded := s.decoded + [m]);
          DispatchKeepsOrder(s', m, last.drop, last.hold);
        }
      }
    }
  }

  function Deliveries(acc: seq<Rolled>): seq<Delivery> {
    if acc == [] then [] else [acc[0].delivery] + Deliveries(acc[1..])
  }

  /** Nothing is lost or invented by holding back. */
  lemma {:induction false} OutputIsPermutation(acc: seq<Rolled>)
    ensures multiset(Output(acc)) == multiset(Deliveries(acc))
    decreases |acc|
  {
    if acc != [] {
      if !acc[0].hold {
        OutputIsPermutation(acc[1..]);
      } else if |acc| > 1 {
        OutputIsPermutation(acc[2..]);
        assert acc[1..][1..] == acc[2..];
        assert Deliveries(acc) == [acc[0].delivery] + ([acc[1].delivery] + Deliveries(acc[2..]));
      } else {
        assert acc[1..] == [];
      }
    }
  }

  /** In every run the messages delivered and the one held back are those not dropped. */
  lemma NothingLostInReorder(arrivals: seq<Arrival>)
    ensures var s := Run(arrivals);
            multiset(s.delivered + HeldBack(s.held)) == multiset(Deliveries(s.accepted))
  {
    HeldComesAfterSuccessor(arrivals);
    OutputIsPermutation(Run(arrivals).accepted);
  }

  /** With both rates zero nothing is dropped or held, and messages are delivered as decoded. */
  lemma {:induction false} NoRollsNoReorder(arrivals: seq<Arrival>)
    requires forall x <- arrivals :: !x.drop && !x.hold
    ensures var s := Run(arrivals); s.held == None && s.delivered == s.decoded
  {
    if arrivals != [] {
      NoRollsNoReorder(arrivals[..|arrivals| - 1]);
      assert !arrivals[|arrivals| - 1].drop && !arrivals[|arrivals| - 1].hold;
    }
  }
}
