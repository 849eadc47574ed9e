/**
 View changes of the replicated lock server: quorum sizes (src/lib/configuration.cc), the
 split of tentative operations into d and u (src/replication/ir/replica.cc), and the merge
 (src/lockserver/server.cc). When a lock granted on the fast path survives.
 */
module LockViewChange {
  import opened LockServer
  import opened LockReplay
  import opened LockClient

  // ---------------------------------------------------------------- quorum sizes

  function QuorumSize(f: nat): nat {
    f + 1
  }

  function FastQuorumSize(f: nat): nat {
    f + (f + 1) / 2 + 1
  }

  /** How many equal results put an operation into d: ceil(f/2) + 1. */
  function Threshold(f: nat): nat {
    (f + 1) / 2 + 1
  }

  lemma {:induction false} IntersectionSize(n: nat, a: set<nat>, b: set<nat>)
    requires a <= UpTo(n) && b <= UpTo(n)
    ensures |a * b| >= |a| + |b| - n
  {
    SubsetSize(a + b, UpTo(n));
    assert |a + b| == |a| + |b| - |a * b|;
  }

  /** Of 2f+1 replicas, a fast quorum shares with every quorum at least as many replicas as
      the threshold asks for, and that is a strict majority of the smallest quorum. */
  lemma FastQuorumOverlap(f: nat, fast: set<nat>, quorum: set<nat>)
    requires fast <= UpTo(2 * f + 1) && quorum <= UpTo(2 * f + 1)
    requires |fast| >= FastQuorumSize(f) && |quorum| >= QuorumSize(f)
    ensures |fast * quorum| >= FastQuorumSize(f) - f == Threshold(f)
    ensures 2 * Threshold(f) > QuorumSize(f)
  {
    IntersectionSize(2 * f + 1, fast, quorum);
  }

  // ---------------------------------------------------------------- a view change

  /** Replica histories, by replica number. */
  type Group = seq<seq<Operation>>

  /** A view change over a quorum of 2f+1 replicas: their histories; the settled entries, which are the
      inconsistent and finalized ones and make up the record that Sync gets; the order in which hash
      sets list their members; the proposals d; the table Sync makes and the merged one. */
  datatype Change = Change(f: nat, group: Group, quorum: set<nat>, settled: seq<Entry>, order: Order,
                           d: seq<Proposal>, before: Table, after: Table)

  /** Replica history h holds this consensus operation, answered with this status. */
  ghost predicate Answered(h: seq<Operation>, op: OpId, request: Request, status: int) {
    exists t :: AnsweredAt(h, t, op, request, status)
  }

  ghost predicate AnsweredAt(h: seq<Operation>, t: int, op: OpId, request: Request, status: int) {
    && 0 <= t < |h| && h[t] == Operation(op, request, true)
    && ConsensusStatus(Replay(h[..t]), request) == status
  }

  ghost function OpsIn(settled: seq<Entry>): set<OpId> {
    set e | e in settled :: e.op
  }

  ghost predicate Sized(v: Change) {
    |v.group| == 2 * v.f + 1 && v.quorum <= UpTo(|v.group|) && |v.quorum| == QuorumSize(v.f)
  }

  /** The quorum's replicas that gave op this status. */
  ghost function Answering(v: Change, op: OpId, request: Request, status: int): set<nat>
    requires Sized(v)
  {
    set r | r in v.quorum && Answered(v.group[r], op, request, status)
  }

  /** Enough records of the quorum agree on this result for this operation, which is not settled. */
  ghost predicate InD(v: Change, p: Proposal)
    requires Sized(v)
  {
    && p.op !in OpsIn(v.settled) && p.majority.key == p.request.key
    && |Answering(v, p.op, p.request, p.majority.status)| >= Threshold(v.f)
  }

  /** d is, in the order of operation ids, exactly those; every other operation is in u. */
  ghost predicate IsD(v: Change)
    requires Sized(v)
  {
    InOrder(v.d) && forall p: Proposal :: p in v.d <==> InD(v, p)
  }

  /** Sync passed its assertion on the settled entries and made this table. */
  ghost predicate Synced(v: Change) {
    && Lists(v.order) && AtMostOneEach(LeftOvers(v.order, v.settled))
    && Rebuilt(LeftOvers(v.order, v.settled), KeysIn(v.settled), v.before)
  }

  ghost predicate ViewChange(v: Change) {
    Sized(v) && Synced(v) && IsD(v) && MergedTable(v.before, v.d, |v.d|, v.after)
  }

  /** Whom Sync finds left over for k. */
  ghost function Left(v: Change, k: Key): set<ClientId> {
    LeftOver(v.order, v.settled, k)
  }

  // ---------------------------------------------------------------- what Sync and Merge leave

  lemma HasElements(s: seq<nat>)
    ensures s != [] ==> Elements(s) != {}
  {
    if s != [] {
      assert s[0] in Elements(s);
    }
  }

  lemma NothingListed(order: Order)
    requires Lists(order)
    ensures order({}) == []
  {
    HasElements(order({}));
  }

  /** Among the settled entries, k was locked by nobody but c and released by nobody. */
  ghost predicate OnlyFor(settled: seq<Entry>, c: ClientId, k: Key) {
    forall e <- settled :: e.request.key == k && e.status == 0 ==> e.request == Request(c, k, true)
  }

  ghost predicate SettledLock(settled: seq<Entry>, c: ClientId, k: Key) {
    exists e <- settled :: e.request == Request(c, k, true) && e.status == 0
  }

  lemma LeftWhenOnlyFor(v: Change, c: ClientId, k: Key)
    requires Lists(v.order) && OnlyFor(v.settled, c, k)
    ensures Left(v, k) == (if SettledLock(v.settled, c, k) then {c} else {})
  {
    var locked := LockedIn(v.settled, k);
    assert locked <= {c} && UnlockedIn(v.settled, k) == {};
    assert c in locked <==> SettledLock(v.settled, c, k);
    NothingListed(v.order);
    assert MergeWalk(v.order(locked), []) == Elements(v.order(locked));
  }

  /** Sync gives a key to the client left over for it and to nobody else: with ascending listings to the one
      that by the settled entries locked and did not unlock it, and when nobody but c settled anything on k,
      under any listing, to c exactly if c locked it. */
  lemma RestoredOrFree(v: Change, c: ClientId, k: Key)
    requires Synced(v)
    ensures ClientAt(v.before, k) == Left(v, k)
    ensures AlwaysAscending(v.order) ==> ClientAt(v.before, k) == StillLocked(v.settled, k)
    ensures OnlyFor(v.settled, c, k) ==>
              ClientAt(v.before, k) == (if SettledLock(v.settled, c, k) then {c} else {})
  {
    if k in KeysIn(v.settled) {
      assert LeftOvers(v.order, v.settled)[k] == Left(v, k) && |Left(v, k)| <= 1;
      if |Left(v, k)| == 0 {
        assert Left(v, k) == {};
      }
      if AlwaysAscending(v.order) {
        AscendingLeftOvers(v.order, v.settled);
      }
    } else {
      assert LockedIn(v.settled, k) == {};
      NothingListed(v.order);
    }
    if OnlyFor(v.settled, c, k) {
      LeftWhenOnlyFor(v, c, k);
    }
  }

  /** No operation in d that succeeded on k has a lower id. */
  ghost predicate Lowest(v: Change, k: Key, op: OpId)
    requires Sized(v)
  {
    forall p: Proposal :: InD(v, p) && p.majority == Reply(k, 0) ==> !Before(p.op, op)
  }

  /** The lowest operation in d that succeeded on k is client c's. */
  ghost predicate LowestIsFor(v: Change, c: ClientId, k: Key)
    requires Sized(v)
  {
    exists p: Proposal :: InD(v, p) && p.majority == Reply(k, 0) && p.request.client == c && Lowest(v, k, p.op)
  }

  /** Lower ids come first in d. */
  lemma LowestIsFirst(v: Change, i: nat, k: Key)
    requires Sized(v) && IsD(v) && i < |v.d|
    ensures Lowest(v, k, v.d[i].op) <==> forall j: nat :: j < i ==> !Succeeds(v.d, j, k)
  {
    if j: nat :| j < i && Succeeds(v.d, j, k) {
      assert v.d[j] in v.d && v.d[j].majority == Reply(k, 0);
    } else {
      forall p: Proposal | InD(v, p) && p.majority == Reply(k, 0)
        ensures !Before(p.op, v.d[i].op)
      {
        var j :| 0 <= j < |v.d| && v.d[j] == p;
        assert Succeeds(v.d, j, k);
      }
    }
  }

  /** The merge grants a proposal exactly when it succeeded, Sync left nobody at the key, and no lower
      operation succeeded there. */
  lemma GrantedIffLowest(v: Change, i: nat)
    requires ViewChange(v) && i < |v.d|
    ensures Wins(v.before, v.d, i) <==>
              && v.d[i].majority.status == 0 && Left(v, v.d[i].majority.key) == {}
              && Lowest(v, v.d[i].majority.key, v.d[i].op)
  {
    RestoredOrFree(v, 0, v.d[i].majority.key);
    LowestIsFirst(v, i, v.d[i].majority.key);
  }

  /** After the merge c holds k exactly when Sync left it to c, or left it to nobody and the lowest operation
      that succeeded on it is c's. */
  lemma HolderAfterMerge(v: Change, c: ClientId, k: Key)
    requires ViewChange(v)
    ensures HeldBy(v.after, k, c) <==> (Left(v, k) == {c} || (Left(v, k) == {} && LowestIsFor(v, c, k)))
  {
    RestoredOrFree(v, c, k);
    if k in v.before {
      assert HeldBy(v.after, k, v.before[k]);
      assert v.before[k] in ClientAt(v.before, k);
    } else {
      if HeldBy(v.after, k, c) {
        var i: nat :| i < |v.d| && WinsKey(v.before, v.d, i, k);
        GrantedIffLowest(v, i);
        assert v.d[i] in v.d;
      }
      if p: Proposal :| InD(v, p) && p.majority == Reply(k, 0) && p.request.client == c && Lowest(v, k, p.op) {
        var i :| 0 <= i < |v.d| && v.d[i] == p;
        GrantedIffLowest(v, i);
      }
    }
  }

  // ---------------------------------------------------------------- a fast grant

  /** A fast quorum granted client c the lock on k. A settled entry for that operation has the result the
      client got. */
  ghost predicate FastGrant(v: Change, fast: set<nat>, op: OpId, c: ClientId, k: Key) {
    && fast <= UpTo(|v.group|) && |fast| >= FastQuorumSize(v.f)
    && (forall r <- fast :: Answered(v.group[r], op, Request(c, k, true), 0))
    && (forall e <- v.settled :: e.op == op ==> e.request == Request(c, k, true) && e.status == 0)
  }

  /** Nobody asked this replica to release k. */
  ghost predicate NoUnlock(h: seq<Operation>, k: Key) {
    forall o <- h :: o.request.lock || o.request.key != k
  }

  /** Nobody released k in the histories of the quorum, and nobody but c settled anything on it. */
  ghost predicate Unreleased(v: Change, c: ClientId, k: Key)
    requires Sized(v)
  {
    (forall r <- v.quorum :: NoUnlock(v.group[r], k)) && OnlyFor(v.settled, c, k)
  }

  lemma {:induction false} GrantedIsHolder(h: seq<Operation>, t: nat, op: OpId, c: ClientId, k: Key)
    requires NoUnlock(h, k) && AnsweredAt(h, t, op, Request(c, k, true), 0)
    ensures HeldBy(Replay(h), k, c)
  {
    var front, last := h[..|h| - 1], h[|h| - 1];
    assert last in h;
    if t < |front| {
      assert front[..t] == h[..t];
      GrantedIsHolder(front, t, op, c, k);
    }
  }

  /** While nobody releases k, an operation on k that succeeded at a replica is its holder's lock. */
  lemma SuccessIsHolders(h: seq<Operation>, p: Proposal)
    requires NoUnlock(h, p.request.key) && Answered(h, p.op, p.request, 0)
    ensures HeldBy(Replay(h), p.request.key, p.request.client) && p.request.lock
  {
    var t :| AnsweredAt(h, t, p.op, p.request, 0);
    assert h[t] in h;
    GrantedIsHolder(h, t, p.op, p.request.client, p.request.key);
  }

  /** While nobody releases k, all operations in d that succeeded on k are one client's locks. */
  lemma OneClientInD(v: Change, p: Proposal, q: Proposal)
    requires Sized(v) && InD(v, p) && InD(v, q)
    requires p.majority.status == 0 && q.majority.status == 0 && p.request.key == q.request.key
    requires forall r <- v.quorum :: NoUnlock(v.group[r], p.request.key)
    ensures p.request.client == q.request.client && p.request.lock
  {
    var a, b := Answering(v, p.op, p.request, 0), Answering(v, q.op, q.request, 0);
    if a * b == {} {
      assert |a + b| == |a| + |b|;
      SubsetSize(a + b, v.quorum);
    }
    var r :| r in a * b;
    SuccessIsHolders(v.group[r], p);
    SuccessIsHolders(v.group[r], q);
  }

  /** A fast grant that is not settled is in d. */
  lemma FastGrantIsInD(v: Change, fast: set<nat>, op: OpId, c: ClientId, k: Key)
    requires Sized(v) && FastGrant(v, fast, op, c, k) && op !in OpsIn(v.settled)
    ensures InD(v, Proposal(op, Request(c, k, true), Reply(k, 0)))
  {
    FastQuorumOverlap(v.f, fast, v.quorum);
    var shared := Answering(v, op, Request(c, k, true), 0);
    assert fast * v.quorum <= shared;
    SubsetSize(fast * v.quorum, shared);
  }

  /** Its lowest rival in d wins the key if Sync leaves it free: without a release that is c's own. */
  lemma FastGrantWins(v: Change, fast: set<nat>, op: OpId, c: ClientId, k: Key) returns (w: nat)
    requires ViewChange(v) && FastGrant(v, fast, op, c, k) && op !in OpsIn(v.settled) && Left(v, k) == {}
    ensures WinsKey(v.before, v.d, w, k) && Lowest(v, k, v.d[w].op) && HeldBy(v.after, k, v.d[w].request.client)
    ensures v.d[w].op == op || Before(v.d[w].op, op)
    ensures Unreleased(v, c, k) ==> v.d[w].request == Request(c, k, true)
  {
    var p := Proposal(op, Request(c, k, true), Reply(k, 0));
    FastGrantIsInD(v, fast, op, c, k);
    RestoredOrFree(v, c, k);
    var i :| 0 <= i < |v.d| && v.d[i] == p;
    w := FirstSuccessWins(v.before, v.d, i, k);
    assert v.d[w] in v.d;
    GrantedIffLowest(v, w);
    if Unreleased(v, c, k) {
      OneClientInD(v, v.d[w], p);
    }
  }

  /** A lock granted on the fast path is held by the same client after the view change if and only if Sync
      left it to that client, or left it to nobody and the lowest operation in d that succeeded on the key is
      that client's. Without a release one of the two is always so. */
  lemma FastGrantSurvives(v: Change, fast: set<nat>, op: OpId, c: ClientId, k: Key)
    requires ViewChange(v) && FastGrant(v, fast, op, c, k)
    ensures HeldBy(v.after, k, c) <==> (Left(v, k) == {c} || (Left(v, k) == {} && LowestIsFor(v, c, k)))
    ensures Unreleased(v, c, k) ==> HeldBy(v.after, k, c)
  {
    HolderAfterMerge(v, c, k);
    RestoredOrFree(v, c, k);
    if Unreleased(v, c, k) && Left(v, k) == {} {
      assert op !in OpsIn(v.settled);
      var w := FastGrantWins(v, fast, op, c, k);
    }
  }

  /** Another client's proposal for the key is answered with success if and only if it succeeded, Sync left
      the key to nobody, and no lower operation succeeded on it. Without a release it never is. */
  lemma OthersAreRejected(v: Change, fast: set<nat>, op: OpId, c: ClientId, k: Key, i: nat)
    requires ViewChange(v) && FastGrant(v, fast, op, c, k)
    requires i < |v.d| && v.d[i].request.key == k && v.d[i].request.client != c
    ensures Verdict(v.before, v.d, i).status == 0 <==>
              (v.d[i].majority.status == 0 && Left(v, k) == {} && Lowest(v, k, v.d[i].op))
    ensures Unreleased(v, c, k) ==> Verdict(v.before, v.d, i).status != 0
  {
    assert v.d[i] in v.d;
    GrantedIffLowest(v, i);
    RestoredOrFree(v, c, k);
    if Unreleased(v, c, k) && v.d[i].majority.status == 0 && Left(v, k) == {} {
      assert op !in OpsIn(v.settled);
      FastGrantIsInD(v, fast, op, c, k);
      OneClientInD(v, v.d[i], Proposal(op, Request(c, k, true), Reply(k, 0)));
    }
  }

  /** The granted operation itself keeps the success its client was told if and only if Sync left the key to
      nobody and no lower operation succeeded on it. Without a release: if and only if c has no settled lock
      on the key and no lower operation of c's in d locked it. */
  lemma GrantKeepsItsStatus(v: Change, fast: set<nat>, op: OpId, c: ClientId, k: Key, i: nat)
    requires ViewChange(v) && FastGrant(v, fast, op, c, k)
    requires i < |v.d| && v.d[i] == Proposal(op, Request(c, k, true), Reply(k, 0))
    ensures Verdict(v.before, v.d, i) == Reply(k, 0) <==> (Left(v, k) == {} && Lowest(v, k, op))
    ensures Unreleased(v, c, k) ==>
              (Verdict(v.before, v.d, i) == Reply(k, 0) <==>
                 !SettledLock(v.settled, c, k)
                 && forall j :: 0 <= j < i && v.d[j].request == Request(c, k, true) ==> v.d[j].majority.status != 0)
  {
    GrantedIffLowest(v, i);
    RestoredOrFree(v, c, k);
    if Unreleased(v, c, k) && !SettledLock(v.settled, c, k) {
      forall j: nat | j < i && Succeeds(v.d, j, k)
        ensures v.d[j].request == Request(c, k, true)
      {
        assert v.d[j] in v.d && v.d[i] in v.d;
        OneClientInD(v, v.d[j], v.d[i]);
      }
      forall j | 0 <= j < i && v.d[j].request == Request(c, k, true) && v.d[j].majority.status == 0
        ensures Succeeds(v.d, j, k)
      {
        assert v.d[j] in v.d;
      }
    }
  }

  // ---------------------------------------------------------------- without a release

  /** Replica history h granted c the lock on k. */
  ghost predicate Granted(h: seq<Operation>, c: ClientId, k: Key) {
    exists op :: Answered(h, op, Request(c, k, true), 0)
  }

  ghost function Granting(g: Group, c: ClientId, k: Key): set<nat> {
    set r | r in UpTo(|g|) && Granted(g[r], c, k)
  }

  /** A finalized lock is one that two replicas granted, as Decide demands, or a fast quorum. */
  ghost predicate Backed(f: nat, g: Group, e: Entry) {
    var n := |Granting(g, e.request.client, e.request.key)|;
    n >= 2 || n >= FastQuorumSize(f)
  }

  /** Replica r's history in a run of the group. */
  ghost predicate HistoryOf(run: seq<Step>, r: nat, h: seq<Operation>) {
    if run == [] then h == [] else
    var front, last := run[..|run| - 1], run[|run| - 1];
    if last.replica != r then HistoryOf(front, r, h) else
    && h != [] && h[|h| - 1].request == last.request && h[|h| - 1].consensus == last.consensus
    && HistoryOf(front, r, h[..|h| - 1])
  }

  lemma {:induction false} HistoryTable(run: seq<Step>, r: nat, h: seq<Operation>)
    requires HistoryOf(run, r, h)
    ensures TableOf(run, r) == Replay(h)
  {
    if run != [] {
      HistoryTable(run[..|run| - 1], r, if run[|run| - 1].replica == r then h[..|h| - 1] else h);
    }
  }

  lemma GrantStays(h: seq<Operation>, n: nat, c: ClientId, k: Key)
    requires n <= |h| && Granted(h[..n], c, k)
    ensures Granted(h, c, k)
  {
    var op :| Answered(h[..n], op, Request(c, k, true), 0);
    var t :| AnsweredAt(h[..n], t, op, Request(c, k, true), 0);
    assert h[..n][..t] == h[..t];
    assert AnsweredAt(h, t, op, Request(c, k, true), 0);
    assert Answered(h, op, Request(c, k, true), 0);
  }

  lemma {:induction false} GrantInHistory(run: seq<Step>, t: nat, r: nat, c: ClientId, k: Key, h: seq<Operation>)
    requires HistoryOf(run, r, h) && GrantedAt(run, t, r, c, k)
    ensures Granted(h, c, k)
  {
    var front, last := run[..|run| - 1], run[|run| - 1];
    if t == |run| - 1 {
      HistoryTable(front, r, h[..|h| - 1]);
      assert AnsweredAt(h, |h| - 1, h[|h| - 1].op, Request(c, k, true), 0);
      assert Answered(h, h[|h| - 1].op, Request(c, k, true), 0);
    } else {
      assert front[..t] == run[..t];
      if last.replica == r {
        GrantInHistory(front, t, r, c, k, h[..|h| - 1]);
        GrantStays(h, |h| - 1, c, k);
      } else {
        GrantInHistory(front, t, r, c, k, h);
      }
    }
  }

  /** A lock that Decide reported as granted, in a run with these histories, is backed. */
  lemma DecidedIsBacked(run: seq<Step>, f: nat, g: Group, c: ClientId, k: Key, grants: map<nat, nat>, e: Entry)
    requires forall r :: 0 <= r < |g| ==> HistoryOf(run, r, g[r])
    requires Decided(run, |g|, c, k, grants) && e.request == Request(c, k, true)
    ensures Backed(f, g, e)
  {
    forall r <- grants ensures r in Granting(g, c, k) {
      GrantInHistory(run, grants[r], r, c, k, g[r]);
    }
    SubsetSize(grants.Keys, Granting(g, c, k));
    assert |grants| == |grants.Keys|;
  }

  /** Nobody released k: no replica was asked to, no unlock of it is settled, and settled locks on it are backed. */
  ghost predicate NeverReleased(f: nat, g: Group, settled: seq<Entry>, k: Key) {
    && (forall h <- g :: NoUnlock(h, k))
    && forall e <- settled :: e.request.key == k && e.status == 0 ==> e.request.lock && Backed(f, g, e)
  }

  /** If k was never released, a fast grant of it leaves no settled lock on it to anybody else. */
  ghost predicate SettledAgrees(f: nat, g: Group, fast: set<nat>, settled: seq<Entry>, op: OpId, c: ClientId, k: Key) {
    && |g| == 2 * f + 1 && fast <= UpTo(|g|) && |fast| >= FastQuorumSize(f)
    && (forall r <- fast :: Answered(g[r], op, Request(c, k, true), 0))
    && NeverReleased(f, g, settled, k)
    ==> OnlyFor(settled, c, k)
  }

  /** A replica that never released k granted it to one client. */
  lemma OneGrantee(h: seq<Operation>, c: ClientId, c': ClientId, k: Key)
    requires NoUnlock(h, k) && Granted(h, c, k) && Granted(h, c', k)
    ensures c == c'
  {
    var op :| Answered(h, op, Request(c, k, true), 0);
    var op' :| Answered(h, op', Request(c', k, true), 0);
    SuccessIsHolders(h, Proposal(op, Request(c, k, true), Reply(k, 0)));
    SuccessIsHolders(h, Proposal(op', Request(c', k, true), Reply(k, 0)));
  }

  /** Outside a fast quorum are at most floor(f/2) replicas, too few to back another lock up to f = 3. */
  lemma SettledAgreesUpToThree(f: nat, g: Group, fast: set<nat>, settled: seq<Entry>, op: OpId, c: ClientId, k: Key)
    requires f <= 3
    ensures SettledAgrees(f, g, fast, settled, op, c, k)
  {
    if |g| == 2 * f + 1 && fast <= UpTo(|g|) && |fast| >= FastQuorumSize(f)
       && (forall r <- fast :: Answered(g[r], op, Request(c, k, true), 0)) && NeverReleased(f, g, settled, k) {
      forall e <- settled | e.request.key == k && e.status == 0
        ensures e.request == Request(c, k, true)
      {
        var backing := Granting(g, e.request.client, k);
        SharedReplica(|g|, fast, backing);
        var r :| r in fast * backing;
        assert g[r] in g;
        OneGrantee(g[r], c, e.request.client, k);
      }
    }
  }

  /** From f = 4 on, two replicas outside the fast quorum can back another client's lock. */
  function SplitGroup(f: nat, k: Key): (g: Group)
    ensures |g| == 2 * f + 1
    ensures forall r :: 0 <= r < |g| ==> g[r] == LockedOnce(if r < FastQuorumSize(f) then 1 else 2, k)
  {
    seq(2 * f + 1, r => LockedOnce(if r < FastQuorumSize(f) then 1 else 2, k))
  }

  function LockedOnce(c: ClientId, k: Key): seq<Operation> {
    [Operation(OpId(c, 0), Request(c, k, true), true)]
  }

  lemma LockedOnceGrants(c: ClientId, k: Key)
    ensures Answered(LockedOnce(c, k), OpId(c, 0), Request(c, k, true), 0) && Granted(LockedOnce(c, k), c, k)
  {
    assert LockedOnce(c, k)[..0] == [];
    assert AnsweredAt(LockedOnce(c, k), 0, OpId(c, 0), Request(c, k, true), 0);
  }

  lemma SplitBacks(f: nat, k: Key)
    requires f >= 4
    ensures |Granting(SplitGroup(f, k), 2, k)| >= 2
  {
    var g := SplitGroup(f, k);
    LockedOnceGrants(2, k);
    var a, b := 2 * f - 1, 2 * f;
    assert g[a] == LockedOnce(2, k) && g[b] == LockedOnce(2, k);
    assert {a, b} <= Granting(g, 2, k) && |{a, b}| == 2;
    SubsetSize({a, b}, Granting(g, 2, k));
  }

  function OtherLock(k: Key): Entry {
    Entry(OpId(2, 0), Request(2, k, true), 0)
  }

  lemma SplitNeverReleased(f: nat, k: Key)
    requires f >= 4
    ensures NeverReleased(f, SplitGroup(f, k), [OtherLock(k)], k)
  {
    SplitBacks(f, k);
    assert Backed(f, SplitGroup(f, k), OtherLock(k));
  }

  lemma SplitGranted(f: nat, k: Key, r: nat)
    requires r in UpTo(FastQuorumSize(f))
    ensures r in UpTo(2 * f + 1) && Answered(SplitGroup(f, k)[r], OpId(1, 0), Request(1, k, true), 0)
  {
    LockedOnceGrants(1, k);
  }

  lemma SplitFromFour(f: nat, k: Key)
    requires f >= 4
    ensures !SettledAgrees(f, SplitGroup(f, k), UpTo(FastQuorumSize(f)), [OtherLock(k)], OpId(1, 0), 1, k)
  {
    SplitNeverReleased(f, k);
    forall r <- UpTo(FastQuorumSize(f))
      ensures r in UpTo(2 * f + 1) && Answered(SplitGroup(f, k)[r], OpId(1, 0), Request(1, k, true), 0)
    {
      SplitGranted(f, k, r);
    }
    assert OtherLock(k) in [OtherLock(k)];
  }

  /** So a settled lock of somebody else is ruled out for all groups of 2f+1 replicas if and only if f <= 3. */
  lemma SettledAgreesIffUpToThree(f: nat)
    ensures (forall g, fast, settled, op, c, k :: SettledAgrees(f, g, fast, settled, op, c, k)) <==> f <= 3
  {
    if f <= 3 {
      forall g, fast, settled, op, c, k ensures SettledAgrees(f, g, fast, settled, op, c, k) {
        SettledAgreesUpToThree(f, g, fast, settled, op, c, k);
      }
    } else {
      SplitFromFour(f, "k");
    }
  }

  /** A fast grant of a key that was never released survives the view change. */
  ghost predicate Survives(v: Change, fast: set<nat>, op: OpId, c: ClientId, k: Key) {
    ViewChange(v) && FastGrant(v, fast, op, c, k) && NeverReleased(v.f, v.group, v.settled, k) ==> HeldBy(v.after, k, c)
  }

  lemma SurvivesUpToThree(v: Change, fast: set<nat>, op: OpId, c: ClientId, k: Key)
    requires v.f <= 3
    ensures Survives(v, fast, op, c, k)
  {
    if ViewChange(v) && FastGrant(v, fast, op, c, k) && NeverReleased(v.f, v.group, v.settled, k) {
      SettledAgreesUpToThree(v.f, v.group, fast, v.settled, op, c, k);
      forall r <- v.quorum ensures NoUnlock(v.group[r], k) {
        assert v.group[r] in v.group;
      }
      FastGrantSurvives(v, fast, op, c, k);
    }
  }

  /** If the quorum's replicas have one history, d has what it answered and is not settled. */
  lemma InDOfSame(v: Change, h: seq<Operation>, p: Proposal)
    requires Sized(v) && forall r <- v.quorum :: v.group[r] == h
    ensures InD(v, p) <==>
              && p.op !in OpsIn(v.settled) && p.majority.key == p.request.key
              && Answered(h, p.op, p.request, p.majority.status)
  {
    var a := Answering(v, p.op, p.request, p.majority.status);
    assert a == (if Answered(h, p.op, p.request, p.majority.status) then v.quorum else {});
  }

  lemma LockedOnceAnswers(c: ClientId, k: Key, op: OpId, request: Request, status: int)
    ensures Answered(LockedOnce(c, k), op, request, status) <==>
              op == OpId(c, 0) && request == Request(c, k, true) && status == 0
  {
    LockedOnceGrants(c, k);
    assert LockedOnce(c, k)[..0] == [];
  }

  /** The split group: the quorum saw client 1's lock, and client 2's is settled. */
  ghost function SplitChange(f: nat, k: Key, order: Order): Change {
    Change(f, SplitGroup(f, k), UpTo(f + 1), [OtherLock(k)], order, [GrantTo(1, 0, k)],
           map[k := 2], map[k := 2])
  }

  lemma SplitIsD(f: nat, k: Key, order: Order)
    ensures Sized(SplitChange(f, k, order)) && IsD(SplitChange(f, k, order))
  {
    var v := SplitChange(f, k, order);
    assert v.settled[0].op == OpId(2, 0);
    assert OpsIn(v.settled) == {OpId(2, 0)};
    forall p: Proposal ensures p in v.d <==> InD(v, p) {
      InDOfSame(v, LockedOnce(1, k), p);
      LockedOnceAnswers(1, k, p.op, p.request, p.majority.status);
    }
  }

  lemma SettledOnceSynced(v: Change, e: Entry)
    requires Lists(v.order) && v.settled == [e] && e.request.lock && e.status == 0
    requires v.before == map[e.request.key := e.request.client]
    ensures Synced(v)
  {
    assert e in v.settled;
    assert KeysIn(v.settled) == {e.request.key};
    assert SettledLock(v.settled, e.request.client, e.request.key);
    LeftWhenOnlyFor(v, e.request.client, e.request.key);
    assert LeftOvers(v.order, v.settled)[e.request.key] == {e.request.client};
  }

  lemma SplitIsViewChange(f: nat, k: Key, order: Order)
    requires Lists(order)
    ensures ViewChange(SplitChange(f, k, order))
  {
    var v := SplitChange(f, k, order);
    SplitIsD(f, k, order);
    SettledOnceSynced(v, OtherLock(k));
    assert MergedTable(v.before, v.d, |v.d|, v.after);
  }

  lemma SplitFastGrant(f: nat, k: Key, order: Order)
    ensures FastGrant(SplitChange(f, k, order), UpTo(FastQuorumSize(f)), OpId(1, 0), 1, k)
  {
    var v := SplitChange(f, k, order);
    forall r <- UpTo(FastQuorumSize(f))
      ensures r in UpTo(2 * f + 1) && Answered(v.group[r], OpId(1, 0), Request(1, k, true), 0)
    {
      SplitGranted(f, k, r);
    }
  }

  lemma SplitDoesNotSurvive(f: nat, k: Key, order: Order)
    requires f >= 4 && Lists(order)
    ensures !Survives(SplitChange(f, k, order), UpTo(FastQuorumSize(f)), OpId(1, 0), 1, k)
  {
    SplitIsViewChange(f, k, order);
    SplitFastGrant(f, k, order);
    SplitNeverReleased(f, k);
  }

  /** So it survives in all groups of 2f+1 replicas if and only if f <= 3, under any listing order. */
  lemma NeverReleasedSurvivesIff(f: nat, order: Order)
    requires Lists(order)
    ensures (forall v: Change, fast, op, c, k :: v.f == f && v.order == order ==> Survives(v, fast, op, c, k)) <==> f <= 3
  {
    if f <= 3 {
      forall v: Change, fast, op, c, k | v.f == f && v.order == order ensures Survives(v, fast, op, c, k) {
        SurvivesUpToThree(v, fast, op, c, k);
      }
    } else {
      SplitDoesNotSurvive(f, "k", order);
    }
  }

  // ---------------------------------------------------------------- inputs that show the limits

  function LockBy(c: ClientId, n: nat, k: Key): Operation {
    Operation(OpId(c, n), Request(c, k, true), true)
  }

  function GrantTo(c: ClientId, n: nat, k: Key): Proposal {
    Proposal(OpId(c, n), Request(c, k, true), Reply(k, 0))
  }

  /** Three replicas with one history; the first two are the quorum. */
  function Trio(h: seq<Operation>, settled: seq<Entry>, order: Order, d: seq<Proposal>, before: Table, after: Table)
    : Change
  {
    Change(1, [h, h, h], {0, 1}, settled, order, d, before, after)
  }

  lemma InDOfTrio(v: Change, h: seq<Operation>, p: Proposal)
    requires v == Trio(h, v.settled, v.order, v.d, v.before, v.after)
    ensures Sized(v)
    ensures InD(v, p) <==>
              && p.op !in OpsIn(v.settled) && p.majority.key == p.request.key
              && Answered(h, p.op, p.request, p.majority.status)
  {
    assert |v.quorum| == 2;
    InDOfSame(v, h, p);
  }

  lemma TrioGrant(v: Change, h: seq<Operation>, t: nat, c: ClientId, n: nat, k: Key)
    requires v == Trio(h, v.settled, v.order, v.d, v.before, v.after)
    requires AnsweredAt(h, t, OpId(c, n), Request(c, k, true), 0) && OpId(c, n) !in OpsIn(v.settled)
    ensures FastGrant(v, {0, 1, 2}, OpId(c, n), c, k)
  {
    assert |{0, 1, 2}| == 3;
    assert Answered(h, OpId(c, n), Request(c, k, true), 0);
    forall e <- v.settled ensures e.op != OpId(c, n) {
      assert e.op in OpsIn(v.settled);
    }
  }

  function Reused(k: Key): seq<Operation> {
    [LockBy(1, 0, k), Operation(OpId(1, 1), Request(1, k, false), false), LockBy(2, 0, k)]
  }

  ghost function ReusedChange(k: Key, order: Order): Change {
    Trio(Reused(k), [Entry(OpId(1, 1), Request(1, k, false), 0)], order, [GrantTo(1, 0, k), GrantTo(2, 0, k)],
         map[], map[k := 1])
  }

  lemma ReusedReplay(k: Key)
    ensures var h := Reused(k);
            Replay(h[..0]) == map[] && Replay(h[..1]) == map[k := 1] && Replay(h[..2]) == map[] && Replay(h) == map[k := 2]
  {
    var h := Reused(k);
    assert h[..1][..0] == h[..0] == [] && h[..2][..1] == h[..1] && h[..3] == h;
    assert Replay(h[..1]) == map[k := 1];
    assert Replay(h[..2]) == map[];
  }

  lemma ReusedD(k: Key, order: Order, p: Proposal)
    ensures Sized(ReusedChange(k, order))
    ensures p in ReusedChange(k, order).d <==> InD(ReusedChange(k, order), p)
  {
    var v, h := ReusedChange(k, order), Reused(k);
    InDOfTrio(v, h, p);
    ReusedReplay(k);
    assert AnsweredAt(h, 0, OpId(1, 0), Request(1, k, true), 0) && AnsweredAt(h, 2, OpId(2, 0), Request(2, k, true), 0);
    if InD(v, p) {
      var t :| AnsweredAt(h, t, p.op, p.request, p.majority.status);
      assert t == 0 || t == 2;
    }
    assert v.settled[0].op == OpId(1, 1);
    assert OpsIn(v.settled) == {OpId(1, 1)};
  }

  lemma ReusedSynced(k: Key, order: Order)
    requires Lists(order)
    ensures Synced(ReusedChange(k, order))
  {
    var v := ReusedChange(k, order);
    NothingListed(order);
    assert LockedIn(v.settled, k) == {};
    assert KeysIn(v.settled) == {k};
    assert LeftOvers(order, v.settled)[k] == {};
  }

  lemma ReusedIsD(k: Key, order: Order)
    ensures Sized(ReusedChange(k, order)) && IsD(ReusedChange(k, order))
  {
    var v := ReusedChange(k, order);
    forall p: Proposal ensures Sized(v) && (p in v.d <==> InD(v, p)) {
      ReusedD(k, order, p);
    }
  }

  lemma ReusedMerged(k: Key, order: Order)
    ensures var v := ReusedChange(k, order);
            MergedTable(v.before, v.d, |v.d|, v.after) && Verdict(v.before, v.d, 1) == Reply(k, -1)
  {
    var v := ReusedChange(k, order);
    assert Succeeds(v.d, 0, k) && WinsKey(v.before, v.d, 0, k);
  }

  /** Client 1 locked and released k, then client 2 was granted it by everyone. Where the release is settled
      and the locks are not, the merge gives k back to client 1 and turns client 2 down. */
  lemma ReleasedLockComesBack(k: Key, order: Order)
    requires Lists(order)
    ensures var v := ReusedChange(k, order);
            && ViewChange(v) && FastGrant(v, {0, 1, 2}, OpId(2, 0), 2, k) && HeldBy(Replay(Reused(k)), k, 2)
            && HeldBy(v.after, k, 1) && Verdict(v.before, v.d, 1) == Reply(k, -1)
  {
    var v := ReusedChange(k, order);
    ReusedSynced(k, order);
    ReusedIsD(k, order);
    ReusedMerged(k, order);
    ReusedReplay(k);
    assert OpsIn(v.settled) == {OpId(1, 1)};
    TrioGrant(v, Reused(k), 2, 2, 0, k);
  }

  /** Client 1 locks k twice. */
  function Twice(k: Key): seq<Operation> {
    [LockBy(1, 0, k), LockBy(1, 1, k)]
  }

  lemma TwiceReplay(k: Key)
    ensures Replay(Twice(k)[..0]) == map[] && Replay(Twice(k)[..1]) == map[k := 1]
    ensures AnsweredAt(Twice(k), 0, OpId(1, 0), Request(1, k, true), 0)
    ensures AnsweredAt(Twice(k), 1, OpId(1, 1), Request(1, k, true), 0)
  {
    assert Twice(k)[..1][..0] == Twice(k)[..0] == [];
    assert Replay(Twice(k)[..1]) == map[k := 1];
  }

  lemma TwiceD(k: Key, v: Change, p: Proposal)
    requires v == Trio(Twice(k), v.settled, v.order, v.d, v.before, v.after)
    ensures Sized(v)
    ensures InD(v, p) <==> p.op !in OpsIn(v.settled) && p in [GrantTo(1, 0, k), GrantTo(1, 1, k)]
  {
    InDOfTrio(v, Twice(k), p);
    TwiceReplay(k);
    if Answered(Twice(k), p.op, p.request, p.majority.status) {
      var t :| AnsweredAt(Twice(k), t, p.op, p.request, p.majority.status);
      assert t == 0 || t == 1;
    }
  }

  ghost function RestoredChange(k: Key, order: Order): Change {
    Trio(Twice(k), [Entry(OpId(1, 0), Request(1, k, true), 0)], order, [GrantTo(1, 1, k)], map[k := 1], map[k := 1])
  }

  /** The first lock is settled, so Sync restores it, and the second, granted by everyone, is turned down. */
  lemma RestoredGrantIsRejected(k: Key, order: Order)
    requires Lists(order)
    ensures var v := RestoredChange(k, order);
            && ViewChange(v) && FastGrant(v, {0, 1, 2}, OpId(1, 1), 1, k)
            && HeldBy(v.before, k, 1) && Verdict(v.before, v.d, 0) == Reply(k, -1)
  {
    var v := RestoredChange(k, order);
    assert v.settled[0].op == OpId(1, 0);
    assert OpsIn(v.settled) == {OpId(1, 0)};
    forall p: Proposal ensures Sized(v) && (p in v.d <==> InD(v, p)) {
      TwiceD(k, v, p);
    }
    TwiceReplay(k);
    TrioGrant(v, Twice(k), 1, 1, 1, k);
    SettledOnceSynced(v, v.settled[0]);
  }

  ghost function FreeChange(k: Key, order: Order): Change {
    Trio(Twice(k), [], order, [GrantTo(1, 0, k), GrantTo(1, 1, k)], map[], map[k := 1])
  }

  /** Nothing is settled, so k is free after Sync, and the second lock is turned down because of the first. */
  lemma LowerGrantRejects(k: Key, order: Order)
    requires Lists(order)
    ensures var v := FreeChange(k, order);
            && ViewChange(v) && FastGrant(v, {0, 1, 2}, OpId(1, 1), 1, k)
            && Free(v.before, k) && Verdict(v.before, v.d, 1) == Reply(k, -1)
  {
    var v := FreeChange(k, order);
    forall p: Proposal ensures Sized(v) && (p in v.d <==> InD(v, p)) {
      TwiceD(k, v, p);
    }
    TwiceReplay(k);
    TrioGrant(v, Twice(k), 1, 1, 1, k);
    assert Synced(v);
    assert Succeeds(v.d, 0, k) && WinsKey(v.before, v.d, 0, k);
  }
}
