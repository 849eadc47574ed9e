/**
 A lock server replica (src/lockserver/server.cc): the lock table, the two upcalls that
 execute operations, the rebuild from a record, and the merge at a view change.
 */
module LockServer {

  type Key = string
  type ClientId = nat
  type Table = map<Key, ClientId>

  /** lock is true for a lock request and false for an unlock request. */
  datatype Request = Request(client: ClientId, key: Key, lock: bool)

  datatype Reply = Reply(key: Key, status: int)

  /** Operation ids are ordered by client, then by the client's request number. */
  datatype OpId = OpId(client: ClientId, number: nat)

  predicate Before(a: OpId, b: OpId) {
    a.client < b.client || (a.client == b.client && a.number < b.number)
  }

  // ---------------------------------------------------------------- executing operations

  predicate Free(locks: Table, k: Key) {
    k !in locks
  }

  predicate HeldBy(locks: Table, k: Key, c: ClientId) {
    k in locks && locks[k] == c
  }

  function ConsensusStatus(locks: Table, r: Request): int {
    if r.lock then (if Free(locks, r.key) || HeldBy(locks, r.key, r.client) then 0 else -1)
    else if HeldBy(locks, r.key, r.client) then 0 else -2
  }

  function AfterConsensus(locks: Table, r: Request): Table {
    if r.lock then (if Free(locks, r.key) then locks[r.key := r.client] else locks)
    else AfterUnlock(locks, r)
  }

  function AfterUnlock(locks: Table, r: Request): Table {
    if HeldBy(locks, r.key, r.client) then locks - {r.key} else locks
  }

  /** Inconsistent operations: an unlock is executed, a lock request is ignored. */
  function AfterInconsistent(locks: Table, r: Request): Table {
    if r.lock then locks else AfterUnlock(locks, r)
  }

  /** A lock is answered with 0 exactly if the client then has the key, and with -1 otherwise; an unlock with 0
      exactly if the client had it, which it then does not, and with -2 otherwise. No other key changes. */
  lemma StatusMeans(locks: Table, r: Request, k: Key)
    ensures var after, status := AfterConsensus(locks, r), ConsensusStatus(locks, r);
            && (r.lock ==> status == if HeldBy(after, r.key, r.client) then 0 else -1)
            && (!r.lock ==> status == if HeldBy(locks, r.key, r.client) then 0 else -2)
            && (!r.lock ==> !HeldBy(after, r.key, r.client))
            && (status != 0 ==> after == locks)
            && (k != r.key ==> (k in after <==> k in locks) && (k in locks ==> after[k] == locks[k]))
  {}

  // ---------------------------------------------------------------- the record

  /** A record entry: the request and the status in its stored result. The result of an
      inconsistent operation is the empty string, whose status reads as the default 0. */
  datatype Entry = Entry(op: OpId, request: Request, status: int)

  function LockedIn(record: seq<Entry>, k: Key): set<ClientId> {
    set e | e in record && e.request.key == k && e.request.lock && e.status == 0 :: e.request.client
  }

  function UnlockedIn(record: seq<Entry>, k: Key): set<ClientId> {
    set e | e in record && e.request.key == k && !e.request.lock && e.status == 0 :: e.request.client
  }

  function KeysIn(record: seq<Entry>): set<Key> {
    set e | e in record :: e.request.key
  }

  /** Who, by the record, locked k and did not unlock it. */
  function StillLocked(record: seq<Entry>, k: Key): set<ClientId> {
    LockedIn(record, k) - UnlockedIn(record, k)
  }

  datatype KeyLockInfo = KeyLockInfo(locked: set<ClientId>, unlocked: set<ClientId>)

  // ---------------------------------------------------------------- set_difference

  predicate Ascending(s: seq<nat>) {
    forall i, j :: 0 <= i < j < |s| ==> s[i] < s[j]
  }

  function Elements(s: seq<nat>): set<nat> {
    set x | x in s
  }

  /** What std::set_difference copies out of two ranges, whatever their order. */
  function MergeWalk(a: seq<nat>, b: seq<nat>): set<nat>
    decreases |a| + |b|
  {
    if a == [] then {}
    else if b == [] then Elements(a)
    else if a[0] < b[0] then {a[0]} + MergeWalk(a[1..], b)
    else if b[0] < a[0] then MergeWalk(a, b[1..])
    else MergeWalk(a[1..], b[1..])
  }

  /** std::set_difference with its two moving iterators. */
  method SetDifference(a: seq<nat>, b: seq<nat>) returns (diff: set<nat>)
    ensures diff == MergeWalk(a, b)
  {
    diff := {};
    var i, j := 0, 0;
    while i < |a| && j < |b|
      invariant 0 <= i <= |a| && 0 <= j <= |b|
      invariant diff + MergeWalk(a[i..], b[j..]) == MergeWalk(a, b)
      decreases |a| - i + |b| - j
    {
      assert a[i..][1..] == a[i + 1..] && b[j..][1..] == b[j + 1..];
      if a[i] < b[j] {
        diff := diff + {a[i]};
        i := i + 1;
      } else {
        if !(b[j] < a[i]) {
          i := i + 1;
        }
        j := j + 1;
      }
    }
    diff := diff + Elements(a[i..]);
  }

  /** On ascending ranges the walk is the set difference. */
  lemma {:induction false} AscendingWalk(a: seq<nat>, b: seq<nat>)
    requires Ascending(a) && Ascending(b)
    ensures MergeWalk(a, b) == Elements(a) - Elements(b)
    decreases |a| + |b|
  {
    if a != [] && b != [] {
      assert a == [a[0]] + a[1..] && b == [b[0]] + b[1..];
      if a[0] < b[0] {
        AscendingWalk(a[1..], b);
      } else if b[0] < a[0] {
        AscendingWalk(a, b[1..]);
      } else {
        AscendingWalk(a[1..], b[1..]);
      }
    }
  }

  // ---------------------------------------------------------------- the walk by positions

  /** With the second range at p, x is copied out: what is smaller is passed, and what is next, if anything,
      is larger. */
  predicate CopiedBy(x: nat, b: seq<nat>, p: nat, next: nat) {
    && p <= next <= |b| && (forall k :: p <= k < next ==> b[k] < x)
    && (next < |b| ==> x < b[next])
  }

  /** Or it meets its equal, which is passed with it. */
  predicate MetBy(x: nat, b: seq<nat>, p: nat, next: nat) {
    && p < next <= |b| && (forall k :: p <= k < next - 1 ==> b[k] < x)
    && b[next - 1] == x
  }

  /** pos[i] is how much of b has been passed when a[i] is looked at. */
  ghost predicate Positions(a: seq<nat>, b: seq<nat>, pos: seq<nat>) {
    && |pos| == |a| + 1 && pos[0] == 0
    && forall i :: 0 <= i < |a| ==> CopiedBy(a[i], b, pos[i], pos[i + 1]) || MetBy(a[i], b, pos[i], pos[i + 1])
  }

  /** The members copied out from the i-th on. */
  ghost function CopiedFrom(a: seq<nat>, b: seq<nat>, pos: seq<nat>, i: nat): set<nat>
    requires |pos| == |a| + 1
  {
    set k | i <= k < |a| && CopiedBy(a[k], b, pos[k], pos[k + 1]) :: a[k]
  }

  lemma {:induction false} PassSmaller(a: seq<nat>, b: seq<nat>, p: nat, next: nat)
    requires a != [] && p <= next <= |b| && forall k :: p <= k < next ==> b[k] < a[0]
    ensures MergeWalk(a, b[p..]) == MergeWalk(a, b[next..])
    decreases next - p
  {
    if p < next {
      assert b[p..][1..] == b[p + 1..];
      PassSmaller(a, b, p + 1, next);
    }
  }

  lemma {:induction false} WalkFrom(a: seq<nat>, b: seq<nat>, pos: seq<nat>, i: nat)
    requires Positions(a, b, pos) && i <= |a| && pos[i] <= |b|
    ensures MergeWalk(a[i..], b[pos[i]..]) == CopiedFrom(a, b, pos, i)
    decreases |a| - i
  {
    if i < |a| {
      var p, next := pos[i], pos[i + 1];
      assert a[i..][1..] == a[i + 1..];
      WalkFrom(a, b, pos, i + 1);
      if CopiedBy(a[i], b, p, next) {
        PassSmaller(a[i..], b, p, next);
        assert CopiedFrom(a, b, pos, i) == {a[i]} + CopiedFrom(a, b, pos, i + 1);
        if next == |b| {
          RestIsCopied(a[i + 1..]);
          assert a[i..] == [a[i]] + a[i + 1..];
        }
      } else {
        PassSmaller(a[i..], b, p, next - 1);
        assert b[next - 1..][1..] == b[next..];
        assert CopiedFrom(a, b, pos, i) == CopiedFrom(a, b, pos, i + 1);
      }
    }
  }

  lemma RestIsCopied(a: seq<nat>)
    ensures MergeWalk(a, []) == Elements(a)
  {}

  /** For any two ranges: a member is copied out exactly when, from where the second range stands, everything
      smaller can be passed without meeting its equal. */
  lemma WalkByPositions(a: seq<nat>, b: seq<nat>, pos: seq<nat>)
    requires Positions(a, b, pos)
    ensures MergeWalk(a, b) == CopiedFrom(a, b, pos, 0)
  {
    assert a[0..] == a && b[0..] == b;
    WalkFrom(a, b, pos, 0);
  }

  /** Such positions exist. */
  lemma {:induction false} PositionsUpTo(a: seq<nat>, b: seq<nat>, n: nat) returns (pos: seq<nat>)
    requires n <= |a|
    ensures Positions(a[..n], b, pos) && pos[n] <= |b|
    decreases n
  {
    if n == 0 {
      pos := [0];
    } else {
      pos := PositionsUpTo(a, b, n - 1);
      var next := NextPosition(a[n - 1], b, pos[n - 1]);
      assert forall i :: 0 <= i < n - 1 ==> a[..n][i] == a[..n - 1][i];
      pos := pos + [next];
    }
  }

  lemma {:induction false} NextPosition(x: nat, b: seq<nat>, p: nat) returns (next: nat)
    requires p <= |b|
    ensures CopiedBy(x, b, p, next) || MetBy(x, b, p, next)
    ensures next <= |b|
    decreases |b| - p
  {
    if p == |b| || x < b[p] {
      next := p;
    } else if b[p] == x {
      next := p + 1;
    } else {
      next := NextPosition(x, b, p + 1);
    }
  }

  /** A range taken from itself leaves nothing, in whatever order it is. */
  lemma WalkOfItself(a: seq<nat>)
    ensures MergeWalk(a, a) == {}
  {
    var pos := seq(|a| + 1, i => i);
    WalkByPositions(a, a, pos);
  }

  /** What is not in the second range is always copied out, and nothing but members of the first is. */
  lemma WalkLeavesNobodyOut(a: seq<nat>, b: seq<nat>)
    ensures Elements(a) - Elements(b) <= MergeWalk(a, b) <= Elements(a)
  {
    var pos := PositionsUpTo(a, b, |a|);
    assert a[..|a|] == a;
    WalkByPositions(a, b, pos);
    forall x | x in Elements(a) - Elements(b)
      ensures x in CopiedFrom(a, b, pos, 0)
    {
      var i :| 0 <= i < |a| && a[i] == x;
      assert CopiedBy(a[i], b, pos[i], pos[i + 1]);
    }
  }

  /** How hash sets list their members: each exactly once, in some order. */
  type Order = set<ClientId> -> seq<ClientId>

  ghost predicate Lists(order: Order) {
    forall s :: Elements(order(s)) == s && NoRepeats(order(s))
  }

  predicate NoRepeats(s: seq<nat>) {
    forall i, j :: 0 <= i < j < |s| ==> s[i] != s[j]
  }

  ghost predicate AlwaysAscending(order: Order) {
    forall s :: Ascending(order(s))
  }

  /** A member that comes after a larger one is copied out although it is in the other range. */
  lemma {:induction false} DescentIsCopied(a: seq<nat>, i: nat, y: nat)
    requires i < |a| && a[i] > y && y in a[i..] && forall j :: 0 <= j <= i ==> a[j] != y
    ensures y in MergeWalk(a, [y])
  {
    if a[0] < y {
      assert a[1..][i - 1..] == a[i..];
      DescentIsCopied(a[1..], i - 1, y);
    } else {
      assert [y][1..] == [];
      var k :| 0 <= k < |a[i..]| && a[i..][k] == y;
      assert a[i + k] == y;
    }
  }

  /** The walk is the set difference for all sets if and only if sets are always listed in ascending
      order. */
  lemma WalkIsDifferenceIffAscending(order: Order)
    requires Lists(order)
    ensures (forall s, t :: MergeWalk(order(s), order(t)) == s - t) <==> AlwaysAscending(order)
  {
    if AlwaysAscending(order) {
      forall s, t
        ensures MergeWalk(order(s), order(t)) == s - t
      {
        AscendingWalk(order(s), order(t));
      }
    } else {
      var s, y := DescentIn(order);
      assert y !in s - {y};
    }
  }

  /** An order that is not ascending copies a member y of some set when {y} is taken away. */
  lemma DescentIn(order: Order) returns (s: set<ClientId>, y: ClientId)
    requires Lists(order) && !AlwaysAscending(order)
    ensures y in MergeWalk(order(s), order({y}))
  {
    s :| !Ascending(order(s));
    var a := order(s);
    var i, j :| 0 <= i < j < |a| && a[i] >= a[j];
    y := a[j];
    assert a[i..][j - i] == y;
    DescentIsCopied(a, i, y);
    Singleton(order({y}), y);
  }

  lemma Singleton(a: seq<nat>, y: nat)
    requires Elements(a) == {y} && NoRepeats(a)
    ensures a == [y]
  {
    assert y in Elements(a);
    forall i | 0 <= i < |a|
      ensures a[i] == y
    {
      assert a[i] in Elements(a);
    }
    if |a| > 1 {
      FirstTwoDiffer(a);
    }
  }

  lemma FirstTwoDiffer(a: seq<nat>)
    requires NoRepeats(a) && |a| > 1
    ensures a[0] != a[1]
  {}

  /** Whom Sync finds left over for a key. */
  function LeftOver(order: Order, record: seq<Entry>, k: Key): set<ClientId> {
    MergeWalk(order(LockedIn(record, k)), order(UnlockedIn(record, k)))
  }

  /** In whatever order hash sets are listed, Sync leaves out nobody who locked and did not unlock, finds only
      clients that locked, and finds nobody when everyone who locked the key has unlocked it and nobody else. */
  lemma SyncLeavesNobodyOut(order: Order, record: seq<Entry>, k: Key)
    requires Lists(order)
    ensures StillLocked(record, k) <= LeftOver(order, record, k) <= LockedIn(record, k)
    ensures LockedIn(record, k) == UnlockedIn(record, k) ==> LeftOver(order, record, k) == {}
  {
    WalkLeavesNobodyOut(order(LockedIn(record, k)), order(UnlockedIn(record, k)));
    WalkOfItself(order(LockedIn(record, k)));
  }

  /** Of two clients that locked the smaller one has unlocked. With the larger one listed first, both are found. */
  lemma ReleasedIsFound(k: Key, order: Order)
    requires Lists(order) && order({1, 2}) == [2, 1] && order({1}) == [1]
    ensures var record := RecordWith(k, [1, 2], [1]);
            StillLocked(record, k) == {2} && LeftOver(order, record, k) == {1, 2}
  {
    RecordWithMembers(k, [1, 2], [1]);
    assert Elements([1, 2]) == {1, 2} && Elements([1]) == {1};
    assert Positions([2, 1], [1], [0, 1, 1]);
    WalkByPositions([2, 1], [1], [0, 1, 1]);
    var pos := [0, 1, 1];
    assert CopiedBy([2, 1][0], [1], pos[0], pos[1]) && CopiedBy([2, 1][1], [1], pos[1], pos[2]);
    assert 2 in CopiedFrom([2, 1], [1], pos, 0) && 1 in CopiedFrom([2, 1], [1], pos, 0);
  }

  /** For every key of the record. */
  function LeftOvers(order: Order, record: seq<Entry>): map<Key, set<ClientId>> {
    map k | k in KeysIn(record) :: LeftOver(order, record, k)
  }

  /** What Sync asserts. */
  predicate AtMostOneEach(left: map<Key, set<ClientId>>) {
    forall k <- left :: |left[k]| <= 1
  }

  /** A record in which the clients of s have locked a key and those of t have unlocked it. */
  function RecordWith(k: Key, s: seq<ClientId>, t: seq<ClientId>): seq<Entry> {
    seq(|s|, i requires 0 <= i < |s| => Entry(OpId(s[i], 0), Request(s[i], k, true), 0))
    + seq(|t|, i requires 0 <= i < |t| => Entry(OpId(t[i], 1), Request(t[i], k, false), 0))
  }

  lemma RecordWithMembers(k: Key, s: seq<ClientId>, t: seq<ClientId>)
    ensures LockedIn(RecordWith(k, s, t), k) == Elements(s) && UnlockedIn(RecordWith(k, s, t), k) == Elements(t)
  {
    var r := RecordWith(k, s, t);
    forall i | 0 <= i < |s|
      ensures s[i] in LockedIn(r, k)
    {
      assert r[i] == Entry(OpId(s[i], 0), Request(s[i], k, true), 0);
    }
    forall i | 0 <= i < |t|
      ensures t[i] in UnlockedIn(r, k)
    {
      assert r[|s| + i] == Entry(OpId(t[i], 1), Request(t[i], k, false), 0);
    }
  }

  /** So Sync finds, in every record, who locked and did not unlock, if and only if hash sets are always
      listed in ascending order. */
  lemma SyncIsRightIffAscending(order: Order)
    requires Lists(order)
    ensures (forall record, k :: LeftOver(order, record, k) == StillLocked(record, k)) <==> AlwaysAscending(order)
  {
    if AlwaysAscending(order) {
      forall record, k
        ensures LeftOver(order, record, k) == StillLocked(record, k)
      {
        AscendingWalk(order(LockedIn(record, k)), order(UnlockedIn(record, k)));
      }
    } else {
      var s, y := DescentIn(order);
      var r := RecordWith("", order(s), [y]);
      RecordWithMembers("", order(s), [y]);
      assert Elements([y]) == {y};
      assert y in LeftOver(order, r, "") && y !in StillLocked(r, "");
    }
  }

  // ---------------------------------------------------------------- the replica

  /** A lock request of d with the result most replicas gave it. */
  datatype Proposal = Proposal(op: OpId, request: Request, majority: Reply)

  datatype Pending = Pending(op: OpId, request: Request)

  /** d lists the proposals in the order of a map keyed by operation id. */
  ghost predicate InOrder(d: seq<Proposal>) {
    forall i, j :: 0 <= i < j < |d| ==> Before(d[i].op, d[j].op)
  }

  ghost predicate PendingInOrder(u: seq<Pending>) {
    forall i, j :: 0 <= i < j < |u| ==> Before(u[i].op, u[j].op)
  }

  ghost predicate Succeeds(d: seq<Proposal>, i: nat, k: Key) {
    i < |d| && d[i].majority.status == 0 && d[i].majority.key == k
  }

  /** Proposal i is granted: its majority result is success, its key was free before the
      merge, and no proposal with a lower id succeeded on that key. */
  ghost predicate Wins(locks: Table, d: seq<Proposal>, i: nat)
    requires i < |d|
  {
    && d[i].majority.status == 0
    && Free(locks, d[i].majority.key)
    && forall j: nat :: j < i ==> !Succeeds(d, j, d[i].majority.key)
  }

  ghost function Verdict(locks: Table, d: seq<Proposal>, i: nat): Reply
    requires i < |d|
  {
    if d[i].majority.status != 0 || Wins(locks, d, i) then d[i].majority
    else Reply(d[i].majority.key, -1)
  }

  ghost predicate WinsKey(locks: Table, d: seq<Proposal>, i: nat, k: Key) {
    i < |d| && d[i].majority.key == k && Wins(locks, d, i)
  }

  /** The table after the first n proposals: old locks, and each winner's lock. */
  ghost predicate MergedTable(before: Table, d: seq<Proposal>, n: nat, after: Table)
    requires n <= |d|
  {
    && (forall k <- before :: HeldBy(after, k, before[k]))
    && (forall i :: 0 <= i < n && Wins(before, d, i) ==> HeldBy(after, d[i].majority.key, d[i].request.client))
    && (forall k <- after :: k in before || exists i: nat :: i < n && WinsKey(before, d, i, k))
  }

  /** Where any proposal succeeds on a free key, the first that does so wins it. */
  lemma {:induction false} FirstSuccessWins(locks: Table, d: seq<Proposal>, i: nat, k: Key) returns (w: nat)
    requires Succeeds(d, i, k) && Free(locks, k)
    ensures w <= i && WinsKey(locks, d, w, k)
  {
    if j: nat :| j < i && Succeeds(d, j, k) {
      w := FirstSuccessWins(locks, d, j, k);
    } else {
      w := i;
    }
  }

  /** During the merge a successful proposal finds its key free exactly when it wins. */
  lemma FreeMeansWins(before: Table, d: seq<Proposal>, n: nat, after: Table)
    requires n < |d| && MergedTable(before, d, n, after) && d[n].majority.status == 0
    ensures Free(after, d[n].majority.key) <==> Wins(before, d, n)
  {
    var k := d[n].majority.key;
    if Free(after, k) {
      if j: nat :| j < n && Succeeds(d, j, k) {
        var w := FirstSuccessWins(before, d, j, k);
      }
    } else if Wins(before, d, n) {
      var i: nat :| i < n && WinsKey(before, d, i, k);
      assert Succeeds(d, i, k);
    }
  }

  lemma MergeStep(before: Table, d: seq<Proposal>, n: nat, after: Table)
    requires n < |d| && MergedTable(before, d, n, after)
    ensures var p := d[n];
            var next := if p.majority.status == 0 && Free(after, p.majority.key)
                        then after[p.majority.key := p.request.client] else after;
            MergedTable(before, d, n + 1, next)
  {
    var p := d[n];
    if p.majority.status == 0 {
      FreeMeansWins(before, d, n, after);
      if Free(after, p.majority.key) {
        var next := after[p.majority.key := p.request.client];
        assert WinsKey(before, d, n, p.majority.key);
        forall k <- next ensures k in before || exists i: nat :: i < n + 1 && WinsKey(before, d, i, k) {
          if k != p.majority.key && k !in before {
            var i: nat :| i < n && WinsKey(before, d, i, k);
          }
        }
      }
    }
  }

  ghost function OpsOf(d: seq<Proposal>): set<OpId> {
    set p | p in d :: p.op
  }

  ghost function PendingOps(u: seq<Pending>): set<OpId> {
    set p | p in u :: p.op
  }

  class Replica {
    var locks: Table

    constructor ()
      ensures locks == map[]
    {
      locks := map[];
    }

    method ExecInconsistentUpcall(r: Request)
      modifies this
      ensures locks == AfterInconsistent(old(locks), r)
    {
      if r.lock {
        return;
      }
      if r.key in locks && r.client == locks[r.key] {
        locks := locks - {r.key};
      }
    }

    method ExecConsensusUpcall(r: Request) returns (reply: Reply)
      modifies this
      ensures reply == Reply(r.key, ConsensusStatus(old(locks), r))
      ensures locks == AfterConsensus(old(locks), r)
    {
      var status := 0;
      if r.lock {
        if r.key !in locks {
          locks := locks[r.key := r.client];
        } else if locks[r.key] != r.client {
          status := -1;
        }
      } else {
        if r.key !in locks {
          status := -2;
        } else if locks[r.key] != r.client {
          status := -2;
        } else {
          locks := locks - {r.key};
        }
      }
      reply := Reply(r.key, status);
    }

    /** Sync; ok is false when the assertion on the size of the difference fails. */
    method Sync(record: seq<Entry>, order: Order) returns (ok: bool)
      modifies this
      ensures ok <==> AtMostOneEach(LeftOvers(order, record))
      ensures ok ==> Rebuilt(LeftOvers(order, record), KeysIn(record), locks)
    {
      locks := map[];
      var info := Collect(record);
      ghost var left := LeftOvers(order, record);
      var todo := info.Keys;
      while todo != {}
        invariant todo <= info.Keys
        invariant forall k :: k in info && k !in todo ==> |left[k]| <= 1
        invariant Rebuilt(left, info.Keys - todo, locks)
        decreases |todo|
      {
        var key :| key in todo;
        var diff := SetDifference(order(info[key].locked), order(info[key].unlocked));
        assert diff == left[key];
        if |diff| > 1 {
          return false;
        }
        ghost var before := locks;
        if |diff| == 1 {
          var client :| client in diff;
          OnlyMember(diff, client);
          locks := locks[key := client];
        }
        RebuildStep(left, info.Keys - todo, before, key, locks);
        todo := todo - {key};
        assert info.Keys - todo == info.Keys - (todo + {key}) + {key};
      }
      return true;
    }

    /** Merge: proposals of d in the order of their ids, then reject everything in u. */
    method Merge(d: seq<Proposal>, u: seq<Pending>) returns (results: map<OpId, Reply>)
      requires InOrder(d) && PendingInOrder(u)
      modifies this
      ensures MergedTable(old(locks), d, |d|, locks)
      ensures results.Keys == OpsOf(d) + PendingOps(u)
      ensures forall p <- u :: results[p.op] == Reply(p.request.key, -1)
      ensures forall i :: 0 <= i < |d| && d[i].op !in PendingOps(u) ==>
                results[d[i].op] == Verdict(old(locks), d, i)
    {
      var decided := MergeProposals(d);
      results := decided;
      for i := 0 to |u|
        invariant results.Keys == decided.Keys + PendingOps(u[..i])
        invariant forall o <- decided :: o !in PendingOps(u[..i]) ==> results[o] == decided[o]
        invariant forall j :: 0 <= j < i ==> results[u[j].op] == Reply(u[j].request.key, -1)
      {
        results := results[u[i].op := Reply(u[i].request.key, -1)];
        assert u[..i + 1] == u[..i] + [u[i]];
      }
      assert u[..|u|] == u;
    }

    method MergeProposals(d: seq<Proposal>) returns (results: map<OpId, Reply>)
      requires InOrder(d)
      modifies this
      ensures MergedTable(old(locks), d, |d|, locks)
      ensures results.Keys == OpsOf(d)
      ensures forall i :: 0 <= i < |d| ==> results[d[i].op] == Verdict(old(locks), d, i)
    {
      results := map[];
      ghost var before := locks;
      for i := 0 to |d|
        invariant MergedTable(before, d, i, locks)
        invariant results.Keys == OpsOf(d[..i])
        invariant forall j :: 0 <= j < i ==> d[j].op in results && results[d[j].op] == Verdict(before, d, j)
      {
        var p := d[i];
        MergeStep(before, d, i, locks);
        if p.majority.status == 0 {
          FreeMeansWins(before, d, i, locks);
          if p.majority.key !in locks {
            locks := locks[p.majority.key := p.request.client];
            results := results[p.op := p.majority];
          } else {
            results := results[p.op := Reply(p.majority.key, -1)];
          }
        } else {
          results := results[p.op := p.majority];
        }
        assert d[..i + 1] == d[..i] + [d[i]];
      }
      assert d[..|d|] == d;
    }
  }

  /** The table holds, for the keys done, exactly the clients that are left alone. */
  ghost predicate Rebuilt(left: map<Key, set<ClientId>>, done: set<Key>, locks: Table) {
    && done <= left.Keys
    && (forall k <- locks :: k in done && left[k] == {locks[k]})
    && (forall k <- done :: |left[k]| == 1 ==> k in locks)
  }

  lemma RebuildStep(left: map<Key, set<ClientId>>, done: set<Key>, before: Table, key: Key, after: Table)
    requires Rebuilt(left, done, before) && key in left && key !in done && |left[key]| <= 1
    requires if |left[key]| == 1 then
               key in after && left[key] == {after[key]} && after == before[key := after[key]]
             else after == before
    ensures Rebuilt(left, done + {key}, after)
  {
  }

  lemma OnlyMember(s: set<ClientId>, c: ClientId)
    requires |s| == 1 && c in s
    ensures s == {c}
  {
    if x :| x in s && x != c {
      assert |{x, c}| == 2 && {x, c} <= s;
      SubsetSize({x, c}, s);
    }
  }

  lemma {:induction false} SubsetSize<T>(a: set<T>, b: set<T>)
    requires a <= b
    ensures |a| <= |b|
    decreases a
  {
    if a != {} {
      var x :| x in a;
      SubsetSize(a - {x}, b - {x});
    }
  }

  /** The first loop of Sync. */
  method Collect(record: seq<Entry>) returns (info: map<Key, KeyLockInfo>)
    ensures info.Keys == KeysIn(record)
    ensures forall k <- info :: info[k] == KeyLockInfo(LockedIn(record, k), UnlockedIn(record, k))
  {
    info := map[];
    for i := 0 to |record|
      invariant info.Keys == KeysIn(record[..i])
      invariant forall k <- info :: info[k] == KeyLockInfo(LockedIn(record[..i], k), UnlockedIn(record[..i], k))
    {
      var e := record[i];
      var k := e.request.key;
      var was := if k in info then info[k] else KeyLockInfo({}, {});
      var now := was;
      if e.request.lock && e.status == 0 {
        now := now.(locked := now.locked + {e.request.client});
      } else if !e.request.lock && e.status == 0 {
        now := now.(unlocked := now.unlocked + {e.request.client});
      }
      info := info[k := now];
      assert record[..i + 1] == record[..i] + [e];
    }
    assert record[..|record|] == record;
  }
}
