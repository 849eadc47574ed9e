/**
 The client's decision (src/lockserver/client.cc) and mutual exclusion over whole runs of a
 group of replicas: when two clients can both be told that they hold a lock.
 */
module LockClient {
  import opened LockServer

  // ---------------------------------------------------------------- Decide

  /** How many replicas gave a reply. */
  datatype Count = Count(reply: Reply, replicas: nat)

  function Successes(results: seq<Count>): nat {
    if results == [] then 0 else
    var last := results[|results| - 1];
    Successes(results[..|results| - 1]) + (if last.reply.status == 0 then last.replicas else 0)
  }

  /** Decide: success when at least two replicas report it. The key is the last one read. */
  method Decide(results: seq<Count>) returns (final: Reply)
    ensures final.status == (if Successes(results) >= 2 then 0 else -1)
    ensures final.key == (if results == [] then "" else results[|results| - 1].reply.key)
  {
    var success := 0;
    var key := "";
    for i := 0 to |results|
      invariant success == Successes(results[..i])
      invariant key == (if i == 0 then "" else results[i - 1].reply.key)
    {
      assert results[..i + 1][..i] == results[..i];
      key := results[i].reply.key;
      if results[i].reply.status == 0 {
        success := success + results[i].replicas;
      }
    }
    assert results[..|results|] == results;
    final := Reply(key, if success >= 2 then 0 else -1);
  }

  ghost function Givers(replies: map<nat, Reply>, r: Reply): set<nat> {
    set x | x in replies && replies[x] == r
  }

  ghost function SuccessfulReplicas(replies: map<nat, Reply>): set<nat> {
    set x | x in replies && replies[x].status == 0
  }

  /** results tallies the replies: one count for each different reply. */
  ghost predicate IsTally(results: seq<Count>, replies: map<nat, Reply>) {
    && (forall i, j :: 0 <= i < j < |results| ==> results[i].reply != results[j].reply)
    && (forall c <- results :: c.replicas == |Givers(replies, c.reply)|)
    && (forall x <- replies :: exists c <- results :: c.reply == replies[x])
  }

  ghost function SuccessfulAmong(replies: map<nat, Reply>, results: seq<Count>): set<nat> {
    set x | x in replies && replies[x].status == 0 && exists c <- results :: c.reply == replies[x]
  }

  lemma {:induction false} SuccessesAreReplicas(results: seq<Count>, replies: map<nat, Reply>)
    requires forall i, j :: 0 <= i < j < |results| ==> results[i].reply != results[j].reply
    requires forall c <- results :: c.replicas == |Givers(replies, c.reply)|
    ensures Successes(results) == |SuccessfulAmong(replies, results)|
  {
    if results == [] {
      assert SuccessfulAmong(replies, results) == {};
    } else {
      var front, last := results[..|results| - 1], results[|results| - 1];
      SuccessesAreReplicas(front, replies);
      assert results == front + [last];
      var a, b := SuccessfulAmong(replies, front), Givers(replies, last.reply);
      if last.reply.status == 0 {
        assert SuccessfulAmong(replies, results) == a + b;
        assert a !! b;
      } else {
        assert SuccessfulAmong(replies, results) == a;
      }
    }
  }

  /** The count Decide compares with 2 is the number of replicas that reported success. */
  lemma TallyCountsReplicas(results: seq<Count>, replies: map<nat, Reply>)
    requires IsTally(results, replies)
    ensures Successes(results) == |SuccessfulReplicas(replies)|
  {
    SuccessesAreReplicas(results, replies);
    assert SuccessfulAmong(replies, results) == SuccessfulReplicas(replies);
  }

  // ---------------------------------------------------------------- runs of a replica group

  /** One replica executes one request; unlock requests may arrive by either upcall. */
  datatype Step = Step(replica: nat, request: Request, consensus: bool)

  /** Replica r's table after a run of the group. */
  function TableOf(run: seq<Step>, r: nat): Table {
    if run == [] then map[] else
    var locks, last := TableOf(run[..|run| - 1], r), run[|run| - 1];
    if last.replica != r then locks
    else if last.consensus then AfterConsensus(locks, last.request)
    else AfterInconsistent(locks, last.request)
  }

  /** At time t replica r executes client c's lock request for k and replies with success. */
  ghost predicate GrantedAt(run: seq<Step>, t: nat, r: nat, c: ClientId, k: Key) {
    && t < |run| && run[t] == Step(r, Request(c, k, true), true)
    && ConsensusStatus(TableOf(run[..t], r), run[t].request) == 0
  }

  /** At time t replica r executes client c's unlock of k while c holds it there. */
  ghost predicate ReleasedAt(run: seq<Step>, t: nat, r: nat, c: ClientId, k: Key) {
    && t < |run| && run[t].replica == r && run[t].request == Request(c, k, false)
    && HeldBy(TableOf(run[..t], r), k, c)
  }

  /** On one replica, a grant lasts until its owner's unlock. */
  lemma {:induction false} GrantLasts(run: seq<Step>, t: nat, t': nat, r: nat, c: ClientId, k: Key)
    requires GrantedAt(run, t, r, c, k) && t < t' <= |run|
    requires forall s :: t < s < t' ==> !ReleasedAt(run, s, r, c, k)
    ensures HeldBy(TableOf(run[..t'], r), k, c)
    decreases t'
  {
    assert run[..t'][..t' - 1] == run[..t' - 1];
    if t' > t + 1 {
      GrantLasts(run, t, t' - 1, r, c, k);
      assert !ReleasedAt(run, t' - 1, r, c, k);
    }
  }

  lemma SecondGrantNeedsRelease(run: seq<Step>, t: nat, t': nat, r: nat, c: ClientId, c': ClientId, k: Key)
    requires GrantedAt(run, t, r, c, k) && GrantedAt(run, t', r, c', k) && t < t' && c != c'
    ensures exists s :: t < s < t' && ReleasedAt(run, s, r, c, k)
  {
    if forall s :: t < s < t' ==> !ReleasedAt(run, s, r, c, k) {
      GrantLasts(run, t, t', r, c, k);
    }
  }

  // ---------------------------------------------------------------- mutual exclusion

  /** Client c was told it has k: grants says when each of some replicas (at least two, as
      Decide demands) granted it. */
  ghost predicate Decided(run: seq<Step>, n: nat, c: ClientId, k: Key, grants: map<nat, nat>) {
    && |grants| >= 2
    && forall r <- grants :: r < n && GrantedAt(run, grants[r], r, c, k)
  }

  /** The replies are what the replicas answered client c's lock request for k with, at the given times. */
  ghost predicate Answers(run: seq<Step>, n: nat, c: ClientId, k: Key, replies: map<nat, Reply>, times: map<nat, nat>) {
    forall r <- replies ::
      && r < n && r in times && times[r] < |run| && run[times[r]] == Step(r, Request(c, k, true), true)
      && replies[r] == Reply(k, ConsensusStatus(TableOf(run[..times[r]], r), Request(c, k, true)))
  }

  /** A success of Decide on the tally of such replies means that the client was granted the lock. */
  lemma DecideMeansDecided(run: seq<Step>, n: nat, c: ClientId, k: Key, replies: map<nat, Reply>,
                           times: map<nat, nat>, results: seq<Count>) returns (grants: map<nat, nat>)
    requires Answers(run, n, c, k, replies, times) && IsTally(results, replies) && Successes(results) >= 2
    ensures Decided(run, n, c, k, grants) && grants.Keys == SuccessfulReplicas(replies)
  {
    TallyCountsReplicas(results, replies);
    grants := map r | r in SuccessfulReplicas(replies) :: times[r];
    assert grants.Keys == SuccessfulReplicas(replies) && |grants| == |grants.Keys|;
    forall r <- grants
      ensures r < n && GrantedAt(run, grants[r], r, c, k)
    {
      assert replies[r].status == 0;
    }
  }

  /** Between the two grants at replica r, the client granted first released the lock there. */
  ghost predicate ReleasedBetween(run: seq<Step>, r: nat, c: ClientId, t: nat, c': ClientId, t': nat, k: Key) {
    || (exists s :: t < s < t' && ReleasedAt(run, s, r, c, k))
    || (exists s :: t' < s < t && ReleasedAt(run, s, r, c', k))
  }

  /** What exclusion means for a group of n replicas: no two clients are both told they have
      the lock unless one of them released it, at some replica, between the grants. */
  ghost predicate Excludes(run: seq<Step>, n: nat, c: ClientId, grants: map<nat, nat>,
                           c': ClientId, grants': map<nat, nat>, k: Key)
  {
    c != c' && Decided(run, n, c, k, grants) && Decided(run, n, c', k, grants') ==>
      exists r :: r in grants && r in grants' && ReleasedBetween(run, r, c, grants[r], c', grants'[r], k)
  }

  ghost function UpTo(n: nat): (s: set<nat>)
    ensures |s| == n
    ensures forall r: nat :: r in s <==> r < n
  {
    if n == 0 then {} else UpTo(n - 1) + {n - 1}
  }

  lemma {:induction false} SharedReplica(n: nat, a: set<nat>, b: set<nat>)
    requires a <= UpTo(n) && b <= UpTo(n) && n < |a| + |b|
    ensures a * b != {}
  {
    if a * b == {} {
      assert |a + b| == |a| + |b|;
      SubsetSize(a + b, UpTo(n));
    }
  }

  /** With up to three replicas, over every interleaving: exclusion holds. */
  lemma ExclusionUpToThree(run: seq<Step>, n: nat, c: ClientId, grants: map<nat, nat>,
                           c': ClientId, grants': map<nat, nat>, k: Key)
    requires n <= 3
    ensures Excludes(run, n, c, grants, c', grants', k)
  {
    if c != c' && Decided(run, n, c, k, grants) && Decided(run, n, c', k, grants') {
      SharedReplica(n, grants.Keys, grants'.Keys);
      var r :| r in grants.Keys * grants'.Keys;
      var t, t' := grants[r], grants'[r];
      if t < t' {
        SecondGrantNeedsRelease(run, t, t', r, c, c', k);
      } else {
        SecondGrantNeedsRelease(run, t', t, r, c', c, k);
      }
      assert ReleasedBetween(run, r, c, t, c', t', k);
    }
  }

  /** With four or more replicas two clients can both collect two successes and no unlock
      happens at all: the constant 2 in Decide is a majority of three, not of five. */
  lemma NoExclusionFromFour(n: nat, k: Key)
    requires n >= 4
    ensures var run := SplitRun(k);
            && (forall s <- run :: s.request.lock)
            && !Excludes(run, n, 1, map[0 := 0, 1 := 1], 2, map[2 := 2, 3 := 3], k)
  {
    var run := SplitRun(k);
    FreshReplica(run, 0);
    FreshReplica(run, 1);
    FreshReplica(run, 2);
    FreshReplica(run, 3);
    var grants, grants' := map[0 := 0, 1 := 1], map[2 := 2, 3 := 3];
    assert |grants| == 2 && |grants'| == 2;
    assert GrantedAt(run, 0, 0, 1, k) && GrantedAt(run, 1, 1, 1, k);
    assert GrantedAt(run, 2, 2, 2, k) && GrantedAt(run, 3, 3, 2, k);
    assert Decided(run, n, 1, k, grants) && Decided(run, n, 2, k, grants');
  }

  function SplitRun(k: Key): seq<Step> {
    [Step(0, Request(1, k, true), true), Step(1, Request(1, k, true), true),
     Step(2, Request(2, k, true), true), Step(3, Request(2, k, true), true)]
  }

  /** A replica that has not executed anything has an empty table. */
  lemma {:induction false} FreshReplica(run: seq<Step>, t: nat)
    requires t < |run| && forall i :: 0 <= i < t ==> run[i].replica != run[t].replica
    ensures TableOf(run[..t], run[t].replica) == map[]
  {
    FreshPrefix(run[..t], run[t].replica);
  }

  lemma {:induction false} FreshPrefix(run: seq<Step>, r: nat)
    requires forall s <- run :: s.replica != r
    ensures TableOf(run, r) == map[]
  {
    if run != [] {
      FreshPrefix(run[..|run| - 1], r);
      assert run[|run| - 1] in run;
    }
  }

  /** So Decide's rule excludes exactly on groups of at most three replicas. */
  lemma ExclusionIffAtMostThree(n: nat)
    ensures (forall run, c, grants, c', grants', k :: Excludes(run, n, c, grants, c', grants', k)) <==> n <= 3
  {
    if n <= 3 {
      forall run, c, grants, c', grants', k ensures Excludes(run, n, c, grants, c', grants', k) {
        ExclusionUpToThree(run, n, c, grants, c', grants', k);
      }
    } else {
      NoExclusionFromFour(n, "k");
    }
  }
}
