/**
 Executing operations one by one against rebuilding the table from their record
 (src/lockserver/server.cc: the upcalls against Sync).
 */
module LockReplay {
  import opened LockServer

  /** An operation: clients lock through consensus and unlock by inconsistent operations (client.cc), but
      the replica takes either request either way. */
  datatype Operation = Operation(op: OpId, request: Request, consensus: bool)

  /** The table a replica has after executing a history from the start. */
  function Replay(h: seq<Operation>): Table {
    if h == [] then map[] else
    var locks, last := Replay(h[..|h| - 1]), h[|h| - 1];
    if last.consensus then AfterConsensus(locks, last.request) else AfterInconsistent(locks, last.request)
  }

  /** The status stored for an operation executed after h. */
  function StatusAfter(h: seq<Operation>, o: Operation): int {
    if o.consensus then ConsensusStatus(Replay(h), o.request) else 0
  }

  /** The record entries a history leaves, in execution order. */
  function EntriesOf(h: seq<Operation>): (es: seq<Entry>)
    ensures |es| == |h|
  {
    if h == [] then [] else
    var front, last := h[..|h| - 1], h[|h| - 1];
    EntriesOf(front) + [Entry(last.op, last.request, StatusAfter(front, last))]
  }

  /** The record lists the history's entries, in whatever order its map keeps them. */
  ghost predicate IsRecordOf(record: seq<Entry>, h: seq<Operation>) {
    forall e :: e in record <==> e in EntriesOf(h)
  }

  lemma SameDifference(record: seq<Entry>, h: seq<Operation>, k: Key)
    requires IsRecordOf(record, h)
    ensures LockedIn(record, k) == LockedIn(EntriesOf(h), k)
    ensures UnlockedIn(record, k) == UnlockedIn(EntriesOf(h), k)
    ensures k in KeysIn(record) <==> k in KeysIn(EntriesOf(h))
    ensures LockedIn(record, k) != {} ==> k in KeysIn(record)
  {
    if c :| c in LockedIn(record, k) {
      var e :| e in record && e.request.key == k && e.request.lock && e.status == 0 && e.request.client == c;
      assert k in KeysIn(record);
    }
  }

  /** Adding one entry to the sets Sync collects. */
  lemma CollectLast(es: seq<Entry>, e: Entry, k: Key)
    ensures LockedIn(es + [e], k)
         == LockedIn(es, k) + (if e.request.key == k && e.request.lock && e.status == 0 then {e.request.client} else {})
    ensures UnlockedIn(es + [e], k)
         == UnlockedIn(es, k) + (if e.request.key == k && !e.request.lock && e.status == 0 then {e.request.client} else {})
  {
  }

  /** Clients whose lock request for k was sent as an inconsistent operation. The replica ignores the
      request, but its record has the status that an empty result reads as, which is success. */
  function Ignored(h: seq<Operation>, k: Key): set<ClientId> {
    set o | o in h && o.request.lock && !o.consensus && o.request.key == k :: o.request.client
  }

  lemma IgnoredLast(h: seq<Operation>, k: Key)
    requires h != []
    ensures var last := h[|h| - 1];
            Ignored(h, k) == Ignored(h[..|h| - 1], k)
              + (if last.request.lock && !last.consensus && last.request.key == k then {last.request.client} else {})
  {
    assert h == h[..|h| - 1] + [h[|h| - 1]];
  }

  /** In every history the record has a successful lock of the holder and of those ignored, and everyone
      else with one has unlocked the key. */
  lemma {:induction false} GrantedOrReleased(h: seq<Operation>, k: Key)
    ensures var locked, unlocked := LockedIn(EntriesOf(h), k), UnlockedIn(EntriesOf(h), k);
            && (k in Replay(h) ==> Replay(h)[k] in locked)
            && Ignored(h, k) <= locked
            && (forall c <- locked :: c in unlocked || HeldBy(Replay(h), k, c) || c in Ignored(h, k))
  {
    if h != [] {
      var front, last := h[..|h| - 1], h[|h| - 1];
      GrantedOrReleased(front, k);
      IgnoredLast(h, k);
      CollectLast(EntriesOf(front), Entry(last.op, last.request, StatusAfter(front, last)), k);
    }
  }

  /** Key k is held, and its holder has no unlock of k in the record. */
  predicate HolderNeverUnlocked(h: seq<Operation>, k: Key) {
    k in Replay(h) && Replay(h)[k] !in UnlockedIn(EntriesOf(h), k)
  }

  /** Clients with an ignored lock of k and no unlock of it. */
  function Stray(h: seq<Operation>, k: Key): set<ClientId> {
    Ignored(h, k) - UnlockedIn(EntriesOf(h), k)
  }

  /** Who has k in a table, if anyone. */
  function ClientAt(locks: Table, k: Key): set<ClientId> {
    if k in locks then {locks[k]} else {}
  }

  function Holder(h: seq<Operation>, k: Key): set<ClientId> {
    ClientAt(Replay(h), k)
  }

  /** Whom Sync finds left over for k: the holder, unless it has ever unlocked k, and the strays. */
  lemma WhoIsLeft(h: seq<Operation>, k: Key)
    ensures StillLocked(EntriesOf(h), k) == (if HolderNeverUnlocked(h, k) then Holder(h, k) else {}) + Stray(h, k)
  {
    GrantedOrReleased(h, k);
  }

  ghost function StillLockeds(record: seq<Entry>): map<Key, set<ClientId>> {
    map k | k in KeysIn(record) :: StillLocked(record, k)
  }

  /** With hash sets listed in ascending order this is what Sync works with. */
  lemma AscendingLeftOvers(order: Order, record: seq<Entry>)
    requires Lists(order) && AlwaysAscending(order)
    ensures LeftOvers(order, record) == StillLockeds(record)
  {
    SyncIsRightIffAscending(order);
  }

  /** At most one client is left over for k. */
  ghost predicate OneLeft(h: seq<Operation>, k: Key) {
    forall c, c' :: Remains(h, k, c) && Remains(h, k, c') ==> c == c'
  }

  ghost predicate Remains(h: seq<Operation>, k: Key, c: ClientId) {
    (HolderNeverUnlocked(h, k) && c == Replay(h)[k]) || c in Stray(h, k)
  }

  lemma SizeAtMostOne(s: set<ClientId>)
    ensures |s| <= 1 <==> forall c, c' :: c in s && c' in s ==> c == c'
  {
    if s != {} {
      var c :| c in s;
      if |s| <= 1 {
        OnlyMember(s, c);
      } else if forall d, d' :: d in s && d' in s ==> d == d' {
        assert s == {c};
      }
    }
  }

  /** Sync's assertion holds on the record of a history if and only if at every key at most one client is
      left: a holder that never unlocked it, or one whose lock was ignored. */
  lemma SyncPanicsUnlessOneLeft(record: seq<Entry>, h: seq<Operation>)
    requires IsRecordOf(record, h)
    ensures AtMostOneEach(StillLockeds(record)) <==> forall k: Key :: OneLeft(h, k)
  {
    forall k: Key
      ensures |StillLocked(record, k)| <= 1 <==> OneLeft(h, k)
      ensures k !in KeysIn(record) ==> OneLeft(h, k)
    {
      OneLeftAt(record, h, k);
    }
    assert forall k <- KeysIn(record) :: StillLockeds(record)[k] == StillLocked(record, k);
  }

  lemma OneLeftAt(record: seq<Entry>, h: seq<Operation>, k: Key)
    requires IsRecordOf(record, h)
    ensures |StillLocked(record, k)| <= 1 <==> OneLeft(h, k)
    ensures k !in KeysIn(record) ==> OneLeft(h, k)
  {
    SameDifference(record, h, k);
    WhoIsLeft(h, k);
    assert forall c :: c in StillLocked(record, k) <==> Remains(h, k, c);
    SizeAtMostOne(StillLocked(record, k));
  }

  /** So it holds on every history in which locks go through consensus, relocks and stray unlocks included. */
  lemma SyncNeverPanics(record: seq<Entry>, h: seq<Operation>)
    requires IsRecordOf(record, h) && forall o <- h :: o.request.lock ==> o.consensus
    ensures AtMostOneEach(StillLockeds(record))
  {
    SyncPanicsUnlessOneLeft(record, h);
  }

  /** A lock that was ignored stops Sync: the holder and the client that was ignored are both left. */
  lemma IgnoredLockPanics(k: Key)
    ensures var h := [Operation(OpId(1, 0), Request(1, k, true), true),
                      Operation(OpId(2, 0), Request(2, k, true), false)];
            Replay(h) == map[k := 1] && !AtMostOneEach(StillLockeds(EntriesOf(h)))
  {
    var a, b := Operation(OpId(1, 0), Request(1, k, true), true), Operation(OpId(2, 0), Request(2, k, true), false);
    var h := [a, b];
    assert h[..1] == [a] && [a][..0] == [];
    assert Replay([a]) == map[k := 1];
    assert b in h && 2 in Ignored(h, k);
    CollectLast(EntriesOf([]), Entry(a.op, a.request, 0), k);
    CollectLast(EntriesOf([a]), Entry(b.op, b.request, 0), k);
    assert Remains(h, k, 1) && Remains(h, k, 2);
    assert !OneLeft(h, k);
    SyncPanicsUnlessOneLeft(EntriesOf(h), h);
  }

  /** What Sync leaves, where its assertion holds: at each key the one client that is left, if any. */
  lemma RebuiltTable(record: seq<Entry>, h: seq<Operation>, locks: Table, k: Key)
    requires IsRecordOf(record, h) && AtMostOneEach(StillLockeds(record))
    requires Rebuilt(StillLockeds(record), KeysIn(record), locks)
    ensures ClientAt(locks, k) == (if HolderNeverUnlocked(h, k) then Holder(h, k) else {}) + Stray(h, k)
  {
    SameDifference(record, h, k);
    WhoIsLeft(h, k);
    assert k in KeysIn(record) ==> |StillLockeds(record)[k]| <= 1;
    assert |StillLocked(record, k)| == 0 ==> StillLocked(record, k) == {};
  }

  /** Sync rebuilds the table that executing the history left if and only if no held key was ever unlocked
      by its holder and nobody but the holder has an ignored lock without an unlock. */
  lemma SyncEqualsReplay(record: seq<Entry>, h: seq<Operation>, locks: Table)
    requires IsRecordOf(record, h) && AtMostOneEach(StillLockeds(record))
    requires Rebuilt(StillLockeds(record), KeysIn(record), locks)
    ensures locks == Replay(h) <==>
              (forall k <- Replay(h) :: HolderNeverUnlocked(h, k)) && (forall k: Key :: Stray(h, k) <= Holder(h, k))
  {
    forall k: Key
      ensures ClientAt(locks, k) == ClientAt(Replay(h), k) <==> RightAt(h, k)
    {
      RebuiltTable(record, h, locks, k);
    }
    SameTable(locks, Replay(h));
    assert (forall k: Key :: RightAt(h, k)) <==>
             (forall k <- Replay(h) :: HolderNeverUnlocked(h, k)) && (forall k: Key :: Stray(h, k) <= Holder(h, k)) by {
      assert forall k: Key :: RightAt(h, k) <==>
               (k in Replay(h) ==> HolderNeverUnlocked(h, k)) && Stray(h, k) <= Holder(h, k);
    }
  }

  ghost predicate RightAt(h: seq<Operation>, k: Key) {
    (k in Replay(h) ==> HolderNeverUnlocked(h, k)) && Stray(h, k) <= Holder(h, k)
  }

  lemma SameTable(a: Table, b: Table)
    ensures a == b <==> forall k: Key :: ClientAt(a, k) == ClientAt(b, k)
  {
    if forall k: Key :: ClientAt(a, k) == ClientAt(b, k) {
      forall k: Key
        ensures k in a <==> k in b
        ensures k in a && k in b ==> a[k] == b[k]
      {
        assert ClientAt(a, k) == ClientAt(b, k);
        assert k in a ==> a[k] in ClientAt(a, k);
        assert k in b ==> b[k] in ClientAt(b, k);
      }
      assert a == b;
    }
  }

  /** Clients lock through consensus, unlock only what they hold, and do not lock again a key they have
      unlocked. */
  ghost predicate Disciplined(h: seq<Operation>) {
    && (forall o <- h :: o.request.lock ==> o.consensus)
    && (forall i :: 0 <= i < |h| && !h[i].request.lock ==>
          HeldBy(Replay(h[..i]), h[i].request.key, h[i].request.client))
    && (forall i, j :: 0 <= i < j < |h| && !h[i].request.lock && h[j].request.lock ==>
          h[i].request.key != h[j].request.key || h[i].request.client != h[j].request.client)
  }

  lemma {:induction false} UnlockEntryIndex(h: seq<Operation>, k: Key, c: ClientId) returns (i: nat)
    requires c in UnlockedIn(EntriesOf(h), k)
    ensures i < |h| && !h[i].request.lock && h[i].request.key == k && h[i].request.client == c
  {
    var front, last := h[..|h| - 1], h[|h| - 1];
    var e := Entry(last.op, last.request, StatusAfter(front, last));
    CollectLast(EntriesOf(front), e, k);
    if c in UnlockedIn(EntriesOf(front), k) {
      i := UnlockEntryIndex(front, k, c);
    } else {
      i := |h| - 1;
    }
  }

  lemma DisciplinedPrefix(h: seq<Operation>)
    requires h != [] && Disciplined(h)
    ensures Disciplined(h[..|h| - 1])
  {
    var front := h[..|h| - 1];
    forall i | 0 <= i < |front| && !front[i].request.lock
      ensures HeldBy(Replay(front[..i]), front[i].request.key, front[i].request.client)
    {
      assert front[..i] == h[..i];
    }
  }

  /** On disciplined histories the rebuilt table is the replayed one. */
  lemma {:induction false} DisciplinedHoldersNeverUnlocked(h: seq<Operation>, k: Key)
    requires Disciplined(h)
    ensures k in Replay(h) ==> HolderNeverUnlocked(h, k)
  {
    if h != [] {
      var front, last := h[..|h| - 1], h[|h| - 1];
      DisciplinedPrefix(h);
      DisciplinedHoldersNeverUnlocked(front, k);
      var e := Entry(last.op, last.request, StatusAfter(front, last));
      CollectLast(EntriesOf(front), e, k);
      if k in Replay(h) && Replay(h)[k] in UnlockedIn(EntriesOf(h), k) {
        var c := Replay(h)[k];
        var i := UnlockEntryIndex(h, k, c);
      }
    }
  }

  lemma DisciplinedSync(record: seq<Entry>, h: seq<Operation>, locks: Table)
    requires Disciplined(h)
    requires IsRecordOf(record, h) && Rebuilt(StillLockeds(record), KeysIn(record), locks)
    ensures locks == Replay(h)
  {
    SyncNeverPanics(record, h);
    forall k <- Replay(h) ensures HolderNeverUnlocked(h, k) {
      DisciplinedHoldersNeverUnlocked(h, k);
    }
    SyncEqualsReplay(record, h, locks);
  }

  /** A client that locks again a key it released loses it in the rebuilt table. */
  lemma RelockIsLost(k: Key)
    ensures var h := [Operation(OpId(1, 0), Request(1, k, true), true),
                      Operation(OpId(1, 1), Request(1, k, false), false),
                      Operation(OpId(1, 2), Request(1, k, true), true)];
            k in Replay(h) && !HolderNeverUnlocked(h, k)
  {
    var a := Operation(OpId(1, 0), Request(1, k, true), true);
    var b := Operation(OpId(1, 1), Request(1, k, false), false);
    var c := Operation(OpId(1, 2), Request(1, k, true), true);
    var h := [a, b, c];
    assert h[..2] == [a, b] && [a, b][..1] == [a] && [a][..0] == [];
    assert Replay([a]) == map[k := 1];
    assert Replay([a, b]) == map[];
    var e := Entry(b.op, b.request, 0);
    assert EntriesOf([a, b]) == EntriesOf([a]) + [e];
    assert EntriesOf(h)[1] == e && e in EntriesOf(h);
  }
}
