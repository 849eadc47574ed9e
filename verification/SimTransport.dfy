/**
 The simulated transport (src/lib/simtransport.cc) with the re-arming Timeout of
 src/lib/transport.cc: a scheduler whose message handlers and timer callbacks may send,
 set and cancel timers while it runs.
 */
module SimTransport {

  type TimeoutId = nat

  datatype QueuedMessage = QueuedMessage(dst: int, src: int, kind: string, msg: string)

  /** What a timer runs: a user's callback, the delayed push of a message, or a Timeout. */
  datatype Callback = User | Push(message: QueuedMessage) | Fires(timeout: TimeoutId)

  datatype Pending = Pending(when: nat, id: nat, cb: Callback)

  /** timerId is 0 while the timeout is stopped. */
  datatype Timeout = Timeout(timerId: nat, ms: nat)

  /** The transport's fields, with a history: messages ever queued and delivered, timers fired
      in order, and the ids of timers cancelled while pending. */
  datatype State = State(
    queue: seq<QueuedMessage>,
    timers: seq<Pending>,
    vtime: nat,
    lastTimerId: nat,
    processTimers: bool,
    timeouts: map<TimeoutId, Timeout>,
    queued: seq<QueuedMessage>,
    delivered: seq<QueuedMessage>,
    fired: seq<Pending>,
    cancelled: set<nat>)

  // ---------------------------------------------------------------- operations

  /** multimap insertion: behind every entry that is due no later. */
  function Insert(timers: seq<Pending>, t: Pending): seq<Pending> {
    if timers == [] || timers[0].when > t.when then [t] + timers
    else [timers[0]] + Insert(timers[1..], t)
  }

  function Without(timers: seq<Pending>, id: nat): seq<Pending> {
    if timers == [] then []
    else (if timers[0].id == id then [] else [timers[0]]) + Without(timers[1..], id)
  }

  function Ids(timers: seq<Pending>): set<nat> {
    set t | t in timers :: t.id
  }

  function SetTimer(s: State, ms: nat, cb: Callback): State {
    s.(lastTimerId := s.lastTimerId + 1,
       timers := Insert(s.timers, Pending(s.vtime + ms, s.lastTimerId + 1, cb)))
  }

  function CancelTimer(s: State, id: nat): State {
    s.(timers := Without(s.timers, id),
       cancelled := s.cancelled + (if id in Ids(s.timers) then {id} else {}))
  }

  function Enqueue(s: State, q: QueuedMessage): State {
    s.(queue := s.queue + [q], queued := s.queued + [q])
  }

  /** A message the filters let through, with the delay they asked for. */
  function Send(s: State, q: QueuedMessage, delay: nat): State {
    if delay == 0 then Enqueue(s, q) else SetTimer(s, delay, Push(q))
  }

  function CancelAll(s: State): State {
    s.(timers := [], processTimers := false, cancelled := s.cancelled + Ids(s.timers))
  }

  function StopTimeout(s: State, t: TimeoutId): State
    requires t in s.timeouts
  {
    if s.timeouts[t].timerId > 0 then
      var s' := CancelTimer(s, s.timeouts[t].timerId);
      s'.(timeouts := s.timeouts[t := s.timeouts[t].(timerId := 0)])
    else s
  }

  /** Reset, which Start calls: stop, then arm a fresh timer. */
  function ResetTimeout(s: State, t: TimeoutId): State
    requires t in s.timeouts
  {
    var s' := StopTimeout(s, t);
    var s'' := SetTimer(s', s'.timeouts[t].ms, Fires(t));
    s''.(timeouts := s''.timeouts[t := s''.timeouts[t].(timerId := s''.lastTimerId)])
  }

  /** What a handler may do. Operations on a timeout that does not exist do nothing, and so does
      setting the delay of an active one, which the source asserts against. */
  datatype Action =
    | DoSend(q: QueuedMessage, delay: nat)
    | DoTimer(ms: nat)
    | DoCancel(id: nat)
    | DoCancelAll
    | DoReset(t: TimeoutId)
    | DoStop(t: TimeoutId)
    | DoSetTimeout(t: TimeoutId, ms: nat)

  function Do(s: State, a: Action): (r: State)
    ensures s.queue <= r.queue
  {
    match a
    case DoSend(q, delay) => Send(s, q, delay)
    case DoTimer(ms) => SetTimer(s, ms, User)
    case DoCancel(id) => CancelTimer(s, id)
    case DoCancelAll => CancelAll(s)
    case DoReset(t) => if t in s.timeouts then ResetTimeout(s, t) else s
    case DoStop(t) => if t in s.timeouts then StopTimeout(s, t) else s
    case DoSetTimeout(t, ms) =>
      if t in s.timeouts && s.timeouts[t].timerId == 0 then s.(timeouts := s.timeouts[t := Timeout(0, ms)]) else s
  }

  function DoAll(s: State, actions: seq<Action>): (r: State)
    ensures s.queue <= r.queue
    decreases |actions|
  {
    if actions == [] then s else DoAll(Do(s, actions[0]), actions[1..])
  }

  // ---------------------------------------------------------------- the run loop

  predicate Quiet(s: State) {
    s.queue == [] && (!s.processTimers || s.timers == [])
  }

  /** The handler runs while the message is still at the front, which is then popped. */
  function Deliver(s: State, actions: seq<Action>): State
    requires s.queue != []
  {
    var s' := DoAll(s, actions);
    s'.(queue := s'.queue[1..], delivered := s'.delivered + [s.queue[0]])
  }

  /** Advance the clock to the earliest timer, take it off, run its callback. */
  function Fire(s: State, actions: seq<Action>): State
    requires s.timers != []
  {
    var t := s.timers[0];
    var s' := s.(vtime := t.when, timers := s.timers[1..], fired := s.fired + [t]);
    match t.cb
    case User => DoAll(s', actions)
    case Push(q) => Enqueue(s', q)
    case Fires(x) =>
      if x in s'.timeouts then
        var idle := s'.(timeouts := s'.timeouts[x := s'.timeouts[x].(timerId := 0)]);
        DoAll(ResetTimeout(idle, x), actions)
      else DoAll(s', actions)
  }

  /** One round: queued messages first, a timer only when there are none. */
  function Next(s: State, actions: seq<Action>): State {
    if s.queue != [] then Deliver(s, actions)
    else if s.processTimers && s.timers != [] then Fire(s, actions)
    else s
  }

  /** A run: script gives what each handler in turn does. */
  function RunScript(s: State, script: seq<seq<Action>>): State
    decreases |script|
  {
    if script == [] || Quiet(s) then s else RunScript(Next(s, script[0]), script[1..])
  }

  // ---------------------------------------------------------------- what every run keeps

  /** Earlier due time first, and among equals the one created first. */
  predicate Earlier(x: Pending, y: Pending) {
    x.when < y.when || (x.when == y.when && x.id < y.id)
  }

  ghost predicate Ordered(ts: seq<Pending>) {
    forall i, j :: 0 <= i < j < |ts| ==> Earlier(ts[i], ts[j]) && ts[i].id != ts[j].id
  }

  /** Fired timers followed by pending ones form one strictly ordered sequence of distinct
      timers; the clock lies between the two; the queue is what is not yet delivered. */
  ghost predicate Inv(s: State) {
    && Ordered(s.fired + s.timers)
    && (forall t <- s.fired :: t.when <= s.vtime && t.id <= s.lastTimerId)
    && (forall t <- s.timers :: s.vtime <= t.when && 0 < t.id <= s.lastTimerId)
    && s.queued == s.delivered + s.queue
    && (forall i <- s.cancelled :: i <= s.lastTimerId && i !in Ids(s.timers) && i !in Ids(s.fired))
  }

  lemma {:induction false} InsertSplits(timers: seq<Pending>, t: Pending) returns (k: nat)
    ensures k <= |timers| && Insert(timers, t) == timers[..k] + [t] + timers[k..]
    ensures forall i :: 0 <= i < k ==> timers[i].when <= t.when
    ensures k < |timers| ==> t.when < timers[k].when
  {
    if timers == [] || timers[0].when > t.when {
      k := 0;
    } else {
      var j := InsertSplits(timers[1..], t);
      k := j + 1;
      assert timers[..k] == [timers[0]] + timers[1..][..j];
    }
  }

  lemma {:induction false} WithoutIs(timers: seq<Pending>, id: nat)
    ensures forall t :: t in Without(timers, id) <==> t in timers && t.id != id
  {
    if timers != [] {
      WithoutIs(timers[1..], id);
    }
  }

  lemma {:induction false} WithoutOrdered(fired: seq<Pending>, timers: seq<Pending>, id: nat)
    requires Ordered(fired + timers)
    ensures Ordered(fired + Without(timers, id))
    decreases |timers|
  {
    if timers == [] {
    } else if timers[0].id == id {
      var rest := fired + timers[1..];
      assert forall i :: 0 <= i < |rest| ==> rest[i] == (fired + timers)[if i < |fired| then i else i + 1];
      WithoutOrdered(fired, timers[1..], id);
      assert Without(timers, id) == Without(timers[1..], id);
    } else {
      assert fired + timers == (fired + [timers[0]]) + timers[1..];
      WithoutOrdered(fired + [timers[0]], timers[1..], id);
      assert fired + Without(timers, id) == (fired + [timers[0]]) + Without(timers[1..], id);
    }
  }

  lemma {:induction false} InsertMembers(timers: seq<Pending>, t: Pending)
    ensures forall x :: x in Insert(timers, t) <==> x in timers || x == t
  {
    if timers != [] && timers[0].when <= t.when {
      InsertMembers(timers[1..], t);
    }
  }

  lemma InsertKeepsOrder(fired: seq<Pending>, timers: seq<Pending>, t: Pending)
    requires Ordered(fired + timers)
    requires forall x <- fired :: x.id < t.id && x.when <= t.when
    requires forall x <- timers :: x.id < t.id
    ensures Ordered(fired + Insert(timers, t))
  {
    var k := InsertSplits(timers, t);
    InsertPlace(fired, timers, k, t);
    InsertOrdered(fired + timers, |fired| + k, t);
    InsertBehind(fired, timers, k, t);
  }

  lemma InsertPlace(fired: seq<Pending>, timers: seq<Pending>, k: nat, t: Pending)
    requires forall x <- fired :: x.id < t.id && x.when <= t.when
    requires forall x <- timers :: x.id < t.id
    requires k <= |timers| && forall i :: 0 <= i < k ==> timers[i].when <= t.when
    requires k < |timers| ==> t.when < timers[k].when
    ensures var all, at := fired + timers, |fired| + k;
            && (forall i :: 0 <= i < |all| ==> all[i].id < t.id)
            && (forall i :: 0 <= i < at ==> all[i].when <= t.when)
            && (at < |all| ==> t.when < all[at].when)
  {
    var all, n := fired + timers, |fired|;
    assert forall i :: 0 <= i < |all| ==> all[i] == if i < n then fired[i] else timers[i - n];
  }

  lemma InsertBehind(fired: seq<Pending>, timers: seq<Pending>, k: nat, t: Pending)
    requires k <= |timers| && Insert(timers, t) == timers[..k] + [t] + timers[k..]
    ensures var all := fired + timers;
            fired + Insert(timers, t) == all[..|fired| + k] + [t] + all[|fired| + k..]
  {
    var all := fired + timers;
    assert all[..|fired| + k] == fired + timers[..k] && all[|fired| + k..] == timers[k..];
  }

  lemma SetTimerKeeps(s: State, ms: nat, cb: Callback)
    requires Inv(s)
    ensures Inv(SetTimer(s, ms, cb))
    ensures forall t :: t in SetTimer(s, ms, cb).timers <==>
              t in s.timers || t == Pending(s.vtime + ms, s.lastTimerId + 1, cb)
  {
    var t := Pending(s.vtime + ms, s.lastTimerId + 1, cb);
    InsertMembers(s.timers, t);
    InsertKeepsOrder(s.fired, s.timers, t);
  }

  lemma InsertOrdered(ts: seq<Pending>, k: nat, t: Pending)
    requires k <= |ts| && Ordered(ts)
    requires forall i :: 0 <= i < |ts| ==> ts[i].id < t.id
    requires forall i :: 0 <= i < k ==> ts[i].when <= t.when
    requires k < |ts| ==> t.when < ts[k].when
    ensures Ordered(ts[..k] + [t] + ts[k..])
  {
    var r := ts[..k] + [t] + ts[k..];
    forall i, j | 0 <= i < j < |r| ensures Earlier(r[i], r[j]) && r[i].id != r[j].id {
      if i == k && j > k + 1 { assert Earlier(ts[k], ts[j - 1]); }
    }
  }

  lemma CancelKeeps(s: State, id: nat)
    requires Inv(s)
    ensures Inv(CancelTimer(s, id))
  {
    WithoutIs(s.timers, id);
    WithoutOrdered(s.fired, s.timers, id);
    if t :| t in s.timers && t.id == id && id in Ids(s.fired) {
      FiredNotPending(s, t);
    }
  }

  lemma FiredNotPending(s: State, t: Pending)
    requires Ordered(s.fired + s.timers) && t in s.timers
    ensures t.id !in Ids(s.fired)
  {
    var j :| 0 <= j < |s.timers| && s.timers[j] == t;
    assert (s.fired + s.timers)[|s.fired| + j] == t;
    forall f <- s.fired ensures f.id != t.id {
      var i :| 0 <= i < |s.fired| && s.fired[i] == f;
      assert (s.fired + s.timers)[i] == f;
    }
  }

  lemma CancelAllKeeps(s: State)
    requires Inv(s)
    ensures Inv(CancelAll(s))
  {
    assert s.fired + [] == s.fired;
    assert forall i, j :: 0 <= i < j < |s.fired| ==>
      (s.fired + s.timers)[i] == s.fired[i] && (s.fired + s.timers)[j] == s.fired[j];
    forall i <- Ids(s.timers) ensures i <= s.lastTimerId && i !in Ids(s.fired) {
      var t :| t in s.timers && t.id == i;
      FiredNotPending(s, t);
    }
  }

  lemma StopKeeps(s: State, t: TimeoutId)
    requires Inv(s) && t in s.timeouts
    ensures Inv(StopTimeout(s, t))
  {
    CancelKeeps(s, s.timeouts[t].timerId);
  }

  lemma ResetKeeps(s: State, t: TimeoutId)
    requires Inv(s) && t in s.timeouts
    ensures Inv(ResetTimeout(s, t))
  {
    StopKeeps(s, t);
    var s' := StopTimeout(s, t);
    SetTimerKeeps(s', s'.timeouts[t].ms, Fires(t));
  }

  /** Every operation a handler can perform keeps the invariant, the clock and the front of the
      queue. */
  lemma DoKeeps(s: State, a: Action)
    requires Inv(s)
    ensures Inv(Do(s, a))
    ensures Do(s, a).vtime == s.vtime && s.queue <= Do(s, a).queue
    ensures Do(s, a).delivered == s.delivered && Do(s, a).fired == s.fired && s.cancelled <= Do(s, a).cancelled
  {
    match a
    case DoSend(q, delay) => if delay > 0 { SetTimerKeeps(s, delay, Push(q)); }
    case DoTimer(ms) => SetTimerKeeps(s, ms, User);
    case DoCancel(id) => CancelKeeps(s, id);
    case DoCancelAll => CancelAllKeeps(s);
    case DoReset(t) => if t in s.timeouts { ResetKeeps(s, t); }
    case DoStop(t) => if t in s.timeouts { StopKeeps(s, t); }
    case DoSetTimeout(t, ms) =>
  }

  lemma {:induction false} DoAllKeeps(s: State, actions: seq<Action>)
    requires Inv(s)
    ensures Inv(DoAll(s, actions))
    ensures DoAll(s, actions).vtime == s.vtime && s.queue <= DoAll(s, actions).queue
    ensures DoAll(s, actions).delivered == s.delivered && DoAll(s, actions).fired == s.fired
    ensures s.cancelled <= DoAll(s, actions).cancelled
    decreases |actions|
  {
    if actions != [] {
      DoKeeps(s, actions[0]);
      DoAllKeeps(Do(s, actions[0]), actions[1..]);
    }
  }

  /** Taking the earliest timer off moves the border between fired and pending by one. */
  lemma TakeFirst(s: State)
    requires Inv(s) && s.timers != []
    ensures s.vtime <= s.timers[0].when
    ensures Inv(s.(vtime := s.timers[0].when, timers := s.timers[1..], fired := s.fired + [s.timers[0]]))
  {
    var t := s.timers[0];
    var all := s.fired + s.timers;
    assert all == s.fired + [t] + s.timers[1..];
    forall x <- s.timers[1..] ensures t.when <= x.when {
      var j :| 0 <= j < |s.timers[1..]| && s.timers[1..][j] == x;
      assert all[|s.fired|] == t && all[|s.fired| + 1 + j] == x;
    }
    forall i <- s.cancelled ensures i !in Ids(s.fired + [t]) && i !in Ids(s.timers[1..]) {
      assert t.id in Ids(s.timers);
      assert Ids(s.timers[1..]) <= Ids(s.timers);
      assert Ids(s.fired + [t]) == Ids(s.fired) + {t.id};
    }
  }

  lemma NextKeeps(s: State, actions: seq<Action>)
    requires Inv(s)
    ensures Inv(Next(s, actions)) && s.vtime <= Next(s, actions).vtime
    ensures s.delivered <= Next(s, actions).delivered && s.fired <= Next(s, actions).fired
    ensures s.cancelled <= Next(s, actions).cancelled
  {
    if s.queue != [] {
      DoAllKeeps(s, actions);
      var s' := DoAll(s, actions);
      assert s'.queue[0] == s.queue[0];
      assert s'.delivered + s'.queue == s'.delivered + [s.queue[0]] + s'.queue[1..];
    } else if s.processTimers && s.timers != [] {
      TakeFirst(s);
      var t := s.timers[0];
      var s' := s.(vtime := t.when, timers := s.timers[1..], fired := s.fired + [t]);
      match t.cb
      case User => DoAllKeeps(s', actions);
      case Push(q) =>
      case Fires(x) =>
        if x in s'.timeouts {
          var idle := s'.(timeouts := s'.timeouts[x := s'.timeouts[x].(timerId := 0)]);
          ResetKeeps(idle, x);
          DoAllKeeps(ResetTimeout(idle, x), actions);
        } else {
          DoAllKeeps(s', actions);
        }
    }
  }

  /** Over every run from a state that satisfies the invariant, whatever the handlers do: the
      invariant holds throughout, virtual time never decreases, and history only grows. */
  lemma {:induction false} RunKeeps(s: State, script: seq<seq<Action>>)
    requires Inv(s)
    ensures Inv(RunScript(s, script)) && s.vtime <= RunScript(s, script).vtime
    ensures s.delivered <= RunScript(s, script).delivered && s.fired <= RunScript(s, script).fired
    ensures s.cancelled <= RunScript(s, script).cancelled
    decreases |script|
  {
    if script != [] && !Quiet(s) {
      NextKeeps(s, script[0]);
      RunKeeps(Next(s, script[0]), script[1..]);
    }
  }

  function Initial(timeouts: map<TimeoutId, Timeout>): State {
    State([], [], 0, 0, true, timeouts, [], [], [], {})
  }

  /** Any state reached by setting up messages and timers and then running. */
  function Reached(timeouts: map<TimeoutId, Timeout>, setup: seq<Action>, script: seq<seq<Action>>): State {
    RunScript(DoAll(Initial(timeouts), setup), script)
  }

  /** In every reachable state: the assertion in Run holds for the next timer; timers have
      fired by due time with ties in creation order, each at most once and none that was
      cancelled before; and messages were delivered in the order they were queued. */
  lemma SchedulerGuarantees(timeouts: map<TimeoutId, Timeout>, setup: seq<Action>, script: seq<seq<Action>>)
    ensures var s := Reached(timeouts, setup, script);
            && (s.timers != [] ==> s.vtime <= s.timers[0].when)
            && (forall i, j :: 0 <= i < j < |s.fired| ==>
                  Earlier(s.fired[i], s.fired[j]) && s.fired[i].id != s.fired[j].id)
            && Ids(s.fired) !! s.cancelled
            && s.delivered + s.queue == s.queued
  {
    DoAllKeeps(Initial(timeouts), setup);
    RunKeeps(DoAll(Initial(timeouts), setup), script);
    var s := Reached(timeouts, setup, script);
    assert forall i :: 0 <= i < |s.fired| ==> (s.fired + s.timers)[i] == s.fired[i];
  }

  // ---------------------------------------------------------------- timeouts

  /** Pending timers of timeouts are exactly those their owners point at. */
  ghost predicate TimeoutInv(s: State) {
    && (forall p <- s.timers :: p.cb.Fires? ==>
          p.cb.timeout in s.timeouts && s.timeouts[p.cb.timeout].timerId == p.id)
    && (forall t <- s.timeouts :: s.timeouts[t].timerId != 0 ==> Armed(s, t))
  }

  ghost predicate Armed(s: State, t: TimeoutId)
    requires t in s.timeouts
  {
    exists p :: p in s.timers && p.id == s.timeouts[t].timerId && p.cb == Fires(t)
  }

  /** What handlers may do: not cancel everything, not cancel a timer of a timeout, whose id is
      private to it, and not set the delay of an active timeout. */
  ghost predicate Polite(s: State, a: Action) {
    && !a.DoCancelAll?
    && (a.DoSetTimeout? && a.t in s.timeouts ==> s.timeouts[a.t].timerId == 0)
    && (a.DoCancel? ==> forall p <- s.timers :: p.cb.Fires? ==> p.id != a.id)
  }

  ghost predicate AllPolite(s: State, actions: seq<Action>)
    decreases |actions|
  {
    actions == [] || (Polite(s, actions[0]) && AllPolite(Do(s, actions[0]), actions[1..]))
  }

  /** The state in which the next handler starts. */
  function HandlerStart(s: State): State {
    if s.queue != [] || !s.processTimers || s.timers == [] then s else Fire(s, [])
  }

  ghost predicate PoliteRun(s: State, script: seq<seq<Action>>)
    decreases |script|
  {
    script == [] || Quiet(s) ||
    (AllPolite(HandlerStart(s), script[0]) && PoliteRun(Next(s, script[0]), script[1..]))
  }

  /** A timer that belongs to no timeout may come and go. */
  lemma OtherTimerKeeps(s: State, ms: nat, cb: Callback)
    requires Inv(s) && TimeoutInv(s) && !cb.Fires?
    ensures TimeoutInv(SetTimer(s, ms, cb))
  {
    SetTimerKeeps(s, ms, cb);
    var s' := SetTimer(s, ms, cb);
    forall t <- s'.timeouts | s'.timeouts[t].timerId != 0 ensures Armed(s', t) {
      var p :| p in s.timers && p.id == s.timeouts[t].timerId && p.cb == Fires(t);
      assert p in s'.timers;
    }
  }

  lemma UserCancelKeeps(s: State, id: nat)
    requires TimeoutInv(s)
    requires forall p <- s.timers :: p.cb.Fires? ==> p.id != id
    ensures TimeoutInv(CancelTimer(s, id))
  {
    WithoutIs(s.timers, id);
    var s' := CancelTimer(s, id);
    forall t <- s'.timeouts | s'.timeouts[t].timerId != 0 ensures Armed(s', t) {
      var p :| p in s.timers && p.id == s.timeouts[t].timerId && p.cb == Fires(t);
      assert p in s'.timers;
    }
  }

  /** Stopping a timeout leaves no timer of it and the others as they were. */
  lemma StopKeepsTimeouts(s: State, t: TimeoutId)
    requires Inv(s) && TimeoutInv(s) && t in s.timeouts
    ensures TimeoutInv(StopTimeout(s, t))
    ensures StopTimeout(s, t).timeouts[t].timerId == 0
  {
    var id := s.timeouts[t].timerId;
    if id > 0 {
      WithoutIs(s.timers, id);
      var s' := StopTimeout(s, t);
      forall u <- s'.timeouts | s'.timeouts[u].timerId != 0 ensures Armed(s', u) {
        var p :| p in s.timers && p.id == s.timeouts[u].timerId && p.cb == Fires(u);
        var q :| q in s.timers && q.id == s.timeouts[t].timerId && q.cb == Fires(t);
        DistinctIds(s, p, q);
        assert p in s'.timers;
      }
      forall p <- s'.timers | p.cb.Fires?
        ensures p.cb.timeout in s'.timeouts && s'.timeouts[p.cb.timeout].timerId == p.id
      {
      }
    }
  }

  lemma DistinctIds(s: State, p: Pending, q: Pending)
    requires Inv(s) && p in s.timers && q in s.timers && p != q
    ensures p.id != q.id
  {
    var i :| 0 <= i < |s.timers| && s.timers[i] == p;
    var j :| 0 <= j < |s.timers| && s.timers[j] == q;
    assert (s.fired + s.timers)[|s.fired| + i] == p && (s.fired + s.timers)[|s.fired| + j] == q;
  }

  /** Arming a stopped timeout gives it exactly one timer. */
  lemma ResetKeepsTimeouts(s: State, t: TimeoutId)
    requires Inv(s) && TimeoutInv(s) && t in s.timeouts
    ensures TimeoutInv(ResetTimeout(s, t))
  {
    StopKeeps(s, t);
    StopKeepsTimeouts(s, t);
    var s1 := StopTimeout(s, t);
    var x := Pending(s1.vtime + s1.timeouts[t].ms, s1.lastTimerId + 1, Fires(t));
    SetTimerKeeps(s1, s1.timeouts[t].ms, Fires(t));
    var s' := ResetTimeout(s, t);
    forall u <- s'.timeouts | s'.timeouts[u].timerId != 0 ensures Armed(s', u) {
      if u == t {
        assert x in s'.timers;
      } else {
        var p :| p in s1.timers && p.id == s1.timeouts[u].timerId && p.cb == Fires(u);
        assert p in s'.timers;
      }
    }
  }

  lemma DoKeepsTimeouts(s: State, a: Action)
    requires Inv(s) && TimeoutInv(s) && Polite(s, a)
    ensures TimeoutInv(Do(s, a))
  {
    match a
    case DoSend(q, delay) =>
      if delay > 0 { OtherTimerKeeps(s, delay, Push(q)); } else { SameTimers(s, Enqueue(s, q)); }
    case DoTimer(ms) => OtherTimerKeeps(s, ms, User);
    case DoCancel(id) => UserCancelKeeps(s, id);
    case DoReset(t) => if t in s.timeouts { ResetKeepsTimeouts(s, t); }
    case DoStop(t) => if t in s.timeouts { StopKeepsTimeouts(s, t); }
    case DoSetTimeout(t, ms) =>
      if t in s.timeouts && s.timeouts[t].timerId == 0 { SameTimers(s, Do(s, a)); }
  }

  /** Nothing changes for timeouts as long as the timers and the timer ids stay. */
  lemma SameTimers(s: State, s': State)
    requires TimeoutInv(s) && s'.timers == s.timers && s'.timeouts.Keys == s.timeouts.Keys
    requires forall t <- s.timeouts :: s'.timeouts[t].timerId == s.timeouts[t].timerId
    ensures TimeoutInv(s')
  {
    forall t <- s'.timeouts | s'.timeouts[t].timerId != 0 ensures Armed(s', t) {
      var p :| p in s.timers && p.id == s.timeouts[t].timerId && p.cb == Fires(t);
    }
  }

  lemma {:induction false} DoAllKeepsTimeouts(s: State, actions: seq<Action>)
    requires Inv(s) && TimeoutInv(s) && AllPolite(s, actions)
    ensures TimeoutInv(DoAll(s, actions))
    decreases |actions|
  {
    if actions != [] {
      DoKeeps(s, actions[0]);
      DoKeepsTimeouts(s, actions[0]);
      DoAllKeepsTimeouts(Do(s, actions[0]), actions[1..]);
    }
  }

  /** Firing a timeout's timer re-arms it before its callback runs. */
  lemma FireKeepsTimeouts(s: State)
    requires Inv(s) && TimeoutInv(s) && s.timers != []
    ensures Inv(Fire(s, [])) && TimeoutInv(Fire(s, []))
  {
    TakeFirst(s);
    var t := s.timers[0];
    var s' := s.(vtime := t.when, timers := s.timers[1..], fired := s.fired + [t]);
    assert s.timers == [t] + s.timers[1..];
    if t.cb.Fires? {
      var x := t.cb.timeout;
      var idle := s'.(timeouts := s'.timeouts[x := s'.timeouts[x].(timerId := 0)]);
      forall u <- idle.timeouts | idle.timeouts[u].timerId != 0 ensures Armed(idle, u) {
        var p :| p in s.timers && p.id == s.timeouts[u].timerId && p.cb == Fires(u);
        assert p in idle.timers;
      }
      forall p <- idle.timers | p.cb.Fires?
        ensures p.cb.timeout in idle.timeouts && idle.timeouts[p.cb.timeout].timerId == p.id
      {
        TakenIsGone(s, p);
        DistinctIds(s, p, t);
      }
      ResetKeeps(idle, x);
      ResetKeepsTimeouts(idle, x);
    } else {
      forall u <- s'.timeouts | s'.timeouts[u].timerId != 0 ensures Armed(s', u) {
        var p :| p in s.timers && p.id == s.timeouts[u].timerId && p.cb == Fires(u);
        assert p in s'.timers;
      }
      if t.cb.Push? { SameTimers(s', Enqueue(s', t.cb.message)); }
    }
  }

  lemma TakenIsGone(s: State, p: Pending)
    requires Inv(s) && s.timers != [] && p in s.timers[1..]
    ensures p != s.timers[0]
  {
    var j :| 0 <= j < |s.timers[1..]| && s.timers[1..][j] == p;
    var all := s.fired + s.timers;
    assert all[|s.fired|] == s.timers[0] && all[|s.fired| + 1 + j] == p;
  }

  lemma NextKeepsTimeouts(s: State, actions: seq<Action>)
    requires Inv(s) && TimeoutInv(s) && AllPolite(HandlerStart(s), actions)
    ensures TimeoutInv(Next(s, actions))
  {
    if s.queue != [] {
      DoAllKeepsTimeouts(s, actions);
      SameTimers(DoAll(s, actions), Deliver(s, actions));
    } else if s.processTimers && s.timers != [] {
      FireKeepsTimeouts(s);
      if !s.timers[0].cb.Push? {
        assert Fire(s, actions) == DoAll(Fire(s, []), actions);
        DoAllKeepsTimeouts(Fire(s, []), actions);
      }
    }
  }

  lemma {:induction false} RunKeepsTimeouts(s: State, script: seq<seq<Action>>)
    requires Inv(s) && TimeoutInv(s) && PoliteRun(s, script)
    ensures TimeoutInv(RunScript(s, script))
    decreases |script|
  {
    if script != [] && !Quiet(s) {
      NextKeeps(s, script[0]);
      NextKeepsTimeouts(s, script[0]);
      RunKeepsTimeouts(Next(s, script[0]), script[1..]);
    }
  }

  ghost function OwnTimers(s: State, t: TimeoutId): set<Pending> {
    set p | p in s.timers && p.cb == Fires(t)
  }

  ghost predicate OwnsOne(s: State, t: TimeoutId)
    requires t in s.timeouts
  {
    if s.timeouts[t].timerId == 0 then OwnTimers(s, t) == {}
    else exists p :: OwnTimers(s, t) == {p} && p.id == s.timeouts[t].timerId
  }

  lemma InvariantMeansOne(s: State, t: TimeoutId)
    requires Inv(s) && TimeoutInv(s) && t in s.timeouts
    ensures OwnsOne(s, t)
  {
    if s.timeouts[t].timerId != 0 {
      var p :| p in s.timers && p.id == s.timeouts[t].timerId && p.cb == Fires(t);
      forall q <- OwnTimers(s, t) ensures q == p {
        if q != p { DistinctIds(s, p, q); }
      }
      assert OwnTimers(s, t) == {p};
    }
  }

  /** Over every run without CancelAllTimers: an active timeout owns exactly one pending timer,
      the one it points at, and a stopped timeout owns none. */
  lemma TimeoutsOwnOneTimer(timeouts: map<TimeoutId, Timeout>, setup: seq<Action>, script: seq<seq<Action>>, t: TimeoutId)
    requires forall x <- timeouts :: timeouts[x].timerId == 0
    requires AllPolite(Initial(timeouts), setup) && PoliteRun(DoAll(Initial(timeouts), setup), script)
    ensures var s := Reached(timeouts, setup, script); t in s.timeouts ==> OwnsOne(s, t)
  {
    var start := DoAll(Initial(timeouts), setup);
    DoAllKeeps(Initial(timeouts), setup);
    DoAllKeepsTimeouts(Initial(timeouts), setup);
    RunKeeps(start, script);
    RunKeepsTimeouts(start, script);
    if t in Reached(timeouts, setup, script).timeouts {
      InvariantMeansOne(Reached(timeouts, setup, script), t);
    }
  }

  /** CancelAllTimers breaks this exactly when some timeout is active: it stays active with no
      timer left to fire. */
  lemma CancelAllBreaksActiveTimeouts(s: State)
    requires TimeoutInv(s)
    ensures TimeoutInv(CancelAll(s)) <==> forall t <- s.timeouts :: s.timeouts[t].timerId == 0
  {
    if t :| t in s.timeouts && s.timeouts[t].timerId != 0 {
      assert !Armed(CancelAll(s), t);
    }
  }

  /** As in a run that starts a timeout and then cancels all timers. */
  lemma CancelAllStrandsTimeout(t: TimeoutId, ms: nat)
    ensures var s := Reached(map[t := Timeout(0, ms)], [DoReset(t), DoCancelAll], []);
            t in s.timeouts && s.timeouts[t].timerId != 0 && OwnTimers(s, t) == {} && !OwnsOne(s, t)
  {
    var start := Initial(map[t := Timeout(0, ms)]);
    var armed := Do(start, DoReset(t));
    assert [DoReset(t), DoCancelAll][1..] == [DoCancelAll] && [DoCancelAll][1..] == [];
    assert DoAll(start, [DoReset(t), DoCancelAll]) == CancelAll(armed);
    assert OwnTimers(CancelAll(armed), t) == {};
  }

  // ---------------------------------------------------------------- the class

  /** The loop of CancelTimer, which erases every entry with the id. */
  method Erase(timers: seq<Pending>, id: nat) returns (kept: seq<Pending>, found: bool)
    ensures kept == Without(timers, id)
    ensures found <==> id in Ids(timers)
  {
    found, kept := false, [];
    var i := 0;
    while i < |timers|
      invariant 0 <= i <= |timers|
      invariant kept + Without(timers[i..], id) == Without(timers, id)
      invariant found <==> exists j :: 0 <= j < i && timers[j].id == id
    {
      assert timers[i..][1..] == timers[i + 1..];
      if timers[i].id == id {
        found := true;
      } else {
        kept := kept + [timers[i]];
      }
      i := i + 1;
    }
  }

  class Transport {
    var queue: seq<QueuedMessage>
    var timers: seq<Pending>
    var vtime: nat
    var lastTimerId: nat
    var processTimers: bool
    var timeouts: map<TimeoutId, Timeout>
    ghost var queued: seq<QueuedMessage>
    ghost var delivered: seq<QueuedMessage>
    ghost var fired: seq<Pending>
    ghost var cancelled: set<nat>

    ghost function View(): State
      reads this
    {
      State(queue, timers, vtime, lastTimerId, processTimers, timeouts, queued, delivered, fired, cancelled)
    }

    constructor (timeouts: map<TimeoutId, Timeout>)
      ensures View() == Initial(timeouts)
    {
      queue, timers, vtime, lastTimerId, processTimers := [], [], 0, 0, true;
      this.timeouts := timeouts;
      queued, delivered, fired, cancelled := [], [], [], {};
    }

    method Timer(ms: nat, cb: Callback) returns (id: nat)
      modifies this
      ensures View() == SetTimer(old(View()), ms, cb) && id == lastTimerId
    {
      lastTimerId := lastTimerId + 1;
      id := lastTimerId;
      timers := Insert(timers, Pending(vtime + ms, id, cb));
    }

    method Cancel(id: nat) returns (found: bool)
      modifies this
      ensures View() == CancelTimer(old(View()), id)
      ensures found <==> id in Ids(old(timers))
    {
      var kept;
      kept, found := Erase(timers, id);
      timers := kept;
      cancelled := cancelled + (if found then {id} else {});
    }

    method SendMessage(q: QueuedMessage, delay: nat)
      modifies this
      ensures View() == Send(old(View()), q, delay)
    {
      if delay == 0 {
        queue := queue + [q];
        queued := queued + [q];
      } else {
        var _ := Timer(delay, Push(q));
      }
    }

    method CancelAllTimers()
      modifies this
      ensures View() == CancelAll(old(View()))
    {
      cancelled := cancelled + Ids(timers);
      timers := [];
      processTimers := false;
    }

    method Stop(t: TimeoutId)
      requires t in timeouts
      modifies this
      ensures View() == StopTimeout(old(View()), t)
    {
      if timeouts[t].timerId > 0 {
        var _ := Cancel(timeouts[t].timerId);
        timeouts := timeouts[t := timeouts[t].(timerId := 0)];
      }
    }

    method Reset(t: TimeoutId) returns (ms: nat)
      requires t in timeouts
      modifies this
      ensures View() == ResetTimeout(old(View()), t) && ms == timeouts[t].ms
    {
      Stop(t);
      var id := Timer(timeouts[t].ms, Fires(t));
      timeouts := timeouts[t := timeouts[t].(timerId := id)];
      ms := timeouts[t].ms;
    }

    method Perform(actions: seq<Action>)
      modifies this
      ensures View() == DoAll(old(View()), actions)
    {
      ghost var start := View();
      assert actions[0..] == actions;
      for i := 0 to |actions|
        invariant DoAll(View(), actions[i..]) == DoAll(start, actions)
      {
        assert actions[i..][1..] == actions[i + 1..];
        match actions[i]
        case DoSend(q, delay) => SendMessage(q, delay);
        case DoTimer(ms) => var _ := Timer(ms, User);
        case DoCancel(id) => var _ := Cancel(id);
        case DoCancelAll => CancelAllTimers();
        case DoReset(t) => if t in timeouts { var _ := Reset(t); }
        case DoStop(t) => if t in timeouts { Stop(t); }
        case DoSetTimeout(t, ms) =>
          if t in timeouts && timeouts[t].timerId == 0 { timeouts := timeouts[t := Timeout(0, ms)]; }
      }
    }

    /** Run, its handlers acting out the script, until it is quiet or the script ends. ok is
        false if the assertion on the clock ever fails. */
    method Run(script: seq<seq<Action>>) returns (ok: bool)
      requires Inv(View())
      modifies this
      ensures ok && View() == RunScript(old(View()), script) && Inv(View())
    {
      ghost var start := View();
      ok := true;
      var i := 0;
      assert script[0..] == script;
      while i < |script| && (queue != [] || (processTimers && timers != []))
        invariant 0 <= i <= |script| && ok && Inv(View())
        invariant RunScript(View(), script[i..]) == RunScript(start, script)
      {
        assert script[i..][1..] == script[i + 1..];
        ok := RunOnce(script[i]);
        i := i + 1;
      }
    }

    /** One round: the front message, or the first timer, whose due time the source asserts on. */
    method RunOnce(actions: seq<Action>) returns (ok: bool)
      requires Inv(View()) && (queue != [] || (processTimers && timers != []))
      modifies this
      ensures ok && View() == Next(old(View()), actions) && Inv(View())
    {
      NextKeeps(View(), actions);
      ok := true;
      if queue != [] {
        DeliverFront(actions);
      } else {
        TakeFirst(View());
        ok := timers[0].when >= vtime;
        FireFirst(actions);
      }
    }

    method DeliverFront(actions: seq<Action>)
      requires queue != []
      modifies this
      ensures View() == Deliver(old(View()), actions)
    {
      ghost var front := queue[0];
      Perform(actions);
      queue := queue[1..];
      delivered := delivered + [front];
    }

    method FireFirst(actions: seq<Action>)
      requires timers != []
      modifies this
      ensures View() == Fire(old(View()), actions)
    {
      var t := timers[0];
      vtime := t.when;
      timers := timers[1..];
      fired := fired + [t];
      match t.cb
      case User => Perform(actions);
      case Push(q) => SendMessage(q, 0);
      case Fires(x) =>
        if x in timeouts {
          timeouts := timeouts[x := timeouts[x].(timerId := 0)];
          var _ := Reset(x);
        }
        Perform(actions);
    }
  }
}
