/**
 Whole runs of the simulated transport (src/lib/simtransport.cc): what becomes of every message that is sent and
 of every timer that is set, and when a timeout (src/lib/transport.cc) fires.
 */
module SimRuns {
  import opened SimTransport

  // ---------------------------------------------------------------- the log of a run

  /** A message sent without delay, a timer set, or a timer whose time has come. */
  datatype Happening = Sent(q: QueuedMessage) | Made(t: Pending) | Ran(t: Pending)

  /** What an action of a handler does, read off the action, the clock and the timer ids given out. */
  function Logged(s: State, a: Action): seq<Happening> {
    match a
    case DoSend(q, delay) =>
      if delay == 0 then [Sent(q)] else [Made(Pending(s.vtime + delay, s.lastTimerId + 1, Push(q)))]
    case DoTimer(ms) => [Made(Pending(s.vtime + ms, s.lastTimerId + 1, User))]
    case DoReset(t) =>
      if t in s.timeouts then [Made(Pending(s.vtime + s.timeouts[t].ms, s.lastTimerId + 1, Fires(t)))] else []
    case _ => []
  }

  function ActionLog(s: State, actions: seq<Action>): seq<Happening>
    decreases |actions|
  {
    if actions == [] then [] else Logged(s, actions[0]) + ActionLog(Do(s, actions[0]), actions[1..])
  }

  /** A timeout whose timer has come is armed again at once. */
  function Rearmed(s: State, t: Pending): seq<Happening> {
    if t.cb.Fires? && t.cb.timeout in s.timeouts
    then [Made(Pending(t.when + s.timeouts[t.cb.timeout].ms, s.lastTimerId + 1, t.cb))] else []
  }

  /** One round: a handler acts on the first message, or the first timer runs, whose callback may act. */
  function RoundLog(s: State, actions: seq<Action>): seq<Happening> {
    if s.queue != [] then ActionLog(s, actions)
    else if s.processTimers && s.timers != [] then
      [Ran(s.timers[0])] + Rearmed(s, s.timers[0]) +
      if s.timers[0].cb.Push? then [] else ActionLog(HandlerStart(s), actions)
    else []
  }

  function RunLog(s: State, script: seq<seq<Action>>): seq<Happening>
    decreases |script|
  {
    if script == [] || Quiet(s) then [] else RoundLog(s, script[0]) + RunLog(Next(s, script[0]), script[1..])
  }

  /** The messages that come into the queue: those sent without delay, and those whose timers run. */
  function Arrivals(log: seq<Happening>): seq<QueuedMessage> {
    if log == [] then [] else Arrival(log[0]) + Arrivals(log[1..])
  }

  function TimersRun(log: seq<Happening>): seq<Pending> {
    if log == [] then [] else (if log[0].Ran? then [log[0].t] else []) + TimersRun(log[1..])
  }

  function Arrival(h: Happening): seq<QueuedMessage> {
    match h
    case Sent(q) => [q]
    case Made(_) => []
    case Ran(t) => if t.cb.Push? then [t.cb.message] else []
  }

  lemma {:induction false} ArrivalsAppend(a: seq<Happening>, b: seq<Happening>)
    ensures Arrivals(a + b) == Arrivals(a) + Arrivals(b)
  {
    if a == [] {
      assert a + b == b;
    } else {
      ArrivalsAppend(a[1..], b);
      assert (a + b)[1..] == a[1..] + b && (a + b)[0] == a[0];
    }
  }

  lemma {:induction false} TimersAppend(a: seq<Happening>, b: seq<Happening>)
    ensures TimersRun(a + b) == TimersRun(a) + TimersRun(b)
  {
    if a == [] {
      assert a + b == b;
    } else {
      TimersAppend(a[1..], b);
      assert (a + b)[1..] == a[1..] + b && (a + b)[0] == a[0];
    }
  }

  // ---------------------------------------------------------------- the queue

  /** From s to t the log has happened: it says what was queued and which timers ran. */
  ghost predicate Happened(s: State, log: seq<Happening>, t: State) {
    t.queued == s.queued + Arrivals(log) && t.fired == s.fired + TimersRun(log)
  }

  lemma HappenedThen(s: State, a: seq<Happening>, t: State, b: seq<Happening>, u: State)
    requires Happened(s, a, t) && Happened(t, b, u)
    ensures Happened(s, a + b, u)
  {
    ArrivalsAppend(a, b);
    TimersAppend(a, b);
  }

  lemma DoHappens(s: State, a: Action)
    ensures Happened(s, Logged(s, a), Do(s, a))
  {
    var log := Logged(s, a);
    if log != [] {
      assert log[1..] == [];
    }
  }

  lemma {:induction false} DoAllHappens(s: State, actions: seq<Action>)
    ensures Happened(s, ActionLog(s, actions), DoAll(s, actions))
    decreases |actions|
  {
    if actions != [] {
      DoHappens(s, actions[0]);
      DoAllHappens(Do(s, actions[0]), actions[1..]);
      HappenedThen(s, Logged(s, actions[0]), Do(s, actions[0]), ActionLog(Do(s, actions[0]), actions[1..]),
                   DoAll(s, actions));
    }
  }

  lemma FireHappens(s: State)
    requires s.timers != []
    ensures Happened(s, [Ran(s.timers[0])] + Rearmed(s, s.timers[0]), Fire(s, []))
  {
    var t := s.timers[0];
    ArrivalsAppend([Ran(t)], Rearmed(s, t));
    TimersAppend([Ran(t)], Rearmed(s, t));
    assert [Ran(t)][1..] == [];
    if Rearmed(s, t) != [] {
      assert Rearmed(s, t)[1..] == [];
    }
  }

  lemma NextHappens(s: State, actions: seq<Action>)
    ensures Happened(s, RoundLog(s, actions), Next(s, actions))
  {
    if s.queue != [] {
      DoAllHappens(s, actions);
    } else if s.processTimers && s.timers != [] {
      var start := Fire(s, []);
      var first := [Ran(s.timers[0])] + Rearmed(s, s.timers[0]);
      FireHappens(s);
      if s.timers[0].cb.Push? {
        assert first + [] == first;
      } else {
        DoAllHappens(start, actions);
        HappenedThen(s, first, start, ActionLog(start, actions), DoAll(start, actions));
      }
    }
  }

  /** Over every run: the messages ever queued are those sent without delay and those of the delayed sends whose
      timers ran, in the order in which that happened; and the timers that ran are the ones in the log. */
  lemma {:induction false} QueueIsWhatWasSent(s: State, script: seq<seq<Action>>)
    ensures Happened(s, RunLog(s, script), RunScript(s, script))
    decreases |script|
  {
    if script != [] && !Quiet(s) {
      NextHappens(s, script[0]);
      QueueIsWhatWasSent(Next(s, script[0]), script[1..]);
      HappenedThen(s, RoundLog(s, script[0]), Next(s, script[0]), RunLog(Next(s, script[0]), script[1..]),
                   RunScript(s, script));
    }
  }

  // ---------------------------------------------------------------- timers

  /** A timer has run, is pending, or was cancelled. */
  ghost predicate Located(s: State, t: Pending) {
    t in s.fired || t in s.timers || t.id in s.cancelled
  }

  lemma CancelLocates(s: State, id: nat, t: Pending)
    requires Located(s, t)
    ensures Located(CancelTimer(s, id), t)
  {
    WithoutIs(s.timers, id);
  }

  lemma SetLocates(s: State, ms: nat, cb: Callback, t: Pending)
    ensures Located(s, t) ==> Located(SetTimer(s, ms, cb), t)
    ensures Pending(s.vtime + ms, s.lastTimerId + 1, cb) in SetTimer(s, ms, cb).timers
  {
    InsertMembers(s.timers, Pending(s.vtime + ms, s.lastTimerId + 1, cb));
  }

  lemma ResetLocates(s: State, x: TimeoutId, t: Pending)
    requires x in s.timeouts
    ensures Located(s, t) ==> Located(ResetTimeout(s, x), t)
    ensures Pending(s.vtime + s.timeouts[x].ms, s.lastTimerId + 1, Fires(x)) in ResetTimeout(s, x).timers
  {
    if Located(s, t) {
      CancelLocates(s, s.timeouts[x].timerId, t);
    }
    SetLocates(StopTimeout(s, x), s.timeouts[x].ms, Fires(x), t);
  }

  lemma DoLocates(s: State, a: Action, t: Pending)
    ensures Located(s, t) || Made(t) in Logged(s, a) ==> Located(Do(s, a), t)
  {
    match a
    case DoSend(q, delay) => if delay > 0 { SetLocates(s, delay, Push(q), t); }
    case DoTimer(ms) => SetLocates(s, ms, User, t);
    case DoCancel(id) => if Located(s, t) { CancelLocates(s, id, t); }
    case DoCancelAll =>
    case DoReset(x) => if x in s.timeouts { ResetLocates(s, x, t); }
    case DoStop(x) => if x in s.timeouts && Located(s, t) { CancelLocates(s, s.timeouts[x].timerId, t); }
    case DoSetTimeout(x, ms) =>
  }

  lemma {:induction false} DoAllLocates(s: State, actions: seq<Action>, t: Pending)
    requires Located(s, t) || Made(t) in ActionLog(s, actions)
    ensures Located(DoAll(s, actions), t)
    decreases |actions|
  {
    if actions != [] {
      DoLocates(s, actions[0], t);
      DoAllLocates(Do(s, actions[0]), actions[1..], t);
    }
  }

  lemma FireLocates(s: State, t: Pending)
    requires s.timers != [] && (Located(s, t) || Made(t) in Rearmed(s, s.timers[0]))
    ensures Located(Fire(s, []), t)
  {
    var first := s.timers[0];
    var s' := s.(vtime := first.when, timers := s.timers[1..], fired := s.fired + [first]);
    assert s.timers == [first] + s.timers[1..];
    if first.cb.Fires? && first.cb.timeout in s.timeouts {
      var x := first.cb.timeout;
      ResetLocates(s'.(timeouts := s'.timeouts[x := s'.timeouts[x].(timerId := 0)]), x, t);
    }
  }

  lemma NextLocates(s: State, actions: seq<Action>, t: Pending)
    requires Located(s, t) || Made(t) in RoundLog(s, actions)
    ensures Located(Next(s, actions), t)
  {
    if s.queue != [] {
      DoAllLocates(s, actions, t);
    } else if s.processTimers && s.timers != [] {
      if Located(s, t) || Made(t) in Rearmed(s, s.timers[0]) {
        FireLocates(s, t);
      }
      if !s.timers[0].cb.Push? {
        DoAllLocates(Fire(s, []), actions, t);
      }
    }
  }

  /** Over every run, each timer that was set has run, is pending with the due time it was set for, or was
      cancelled: no delayed message disappears. */
  lemma {:induction false} NoTimerIsLost(s: State, script: seq<seq<Action>>, t: Pending)
    requires Located(s, t) || Made(t) in RunLog(s, script)
    ensures Located(RunScript(s, script), t)
    decreases |script|
  {
    if script != [] && !Quiet(s) {
      if Located(s, t) || Made(t) in RoundLog(s, script[0]) {
        NextLocates(s, script[0], t);
      }
      NoTimerIsLost(Next(s, script[0]), script[1..], t);
    }
  }

  /** The log of a run from the start, with its setup. */
  function WholeLog(timeouts: map<TimeoutId, Timeout>, setup: seq<Action>, script: seq<seq<Action>>): seq<Happening> {
    ActionLog(Initial(timeouts), setup) + RunLog(DoAll(Initial(timeouts), setup), script)
  }

  lemma WholeRun(timeouts: map<TimeoutId, Timeout>, setup: seq<Action>, script: seq<seq<Action>>)
    ensures var s, log := Reached(timeouts, setup, script), WholeLog(timeouts, setup, script);
            Inv(s) && s.queued == Arrivals(log) && s.fired == TimersRun(log) && s.queued == s.delivered + s.queue
  {
    var init := Initial(timeouts);
    var start := DoAll(init, setup);
    DoAllHappens(init, setup);
    QueueIsWhatWasSent(start, script);
    HappenedThen(init, ActionLog(init, setup), start, RunLog(start, script), Reached(timeouts, setup, script));
    DoAllKeeps(init, setup);
    RunKeeps(start, script);
  }

  lemma WholeRunLocates(timeouts: map<TimeoutId, Timeout>, setup: seq<Action>, script: seq<seq<Action>>, t: Pending)
    requires Made(t) in WholeLog(timeouts, setup, script)
    ensures Located(Reached(timeouts, setup, script), t)
  {
    var init := Initial(timeouts);
    if Made(t) in ActionLog(init, setup) {
      DoAllLocates(init, setup, t);
    }
    NoTimerIsLost(DoAll(init, setup), script, t);
  }

  lemma {:induction false} RanArrives(log: seq<Happening>, t: Pending)
    requires t in TimersRun(log) && t.cb.Push?
    ensures t.cb.message in Arrivals(log)
  {
    if log[0] != Ran(t) {
      RanArrives(log[1..], t);
    }
  }

  /** When a run has come to rest and timers were processed to the end, exactly what arrived in the queue has been
      delivered, in that order, and each delayed message was delivered unless its timer was cancelled. */
  lemma EverythingIsDelivered(timeouts: map<TimeoutId, Timeout>, setup: seq<Action>, script: seq<seq<Action>>, t: Pending)
    requires var s := Reached(timeouts, setup, script); Quiet(s) && s.processTimers
    ensures var s, log := Reached(timeouts, setup, script), WholeLog(timeouts, setup, script);
            && s.delivered == Arrivals(log)
            && (Made(t) in log && t.id !in s.cancelled ==> t in s.fired && (t.cb.Push? ==> t.cb.message in s.delivered))
  {
    var s, log := Reached(timeouts, setup, script), WholeLog(timeouts, setup, script);
    WholeRun(timeouts, setup, script);
    assert s.delivered + [] == s.delivered;
    if Made(t) in log && t.id !in s.cancelled {
      WholeRunLocates(timeouts, setup, script, t);
      if t.cb.Push? {
        RanArrives(log, t);
      }
    }
  }

  // ---------------------------------------------------------------- who cancels

  predicate Cancels(a: Action) {
    a.DoCancel? || a.DoCancelAll?
  }

  predicate NoCancels(script: seq<seq<Action>>) {
    forall actions <- script :: forall a <- actions :: !Cancels(a)
  }

  /** A timer that belongs to no timeout and has run or is pending. */
  ghost predicate Kept(s: State, t: Pending) {
    !t.cb.Fires? && (t in s.fired || t in s.timers)
  }

  lemma StopKeepsOthers(s: State, x: TimeoutId, t: Pending)
    requires Inv(s) && TimeoutInv(s) && x in s.timeouts && Kept(s, t)
    ensures Kept(StopTimeout(s, x), t)
  {
    if s.timeouts[x].timerId > 0 {
      assert Armed(s, x);
      var p :| p in s.timers && p.id == s.timeouts[x].timerId && p.cb == Fires(x);
      WithoutIs(s.timers, p.id);
      if t in s.timers {
        DistinctIds(s, p, t);
      }
    }
  }

  lemma DoKeepsOthers(s: State, a: Action, t: Pending)
    requires Inv(s) && TimeoutInv(s) && !Cancels(a)
    requires Kept(s, t) || (!t.cb.Fires? && Made(t) in Logged(s, a))
    ensures Kept(Do(s, a), t)
  {
    match a
    case DoSend(q, delay) => if delay > 0 { InsertMembers(s.timers, Pending(s.vtime + delay, s.lastTimerId + 1, Push(q))); }
    case DoTimer(ms) => InsertMembers(s.timers, Pending(s.vtime + ms, s.lastTimerId + 1, User));
    case DoReset(x) =>
      if x in s.timeouts {
        StopKeepsOthers(s, x, t);
        var s' := StopTimeout(s, x);
        InsertMembers(s'.timers, Pending(s'.vtime + s'.timeouts[x].ms, s'.lastTimerId + 1, Fires(x)));
      }
    case DoStop(x) => if x in s.timeouts { StopKeepsOthers(s, x, t); }
    case DoSetTimeout(x, ms) =>
  }

  lemma {:induction false} DoAllKeepsOthers(s: State, actions: seq<Action>, t: Pending)
    requires Inv(s) && TimeoutInv(s) && AllPolite(s, actions) && forall a <- actions :: !Cancels(a)
    requires Kept(s, t) || (!t.cb.Fires? && Made(t) in ActionLog(s, actions))
    ensures Kept(DoAll(s, actions), t)
    decreases |actions|
  {
    if actions != [] {
      DoKeeps(s, actions[0]);
      DoKeepsTimeouts(s, actions[0]);
      if Kept(s, t) || Made(t) in Logged(s, actions[0]) {
        DoKeepsOthers(s, actions[0], t);
      }
      DoAllKeepsOthers(Do(s, actions[0]), actions[1..], t);
    }
  }

  lemma FireKeepsOthers(s: State, t: Pending)
    requires Inv(s) && TimeoutInv(s) && s.timers != [] && Kept(s, t)
    ensures Kept(Fire(s, []), t)
  {
    var first := s.timers[0];
    assert s.timers == [first] + s.timers[1..];
    if first.cb.Fires? && first.cb.timeout in s.timeouts {
      var x := first.cb.timeout;
      var s' := s.(vtime := first.when, timers := s.timers[1..], fired := s.fired + [first]);
      InsertMembers(s'.timers, Pending(s'.vtime + s'.timeouts[x].ms, s'.lastTimerId + 1, Fires(x)));
    }
  }

  lemma NextKeepsOthers(s: State, actions: seq<Action>, t: Pending)
    requires Inv(s) && TimeoutInv(s) && AllPolite(HandlerStart(s), actions) && forall a <- actions :: !Cancels(a)
    requires Kept(s, t) || (!t.cb.Fires? && Made(t) in RoundLog(s, actions))
    ensures Kept(Next(s, actions), t)
  {
    if s.queue != [] {
      DoAllKeepsOthers(s, actions, t);
    } else if s.processTimers && s.timers != [] {
      FireKeepsTimeouts(s);
      if Kept(s, t) {
        FireKeepsOthers(s, t);
      }
      if !s.timers[0].cb.Push? {
        DoAllKeepsOthers(Fire(s, []), actions, t);
      }
    }
  }

  lemma {:induction false} RunKeepsOthers(s: State, script: seq<seq<Action>>, t: Pending)
    requires Inv(s) && TimeoutInv(s) && PoliteRun(s, script) && NoCancels(script)
    requires Kept(s, t) || (!t.cb.Fires? && Made(t) in RunLog(s, script))
    ensures Kept(RunScript(s, script), t)
    decreases |script|
  {
    if script != [] && !Quiet(s) {
      assert script[0] in script;
      forall actions, a | actions in script[1..] && a in actions ensures !Cancels(a) {
        assert actions in script;
      }
      NextKeeps(s, script[0]);
      NextKeepsTimeouts(s, script[0]);
      if Kept(s, t) || Made(t) in RoundLog(s, script[0]) {
        NextKeepsOthers(s, script[0], t);
      }
      RunKeepsOthers(Next(s, script[0]), script[1..], t);
    }
  }

  /** Only handlers cancel: in a run in which none does, no delayed message is cancelled, by resetting and stopping
      timeouts neither, and so each is delivered once the run has come to rest. */
  lemma EverySentIsDelivered(timeouts: map<TimeoutId, Timeout>, setup: seq<Action>, script: seq<seq<Action>>, t: Pending)
    requires forall x <- timeouts :: timeouts[x].timerId == 0
    requires AllPolite(Initial(timeouts), setup) && PoliteRun(DoAll(Initial(timeouts), setup), script)
    requires NoCancels([setup]) && NoCancels(script)
    requires Made(t) in WholeLog(timeouts, setup, script) && !t.cb.Fires?
    ensures var s := Reached(timeouts, setup, script);
            && (t in s.fired || t in s.timers)
            && (Quiet(s) && s.processTimers && t.cb.Push? ==> t.cb.message in s.delivered)
  {
    var init := Initial(timeouts);
    var start := DoAll(init, setup);
    assert setup in [setup];
    DoAllKeeps(init, setup);
    DoAllKeepsTimeouts(init, setup);
    if Made(t) in ActionLog(init, setup) {
      DoAllKeepsOthers(init, setup, t);
    }
    RunKeepsOthers(start, script, t);
    WholeRun(timeouts, setup, script);
    if t in Reached(timeouts, setup, script).fired && t.cb.Push? {
      RanArrives(WholeLog(timeouts, setup, script), t);
    }
  }

  // ---------------------------------------------------------------- cancelling everything

  lemma {:induction false} DoAllStaysOff(s: State, actions: seq<Action>)
    ensures !s.processTimers ==> !DoAll(s, actions).processTimers
    ensures DoAll(s, actions).fired == s.fired
    decreases |actions|
  {
    if actions != [] {
      DoAllStaysOff(Do(s, actions[0]), actions[1..]);
    }
  }

  /** Once all timers have been cancelled none ever runs again, not even one that is set afterwards. */
  lemma {:induction false} NothingRunsAfterCancelAll(s: State, script: seq<seq<Action>>)
    requires !s.processTimers
    ensures RunScript(s, script).fired == s.fired && !RunScript(s, script).processTimers
    decreases |script|
  {
    if script != [] && !Quiet(s) {
      DoAllStaysOff(s, script[0]);
      NothingRunsAfterCancelAll(Next(s, script[0]), script[1..]);
    }
  }

  lemma CancelAllStopsTimers(s: State, script: seq<seq<Action>>)
    ensures RunScript(Do(s, DoCancelAll), script).fired == s.fired
  {
    NothingRunsAfterCancelAll(Do(s, DoCancelAll), script);
  }

  // ---------------------------------------------------------------- timeouts fire at regular times

  /** The timeout is active and its timer is due at this time. */
  ghost predicate DueAt(s: State, x: TimeoutId, ms: nat, due: nat) {
    && x in s.timeouts && s.timeouts[x].timerId != 0 && s.timeouts[x].ms == ms
    && Pending(due, s.timeouts[x].timerId, Fires(x)) in s.timers
  }

  /** Nobody resets, stops or cancels it, or changes its delay. */
  predicate HandsOff(a: Action, x: TimeoutId) {
    !Cancels(a) && a != DoReset(x) && a != DoStop(x) && !(a.DoSetTimeout? && a.t == x)
  }

  lemma StopLeavesDue(s: State, y: TimeoutId, x: TimeoutId, ms: nat, due: nat)
    requires Inv(s) && TimeoutInv(s) && y in s.timeouts && y != x && DueAt(s, x, ms, due)
    ensures DueAt(StopTimeout(s, y), x, ms, due)
  {
    if s.timeouts[y].timerId > 0 {
      assert Armed(s, y);
      var p :| p in s.timers && p.id == s.timeouts[y].timerId && p.cb == Fires(y);
      WithoutIs(s.timers, p.id);
      DistinctIds(s, p, Pending(due, s.timeouts[x].timerId, Fires(x)));
    }
  }

  lemma SetLeavesDue(s: State, wait: nat, cb: Callback, x: TimeoutId, ms: nat, due: nat)
    requires DueAt(s, x, ms, due)
    ensures DueAt(SetTimer(s, wait, cb), x, ms, due)
  {
    InsertMembers(s.timers, Pending(s.vtime + wait, s.lastTimerId + 1, cb));
  }

  lemma ResetLeavesDue(s: State, y: TimeoutId, x: TimeoutId, ms: nat, due: nat)
    requires Inv(s) && TimeoutInv(s) && y in s.timeouts && y != x && DueAt(s, x, ms, due)
    ensures DueAt(ResetTimeout(s, y), x, ms, due)
  {
    StopLeavesDue(s, y, x, ms, due);
    SetLeavesDue(StopTimeout(s, y), s.timeouts[y].ms, Fires(y), x, ms, due);
  }

  lemma DoLeavesDue(s: State, a: Action, x: TimeoutId, ms: nat, due: nat)
    requires Inv(s) && TimeoutInv(s) && HandsOff(a, x) && DueAt(s, x, ms, due)
    ensures DueAt(Do(s, a), x, ms, due)
  {
    match a
    case DoSend(q, delay) => if delay > 0 { SetLeavesDue(s, delay, Push(q), x, ms, due); }
    case DoTimer(wait) => SetLeavesDue(s, wait, User, x, ms, due);
    case DoReset(y) => if y in s.timeouts { ResetLeavesDue(s, y, x, ms, due); }
    case DoStop(y) => if y in s.timeouts { StopLeavesDue(s, y, x, ms, due); }
    case DoSetTimeout(y, wait) =>
  }

  lemma {:induction false} DoAllLeavesDue(s: State, actions: seq<Action>, x: TimeoutId, ms: nat, due: nat)
    requires Inv(s) && TimeoutInv(s) && AllPolite(s, actions) && forall a <- actions :: HandsOff(a, x)
    requires DueAt(s, x, ms, due)
    ensures DueAt(DoAll(s, actions), x, ms, due)
    decreases |actions|
  {
    if actions != [] {
      DoKeeps(s, actions[0]);
      DoKeepsTimeouts(s, actions[0]);
      DoLeavesDue(s, actions[0], x, ms, due);
      DoAllLeavesDue(Do(s, actions[0]), actions[1..], x, ms, due);
    }
  }

  /** Firing its timer arms it again for one delay later; firing another leaves it as it is. */
  lemma FireMovesDue(s: State, x: TimeoutId, ms: nat, due: nat)
    requires Inv(s) && TimeoutInv(s) && s.timers != [] && DueAt(s, x, ms, due)
    ensures if s.timers[0].cb == Fires(x) then s.timers[0].when == due && DueAt(Fire(s, []), x, ms, due + ms)
            else DueAt(Fire(s, []), x, ms, due)
  {
    var first, own := s.timers[0], Pending(due, s.timeouts[x].timerId, Fires(x));
    var s' := s.(vtime := first.when, timers := s.timers[1..], fired := s.fired + [first]);
    assert s.timers == [first] + s.timers[1..];
    if first.cb.Fires? {
      var y := first.cb.timeout;
      if y == x && first != own {
        DistinctIds(s, first, own);
      }
      InsertMembers(s'.timers, Pending(s'.vtime + s'.timeouts[y].ms, s'.lastTimerId + 1, Fires(y)));
    }
  }

  lemma NextMovesDue(s: State, actions: seq<Action>, x: TimeoutId, ms: nat, due: nat)
    requires Inv(s) && TimeoutInv(s) && AllPolite(HandlerStart(s), actions) && forall a <- actions :: HandsOff(a, x)
    requires DueAt(s, x, ms, due)
    ensures var times := TimesOf(TimersRun(RoundLog(s, actions)), x);
            (times == [] && DueAt(Next(s, actions), x, ms, due)) ||
            (times == [due] && DueAt(Next(s, actions), x, ms, due + ms))
  {
    if s.queue != [] {
      NoneRun(s, actions);
      DoAllLeavesDue(s, actions, x, ms, due);
    } else if s.processTimers && s.timers != [] {
      var first, start := s.timers[0], Fire(s, []);
      FireKeepsTimeouts(s);
      FireMovesDue(s, x, ms, due);
      OneRuns(s, actions);
      assert [first][1..] == [];
      if !first.cb.Push? {
        DoAllLeavesDue(start, actions, x, ms, if first.cb == Fires(x) then due + ms else due);
      }
    }
  }

  lemma {:induction false} NoneRun(s: State, actions: seq<Action>)
    ensures TimersRun(ActionLog(s, actions)) == []
    decreases |actions|
  {
    if actions != [] {
      var log := Logged(s, actions[0]);
      assert log != [] ==> log[1..] == [];
      TimersAppend(log, ActionLog(Do(s, actions[0]), actions[1..]));
      NoneRun(Do(s, actions[0]), actions[1..]);
    }
  }

  lemma OneRuns(s: State, actions: seq<Action>)
    requires s.queue == [] && s.processTimers && s.timers != []
    ensures TimersRun(RoundLog(s, actions)) == [s.timers[0]]
  {
    var t := s.timers[0];
    var first := [Ran(t)] + Rearmed(s, t);
    assert [Ran(t)][1..] == [] && (Rearmed(s, t) != [] ==> Rearmed(s, t)[1..] == []);
    TimersAppend([Ran(t)], Rearmed(s, t));
    NoneRun(HandlerStart(s), actions);
    TimersAppend(first, if t.cb.Push? then [] else ActionLog(HandlerStart(s), actions));
  }

  /** When the timeout fired. */
  function TimesOf(fired: seq<Pending>, x: TimeoutId): seq<nat> {
    if fired == [] then [] else TimeOf(fired[0], x) + TimesOf(fired[1..], x)
  }

  function TimeOf(t: Pending, x: TimeoutId): seq<nat> {
    if t.cb == Fires(x) then [t.when] else []
  }

  lemma {:induction false} TimesAppend(a: seq<Pending>, b: seq<Pending>, x: TimeoutId)
    ensures TimesOf(a + b, x) == TimesOf(a, x) + TimesOf(b, x)
  {
    if a == [] {
      assert a + b == b;
    } else {
      TimesAppend(a[1..], b, x);
      assert (a + b)[1..] == a[1..] + b && (a + b)[0] == a[0];
    }
  }

  predicate AllHandsOff(script: seq<seq<Action>>, x: TimeoutId) {
    forall actions <- script :: forall a <- actions :: HandsOff(a, x)
  }

  /** The first time is the one given, and each other is one delay after the one before. */
  predicate Regular(times: seq<nat>, ms: nat, due: nat) {
    forall k :: 0 <= k < |times| ==> times[k] == if k == 0 then due else times[k - 1] + ms
  }

  function NextDue(times: seq<nat>, ms: nat, due: nat): nat {
    if times == [] then due else times[|times| - 1] + ms
  }

  /** A timeout that is left alone fires when it is due and then once every delay, and nothing that other handlers,
      timeouts and messages do moves it; it is then due one delay after its last firing. */
  lemma {:induction false} FiresRegularly(s: State, script: seq<seq<Action>>, x: TimeoutId, ms: nat, due: nat)
    requires Inv(s) && TimeoutInv(s) && PoliteRun(s, script) && DueAt(s, x, ms, due) && AllHandsOff(script, x)
    ensures var times := TimesOf(TimersRun(RunLog(s, script)), x);
            Regular(times, ms, due) && DueAt(RunScript(s, script), x, ms, NextDue(times, ms, due))
    decreases |script|
  {
    if script != [] && !Quiet(s) {
      var t, first, rest := Next(s, script[0]), RoundLog(s, script[0]), RunLog(Next(s, script[0]), script[1..]);
      assert script[0] in script;
      forall actions, a | actions in script[1..] && a in actions ensures HandsOff(a, x) {
        assert actions in script;
      }
      NextKeeps(s, script[0]);
      NextKeepsTimeouts(s, script[0]);
      NextMovesDue(s, script[0], x, ms, due);
      var now, later := TimesOf(TimersRun(first), x), TimesOf(TimersRun(rest), x);
      FiresRegularly(t, script[1..], x, ms, NextDue(now, ms, due));
      TimersAppend(first, rest);
      TimesAppend(TimersRun(first), TimersRun(rest), x);
      RegularGoesOn(now, later, ms, due);
    }
  }

  lemma RegularGoesOn(now: seq<nat>, later: seq<nat>, ms: nat, due: nat)
    requires (now == [] || now == [due]) && Regular(later, ms, NextDue(now, ms, due))
    ensures Regular(now + later, ms, due) && NextDue(now + later, ms, due) == NextDue(later, ms, NextDue(now, ms, due))
  {
    var times := now + later;
    forall k | 0 <= k < |times|
      ensures times[k] == if k == 0 then due else times[k - 1] + ms
    {
      if k >= |now| {
        assert times[k] == later[k - |now|] && (k > |now| ==> times[k - 1] == later[k - 1 - |now|]);
      }
    }
  }

  /** These are all its firings: timers that ran are recorded in order, and no other way. */
  lemma FiringsAreRecorded(s: State, script: seq<seq<Action>>, x: TimeoutId)
    ensures TimesOf(RunScript(s, script).fired, x) == TimesOf(s.fired, x) + TimesOf(TimersRun(RunLog(s, script)), x)
  {
    QueueIsWhatWasSent(s, script);
    TimesAppend(s.fired, TimersRun(RunLog(s, script)), x);
  }

  /** Setting the delay of a stopped timeout and resetting it makes it due after the new delay. */
  lemma NewDelayCounts(s: State, x: TimeoutId, ms: nat)
    requires x in s.timeouts && s.timeouts[x].timerId == 0
    ensures DueAt(Do(Do(s, DoSetTimeout(x, ms)), DoReset(x)), x, ms, s.vtime + ms)
  {
    var s' := Do(s, DoSetTimeout(x, ms));
    InsertMembers(s'.timers, Pending(s'.vtime + ms, s'.lastTimerId + 1, Fires(x)));
  }
}
