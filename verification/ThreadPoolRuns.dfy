/**
 What holds in every state of every run of the thread pool, however its threads interleave.
 */
module ThreadPoolRuns {
  import opened Arithmetic
  import opened Bytes
  import opened ThreadPool
  import opened ThreadPoolSteps

  /** Under the invariant no step follows a pointer to something that is not there. */
  lemma NothingDangles(s: State, a: Step)
    requires Inv(s) && Guard(s, a)
    ensures Defined(s, a)
  {
    match a
    case AddIndexed(_) =>
    case Begin(_, _, _, _) =>
    case TakeInfo(_) => if s.free != [] { Known(s, InFree(|s.free| - 1)); }
    case TakeEvent(p) => Known(s, InDispatch(p));
    case Submit(p) => Known(s, InDispatch(p));
    case Issue(p) => Known(s, InDispatch(p));
    case Dequeue(_, q, p) => Known(s, InQueue(q, p, QueueAt(s, q, p).popped));
    case Store(w) => Known(s, InWorker(w));
    case Activate(w) => Known(s, InWorker(w));
    case Pick(e) => Known(s, InActive(e));
    case Invoke => Known(s, InLoop);
    case FreeEvent => Known(s, InLoop);
    case FreeInfo => Known(s, InLoop);
  }

  lemma StepLeaves(s: State, a: Step, place: Place)
    requires Inv(s) && Enabled(s, a)
    ensures LeavesAt(s, Exec(s, a), From(s, a), To(s, a), place)
  {
    match a
    case AddIndexed(_) => AddIndexedLeaves(s, a, place);
    case Begin(_, _, _, _) => BeginLeaves(s, a, place);
    case TakeInfo(_) => TakeInfoLeaves(s, a, place);
    case TakeEvent(_) => TakeEventLeaves(s, a, place);
    case Submit(_) => SubmitLeaves(s, a, place);
    case Issue(_) => IssueLeaves(s, a, place);
    case Dequeue(_, _, _) => DequeueLeaves(s, a, place);
    case Store(_) => StoreLeaves(s, a, place);
    case Activate(_) => ActivateLeaves(s, a, place);
    case Pick(_) => PickLeaves(s, a, place);
    case Invoke => InvokeLeaves(s, a, place);
    case FreeEvent => FreeEventLeaves(s, a, place);
    case FreeInfo => FreeInfoLeaves(s, a, place);
  }

  lemma StepMovesInfos(s: State, a: Step)
    requires Inv(s) && Enabled(s, a)
    ensures InfosStay(s, Exec(s, a), From(s, a)) && InfosArrive(s, Exec(s, a), From(s, a), To(s, a))
    ensures EventsStay(s, Exec(s, a), From(s, a)) && EventInv(Exec(s, a))
  {
    match a
    case AddIndexed(_) => AddIndexedInfos(s, a);
    case Begin(_, _, _, _) => BeginInfos(s, a);
    case TakeInfo(_) => TakeInfoInfos(s, a);
    case TakeEvent(_) => TakeEventInfos(s, a);
    case Submit(_) => SubmitInfos(s, a);
    case Issue(_) => IssueInfos(s, a);
    case Dequeue(_, _, _) => DequeueInfos(s, a);
    case Store(_) => StoreInfos(s, a);
    case Activate(_) => ActivateInfos(s, a);
    case Pick(_) => PickInfos(s, a);
    case Invoke => InvokeInfos(s, a);
    case FreeEvent => FreeEventInfos(s, a);
    case FreeInfo => FreeInfoInfos(s, a);
  }

  lemma StepMovesJobs(s: State, a: Step)
    requires Inv(s) && Enabled(s, a)
    ensures JobsStay(s, Exec(s, a), From(s, a)) && JobsArrive(s, Exec(s, a), From(s, a), To(s, a))
  {
    match a
    case AddIndexed(_) => AddIndexedJobs(s, a);
    case Begin(_, _, _, _) => BeginJobs(s, a);
    case TakeInfo(_) => TakeInfoJobs(s, a);
    case TakeEvent(_) => TakeEventJobs(s, a);
    case Submit(_) => SubmitJobs(s, a);
    case Issue(_) => IssueJobs(s, a);
    case Dequeue(_, _, _) => DequeueJobs(s, a);
    case Store(_) => StoreJobs(s, a);
    case Activate(_) => ActivateJobs(s, a);
    case Pick(_) => PickJobs(s, a);
    case Invoke => InvokeJobs(s, a);
    case FreeEvent => FreeEventJobs(s, a);
    case FreeInfo => FreeInfoJobs(s, a);
  }

  lemma StepHolds(s: State, a: Step)
    requires Inv(s) && Enabled(s, a)
    ensures HolderArrives(Exec(s, a), To(s, a))
    ensures CallInv(Exec(s, a))
  {
    match a
    case AddIndexed(_) => AddIndexedHolds(s, a);
    case Begin(_, _, _, _) => BeginHolds(s, a);
    case TakeInfo(_) => TakeInfoHolds(s, a);
    case TakeEvent(_) => TakeEventHolds(s, a);
    case Submit(_) => SubmitHolds(s, a);
    case Issue(_) => IssueHolds(s, a);
    case Dequeue(_, _, _) => DequeueHolds(s, a);
    case Store(_) => StoreHolds(s, a);
    case Activate(_) => ActivateHolds(s, a);
    case Pick(_) => PickHolds(s, a);
    case Invoke => InvokeHolds(s, a);
    case FreeEvent => FreeEventHolds(s, a);
    case FreeInfo => FreeInfoHolds(s, a);
  }

  lemma StepMoves(s: State, a: Step)
    requires Inv(s) && Enabled(s, a)
    ensures Moves(s, Exec(s, a), From(s, a), To(s, a))
  {
    forall place: Place ensures LeavesAt(s, Exec(s, a), From(s, a), To(s, a), place) {
      StepLeaves(s, a, place);
    }
    StepMovesInfos(s, a);
    StepMovesJobs(s, a);
    StepHolds(s, a);
  }

  lemma StepKeeps(s: State, a: Step)
    requires Inv(s) && Enabled(s, a)
    ensures Inv(Exec(s, a))
  {
    var t, from, to := Exec(s, a), From(s, a), To(s, a);
    StepMoves(s, a);
    StepMovesInfos(s, a);
    StepHolds(s, a);
    MovesKeepHeld(s, t, from, to);
    MovesKeepPlaces(s, t, from, to);
    MovesKeepJobs(s, t, from, to);
  }

  // ---------------------------------------------------------------- order

  /** Jobs of one producer that ran from one list. */
  predicate SameLine(a: Run, b: Run) {
    a.job.producer == b.job.producer && Serves(a.worker) == Serves(b.worker)
  }

  /** Per producer and request list, numbers that ran come before numbers that wait, which come
      before the one being dispatched, and all in order. */
  ghost predicate OrderInv(s: State) {
    RanInOrder(s) && RanBeforeWaiting(s) && WaitingInOrder(s)
  }

  ghost predicate RanInOrder(s: State) {
    && (forall a, b :: 0 <= a < b < |s.runs| && SameLine(s.runs[a], s.runs[b]) ==>
          s.runs[a].job.num < s.runs[b].job.num)
    && (forall r <- s.runs :: r.job.producer in s.dispatch ==> r.job.num < s.dispatch[r.job.producer].job.num)
    && (forall r <- s.runs :: r.job.num < s.nextJob)
  }

  ghost predicate RanBeforeWaiting(s: State) {
    forall r <- s.runs, entry <- QueueAt(s, Serves(r.worker), r.job.producer).items :: r.job.num < entry.job.num
  }

  ghost predicate WaitingInOrder(s: State) {
    forall line <- s.queues :: InOrder(s.queues[line].items, line.1, s)
  }

  ghost predicate InOrder(items: seq<Entry>, p: nat, s: State) {
    && (forall j, k :: 0 <= j < k < |items| ==> items[j].job.num < items[k].job.num)
    && (forall k :: 0 <= k < |items| && p in s.dispatch ==> items[k].job.num < s.dispatch[p].job.num)
    && (forall k :: 0 <= k < |items| ==> items[k].job.num < s.nextJob)
  }

  lemma BeginKeepsOrder(s: State, a: Step)
    requires a.Begin? && OrderInv(s) && Enabled(s, a)
    ensures OrderInv(Exec(s, a))
  {}

  lemma SubmitKeepsWaiting(s: State, a: Step)
    requires a.Submit? && WaitingInOrder(s) && Enabled(s, a)
    requires s.dispatch[a.p].job.producer == a.p && s.dispatch[a.p].job.num < s.nextJob
    ensures WaitingInOrder(Exec(s, a))
  {
    var t := Exec(s, a);
    forall line <- t.queues
      ensures InOrder(t.queues[line].items, line.1, t)
    {
      assert InOrder(QueueAt(s, line.0, line.1).items, line.1, s);
    }
  }

  lemma SubmitKeepsRan(s: State, a: Step)
    requires a.Submit? && OrderInv(s) && Enabled(s, a)
    requires s.dispatch[a.p].job.producer == a.p
    ensures RanInOrder(Exec(s, a)) && RanBeforeWaiting(Exec(s, a))
  {}

  lemma DequeueKeepsWaiting(s: State, a: Step)
    requires a.Dequeue? && WaitingInOrder(s) && Enabled(s, a)
    ensures WaitingInOrder(Exec(s, a))
  {
    var t := Exec(s, a);
    forall line <- t.queues
      ensures InOrder(t.queues[line].items, line.1, t)
    {
      assert InOrder(QueueAt(s, line.0, line.1).items, line.1, s);
      if line == (a.q, a.p) {
        RestInOrder(QueueAt(s, a.q, a.p).items, a.p, s, t);
      }
    }
  }

  lemma RestInOrder(items: seq<Entry>, p: nat, s: State, t: State)
    requires items != [] && InOrder(items, p, s) && t.dispatch == s.dispatch && t.nextJob == s.nextJob
    ensures InOrder(items[1..], p, t)
  {}

  lemma DequeueKeepsRan(s: State, a: Step)
    requires a.Dequeue? && OrderInv(s) && Enabled(s, a)
    requires QueueAt(s, a.q, a.p).items[0].job.producer == a.p
    ensures RanInOrder(Exec(s, a))
  {}

  lemma DequeueKeepsRanBefore(s: State, a: Step)
    requires a.Dequeue? && OrderInv(s) && Enabled(s, a)
    requires QueueAt(s, a.q, a.p).items[0].job.producer == a.p
    ensures RanBeforeWaiting(Exec(s, a))
  {}

  predicate SameOrder(s: State, t: State) {
    && t.runs == s.runs && t.queues == s.queues && t.nextJob == s.nextJob
    && forall p <- t.dispatch :: p in s.dispatch && t.dispatch[p].job == s.dispatch[p].job
  }

  lemma SameOrderKeeps(s: State, t: State)
    requires OrderInv(s) && SameOrder(s, t)
    ensures OrderInv(t)
  {}

  lemma OthersKeepOrder(s: State, a: Step)
    requires !a.Begin? && !a.Submit? && !a.Dequeue? && OrderInv(s) && Enabled(s, a)
    ensures OrderInv(Exec(s, a))
  {
    assert SameOrder(s, Exec(s, a));
    SameOrderKeeps(s, Exec(s, a));
  }

  lemma StepKeepsOrder(s: State, a: Step)
    requires Inv(s) && OrderInv(s) && Enabled(s, a)
    ensures OrderInv(Exec(s, a))
  {
    if a.Begin? {
      BeginKeepsOrder(s, a);
    } else if a.Submit? {
      SubmitKeepsOrder(s, a);
    } else if a.Dequeue? {
      DequeueKeepsOrder(s, a);
    } else {
      OthersKeepOrder(s, a);
    }
  }

  lemma SubmitKeepsOrder(s: State, a: Step)
    requires a.Submit? && Inv(s) && OrderInv(s) && Enabled(s, a)
    ensures OrderInv(Exec(s, a))
  {
    Known(s, InDispatch(a.p));
    SubmitKeepsWaiting(s, a);
    SubmitKeepsRan(s, a);
  }

  lemma FrontIsProducers(s: State, a: Step)
    requires a.Dequeue? && HeldInv(s) && Enabled(s, a)
    ensures QueueAt(s, a.q, a.p).items[0].job.producer == a.p
  {
    Known(s, InQueue(a.q, a.p, QueueAt(s, a.q, a.p).popped));
  }

  lemma DequeueKeepsOrder(s: State, a: Step)
    requires a.Dequeue? && Inv(s) && OrderInv(s) && Enabled(s, a)
    ensures OrderInv(Exec(s, a))
  {
    FrontIsProducers(s, a);
    DequeueKeepsWaiting(s, a);
    DequeueKeepsRan(s, a);
    DequeueKeepsRanBefore(s, a);
  }

  // ---------------------------------------------------------------- lists

  /** The entry is on the list that its target had when it was put there. */
  predicate RightList(job: Job, total: nat, q: List) {
    (job.target.ById? ==> total > 0) && q == ListFor(job.target, total)
  }

  ghost predicate ListInv(s: State) {
    && (forall line <- s.queues, entry <- s.queues[line].items :: RightList(entry.job, entry.total, line.0))
    && (forall r <- s.runs :: RightList(r.job, r.total, Serves(r.worker)))
  }

  lemma StepKeepsLists(s: State, a: Step)
    requires ListInv(s) && Enabled(s, a)
    ensures ListInv(Exec(s, a))
  {
    var t := Exec(s, a);
    if a.Submit? || a.Dequeue? {
      forall line <- t.queues, entry <- t.queues[line].items
        ensures RightList(entry.job, entry.total, line.0)
      {
        assert || (a.Submit? && entry == EntryOf(s, a.p) && line.0 == ListFor(entry.job.target, s.total))
               || (line in s.queues && entry in s.queues[line].items);
      }
    } else {
      assert t.queues == s.queues && t.runs == s.runs;
    }
  }

  /** Workers are only added. */
  ghost predicate TotalInv(s: State) {
    && (forall line <- s.queues, entry <- s.queues[line].items :: entry.total <= s.total)
    && (forall r <- s.runs :: r.total <= s.total)
  }

  lemma StepKeepsTotals(s: State, a: Step)
    requires TotalInv(s) && Enabled(s, a)
    ensures TotalInv(Exec(s, a))
  {
    var t := Exec(s, a);
    if a.Submit? || a.Dequeue? {
      forall line <- t.queues, entry <- t.queues[line].items
        ensures entry.total <= t.total
      {
        assert || (a.Submit? && entry == EntryOf(s, a.p)) || (line in s.queues && entry in s.queues[line].items);
      }
    } else {
      assert t.queues == s.queues && t.runs == s.runs && t.total >= s.total;
    }
  }

  // ---------------------------------------------------------------- runs

  /** A run from the start: states and the steps between them. */
  ghost predicate IsRun(states: seq<State>, steps: seq<Step>) {
    && |states| == |steps| + 1 && states[0] == START
    && forall k: nat :: k < |steps| ==> Follows(states[k], steps[k], states[k + 1])
  }

  predicate Follows(s: State, a: Step, t: State) {
    Enabled(s, a) && t == Exec(s, a)
  }

  lemma {:induction false} EveryState(states: seq<State>, steps: seq<Step>, k: nat)
    requires IsRun(states, steps) && k < |states|
    ensures Inv(states[k]) && OrderInv(states[k]) && ListInv(states[k]) && TotalInv(states[k])
  {
    if k > 0 {
      EveryState(states, steps, k - 1);
      assert Follows(states[k - 1], steps[k - 1], states[k - 1 + 1]);
      StepKeeps(states[k - 1], steps[k - 1]);
      StepKeepsOrder(states[k - 1], steps[k - 1]);
      StepKeepsLists(states[k - 1], steps[k - 1]);
      StepKeepsTotals(states[k - 1], steps[k - 1]);
    }
  }

  /** Who may run a job that was enqueued with so many indexed workers: any shared worker, or the indexed worker
      with the id's remainder. */
  predicate MayRun(w: Worker, target: Target, total: nat) {
    match target
    case AnyWorker => w.SharedWorker?
    case ById(id) => total > 0 && w == IndexedWorker(id % total)
  }

  /** Every job that has run was run by a worker that may run it. */
  lemma RunsOnItsWorkers(states: seq<State>, steps: seq<Step>, k: nat, r: Run)
    requires IsRun(states, steps) && k < |states| && r in states[k].runs
    ensures MayRun(r.worker, r.job.target, r.total) && r.total <= states[k].total
    ensures r.worker.SharedWorker? <==> r.job.target.AnyWorker?
  {
    EveryState(states, steps, k);
    ServesMayRun(r.worker, r.job, r.total);
  }

  lemma ServesMayRun(w: Worker, job: Job, total: nat)
    requires job.target.ById? ==> total > 0
    ensures RightList(job, total, Serves(w)) <==> MayRun(w, job.target, total)
  {
    if job.target.ById? {
      ModIsRemainder(job.target.id, total);
    }
  }

  /** The oldest entry of a producer can be taken, in every state, exactly by the idle workers that may run its
      job, however many indexed workers there are: nothing waits on a list that nobody serves. */
  lemma FrontCanBeTaken(states: seq<State>, steps: seq<Step>, k: nat, q: List, p: nat, w: Worker)
    requires IsRun(states, steps) && k < |states| && QueueAt(states[k], q, p).items != []
    ensures var entry := QueueAt(states[k], q, p).items[0];
            Enabled(states[k], Dequeue(w, q, p)) <==> w !in states[k].workers && MayRun(w, entry.job.target, entry.total)
  {
    EveryState(states, steps, k);
    var s := states[k];
    var entry := QueueAt(s, q, p).items[0];
    assert (q, p) in s.queues && entry in s.queues[(q, p)].items;
    assert RightList(entry.job, entry.total, q) && entry.total <= s.total;
    ServesMayRun(w, entry.job, entry.total);
    if w !in s.workers && MayRun(w, entry.job.target, entry.total) {
      NothingDangles(s, Dequeue(w, q, p));
    }
  }

  /** An EventInfo that was ever made is in exactly one place: never both free and in use, and never
      with two threads. */
  lemma ExactlyOnePlace(states: seq<State>, steps: seq<Step>, k: nat, i: nat)
    requires IsRun(states, steps) && k < |states| && i in states[k].infos
    ensures forall place: Place :: HeldAt(states[k], i, place) <==> place == states[k].infos[i].place
  {
    EveryState(states, steps, k);
    var s := states[k];
    forall place: Place
      ensures HeldAt(s, i, place) <==> place == s.infos[i].place
    {
      Known(s, place);
    }
  }

  /** Nobody is at work and nothing waits. */
  ghost predicate Quiet(s: State) {
    && s.dispatch == map[] && s.workers == map[] && s.active == {} && s.loop.Idle?
    && forall q: List, p: nat :: QueueAt(s, q, p).items == []
  }

  /** The callbacks that have run are those of different jobs, each with its own job's value and never
      of a detached job. Once the pool is quiet, every job with a callback has had it. */
  lemma CallbackExactlyOnce(states: seq<State>, steps: seq<Step>, k: nat)
    requires IsRun(states, steps) && k < |states|
    ensures forall a, b :: 0 <= a < b < |states[k].calls| ==> states[k].calls[a].num != states[k].calls[b].num
    ensures forall c <- states[k].calls ::
              c.num in states[k].jobs && states[k].jobs[c.num].job.value == c.value &&
              !states[k].jobs[c.num].job.kind.Detached?
    ensures Quiet(states[k]) ==>
              forall n <- states[k].jobs :: !states[k].jobs[n].job.kind.Detached? ==> WasCalled(states[k], n)
  {
    EveryState(states, steps, k);
    if Quiet(states[k]) {
      forall n <- states[k].jobs | !states[k].jobs[n].job.kind.Detached?
        ensures WasCalled(states[k], n)
      {
        QuietMeansDone(states[k], n);
      }
    }
  }

  lemma QuietMeansDone(s: State, n: nat)
    requires Inv(s) && Quiet(s) && n in s.jobs
    ensures s.jobs[n].stage == Done
  {
    assert s.jobs[n].stage.At? ==> Carried(s, n, s.jobs[n].stage.place);
  }

  /** Nobody is dispatching under an id while there are no indexed workers, where the source divides by zero. */
  predicate CanDivide(s: State) {
    forall p <- s.dispatch :: s.dispatch[p].job.target.ById? ==> s.total > 0
  }

  /** A step of somebody who is already at work. */
  predicate Internal(a: Step) {
    !a.Begin? && !a.AddIndexed?
  }

  lemma DispatchGoesOn(s: State, p: nat) returns (a: Step)
    requires Inv(s) && CanDivide(s) && p in s.dispatch
    ensures Internal(a) && Enabled(s, a)
  {
    Known(s, InDispatch(p));
    var d := s.dispatch[p];
    a := if d.HasInfo? then TakeEvent(p)
         else if d.NoInfo? && !d.job.kind.Detached? then TakeInfo(p)
         else if d.job.kind.Direct? then Issue(p)
         else Submit(p);
    NothingDangles(s, a);
  }

  lemma WorkerGoesOn(s: State, w: Worker) returns (a: Step)
    requires Inv(s) && w in s.workers
    ensures Internal(a) && Enabled(s, a)
  {
    a := if s.workers[w].Taken? then Store(w) else Activate(w);
    NothingDangles(s, a);
  }

  lemma LoopGoesOn(s: State) returns (a: Step)
    requires Inv(s) && (!s.loop.Idle? || s.active != {})
    ensures Internal(a) && Enabled(s, a)
  {
    if s.loop.Idle? {
      var e :| e in s.active;
      a := Pick(e);
    } else {
      a := if s.loop.Calling? then Invoke else if s.loop.Called? then FreeEvent else FreeInfo;
    }
    NothingDangles(s, a);
  }

  /** The pool is never stuck: in every state in which anything is under way, somebody at work can take a step. */
  lemma NeverStuck(states: seq<State>, steps: seq<Step>, k: nat) returns (a: Step)
    requires IsRun(states, steps) && k < |states| && !Quiet(states[k]) && CanDivide(states[k])
    ensures Internal(a) && Enabled(states[k], a)
  {
    EveryState(states, steps, k);
    var s := states[k];
    if p :| p in s.dispatch {
      a := DispatchGoesOn(s, p);
    } else if w :| w in s.workers {
      a := WorkerGoesOn(s, w);
    } else if !s.loop.Idle? || s.active != {} {
      a := LoopGoesOn(s);
    } else {
      assert s.dispatch == map[] && s.workers == map[];
      var q: List, p: nat :| QueueAt(s, q, p).items != [];
      var entry := QueueAt(s, q, p).items[0];
      assert (q, p) in s.queues && entry in s.queues[(q, p)].items;
      assert RightList(entry.job, entry.total, q);
      var w := if entry.job.target.AnyWorker? then SharedWorker(0) else IndexedWorker(entry.job.target.id % entry.total);
      FrontCanBeTaken(states, steps, k, q, p, w);
      a := Dequeue(w, q, p);
    }
  }

  /** Jobs that one thread dispatched and that ran from the same list started in the order of dispatch. */
  lemma SameListInOrder(states: seq<State>, steps: seq<Step>, k: nat, a: nat, b: nat)
    requires IsRun(states, steps) && k < |states| && a < b < |states[k].runs|
    requires SameLine(states[k].runs[a], states[k].runs[b])
    ensures states[k].runs[a].job.num < states[k].runs[b].job.num
  {
    EveryState(states, steps, k);
  }

  /** Jobs dispatched under one id run on one worker if and only if the id has the same remainder by the
      worker counts at the two dispatches; then those of one thread start in the order of dispatch. */
  lemma SameIdSameWorker(states: seq<State>, steps: seq<Step>, k: nat, a: nat, b: nat, id: nat)
    requires IsRun(states, steps) && k < |states| && a < b < |states[k].runs|
    requires states[k].runs[a].job.target == states[k].runs[b].job.target == ById(id)
    ensures states[k].runs[a].total > 0 && states[k].runs[b].total > 0
    ensures states[k].runs[a].worker == states[k].runs[b].worker <==>
              Mod(id, states[k].runs[a].total) == Mod(id, states[k].runs[b].total)
    ensures states[k].runs[a].worker == states[k].runs[b].worker &&
            states[k].runs[a].job.producer == states[k].runs[b].job.producer ==>
              states[k].runs[a].job.num < states[k].runs[b].job.num
  {
    EveryState(states, steps, k);
    var x, y := states[k].runs[a], states[k].runs[b];
    assert x in states[k].runs && y in states[k].runs;
    assert Serves(x.worker) == ListOf(Mod(id, x.total)) && Serves(y.worker) == ListOf(Mod(id, y.total));
  }

  // ---------------------------------------------------------------- one worker count, and two

  /** Everything enqueued so far was enqueued when there were n indexed workers. */
  ghost predicate CountIs(s: State, n: nat) {
    && (forall line <- s.queues, entry <- s.queues[line].items :: entry.total == n)
    && (forall r <- s.runs :: r.total == n)
  }

  lemma StepKeepsCount(s: State, a: Step, n: nat)
    requires CountIs(s, n) && Enabled(s, a) && (a.Submit? ==> s.total == n)
    ensures CountIs(Exec(s, a), n)
  {
    var t := Exec(s, a);
    if a.Submit? || a.Dequeue? {
      forall line <- t.queues, entry <- t.queues[line].items
        ensures entry.total == n
      {
        assert || (a.Submit? && entry == EntryOf(s, a.p)) || (line in s.queues && entry in s.queues[line].items);
      }
    } else {
      assert t.queues == s.queues && t.runs == s.runs;
    }
  }

  lemma FollowsKeepsCount(s: State, a: Step, t: State, n: nat)
    requires CountIs(s, n) && Follows(s, a, t) && SubmitsUnder(s, a, n)
    ensures CountIs(t, n)
  {
    StepKeepsCount(s, a, n);
  }

  /** Every dispatch of the run finishes while there are n indexed workers. */
  ghost predicate DispatchesUnder(states: seq<State>, steps: seq<Step>, n: nat)
    requires |states| > |steps|
  {
    forall j :: 0 <= j < |steps| ==> SubmitsUnder(states[j], steps[j], n)
  }

  predicate SubmitsUnder(s: State, a: Step, n: nat) {
    a.Submit? ==> s.total == n
  }

  lemma StepOfRun(states: seq<State>, steps: seq<Step>, k: nat, n: nat)
    requires IsRun(states, steps) && k < |steps| && DispatchesUnder(states, steps, n)
    ensures Follows(states[k], steps[k], states[k + 1]) && SubmitsUnder(states[k], steps[k], n)
  {}

  lemma {:induction false} CountInRun(states: seq<State>, steps: seq<Step>, k: nat, n: nat)
    requires IsRun(states, steps) && k < |states| && DispatchesUnder(states, steps, n)
    ensures CountIs(states[k], n)
  {
    if k > 0 {
      var s, a, t := states[k - 1], steps[k - 1], states[k];
      CountInRun(states, steps, k - 1, n);
      assert Follows(s, a, t) && SubmitsUnder(s, a, n) by {
        StepOfRun(states, steps, k - 1, n);
      }
      FollowsKeepsCount(s, a, t, n);
    }
  }

  /** While the number of indexed workers stays the same, the jobs that one thread dispatches under one id
      run on one worker and in the order of dispatch. */
  lemma SameIdInOrder(states: seq<State>, steps: seq<Step>, k: nat, n: nat, a: nat, b: nat, id: nat)
    requires IsRun(states, steps) && k < |states| && a < b < |states[k].runs|
    requires DispatchesUnder(states, steps, n)
    requires states[k].runs[a].job.target == states[k].runs[b].job.target == ById(id)
    requires states[k].runs[a].job.producer == states[k].runs[b].job.producer
    ensures states[k].runs[a].worker == states[k].runs[b].worker
    ensures states[k].runs[a].job.num < states[k].runs[b].job.num
  {
    CountInRun(states, steps, k, n);
    assert states[k].runs[a] in states[k].runs && states[k].runs[b] in states[k].runs;
    SameIdSameWorker(states, steps, k, a, b, id);
  }

  lemma ExtendRun(states: seq<State>, steps: seq<Step>, a: Step)
    requires IsRun(states, steps) && Enabled(states[|steps|], a)
    ensures IsRun(states + [Exec(states[|steps|], a)], steps + [a])
  {
    var states', steps' := states + [Exec(states[|steps|], a)], steps + [a];
    forall k: nat | k < |steps'|
      ensures Follows(states'[k], steps'[k], states'[k + 1])
    {
      if k < |steps| {
        assert Follows(states[k], steps[k], states[k + 1]);
      }
    }
  }

  /** A detached job for an id, dispatched by thread 0 from a state in which it has nothing under way. */
  lemma ThreadDispatches(states: seq<State>, steps: seq<Step>, id: nat) returns (states': seq<State>, steps': seq<Step>)
    requires IsRun(states, steps)
    requires var s := states[|steps|]; 0 !in s.dispatch && s.total > 0 && s.nextJob !in s.jobs
    ensures IsRun(states', steps')
    ensures var s, t := states[|steps|], states'[|steps'|];
            var q, job := ListOf(Mod(id, s.total)), Job(s.nextJob, 0, ById(id), Detached, 0);
            && t.dispatch == s.dispatch && t.total == s.total && t.nextJob == s.nextJob + 1 && t.runs == s.runs
            && t.workers == s.workers && t.jobs.Keys == s.jobs.Keys + {job.num}
            && QueueAt(t, q, 0).items == QueueAt(s, q, 0).items + [Entry(job, None, s.total)]
            && forall l: List, p: nat :: (l, p) != (q, 0) ==> QueueAt(t, l, p) == QueueAt(s, l, p)
  {
    var s := states[|steps|];
    var begin := Begin(0, Detached, ById(id), 0);
    ExtendRun(states, steps, begin);
    var s1 := Exec(s, begin);
    var states1, steps1 := states + [s1], steps + [begin];
    assert s1.dispatch[0] == NoInfo(Job(s.nextJob, 0, ById(id), Detached, 0));
    ExtendRun(states1, steps1, Submit(0));
    states', steps' := states1 + [Exec(s1, Submit(0))], steps1 + [Submit(0)];
    assert s1.dispatch - {0} == s.dispatch;
  }

  /** Worker w takes the oldest entry of thread 0 from its list. */
  lemma WorkerTakes(states: seq<State>, steps: seq<Step>, w: Worker) returns (states': seq<State>, steps': seq<Step>)
    requires IsRun(states, steps)
    requires Enabled(states[|steps|], Dequeue(w, Serves(w), 0))
    ensures IsRun(states', steps')
    ensures var s, t := states[|steps|], states'[|steps'|];
            var entry := QueueAt(s, Serves(w), 0).items[0];
            && t.runs == s.runs + [Run(w, entry.job, entry.total)] && t.total == s.total && t.jobs.Keys == s.jobs.Keys
            && t.workers.Keys == s.workers.Keys + {w}
            && forall l: List, p: nat :: (l, p) != (Serves(w), 0) ==> QueueAt(t, l, p) == QueueAt(s, l, p)
  {
    var a := Dequeue(w, Serves(w), 0);
    ExtendRun(states, steps, a);
    states', steps' := states + [Exec(states[|steps|], a)], steps + [a];
  }

  /** Workers added between two dispatches can take this away, for every id whose remainder changes: the
      second job runs first, on another worker. */
  lemma OrderLostWhenWorkersAdded(id: nat, n: nat, more: nat) returns (states: seq<State>, steps: seq<Step>)
    requires n > 0 && Mod(id, n) != Mod(id, n + more)
    ensures IsRun(states, steps)
    ensures var runs := states[|steps|].runs;
            && |runs| == 2 && runs[0].job.num > runs[1].job.num
            && runs[0].job.target == runs[1].job.target == ById(id) && runs[0].job.producer == runs[1].job.producer
            && runs[0].worker == IndexedWorker(Mod(id, n + more)) && runs[1].worker == IndexedWorker(Mod(id, n))
  {
    states, steps := [START], [];
    ExtendRun(states, steps, AddIndexed(n));
    states, steps := states + [Exec(START, AddIndexed(n))], steps + [AddIndexed(n)];
    states, steps := ThreadDispatches(states, steps, id);
    var s := states[|steps|];
    ExtendRun(states, steps, AddIndexed(more));
    states, steps := states + [Exec(s, AddIndexed(more))], steps + [AddIndexed(more)];
    states, steps := ThreadDispatches(states, steps, id);
    states, steps := WorkerTakes(states, steps, IndexedWorker(Mod(id, n + more)));
    states, steps := WorkerTakes(states, steps, IndexedWorker(Mod(id, n)));
  }
}
