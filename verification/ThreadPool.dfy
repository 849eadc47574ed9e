/**
 The thread pool (src/lib/threadpool.cc) as interleaved steps: threads that dispatch jobs,
 workers that run them, and the event loop that runs their callbacks. EventInfo and event
 objects are recycled through free lists.
 */
module ThreadPool {
  import opened Arithmetic
  import opened Bytes

  /** Callback: dispatch and dispatch_indexed. Detached: detach and detach_indexed.
      Direct: issueCallback, which activates its event without any worker. */
  datatype Kind = Callback | Detached | Direct

  /** Any worker will do, or the one that the id selects. */
  datatype Target = AnyWorker | ById(id: nat)

  /** A job: its number, who dispatches it, for whom, and the value its function returns (for
      Direct, the argument given). */
  datatype Job = Job(num: nat, producer: nat, target: Target, kind: Kind, value: int)

  /** The shared request list, and one for each indexed worker. */
  datatype List = SharedList | ListOf(id: nat)

  datatype Worker = SharedWorker(k: nat) | IndexedWorker(id: nat)

  function Serves(w: Worker): List {
    match w
    case SharedWorker(_) => SharedList
    case IndexedWorker(id) => ListOf(id)
  }

  /** The list for a target when there are so many indexed workers; with none the source divides by zero. */
  function ListFor(target: Target, total: nat): List
    requires target.ById? ==> total > 0
  {
    match target
    case AnyWorker => SharedList
    case ById(id) => ListOf(Mod(id, total))
  }

  /** Where an EventInfo or a job can be: the k-th on the free list, with a dispatching thread,
      at a position of a request list, with a worker, behind an active event, in the event loop. */
  datatype Place =
    | InFree(k: nat)
    | InDispatch(p: nat)
    | InQueue(q: List, p: nat, pos: nat)
    | InWorker(w: Worker)
    | InActive(e: nat)
    | InLoop

  /** An EventInfo: whose callback it holds, the stored result, and its event. The places of
      infos, events and jobs are bookkeeping: no step reads them, and the invariant says that
      they agree with the containers, so each thing is in one place only. */
  datatype Info = Info(cb: nat, r: int, ev: nat, place: Place)
  datatype Event = Event(arg: nat, place: EventPlace)
  datatype EventPlace = EventFree(k: nat) | EventOf(info: nat)
  datatype Tracked = Tracked(job: Job, stage: Stage)
  datatype Stage = Done | At(place: Place)

  /** What a request list holds: job and info, and how many indexed workers there were. */
  datatype Entry = Entry(job: Job, info: Option<nat>, total: nat)

  /** A request list as one producer sees it: how many entries have left, and the rest. */
  datatype Queue = Queue(popped: nat, items: seq<Entry>)

  /** Where a dispatching thread is. */
  datatype Dispatch = HasInfo(job: Job, info: nat) | HasEvent(job: Job, info: nat) | NoInfo(job: Job)

  /** Where a worker is: it has taken an entry, or has stored the result of one. */
  datatype Working = Taken(entry: Entry) | Stored(entry: Entry)

  datatype Looping = Idle | Calling(info: nat) | Called(info: nat) | EventFreed(info: nat)

  datatype Run = Run(worker: Worker, job: Job, total: nat)

  datatype Call = Call(num: nat, value: int)

  datatype State = State(
    free: seq<nat>,
    freeEvents: seq<nat>,
    infos: map<nat, Info>,
    events: map<nat, Event>,
    jobs: map<nat, Tracked>,
    dispatch: map<nat, Dispatch>,
    queues: map<(List, nat), Queue>,
    workers: map<Worker, Working>,
    total: nat,
    active: set<nat>,
    loop: Looping,
    nextJob: nat,
    nextInfo: nat,
    nextEvent: nat,
    runs: seq<Run>,
    calls: seq<Call>)

  const START := State([], [], map[], map[], map[], map[], map[], map[], 0, {}, Idle, 0, 0, 0, [], [])

  function QueueAt(s: State, q: List, p: nat): Queue {
    if (q, p) in s.queues then s.queues[(q, p)] else Queue(0, [])
  }

  // ---------------------------------------------------------------- steps

  /** Dequeue(w, q, p): worker w takes from request list q the oldest entry that producer p put there. */
  datatype Step =
    | AddIndexed(k: nat)
    | Begin(p: nat, kind: Kind, target: Target, value: int)
    | TakeInfo(p: nat)
    | TakeEvent(p: nat)
    | Submit(p: nat)
    | Issue(p: nat)
    | Dequeue(w: Worker, q: List, p: nat)
    | Store(w: Worker)
    | Activate(w: Worker)
    | Pick(e: nat)
    | Invoke
    | FreeEvent
    | FreeInfo

  function Move(s: State, n: nat, stage: Stage): map<nat, Tracked>
    requires n in s.jobs
  {
    s.jobs[n := s.jobs[n].(stage := stage)]
  }

  function Put(s: State, i: nat, place: Place): map<nat, Info>
    requires i in s.infos
  {
    s.infos[i := s.infos[i].(place := place)]
  }

  /** Where the threads are lets the step happen. */
  predicate Guard(s: State, a: Step) {
    match a
    case AddIndexed(_) => true
    case Begin(p, _, _, _) => p !in s.dispatch
    case TakeInfo(p) => p in s.dispatch && s.dispatch[p].NoInfo? && !s.dispatch[p].job.kind.Detached?
    case TakeEvent(p) => p in s.dispatch && s.dispatch[p].HasInfo?
    case Submit(p) =>
      && p in s.dispatch && (s.dispatch[p].job.target.ById? ==> s.total > 0)
      && match s.dispatch[p] {
           case NoInfo(job) => job.kind.Detached?
           case HasInfo(_, _) => false
           case HasEvent(job, _) => job.kind.Callback?
         }
    case Issue(p) => p in s.dispatch && s.dispatch[p].HasEvent? && s.dispatch[p].job.kind.Direct?
    case Dequeue(w, q, p) =>
      && w !in s.workers && QueueAt(s, q, p).items != []
      && Serves(w) == q && (w.IndexedWorker? ==> w.id < s.total)
    case Store(w) => w in s.workers && s.workers[w].Taken?
    case Activate(w) => w in s.workers && s.workers[w].Stored?
    case Pick(e) => s.loop.Idle? && e in s.active
    case Invoke => s.loop.Calling?
    case FreeEvent => s.loop.Called?
    case FreeInfo => s.loop.EventFreed?
  }

  /** The infos, events and jobs the step follows pointers to exist. */
  predicate Defined(s: State, a: Step)
    requires Guard(s, a)
  {
    match a
    case AddIndexed(_) => true
    case Begin(_, _, _, _) => true
    case TakeInfo(_) => s.free == [] || s.free[|s.free| - 1] in s.infos
    case TakeEvent(p) => s.dispatch[p].info in s.infos
    case Submit(p) => EntryKnown(s, EntryOf(s, p))
    case Issue(p) => s.dispatch[p].job.num in s.jobs && s.dispatch[p].info in s.infos
    case Dequeue(_, q, p) => EntryKnown(s, QueueAt(s, q, p).items[0])
    case Store(w) => EntryKnown(s, s.workers[w].entry)
    case Activate(w) => s.workers[w].entry.info.Some? && EntryKnown(s, s.workers[w].entry)
    case Pick(e) => e in s.events && s.events[e].arg in s.infos && s.infos[s.events[e].arg].cb in s.jobs
    case Invoke => s.loop.info in s.infos && s.infos[s.loop.info].cb in s.jobs
    case FreeEvent => s.loop.info in s.infos && s.infos[s.loop.info].ev in s.events
    case FreeInfo => s.loop.info in s.infos
  }

  predicate Enabled(s: State, a: Step) {
    Guard(s, a) && Defined(s, a)
  }

  predicate EntryKnown(s: State, entry: Entry) {
    entry.job.num in s.jobs && (entry.info.Some? ==> entry.info.value in s.infos)
  }

  /** What goes to the request list. */
  function EntryOf(s: State, p: nat): Entry
    requires p in s.dispatch
  {
    var d := s.dispatch[p];
    Entry(d.job, if d.HasEvent? then Some(d.info) else None, s.total)
  }

  /** add_n_indexed starts workers with the next ids. */
  function AddIndexedStep(s: State, k: nat): State {
    s.(total := s.total + k)
  }

  /** A thread calls one of the dispatching methods. */
  function BeginStep(s: State, p: nat, kind: Kind, target: Target, value: int): State {
    var job := Job(s.nextJob, p, target, kind, value);
    s.(nextJob := s.nextJob + 1, jobs := s.jobs[job.num := Tracked(job, At(InDispatch(p)))],
       dispatch := s.dispatch[p := NoInfo(job)])
  }

  /** GetUnusedEventInfo takes the last one freed, or a new one. */
  function TakeInfoStep(s: State, p: nat): State
    requires Enabled(s, TakeInfo(p))
  {
    var job, n := s.dispatch[p].job, |s.free|;
    if n > 0 then
      s.(free := s.free[..n - 1], dispatch := s.dispatch[p := HasInfo(job, s.free[n - 1])],
         infos := Put(s, s.free[n - 1], InDispatch(p)))
    else
      s.(nextInfo := s.nextInfo + 1, dispatch := s.dispatch[p := HasInfo(job, s.nextInfo)],
         infos := s.infos[s.nextInfo := Info(0, 0, 0, InDispatch(p))])
  }

  /** GetUnusedEvent the same way; the callback and, for Direct, the argument go into the info. */
  function TakeEventStep(s: State, p: nat): State
    requires Enabled(s, TakeEvent(p))
  {
    var HasInfo(job, i) := s.dispatch[p];
    var n := |s.freeEvents|;
    var e := if n > 0 then s.freeEvents[n - 1] else s.nextEvent;
    var r := if job.kind.Direct? then job.value else s.infos[i].r;
    s.(freeEvents := if n > 0 then s.freeEvents[..n - 1] else s.freeEvents,
       nextEvent := if n > 0 then s.nextEvent else s.nextEvent + 1,
       events := s.events[e := Event(i, EventOf(i))],
       infos := s.infos[i := Info(job.num, r, e, s.infos[i].place)],
       dispatch := s.dispatch[p := HasEvent(job, i)])
  }

  /** The entry goes to the end of its request list, which for an id depends on the workers there are now. */
  function SubmitStep(s: State, p: nat): State
    requires Enabled(s, Submit(p))
  {
    var entry := EntryOf(s, p);
    var q, r := ListFor(entry.job.target, s.total), entry.job.producer;
    var was := QueueAt(s, q, r);
    var pos := was.popped + |was.items|;
    s.(dispatch := s.dispatch - {p},
       queues := s.queues[(q, r) := Queue(was.popped, was.items + [entry])],
       jobs := Move(s, entry.job.num, At(InQueue(q, r, pos))),
       infos := if entry.info.Some? then Put(s, entry.info.value, InQueue(q, r, pos)) else s.infos)
  }

  /** issueCallback activates its event at once. */
  function IssueStep(s: State, p: nat): State
    requires Enabled(s, Issue(p))
  {
    var d := s.dispatch[p];
    s.(dispatch := s.dispatch - {p}, active := s.active + {s.infos[d.info].ev},
       infos := Put(s, d.info, InActive(s.infos[d.info].ev)),
       jobs := Move(s, d.job.num, At(InActive(s.infos[d.info].ev))))
  }

  /** A worker takes the front entry of some producer and runs the job. */
  function DequeueStep(s: State, w: Worker, q: List, p: nat): State
    requires Enabled(s, Dequeue(w, q, p))
  {
    var was := QueueAt(s, q, p);
    var entry := was.items[0];
    s.(queues := s.queues[(q, p) := Queue(was.popped + 1, was.items[1..])],
       workers := s.workers[w := Taken(entry)],
       runs := s.runs + [Run(w, entry.job, entry.total)],
       jobs := Move(s, entry.job.num, At(InWorker(w))),
       infos := if entry.info.Some? then Put(s, entry.info.value, InWorker(w)) else s.infos)
  }

  /** The job has returned: its value is stored, or dropped when nobody wants it. */
  function StoreStep(s: State, w: Worker): State
    requires Enabled(s, Store(w))
  {
    var entry := s.workers[w].entry;
    match entry.info
    case None => s.(workers := s.workers - {w}, jobs := Move(s, entry.job.num, Done))
    case Some(i) =>
      s.(workers := s.workers[w := Stored(entry)], infos := s.infos[i := s.infos[i].(r := entry.job.value)])
  }

  /** event_active on the info's event. */
  function ActivateStep(s: State, w: Worker): State
    requires Enabled(s, Activate(w))
  {
    var entry := s.workers[w].entry;
    var i := entry.info.value;
    s.(workers := s.workers - {w}, active := s.active + {s.infos[i].ev},
       infos := Put(s, i, InActive(s.infos[i].ev)),
       jobs := Move(s, entry.job.num, At(InActive(s.infos[i].ev))))
  }

  /** The event loop turns to an active event and finds its info through the argument. */
  function PickStep(s: State, e: nat): State
    requires Enabled(s, Pick(e))
  {
    var i := s.events[e].arg;
    s.(active := s.active - {e}, loop := Calling(i),
       infos := Put(s, i, InLoop), jobs := Move(s, s.infos[i].cb, At(InLoop)))
  }

  function InvokeStep(s: State): State
    requires Enabled(s, Invoke)
  {
    var i := s.loop.info;
    s.(calls := s.calls + [Call(s.infos[i].cb, s.infos[i].r)], loop := Called(i),
       jobs := Move(s, s.infos[i].cb, Done))
  }

  function FreeEventStep(s: State): State
    requires Enabled(s, FreeEvent)
  {
    var i := s.loop.info;
    var e := s.infos[i].ev;
    s.(freeEvents := s.freeEvents + [e], active := s.active - {e}, loop := EventFreed(i),
       events := s.events[e := s.events[e].(place := EventFree(|s.freeEvents|))])
  }

  function FreeInfoStep(s: State): State
    requires Enabled(s, FreeInfo)
  {
    var i := s.loop.info;
    s.(free := s.free + [i], loop := Idle, infos := Put(s, i, InFree(|s.free|)))
  }

  function Exec(s: State, a: Step): State
    requires Enabled(s, a)
  {
    match a
    case AddIndexed(k) => AddIndexedStep(s, k)
    case Begin(p, kind, target, value) => BeginStep(s, p, kind, target, value)
    case TakeInfo(p) => TakeInfoStep(s, p)
    case TakeEvent(p) => TakeEventStep(s, p)
    case Submit(p) => SubmitStep(s, p)
    case Issue(p) => IssueStep(s, p)
    case Dequeue(w, q, p) => DequeueStep(s, w, q, p)
    case Store(w) => StoreStep(s, w)
    case Activate(w) => ActivateStep(s, w)
    case Pick(e) => PickStep(s, e)
    case Invoke => InvokeStep(s)
    case FreeEvent => FreeEventStep(s)
    case FreeInfo => FreeInfoStep(s)
  }

  // ---------------------------------------------------------------- the invariant

  /** What a place holds: an info, a job, whether the info is bound to an event (and to the job),
      and whether the job's value is ready in it. */
  datatype Held = Held(info: Option<nat>, job: Option<Job>, bound: bool, ready: bool)

  /** Read off the containers. */
  function Holder(s: State, place: Place): Option<Held> {
    match place
    case InFree(k) => if k < |s.free| then Some(Held(Some(s.free[k]), None, false, false)) else None
    case InDispatch(p) =>
      if p !in s.dispatch then None else (
        match s.dispatch[p]
        case NoInfo(job) => Some(Held(None, Some(job), false, false))
        case HasInfo(job, i) => Some(Held(Some(i), Some(job), false, false))
        case HasEvent(job, i) => Some(Held(Some(i), Some(job), true, job.kind.Direct?)))
    case InQueue(q, p, pos) =>
      var was := QueueAt(s, q, p);
      if was.popped <= pos < was.popped + |was.items| then
        var entry := was.items[pos - was.popped];
        Some(Held(entry.info, Some(entry.job), true, false))
      else None
    case InWorker(w) =>
      if w !in s.workers then None else
      Some(Held(s.workers[w].entry.info, Some(s.workers[w].entry.job), true, s.workers[w].Stored?))
    case InActive(e) =>
      if e in s.active && e in s.events then Some(Held(Some(s.events[e].arg), None, true, true)) else None
    case InLoop =>
      match s.loop
      case Idle => None
      case Calling(i) => Some(Held(Some(i), None, true, true))
      case Called(i) => Some(Held(Some(i), None, true, false))
      case EventFreed(i) => Some(Held(Some(i), None, false, false))
  }

  /** The info's event points back at it and is nobody else's. */
  predicate Bound(s: State, i: nat)
    requires i in s.infos
  {
    s.infos[i].ev in s.events && s.events[s.infos[i].ev] == Event(i, EventOf(i))
  }

  /** The info holds the callback of a job that is at the same place, and that job's value. */
  predicate Ready(s: State, i: nat)
    requires i in s.infos
  {
    var n := s.infos[i].cb;
    && n in s.jobs && s.jobs[n].stage == At(s.infos[i].place)
    && s.jobs[n].job.value == s.infos[i].r && !s.jobs[n].job.kind.Detached?
  }

  /** What a place holds knows that it is there, and belongs together. */
  predicate HeldOk(s: State, place: Place, h: Held) {
    && (h.info.Some? ==>
          && h.info.value in s.infos && s.infos[h.info.value].place == place
          && (h.bound ==> Bound(s, h.info.value))
          && (h.bound && h.job.Some? ==> s.infos[h.info.value].cb == h.job.value.num)
          && (h.ready ==> Ready(s, h.info.value)))
    && (h.job.Some? ==> h.job.value.num in s.jobs && s.jobs[h.job.value.num] == Tracked(h.job.value, At(place)))
    && match place
       case InDispatch(p) =>
         h.job.Some? && h.job.value.producer == p && (h.info.Some? ==> !h.job.value.kind.Detached?)
       case InQueue(_, p, _) =>
         && h.job.Some? && h.job.value.producer == p
         && (h.info.Some? <==> !h.job.value.kind.Detached?)
       case InWorker(_) =>
         h.job.Some? && (h.info.Some? <==> !h.job.value.kind.Detached?) && (h.ready ==> h.info.Some?)
       case InActive(e) => h.info.Some? && s.infos[h.info.value].ev == e
       case _ => true
  }

  ghost predicate HeldInv(s: State) {
    forall place: Place :: Holder(s, place).Some? ==> HeldOk(s, place, Holder(s, place).value)
  }

  /** No info is lost: each is held where it is said to be. */
  ghost predicate PlaceInv(s: State) {
    forall i <- s.infos :: HeldAt(s, i, s.infos[i].place)
  }

  predicate HeldAt(s: State, i: nat, place: Place) {
    Holder(s, place).Some? && Holder(s, place).value.info == Some(i)
  }

  ghost predicate EventInv(s: State) {
    && (forall k: nat :: k < |s.freeEvents| ==>
          s.freeEvents[k] in s.events && s.events[s.freeEvents[k]].place == EventFree(k))
    && (forall i <- s.infos :: i < s.nextInfo)
    && (forall e <- s.events :: e < s.nextEvent)
    && s.active <= s.events.Keys
  }

  /** The job is held there, by itself or through the info that has its callback. */
  predicate Carried(s: State, n: nat, place: Place) {
    && Holder(s, place).Some?
    && var h := Holder(s, place).value;
    if h.job.Some? then h.job.value.num == n
    else h.ready && h.info.Some? && h.info.value in s.infos && s.infos[h.info.value].cb == n
  }

  /** No job is lost either, until it is done. */
  ghost predicate JobInv(s: State) {
    forall n <- s.jobs :: s.jobs[n].stage.At? ==> Carried(s, n, s.jobs[n].stage.place)
  }

  /** The callback of job n has run. */
  ghost predicate WasCalled(s: State, n: nat) {
    exists c <- s.calls :: c.num == n
  }

  /** Callbacks that ran: each for a job that is done, with its own value, no job twice, and
      every job that is done and has a callback has had it. */
  ghost predicate CallInv(s: State) {
    && (forall c <- s.calls :: c.num in s.jobs && s.jobs[c.num].stage == Done)
    && (forall c <- s.calls :: s.jobs[c.num].job.value == c.value && !s.jobs[c.num].job.kind.Detached?)
    && (forall a, b :: 0 <= a < b < |s.calls| ==> s.calls[a].num != s.calls[b].num)
    && (forall n <- s.jobs :: s.jobs[n].stage == Done && !s.jobs[n].job.kind.Detached? ==> WasCalled(s, n))
    && (forall n <- s.jobs :: n < s.nextJob && s.jobs[n].job.num == n)
  }

  ghost predicate Inv(s: State) {
    HeldInv(s) && PlaceInv(s) && JobInv(s) && EventInv(s) && CallInv(s)
  }

  // ---------------------------------------------------------------- what a step does to the places

  /** The place a step takes things from. */
  function From(s: State, a: Step): Place
    requires Enabled(s, a)
  {
    match a
    case AddIndexed(_) => InLoop
    case Begin(p, _, _, _) => InDispatch(p)
    case TakeInfo(p) => if s.free == [] then InDispatch(p) else InFree(|s.free| - 1)
    case TakeEvent(p) => InDispatch(p)
    case Submit(p) => InDispatch(p)
    case Issue(p) => InDispatch(p)
    case Dequeue(_, q, p) => InQueue(q, p, QueueAt(s, q, p).popped)
    case Store(w) => InWorker(w)
    case Activate(w) => InWorker(w)
    case Pick(e) => InActive(e)
    case Invoke => InLoop
    case FreeEvent => InLoop
    case FreeInfo => InLoop
  }

  /** The place a step puts things. */
  function To(s: State, a: Step): Place
    requires Enabled(s, a)
  {
    match a
    case TakeInfo(p) => InDispatch(p)
    case Submit(p) =>
      var job := s.dispatch[p].job;
      var q := ListFor(job.target, s.total);
      var was := QueueAt(s, q, job.producer);
      InQueue(q, job.producer, was.popped + |was.items|)
    case Issue(p) => InActive(s.infos[s.dispatch[p].info].ev)
    case Dequeue(w, _, _) => InWorker(w)
    case Activate(w) => InActive(s.infos[s.workers[w].entry.info.value].ev)
    case Pick(_) => InLoop
    case FreeInfo => InFree(|s.free|)
    case _ => From(s, a)
  }

  /** From s to t, things at one place have changed or gone to another place. */
  ghost predicate Moves(s: State, t: State, from: Place, to: Place) {
    Leaves(s, t, from, to) && Stays(s, t, from) && Arrives(s, t, from, to)
  }

  /** The old place is empty, and every other place holds what it held. */
  ghost predicate Leaves(s: State, t: State, from: Place, to: Place) {
    forall place: Place :: LeavesAt(s, t, from, to, place)
  }

  predicate LeavesAt(s: State, t: State, from: Place, to: Place, place: Place) {
    || place == to
    || (if place == from then Holder(t, place).None? else Holder(t, place) == Holder(s, place))
  }

  /** What was elsewhere has not changed. */
  ghost predicate Stays(s: State, t: State, from: Place) {
    InfosStay(s, t, from) && JobsStay(s, t, from) && EventsStay(s, t, from)
  }

  ghost predicate InfosStay(s: State, t: State, from: Place) {
    forall i <- s.infos :: s.infos[i].place != from ==> i in t.infos && t.infos[i] == s.infos[i]
  }

  ghost predicate JobsStay(s: State, t: State, from: Place) {
    forall n <- s.jobs :: s.jobs[n].stage != At(from) ==> n in t.jobs && t.jobs[n] == s.jobs[n]
  }

  ghost predicate EventsStay(s: State, t: State, from: Place) {
    forall e <- s.events ::
      (s.events[e].place.EventOf? && s.events[e].place.info in s.infos &&
      s.infos[s.events[e].place.info].place != from) ==> e in t.events && t.events[e] == s.events[e]
  }

  /** What is said to be at the new place is there, and everything else was elsewhere before. */
  ghost predicate Arrives(s: State, t: State, from: Place, to: Place) {
    InfosArrive(s, t, from, to) && JobsArrive(s, t, from, to) && HolderArrives(t, to)
  }

  ghost predicate InfosArrive(s: State, t: State, from: Place, to: Place) {
    forall i <- t.infos ::
      if t.infos[i].place == to then HeldAt(t, i, to)
      else t.infos[i].place != from && i in s.infos && t.infos[i] == s.infos[i]
  }

  ghost predicate JobsArrive(s: State, t: State, from: Place, to: Place) {
    forall n <- t.jobs :: t.jobs[n].stage.At? ==>
      if t.jobs[n].stage == At(to) then Carried(t, n, to)
      else t.jobs[n].stage != At(from) && n in s.jobs && t.jobs[n] == s.jobs[n]
  }

  predicate HolderArrives(t: State, to: Place) {
    Holder(t, to).Some? ==> HeldOk(t, to, Holder(t, to).value)
  }

  lemma Known(s: State, place: Place)
    requires HeldInv(s)
    ensures Holder(s, place).Some? ==> HeldOk(s, place, Holder(s, place).value)
  {}

  lemma MovesKeepHeld(s: State, t: State, from: Place, to: Place)
    requires HeldInv(s) && Leaves(s, t, from, to) && Stays(s, t, from)
    requires HolderArrives(t, to)
    ensures HeldInv(t)
  {
    forall place: Place | Holder(t, place).Some?
      ensures HeldOk(t, place, Holder(t, place).value)
    {
      if place != to {
        assert LeavesAt(s, t, from, to, place);
        Known(s, place);
      }
    }
  }

  lemma MovesKeepPlaces(s: State, t: State, from: Place, to: Place)
    requires PlaceInv(s) && Moves(s, t, from, to)
    ensures PlaceInv(t)
  {
    forall i <- t.infos
      ensures HeldAt(t, i, t.infos[i].place)
    {
      assert LeavesAt(s, t, from, to, t.infos[i].place);
      assert i in s.infos ==> HeldAt(s, i, s.infos[i].place);
    }
  }

  lemma MovesKeepJobs(s: State, t: State, from: Place, to: Place)
    requires HeldInv(s) && JobInv(s) && Moves(s, t, from, to)
    ensures JobInv(t)
  {
    forall n <- t.jobs | t.jobs[n].stage.At?
      ensures Carried(t, n, t.jobs[n].stage.place)
    {
      if t.jobs[n].stage != At(to) {
        assert LeavesAt(s, t, from, to, t.jobs[n].stage.place);
        assert Carried(s, n, t.jobs[n].stage.place);
        Known(s, t.jobs[n].stage.place);
      }
    }
  }
}
