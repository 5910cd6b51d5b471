// The thread pool as a protocol: every event below is one critical section, one wait or wake-up,
// or one callback, and threads interleave between events in any order.
module ThreadPool {
  import opened Basics
  import opened Lists

  datatype Job = Exit | Work(id: nat)

  // What the `work` pointer of a request holds
  datatype Fn = User | Cancelled | Null

  datatype Status = Ok | Ecanceled

  // Where a request is; ghost knowledge, the code has only `linked` and `work`
  datatype Place = InQueue | OnWorker(k: nat) | Cancelling | InLoop | InBatch | Delivered

  datatype Item = Item(loop: nat, work: Fn, linked: bool, place: Place, runs: nat, dones: seq<Status>,
      cancelled: bool, late: bool)

  datatype Worker = Ready | Waiting | Woken | Busy(id: nat) | Ran(id: nat) | Gone

  datatype Loop = Loop(wq: seq<nat>, batch: seq<nat>, pending: bool, waking: bool, cancel: Option<nat>)

  datatype State = State(wq: seq<Job>, idle: nat, workers: seq<Worker>, loops: seq<Loop>, items: map<nat, Item>,
      down: bool)

  datatype Event =
    | Submit(id: nat, loop: nat, wakes: nat)
    | Lock(k: nat, wakes: nat)
    | Spurious(k: nat)
    | Run(k: nat)
    | Complete(k: nat)
    | CancelBegin(id: nat)
    | CancelEnd(l: nat)
    | LoopWake(l: nat)
    | Drain(l: nat)
    | Deliver(l: nat)
    | Shutdown(wakes: nat)

  // ---- the steps ----

  function Signal(ws: seq<Worker>, k: nat): seq<Worker> {
    if k < |ws| && ws[k].Waiting? then ws[k := Woken] else ws
  }

  // A signal wakes a sleeper if there is one
  ghost predicate Wakes(ws: seq<Worker>, k: nat) {
    (exists j :: 0 <= j < |ws| && ws[j].Waiting?) ==> k < |ws| && ws[k].Waiting?
  }

  function Post(s: State, j: Job, k: nat): State {
    s.(wq := s.wq + [j], workers := if s.idle > 0 then Signal(s.workers, k) else s.workers)
  }

  ghost predicate Can(s: State, e: Event) {
    match e
    case Submit(i, l, k) => i !in s.items && l < |s.loops| && Wakes(s.workers, k)
    case Lock(k, j) => k < |s.workers| && (s.workers[k].Ready? || s.workers[k].Woken?) && Wakes(s.workers, j)
    case Spurious(k) => k < |s.workers| && s.workers[k].Waiting?
    case Run(k) => k < |s.workers| && s.workers[k].Busy?
    case Complete(k) => k < |s.workers| && s.workers[k].Ran?
    case CancelBegin(i) => i in s.items && !s.items[i].place.Delivered? && s.items[i].loop < |s.loops| &&
                           !s.loops[s.items[i].loop].waking && s.loops[s.items[i].loop].cancel == None
    case CancelEnd(l) => l < |s.loops| && s.loops[l].cancel.Some?
    case LoopWake(l) => l < |s.loops| && s.loops[l].pending && !s.loops[l].waking && s.loops[l].batch == []
        && s.loops[l].cancel == None
    case Drain(l) => l < |s.loops| && s.loops[l].waking
    case Deliver(l) => l < |s.loops| && !s.loops[l].waking && s.loops[l].batch != [] && s.loops[l].cancel == None
    case Shutdown(k) => !s.down && Wakes(s.workers, k)
  }

  ghost function SetItem(s: State, i: nat, it: Item): State {
    s.(items := s.items[i := it])
  }

  ghost function SetWorker(s: State, k: nat, w: Worker): State
    requires k < |s.workers|
  {
    s.(workers := s.workers[k := w])
  }

  ghost function SetLoop(s: State, l: nat, lp: Loop): State
    requires l < |s.loops|
  {
    s.(loops := s.loops[l := lp])
  }

  // The body of the worker loop up to the unlock, entered afresh or on return from the wait
  ghost function DoLock(s: State, k: nat, j: nat): State
    requires k < |s.workers| && (s.workers[k].Woken? ==> s.idle > 0)
    requires s.wq != [] && s.wq[0].Work? ==> s.wq[0].id in s.items
  {
    var t := if s.workers[k].Woken? then s.(idle := s.idle - 1) else s;
    if s.wq == [] then
      SetWorker(t, k, Waiting).(idle := t.idle + 1)
    else if s.wq[0] == Exit then
      t.(workers := Signal(t.workers[k := Gone], j))
    else
      var i := s.wq[0].id;
      SetItem(SetWorker(t, k, Busy(i)), i, s.items[i].(linked := false, place := OnWorker(k))).(wq := s.wq[1..])
  }

  ghost function DoCancelBegin(s: State, i: nat): State
    requires i in s.items && s.items[i].loop < |s.loops|
  {
    var it := s.items[i];
    var lp := s.loops[it.loop];
    if !it.linked || it.work == Null then s else
    var t := SetItem(s, i, it.(place := Cancelling));
    // unlink from whichever list holds it
    t.(wq := Without(s.wq, Work(i)),
       loops := s.loops[it.loop := lp.(wq := Without(lp.wq, i), batch := Without(lp.batch, i), cancel := Some(i))])
  }

  ghost predicate Wf(s: State) {
    && (forall i :: i in s.items ==> s.items[i].loop < |s.loops|)
    && (forall j {:trigger s.wq[j]} :: 0 <= j < |s.wq| && s.wq[j].Work? ==> s.wq[j].id in s.items)
    && (forall k {:trigger s.workers[k]} :: 0 <= k < |s.workers| ==>
          (s.workers[k].Busy? ==> s.workers[k].id in s.items) && (s.workers[k].Ran? ==> s.workers[k].id in s.items)
          && (s.workers[k].Woken? ==> s.idle > 0))
    && (forall l {:trigger s.loops[l]} :: 0 <= l < |s.loops| ==>
          && (s.loops[l].cancel.Some? ==> s.loops[l].cancel.value in s.items)
          && (forall i :: i in s.loops[l].batch ==> i in s.items))
  }

  ghost function Do(s: State, e: Event): State
    requires Wf(s) && Can(s, e)
  {
    match e
    case Submit(i, l, k) =>
      Post(SetItem(s, i, Item(l, User, true, InQueue, 0, [], false, s.down)), Work(i), k)
    case Lock(k, j) => DoLock(s, k, j)
    case Spurious(k) => SetWorker(s, k, Woken)
    case Run(k) =>
      var i := s.workers[k].id;
      SetItem(SetWorker(s, k, Ran(i)), i, s.items[i].(runs := s.items[i].runs + 1))
    case Complete(k) =>
      var i := s.workers[k].id;
      var it := s.items[i];
      var lp := s.loops[it.loop];
      SetLoop(SetItem(SetWorker(s, k, Ready), i, it.(work := Null, linked := true, place := InLoop)),
              it.loop, lp.(wq := lp.wq + [i], pending := true))
    case CancelBegin(i) => DoCancelBegin(s, i)
    case CancelEnd(l) =>
      var i := s.loops[l].cancel.value;
      SetLoop(SetItem(s, i, s.items[i].(work := Cancelled, linked := true, place := InLoop, cancelled := true)),
              l, s.loops[l].(wq := s.loops[l].wq + [i], pending := true, cancel := None))
    case LoopWake(l) => SetLoop(s, l, s.loops[l].(pending := false, waking := true))
    case Drain(l) =>
      var moved := s.loops[l].wq;
      SetLoop(s, l, s.loops[l].(wq := [], batch := moved, waking := false)).(
        items := map i | i in s.items :: if i in moved then s.items[i].(place := InBatch) else s.items[i])
    case Deliver(l) =>
      var i := s.loops[l].batch[0];
      var told := [if s.items[i].work == Cancelled then Ecanceled else Ok];
      SetLoop(SetItem(s, i, s.items[i].(place := Delivered, dones := s.items[i].dones + told)),
              l, s.loops[l].(batch := s.loops[l].batch[1..]))
    case Shutdown(k) => Post(s, Exit, k).(down := true)
  }

  ghost predicate Init(s: State) {
    && s.wq == [] && s.idle == 0 && s.items == map[] && !s.down && |s.workers| >= 1
    && (forall k :: 0 <= k < |s.workers| ==> s.workers[k] == Ready)
    && (forall l :: 0 <= l < |s.loops| ==> s.loops[l] == Loop([], [], false, false, None))
  }

  // ---- what every reachable state satisfies ----

  // The global queue holds exactly the requests that are InQueue, each once
  ghost predicate QueueOk(s: State) {
    && NoDup(s.wq) && (Exit in s.wq <==> s.down)
    && (forall i {:trigger Work(i) in s.wq} {:trigger i in s.items} :: Work(i) in s.wq <==>
        i in s.items && s.items[i].place == InQueue)
  }

  // A worker holds exactly the request that is on it
  ghost predicate WorkersOk(s: State) {
    && (forall k {:trigger s.workers[k]} :: 0 <= k < |s.workers| ==>
          && (s.workers[k].Busy? ==> s.workers[k].id in s.items && s.items[s.workers[k].id].place == OnWorker(k))
          && (s.workers[k].Ran? ==> s.workers[k].id in s.items && s.items[s.workers[k].id].place == OnWorker(k)))
    && (forall i :: i in s.items && s.items[i].place.OnWorker? ==>
          s.items[i].place.k < |s.workers| && s.workers[s.items[i].place.k] in {Busy(i), Ran(i)})
  }

  // Queue, batch and pending cancellation of a loop hold exactly its requests there, and a filled queue is announced
  ghost predicate LoopOk(s: State, l: nat)
    requires l < |s.loops|
  {
    var lp := s.loops[l];
    && NoDup(lp.wq) && NoDup(lp.batch)
    && (forall i :: i in lp.wq <==> i in s.items && s.items[i].loop == l && s.items[i].place == InLoop)
    && (forall i :: i in lp.batch <==> i in s.items && s.items[i].loop == l && s.items[i].place == InBatch)
    && (forall i :: i in s.items && s.items[i].loop == l && s.items[i].place == Cancelling <==> lp.cancel == Some(i))
    && (lp.waking ==> lp.batch == [] && lp.cancel == None)
    && (lp.wq != [] ==> lp.pending || lp.waking)
  }

  ghost predicate LoopsOk(s: State) {
    && (forall i :: i in s.items ==> s.items[i].loop < |s.loops|)
    && (forall l: nat {:trigger s.loops[l]} :: l < |s.loops| ==> LoopOk(s, l))
  }

  // What has happened to a request, told from where it is
  ghost predicate ItemOk(s: State, i: nat)
    requires i in s.items
  {
    var it := s.items[i];
    match it.place
    case InQueue => it.linked && it.work == User && it.runs == 0 && it.dones == [] && !it.cancelled
    case OnWorker(k) => !it.linked && it.work == User && it.dones == [] && !it.cancelled
                        && k < |s.workers| && it.runs == (if s.workers[k].Ran? then 1 else 0)
    case Cancelling => it.linked && it.work != Null && it.runs == 0 && it.dones == []
    case InLoop => it.linked && it.dones == [] && Finished(it)
    case InBatch => it.linked && it.dones == [] && Finished(it)
    case Delivered => |it.dones| == 1 && Finished(it) && it.dones[0] == (if it.cancelled then Ecanceled else Ok)
  }

  ghost predicate Finished(it: Item) {
    if it.cancelled then it.work == Cancelled && it.runs == 0 else it.work == Null && it.runs == 1
  }

  ghost predicate ItemsOk(s: State) {
    forall i {:trigger ItemOk(s, i)} :: i in s.items ==> ItemOk(s, i)
  }

  ghost function Count(ws: seq<Worker>, w: Worker): nat {
    if ws == [] then 0 else Count(ws[..|ws| - 1], w) + if ws[|ws| - 1] == w then 1 else 0
  }

  // While a worker sleeps, every queued job has a woken worker coming for it
  ghost predicate WakeOk(s: State) {
    && s.idle == Count(s.workers, Waiting) + Count(s.workers, Woken)
    && (Count(s.workers, Waiting) > 0 ==> |s.wq| <= Count(s.workers, Woken))
  }

  // The exit message splits the queue into what was posted before and after it
  ghost predicate Split(wq: seq<Job>, items: map<nat, Item>) {
    forall a, b {:trigger wq[a], wq[b]} ::
      0 <= a < |wq| && 0 <= b < |wq| && wq[a] == Exit && wq[b].Work? && wq[b].id in items ==>
      (items[wq[b].id].late <==> a < b)
  }

  ghost predicate OrderOk(s: State) {
    && (forall i :: i in s.items && s.items[i].late ==> s.down)
    && Split(s.wq, s.items)
    && (Gone in s.workers ==> s.wq != [] && s.wq[0] == Exit)
    && |s.workers| >= 1
  }

  ghost predicate Inv(s: State) {
    QueueOk(s) && WorkersOk(s) && LoopsOk(s) && ItemsOk(s) && WakeOk(s) && OrderOk(s)
  }

  // ---- whole runs ----

  ghost predicate Behaviour(run: seq<State>, events: seq<Event>) {
    && |run| == |events| + 1 && Init(run[0])
    && forall j {:trigger events[j]} :: 0 <= j < |events| ==>
        Wf(run[j]) && Can(run[j], events[j]) && run[j + 1] == Do(run[j], events[j])
  }

  // Steps of the pool and of the loops, as opposed to calls from outside and spurious wake-ups
  ghost predicate Internal(e: Event) {
    e.Lock? || e.Run? || e.Complete? || e.CancelEnd? || e.LoopWake? || e.Drain? || e.Deliver?
  }

  ghost predicate Quiet(s: State) {
    forall e :: Can(s, e) ==> !Internal(e)
  }
}
