// Left alone, the thread pool comes to rest: every step of workers and loops lowers a measure.
module ThreadPoolRest {
  import opened Basics
  import opened ThreadPool
  import opened ThreadPoolRuns
  import opened ThreadPoolSteps

  // How far a request is from its delivery
  function ItemWeight(it: Item): nat {
    match it.place
    case InQueue => 14
    case OnWorker(_) => if it.runs == 0 then 12 else 10
    case Cancelling => 10
    case InLoop => 7
    case InBatch => 5
    case Delivered => 0
  }

  function WorkerWeight(w: Worker): nat {
    if w.Waiting? then 3 else if w.Gone? then 0 else 4
  }

  function LoopWeight(lp: Loop): nat {
    (if lp.pending then 2 else 0) + if lp.waking then 1 else 0
  }

  // The sum over the requests below `n`
  ghost function ItemsWeight(items: map<nat, Item>, n: nat): nat {
    if n == 0 then 0 else ItemsWeight(items, n - 1) + if n - 1 in items then ItemWeight(items[n - 1]) else 0
  }

  ghost function WorkersWeight(ws: seq<Worker>): nat {
    if ws == [] then 0 else WorkersWeight(ws[..|ws| - 1]) + WorkerWeight(ws[|ws| - 1])
  }

  ghost function LoopsWeight(ls: seq<Loop>): nat {
    if ls == [] then 0 else LoopsWeight(ls[..|ls| - 1]) + LoopWeight(ls[|ls| - 1])
  }

  ghost function Weight(s: State, n: nat): nat {
    ItemsWeight(s.items, n) + WorkersWeight(s.workers) + LoopsWeight(s.loops)
  }

  lemma {:induction false} ItemsUpdate(items: map<nat, Item>, i: nat, it: Item, n: nat)
    requires i in items
    ensures ItemsWeight(items[i := it], n) ==
      ItemsWeight(items, n) + if i < n then ItemWeight(it) - ItemWeight(items[i]) else 0
  {
    if n > 0 {
      ItemsUpdate(items, i, it, n - 1);
    }
  }

  lemma {:induction false} ItemsLower(items: map<nat, Item>, next: map<nat, Item>, n: nat)
    requires next.Keys == items.Keys && forall i :: i in items ==> ItemWeight(next[i]) <= ItemWeight(items[i])
    ensures ItemsWeight(next, n) <= ItemsWeight(items, n)
  {
    if n > 0 {
      ItemsLower(items, next, n - 1);
    }
  }

  lemma {:induction false} WorkersUpdate(ws: seq<Worker>, k: nat, w: Worker)
    requires k < |ws|
    ensures WorkersWeight(ws[k := w]) == WorkersWeight(ws) + WorkerWeight(w) - WorkerWeight(ws[k])
  {
    var n := |ws| - 1;
    if k < n {
      assert ws[k := w][..n] == ws[..n][k := w];
      WorkersUpdate(ws[..n], k, w);
    } else {
      assert ws[k := w][..n] == ws[..n];
    }
  }

  lemma {:induction false} LoopsUpdate(ls: seq<Loop>, l: nat, lp: Loop)
    requires l < |ls|
    ensures LoopsWeight(ls[l := lp]) == LoopsWeight(ls) + LoopWeight(lp) - LoopWeight(ls[l])
  {
    var n := |ls| - 1;
    if l < n {
      assert ls[l := lp][..n] == ls[..n][l := lp];
      LoopsUpdate(ls[..n], l, lp);
    } else {
      assert ls[l := lp][..n] == ls[..n];
    }
  }

  lemma SignalWeight(ws: seq<Worker>, k: nat)
    ensures WorkersWeight(Signal(ws, k)) <= WorkersWeight(ws) + 1
  {
    if k < |ws| && ws[k].Waiting? {
      WorkersUpdate(ws, k, Woken);
    }
  }

  lemma LockCounts(s: State, e: Event, n: nat)
    requires Wf(s) && Can(s, e) && e.Lock?
    requires s.wq != [] && s.wq[0].Work? ==> s.wq[0].id < n && s.items[s.wq[0].id].place == InQueue
    ensures Weight(Do(s, e), n) < Weight(s, n)
  {
    var k := e.k;
    if s.wq == [] {
      WorkersUpdate(s.workers, k, Waiting);
    } else if s.wq[0] == Exit {
      WorkersUpdate(s.workers, k, Gone);
      SignalWeight(s.workers[k := Gone], e.wakes);
    } else {
      var i := s.wq[0].id;
      WorkersUpdate(s.workers, k, Busy(i));
      ItemsUpdate(s.items, i, s.items[i].(linked := false, place := OnWorker(k)), n);
    }
  }

  lemma RunCounts(s: State, e: Event, n: nat)
    requires Wf(s) && Can(s, e) && e.Run? && s.workers[e.k].id < n && ItemOk(s, s.workers[e.k].id)
    requires s.items[s.workers[e.k].id].place == OnWorker(e.k)
    ensures Weight(Do(s, e), n) < Weight(s, n)
  {
    var i := s.workers[e.k].id;
    WorkersUpdate(s.workers, e.k, Ran(i));
    ItemsUpdate(s.items, i, s.items[i].(runs := s.items[i].runs + 1), n);
  }

  lemma CompleteCounts(s: State, e: Event, n: nat)
    requires Wf(s) && Can(s, e) && e.Complete? && s.workers[e.k].id < n && ItemOk(s, s.workers[e.k].id)
    requires s.items[s.workers[e.k].id].place == OnWorker(e.k)
    ensures Weight(Do(s, e), n) < Weight(s, n)
  {
    var i := s.workers[e.k].id;
    var l := s.items[i].loop;
    WorkersUpdate(s.workers, e.k, Ready);
    ItemsUpdate(s.items, i, s.items[i].(work := Null, linked := true, place := InLoop), n);
    LoopsUpdate(s.loops, l, s.loops[l].(wq := s.loops[l].wq + [i], pending := true));
  }

  lemma CancelEndCounts(s: State, e: Event, n: nat)
    requires Wf(s) && Can(s, e) && e.CancelEnd? && s.loops[e.l].cancel.value < n
    requires s.items[s.loops[e.l].cancel.value].place == Cancelling
    ensures Weight(Do(s, e), n) < Weight(s, n)
  {
    var i, lp := s.loops[e.l].cancel.value, s.loops[e.l];
    LoopsUpdate(s.loops, e.l, lp.(wq := lp.wq + [i], pending := true, cancel := None));
    ItemsUpdate(s.items, i, s.items[i].(work := Cancelled, linked := true, place := InLoop, cancelled := true), n);
  }

  lemma LoopWakeCounts(s: State, e: Event, n: nat)
    requires Wf(s) && Can(s, e) && e.LoopWake?
    ensures Weight(Do(s, e), n) < Weight(s, n)
  {
    LoopsUpdate(s.loops, e.l, s.loops[e.l].(pending := false, waking := true));
  }

  lemma DrainCounts(s: State, e: Event, n: nat)
    requires Wf(s) && Can(s, e) && e.Drain?
    requires forall i :: i in s.loops[e.l].wq ==> i in s.items && s.items[i].place == InLoop
    ensures Weight(Do(s, e), n) < Weight(s, n)
  {
    var lp := s.loops[e.l];
    LoopsUpdate(s.loops, e.l, lp.(wq := [], batch := lp.wq, waking := false));
    ItemsLower(s.items, Do(s, e).items, n);
  }

  lemma DeliverCounts(s: State, e: Event, n: nat)
    requires Wf(s) && Can(s, e) && e.Deliver? && s.loops[e.l].batch[0] < n
    requires s.items[s.loops[e.l].batch[0]].place == InBatch
    ensures Weight(Do(s, e), n) < Weight(s, n)
  {
    var i, lp := s.loops[e.l].batch[0], s.loops[e.l];
    LoopsUpdate(s.loops, e.l, lp.(batch := lp.batch[1..]));
    ItemsUpdate(s.items, i, Do(s, e).items[i], n);
  }

  // Every internal step brings the rest nearer, so that no run of them goes on for ever
  lemma EachStepCounts(s: State, e: Event, n: nat)
    requires Inv(s) && Wf(s) && Can(s, e) && Internal(e) && forall i :: i in s.items ==> i < n
    ensures Weight(Do(s, e), n) < Weight(s, n)
  {
    match e
    case Lock(_, _) =>
      assert s.wq != [] ==> s.wq[0] in s.wq;
      LockCounts(s, e, n);
    case Run(k) =>
      assert ItemOk(s, s.workers[k].id);
      RunCounts(s, e, n);
    case Complete(k) =>
      assert ItemOk(s, s.workers[k].id);
      CompleteCounts(s, e, n);
    case CancelEnd(l) =>
      assert LoopOk(s, l);
      CancelEndCounts(s, e, n);
    case LoopWake(_) => LoopWakeCounts(s, e, n);
    case Drain(l) =>
      assert LoopOk(s, l);
      DrainCounts(s, e, n);
    case Deliver(l) =>
      assert LoopOk(s, l) && s.loops[l].batch[0] in s.loops[l].batch;
      DeliverCounts(s, e, n);
  }

  lemma SameRequests(s: State, e: Event)
    requires Wf(s) && Can(s, e) && Internal(e)
    ensures Do(s, e).items.Keys == s.items.Keys
  {
    if e.Lock? {} else if e.Drain? {} else {}
  }

  ghost predicate Leads(s: State, events: seq<Event>, t: State)
    requires Wf(s)
    decreases |events|
  {
    if events == [] then s == t
    else Can(s, events[0]) && Internal(events[0]) && Wf(Do(s, events[0])) && Leads(Do(s, events[0]), events[1..], t)
  }

  // Without new calls every reachable state leads to rest, where all requests have been delivered exactly once,
  // but for those posted after the exit message
  lemma {:induction false} ComesToRest(s: State, n: nat) returns (events: seq<Event>, t: State)
    requires Inv(s) && Wf(s) && forall i :: i in s.items ==> i < n
    ensures Leads(s, events, t) && Inv(t) && Quiet(t) && t.items.Keys == s.items.Keys
    ensures forall i :: i in t.items && !t.items[i].late ==> |t.items[i].dones| == 1
    decreases Weight(s, n)
  {
    if Quiet(s) {
      events, t := [], s;
      QuietMeansDone(s);
    } else {
      var e :| Can(s, e) && Internal(e);
      EachStepCounts(s, e, n);
      InvKept(s, e);
      var rest;
      SameRequests(s, e);
      rest, t := ComesToRest(Do(s, e), n);
      events := [e] + rest;
      assert events[1..] == rest;
    }
  }
}
