// Every step of the thread pool keeps its invariant.
module ThreadPoolSteps {
  import opened Basics
  import opened Lists
  import opened ThreadPool

  // ---- counting ----

  lemma {:induction false} CountUpdate(ws: seq<Worker>, k: nat, v: Worker, w: Worker)
    requires k < |ws|
    ensures Count(ws[k := v], w) == Count(ws, w) - (if ws[k] == w then 1 else 0) + (if v == w then 1 else 0)
  {
    var n := |ws| - 1;
    if k < n {
      assert ws[k := v][..n] == ws[..n][k := v];
      CountUpdate(ws[..n], k, v, w);
    } else {
      assert ws[k := v][..n] == ws[..n];
    }
  }

  lemma {:induction false} CountSome(ws: seq<Worker>, w: Worker)
    ensures Count(ws, w) > 0 <==> w in ws
  {
    if ws != [] {
      CountSome(ws[..|ws| - 1], w);
      assert ws == ws[..|ws| - 1] + [ws[|ws| - 1]];
    }
  }

  lemma InvWf(s: State)
    requires Inv(s)
    ensures Wf(s)
  {
    forall k | 0 <= k < |s.workers| && s.workers[k].Woken?
      ensures s.idle > 0
    {
      CountSome(s.workers, Woken);
    }
    forall j | 0 <= j < |s.wq| && s.wq[j].Work?
      ensures s.wq[j].id in s.items
    {
      assert s.wq[j] == Work(s.wq[j].id) && s.wq[j] in s.wq;
    }
    forall l: nat | l < |s.loops|
      ensures s.loops[l].cancel.Some? ==> s.loops[l].cancel.value in s.items
      ensures forall i :: i in s.loops[l].batch ==> i in s.items
    {
      assert LoopOk(s, l);
    }
  }

  // ---- every step keeps it ----

  ghost predicate Kept(t: State) {
    QueueOk(t) && WorkersOk(t) && LoopsOk(t) && ItemsOk(t) && OrderOk(t)
  }

  lemma SubmitLoop(s: State, e: Event, l: nat)
    requires LoopsOk(s) && Wf(s) && Can(s, e) && e.Submit? && l < |Do(s, e).loops|
    ensures LoopOk(Do(s, e), l)
  {
    assert LoopOk(s, l);
  }

  lemma SubmitQueue(s: State, e: Event)
    requires QueueOk(s) && OrderOk(s) && Wf(s) && Can(s, e) && e.Submit?
    ensures QueueOk(Do(s, e)) && OrderOk(Do(s, e))
  {
  }

  lemma SubmitKept(s: State, e: Event)
    requires Kept(s) && Wf(s) && Can(s, e) && e.Submit?
    ensures Kept(Do(s, e))
  {
    var t := Do(s, e);
    SubmitQueue(s, e);
    forall l: nat | l < |t.loops|
      ensures LoopOk(t, l)
    {
      SubmitLoop(s, e, l);
    }
    forall i | i in t.items
      ensures ItemOk(t, i)
    {
      if i in s.items {
        assert ItemOk(s, i);
      }
    }
  }

  lemma ShutdownKept(s: State, e: Event)
    requires Kept(s) && Wf(s) && Can(s, e) && e.Shutdown?
    ensures Kept(Do(s, e))
  {
    var t := Do(s, e);
    forall l: nat | l < |t.loops|
      ensures LoopOk(t, l)
    {
      assert LoopOk(s, l);
    }
    forall i | i in t.items
      ensures ItemOk(t, i)
    {
      if i in s.items {
        assert ItemOk(s, i);
      }
    }
  }

  lemma SpuriousKept(s: State, e: Event)
    requires Kept(s) && Wf(s) && Can(s, e) && e.Spurious?
    ensures Kept(Do(s, e))
  {
    var t := Do(s, e);
    forall l: nat | l < |t.loops|
      ensures LoopOk(t, l)
    {
      assert LoopOk(s, l);
    }
    forall i | i in t.items
      ensures ItemOk(t, i)
    {
      if i in s.items {
        assert ItemOk(s, i);
      }
    }
  }

  lemma RunLists(s: State, e: Event)
    requires QueueOk(s) && LoopsOk(s) && Wf(s) && Can(s, e) && e.Run?
    ensures QueueOk(Do(s, e)) && LoopsOk(Do(s, e))
  {
    var t := Do(s, e);
    forall l: nat | l < |t.loops|
      ensures LoopOk(t, l)
    {
      assert LoopOk(s, l);
    }
  }

  lemma RunRest(s: State, e: Event)
    requires WorkersOk(s) && ItemsOk(s) && OrderOk(s) && Wf(s) && Can(s, e) && e.Run?
    ensures WorkersOk(Do(s, e)) && ItemsOk(Do(s, e)) && OrderOk(Do(s, e))
  {
    var t := Do(s, e);
    assert ItemOk(s, s.workers[e.k].id);
    forall i | i in t.items
      ensures ItemOk(t, i)
    {
      assert ItemOk(s, i);
    }
  }

  lemma CancelEndLoop(s: State, e: Event, l: nat)
    requires LoopsOk(s) && ItemsOk(s) && Wf(s) && Can(s, e) && e.CancelEnd? && l < |Do(s, e).loops|
    ensures LoopOk(Do(s, e), l)
  {
    assert LoopOk(s, e.l) && ItemOk(s, s.loops[e.l].cancel.value) && LoopOk(s, l);
  }

  lemma CancelEndItem(s: State, e: Event, i: nat)
    requires ItemsOk(s) && WorkersOk(s) && LoopsOk(s) && Wf(s) && Can(s, e) && e.CancelEnd? && i in s.items
    ensures i in Do(s, e).items && ItemOk(Do(s, e), i)
  {
    assert LoopOk(s, e.l) && ItemOk(s, i);
    if i == s.loops[e.l].cancel.value {} else {}
  }

  lemma CancelEndKept(s: State, e: Event)
    requires Kept(s) && Wf(s) && Can(s, e) && e.CancelEnd?
    ensures Kept(Do(s, e))
  {
    var t := Do(s, e);
    assert LoopOk(s, e.l) && ItemOk(s, s.loops[e.l].cancel.value);
    forall l: nat | l < |t.loops|
      ensures LoopOk(t, l)
    {
      CancelEndLoop(s, e, l);
    }
    forall i | i in t.items
      ensures ItemOk(t, i)
    {
      CancelEndItem(s, e, i);
    }
  }

  lemma LoopWakeKept(s: State, e: Event)
    requires Kept(s) && Wf(s) && Can(s, e) && e.LoopWake?
    ensures Kept(Do(s, e))
  {
    var t := Do(s, e);
    assert LoopOk(s, e.l);
    forall l: nat | l < |t.loops|
      ensures LoopOk(t, l)
    {
      assert LoopOk(s, l);
    }
    forall i | i in t.items
      ensures ItemOk(t, i)
    {
      if i in s.items {
        assert ItemOk(s, i);
      }
    }
  }

  lemma DrainLoop(s: State, e: Event, l: nat)
    requires LoopsOk(s) && Wf(s) && Can(s, e) && e.Drain? && l < |Do(s, e).loops|
    ensures LoopOk(Do(s, e), l)
  {
    assert LoopOk(s, e.l) && LoopOk(s, l);
  }

  lemma DrainLists(s: State, e: Event)
    requires QueueOk(s) && LoopsOk(s) && Wf(s) && Can(s, e) && e.Drain?
    ensures QueueOk(Do(s, e)) && LoopsOk(Do(s, e))
  {
    var t := Do(s, e);
    assert LoopOk(s, e.l);
    forall l: nat | l < |t.loops|
      ensures LoopOk(t, l)
    {
      DrainLoop(s, e, l);
    }
  }

  lemma DrainRest(s: State, e: Event)
    requires LoopsOk(s) && WorkersOk(s) && ItemsOk(s) && OrderOk(s) && Wf(s) && Can(s, e) && e.Drain?
    ensures WorkersOk(Do(s, e)) && ItemsOk(Do(s, e)) && OrderOk(Do(s, e))
  {
    var t := Do(s, e);
    assert LoopOk(s, e.l);
    forall i | i in t.items
      ensures ItemOk(t, i)
    {
      assert ItemOk(s, i);
    }
  }

  // The loop the finished request belongs to
  lemma CompleteHome(s: State, e: Event)
    requires LoopsOk(s) && Wf(s) && Can(s, e) && e.Complete? && ItemOk(s, s.workers[e.k].id)
    requires s.items[s.workers[e.k].id].place == OnWorker(e.k)
    ensures LoopOk(Do(s, e), s.items[s.workers[e.k].id].loop)
  {
    assert LoopOk(s, s.items[s.workers[e.k].id].loop);
  }

  lemma CompleteLoop(s: State, e: Event, l: nat)
    requires LoopsOk(s) && Wf(s) && Can(s, e) && e.Complete? && l < |s.loops| && ItemOk(s, s.workers[e.k].id)
    requires s.items[s.workers[e.k].id].place == OnWorker(e.k)
    ensures l < |Do(s, e).loops| && LoopOk(Do(s, e), l)
  {
    if l == s.items[s.workers[e.k].id].loop {
      CompleteHome(s, e);
    } else {
      assert LoopOk(s, l);
    }
  }

  lemma CompleteLists(s: State, e: Event)
    requires QueueOk(s) && LoopsOk(s) && WorkersOk(s) && ItemsOk(s) && Wf(s) && Can(s, e) && e.Complete?
    ensures QueueOk(Do(s, e)) && LoopsOk(Do(s, e))
  {
    var t := Do(s, e);
    assert ItemOk(s, s.workers[e.k].id);
    forall l: nat | l < |t.loops|
      ensures LoopOk(t, l)
    {
      CompleteLoop(s, e, l);
    }
  }

  lemma CompleteItem(s: State, e: Event, i: nat)
    requires WorkersOk(s) && ItemsOk(s) && Wf(s) && Can(s, e) && e.Complete? && i in s.items
    ensures i in Do(s, e).items && ItemOk(Do(s, e), i)
  {
    assert ItemOk(s, i);
    if i == s.workers[e.k].id {} else {}
  }

  lemma CompleteRest(s: State, e: Event)
    requires WorkersOk(s) && ItemsOk(s) && OrderOk(s) && Wf(s) && Can(s, e) && e.Complete?
    ensures WorkersOk(Do(s, e)) && ItemsOk(Do(s, e)) && OrderOk(Do(s, e))
  {
    var t := Do(s, e);
    assert ItemOk(s, s.workers[e.k].id);
    forall i | i in t.items
      ensures ItemOk(t, i)
    {
      CompleteItem(s, e, i);
    }
  }

  lemma DeliverLoop(s: State, e: Event, l: nat)
    requires LoopsOk(s) && ItemsOk(s) && Wf(s) && Can(s, e) && e.Deliver? && l < |Do(s, e).loops|
    ensures LoopOk(Do(s, e), l)
  {
    assert LoopOk(s, e.l) && ItemOk(s, s.loops[e.l].batch[0]) && LoopOk(s, l);
    if l == e.l {} else {}
  }

  lemma DeliverLists(s: State, e: Event)
    requires QueueOk(s) && LoopsOk(s) && ItemsOk(s) && Wf(s) && Can(s, e) && e.Deliver?
    ensures QueueOk(Do(s, e)) && LoopsOk(Do(s, e))
  {
    var t := Do(s, e);
    assert LoopOk(s, e.l) && ItemOk(s, s.loops[e.l].batch[0]);
    forall l: nat | l < |t.loops|
      ensures LoopOk(t, l)
    {
      DeliverLoop(s, e, l);
    }
  }

  lemma DeliverRest(s: State, e: Event)
    requires LoopsOk(s) && WorkersOk(s) && ItemsOk(s) && OrderOk(s) && Wf(s) && Can(s, e) && e.Deliver?
    ensures WorkersOk(Do(s, e)) && ItemsOk(Do(s, e)) && OrderOk(Do(s, e))
  {
    var t := Do(s, e);
    assert LoopOk(s, e.l) && ItemOk(s, s.loops[e.l].batch[0]);
    forall i | i in t.items
      ensures ItemOk(t, i)
    {
      if i in s.items {
        assert ItemOk(s, i);
      }
    }
  }

  lemma CancelBeginOther(s: State, e: Event, l: nat)
    requires LoopsOk(s) && Wf(s) && Can(s, e) && e.CancelBegin? && l < |s.loops| && l != s.items[e.id].loop
    ensures l < |Do(s, e).loops| && LoopOk(Do(s, e), l)
  {
    assert LoopOk(s, l);
  }

  lemma CancelBeginLoop(s: State, e: Event, l: nat)
    requires LoopsOk(s) && ItemsOk(s) && Wf(s) && Can(s, e) && e.CancelBegin? && l < |Do(s, e).loops|
    ensures LoopOk(Do(s, e), l)
  {
    var k := s.items[e.id].loop;
    if l == k {
      assert ItemOk(s, e.id) && LoopOk(s, k);
      WithoutIn(s.loops[k].wq, e.id);
      WithoutIn(s.loops[k].batch, e.id);
    } else {
      CancelBeginOther(s, e, l);
    }
  }

  lemma CancelBeginLists(s: State, e: Event)
    requires QueueOk(s) && LoopsOk(s) && ItemsOk(s) && Wf(s) && Can(s, e) && e.CancelBegin?
    ensures QueueOk(Do(s, e)) && LoopsOk(Do(s, e))
  {
    var t := Do(s, e);
    assert ItemOk(s, e.id);
    WithoutIn(s.wq, Work(e.id));
    forall l: nat | l < |t.loops|
      ensures LoopOk(t, l)
    {
      CancelBeginLoop(s, e, l);
    }
  }

  lemma SplitCut(wq: seq<Job>, p: nat, items: map<nat, Item>)
    requires p < |wq| && Split(wq, items)
    ensures Split(wq[..p] + wq[p + 1..], items)
  {
    var c := wq[..p] + wq[p + 1..];
    forall a, b | 0 <= a < |c| && 0 <= b < |c| && c[a] == Exit && c[b].Work? && c[b].id in items
      ensures items[c[b].id].late <==> a < b
    {
      var a', b' := if a < p then a else a + 1, if b < p then b else b + 1;
      assert wq[a'] == c[a] && wq[b'] == c[b];
    }
  }

  // A request leaves the queue; the others stay on their side of the exit message
  lemma SplitWithout(wq: seq<Job>, j: Job, items: map<nat, Item>)
    requires Split(wq, items)
    ensures Split(Without(wq, j), items)
  {
    if j in wq {
      var p := WithoutCut(wq, j);
      SplitCut(wq, p, items);
    } else {
      WithoutNone(wq, j);
    }
  }

  lemma SplitSame(wq: seq<Job>, items: map<nat, Item>, next: map<nat, Item>)
    requires Split(wq, items) && next.Keys == items.Keys && forall i :: i in items ==> next[i].late == items[i].late
    ensures Split(wq, next)
  {
    forall a, b | 0 <= a < |wq| && 0 <= b < |wq| && wq[a] == Exit && wq[b].Work? && wq[b].id in next
      ensures next[wq[b].id].late <==> a < b
    {
      assert wq[b].id in items;
    }
  }

  lemma FirstStays(wq: seq<Job>, j: Job)
    requires wq != [] && wq[0] != j
    ensures Without(wq, j) != [] && Without(wq, j)[0] == wq[0]
  {
  }

  // What the start of a cancel leaves alone
  lemma CancelBeginSame(s: State, e: Event)
    requires Wf(s) && Can(s, e) && e.CancelBegin?
    ensures var t := Do(s, e); t.workers == s.workers && t.down == s.down && t.items.Keys == s.items.Keys
    ensures forall i :: i in s.items ==> Do(s, e).items[i].late == s.items[i].late
    ensures Do(s, e).wq == s.wq || Do(s, e).wq == Without(s.wq, Work(e.id))
  {
  }

  lemma CancelBeginSplit(s: State, e: Event)
    requires OrderOk(s) && Wf(s) && Can(s, e) && e.CancelBegin?
    ensures Split(Do(s, e).wq, Do(s, e).items)
  {
    CancelBeginSame(s, e);
    SplitWithout(s.wq, Work(e.id), s.items);
    SplitSame(Do(s, e).wq, s.items, Do(s, e).items);
  }

  lemma CancelBeginOrder(s: State, e: Event)
    requires OrderOk(s) && Wf(s) && Can(s, e) && e.CancelBegin?
    ensures OrderOk(Do(s, e))
  {
    CancelBeginSame(s, e);
    CancelBeginSplit(s, e);
    if Gone in s.workers {
      FirstStays(s.wq, Work(e.id));
    }
  }

  lemma CancelBeginRest(s: State, e: Event)
    requires WorkersOk(s) && ItemsOk(s) && Wf(s) && Can(s, e) && e.CancelBegin?
    ensures WorkersOk(Do(s, e)) && ItemsOk(Do(s, e))
  {
    var t := Do(s, e);
    assert ItemOk(s, e.id);
    forall i | i in t.items
      ensures ItemOk(t, i)
    {
      assert ItemOk(s, i);
    }
  }

  lemma SleepLists(s: State, e: Event)
    requires QueueOk(s) && LoopsOk(s) && Wf(s) && Can(s, e) && e.Lock? && s.wq == []
    ensures QueueOk(Do(s, e)) && LoopsOk(Do(s, e))
  {
    var t := Do(s, e);
    forall l: nat | l < |t.loops|
      ensures LoopOk(t, l)
    {
      assert LoopOk(s, l);
    }
  }

  lemma SleepRest(s: State, e: Event)
    requires WorkersOk(s) && ItemsOk(s) && OrderOk(s) && Wf(s) && Can(s, e) && e.Lock? && s.wq == []
    ensures WorkersOk(Do(s, e)) && ItemsOk(Do(s, e)) && OrderOk(Do(s, e))
  {
    var t := Do(s, e);
    forall i | i in t.items
      ensures ItemOk(t, i)
    {
      if i in s.items {
        assert ItemOk(s, i);
      }
    }
  }

  lemma LeaveLists(s: State, e: Event)
    requires QueueOk(s) && LoopsOk(s) && Wf(s) && Can(s, e) && e.Lock? && s.wq != [] && s.wq[0] == Exit
    ensures QueueOk(Do(s, e)) && LoopsOk(Do(s, e))
  {
    var t := Do(s, e);
    forall l: nat | l < |t.loops|
      ensures LoopOk(t, l)
    {
      assert LoopOk(s, l);
    }
  }

  lemma LeaveItem(s: State, e: Event, i: nat)
    requires WorkersOk(s) && ItemsOk(s) && Wf(s) && Can(s, e) && e.Lock? && s.wq != [] && s.wq[0] == Exit
            && i in s.items
    ensures i in Do(s, e).items && ItemOk(Do(s, e), i)
  {
    assert ItemOk(s, i);
  }

  lemma LeaveRest(s: State, e: Event)
    requires WorkersOk(s) && ItemsOk(s) && OrderOk(s) && Wf(s) && Can(s, e) && e.Lock? && s.wq != [] && s.wq[0] == Exit
    ensures WorkersOk(Do(s, e)) && ItemsOk(Do(s, e)) && OrderOk(Do(s, e))
  {
    var t := Do(s, e);
    forall i | i in t.items
      ensures ItemOk(t, i)
    {
      LeaveItem(s, e, i);
    }
  }

  lemma TakeLoop(s: State, e: Event, l: nat)
    requires QueueOk(s) && LoopsOk(s) && ItemsOk(s) && Wf(s) && Can(s, e) && e.Lock? && s.wq != [] && s.wq[0].Work?
            && l < |Do(s, e).loops|
    ensures LoopOk(Do(s, e), l)
  {
    assert s.wq[0] in s.wq && s.wq[0] == Work(s.wq[0].id) && ItemOk(s, s.wq[0].id) && LoopOk(s, l);
  }

  lemma TakeLists(s: State, e: Event)
    requires QueueOk(s) && LoopsOk(s) && ItemsOk(s) && Wf(s) && Can(s, e) && e.Lock? && s.wq != [] && s.wq[0].Work?
    ensures QueueOk(Do(s, e)) && LoopsOk(Do(s, e))
  {
    var t := Do(s, e);
    assert s.wq[0] in s.wq && s.wq[0] == Work(s.wq[0].id) && ItemOk(s, s.wq[0].id);
    forall l: nat | l < |t.loops|
      ensures LoopOk(t, l)
    {
      TakeLoop(s, e, l);
    }
  }

  lemma SplitTail(wq: seq<Job>, items: map<nat, Item>, next: map<nat, Item>)
    requires wq != [] && Split(wq, items) && next.Keys == items.Keys
    requires forall i :: i in items ==> next[i].late == items[i].late
    ensures Split(wq[1..], next)
  {
    var c := wq[1..];
    forall a, b | 0 <= a < |c| && 0 <= b < |c| && c[a] == Exit && c[b].Work? && c[b].id in next
      ensures next[c[b].id].late <==> a < b
    {
      assert wq[a + 1] == c[a] && wq[b + 1] == c[b];
    }
  }

  lemma TakeOrder(s: State, e: Event)
    requires QueueOk(s) && OrderOk(s) && Wf(s) && Can(s, e) && e.Lock? && s.wq != [] && s.wq[0].Work?
    ensures OrderOk(Do(s, e))
  {
    assert s.wq[0] in s.wq && s.wq[0] == Work(s.wq[0].id);
    SplitTail(s.wq, s.items, Do(s, e).items);
  }

  lemma TakeRest(s: State, e: Event)
    requires QueueOk(s) && WorkersOk(s) && ItemsOk(s) && Wf(s) && Can(s, e) && e.Lock? && s.wq != [] && s.wq[0].Work?
    ensures WorkersOk(Do(s, e)) && ItemsOk(Do(s, e))
  {
    var t := Do(s, e);
    assert s.wq[0] in s.wq && s.wq[0] == Work(s.wq[0].id) && ItemOk(s, s.wq[0].id);
    forall i | i in t.items
      ensures ItemOk(t, i)
    {
      if i in s.items {
        assert ItemOk(s, i);
      }
    }
  }

  lemma EveryKept(s: State, e: Event)
    requires Kept(s) && Wf(s) && Can(s, e)
    ensures Kept(Do(s, e))
  {
    match e
    case Submit(_, _, _) => SubmitKept(s, e);
    case Lock(_, _) =>
      if s.wq == [] {
        SleepLists(s, e);
        SleepRest(s, e);
      } else if s.wq[0] == Exit {
        LeaveLists(s, e);
        LeaveRest(s, e);
      } else {
        TakeLists(s, e);
        TakeRest(s, e);
        TakeOrder(s, e);
      }
    case Spurious(_) => SpuriousKept(s, e);
    case Run(_) => RunLists(s, e); RunRest(s, e);
    case Complete(_) => CompleteLists(s, e); CompleteRest(s, e);
    case CancelBegin(_) => CancelBeginLists(s, e); CancelBeginRest(s, e); CancelBeginOrder(s, e);
    case CancelEnd(_) => CancelEndKept(s, e);
    case LoopWake(_) => LoopWakeKept(s, e);
    case Drain(_) => DrainLists(s, e); DrainRest(s, e);
    case Deliver(_) => DeliverLists(s, e); DeliverRest(s, e);
    case Shutdown(_) => ShutdownKept(s, e);
  }

  lemma SignalCount(ws: seq<Worker>, k: nat)
    requires Wakes(ws, k)
    ensures var t := Signal(ws, k);
            && Count(t, Waiting) + Count(t, Woken) == Count(ws, Waiting) + Count(ws, Woken)
            && (if Count(ws, Waiting) > 0 then Count(t, Woken) == Count(ws, Woken) + 1 else Count(t, Waiting) == 0)
  {
    CountSome(ws, Waiting);
    if k < |ws| && ws[k].Waiting? {
      CountUpdate(ws, k, Woken, Waiting);
      CountUpdate(ws, k, Woken, Woken);
    }
  }

  // The balance after a job was posted and a sleeper, if there is one, was signalled
  lemma WakePost(s: State, j: Job, k: nat)
    requires WakeOk(s) && Wakes(s.workers, k)
    ensures WakeOk(Post(s, j, k))
  {
    SignalCount(s.workers, k);
  }

  lemma WakeSubmit(s: State, e: Event)
    requires WakeOk(s) && Wf(s) && Can(s, e) && (e.Submit? || e.Shutdown?)
    ensures WakeOk(Do(s, e))
  {
    match e
    case Submit(i, l, k) => WakePost(SetItem(s, i, Do(s, e).items[i]), Work(i), k);
    case Shutdown(k) => WakePost(s, Exit, k);
  }

  lemma WakeLock(s: State, e: Event)
    requires WakeOk(s) && Wf(s) && Can(s, e) && e.Lock?
    ensures WakeOk(Do(s, e))
  {
    var k := e.k;
    var w := if s.wq == [] then Waiting else if s.wq[0] == Exit then Gone else Busy(s.wq[0].id);
    CountUpdate(s.workers, k, w, Waiting);
    CountUpdate(s.workers, k, w, Woken);
    if s.wq != [] && s.wq[0] == Exit {
      WakesStill(s.workers, k, e.wakes);
      SignalCount(s.workers[k := Gone], e.wakes);
    }
  }

  // A worker changes without being woken or put to sleep
  lemma WakeWorker(s: State, e: Event)
    requires WakeOk(s) && Wf(s) && Can(s, e) && (e.Spurious? || e.Run? || e.Complete?)
    ensures WakeOk(Do(s, e))
  {
    var w := Do(s, e).workers[e.k];
    CountUpdate(s.workers, e.k, w, Waiting);
    CountUpdate(s.workers, e.k, w, Woken);
  }

  lemma WakeOthers(s: State, e: Event)
    requires QueueOk(s) && WakeOk(s) && Wf(s) && Can(s, e)
            && (e.CancelBegin? || e.CancelEnd? || e.LoopWake? || e.Drain? || e.Deliver?)
    ensures WakeOk(Do(s, e))
  {
    if e.CancelBegin? {
      WithoutIn(s.wq, Work(e.id));
      CancelBeginSame(s, e);
    }
  }

  lemma WakeKept(s: State, e: Event)
    requires Inv(s) && Wf(s) && Can(s, e)
    ensures WakeOk(Do(s, e))
  {
    match e
    case Submit(_, _, _) => WakeSubmit(s, e);
    case Shutdown(_) => WakeSubmit(s, e);
    case Lock(_, _) => WakeLock(s, e);
    case Spurious(_) => WakeWorker(s, e);
    case Run(_) => WakeWorker(s, e);
    case Complete(_) => WakeWorker(s, e);
    case _ => WakeOthers(s, e);
  }

  lemma WakesStill(ws: seq<Worker>, k: nat, j: nat)
    requires k < |ws| && !ws[k].Waiting? && Wakes(ws, j)
    ensures Wakes(ws[k := Gone], j)
  {
    var t := ws[k := Gone];
    if i :| 0 <= i < |t| && t[i].Waiting? {
      assert ws[i].Waiting?;
    }
  }

  lemma InvKept(s: State, e: Event)
    requires Inv(s) && Wf(s) && Can(s, e)
    ensures Inv(Do(s, e)) && Wf(Do(s, e))
  {
    EveryKept(s, e);
    WakeKept(s, e);
    InvWf(Do(s, e));
  }
}
