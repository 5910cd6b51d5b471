// First come, first served: workers take requests in the order in which they were submitted, and a loop calls done
// callbacks in the order in which it got the requests back.
module ThreadPoolOrder {
  import opened Basics
  import opened Lists
  import opened ThreadPool
  import opened ThreadPoolCancel
  import opened ThreadPoolRuns
  import opened ThreadPoolSteps

  // ---- requests stay with their loop ----

  lemma LoopStays(s: State, e: Event, i: nat)
    requires Wf(s) && Can(s, e) && i in s.items
    ensures i in Do(s, e).items && Do(s, e).items[i].loop == s.items[i].loop
  {
    StepKeeps(s, e, i);
    if e.CancelBegin? {} else if e.Lock? {} else {}
  }

  lemma Submitted(s: State, e: Event)
    requires Wf(s) && Can(s, e) && e.Submit?
    ensures e.id in Do(s, e).items && Do(s, e).items[e.id].loop == e.loop
  {
  }

  lemma {:induction false} StaysWith(run: seq<State>, events: seq<Event>, j: nat, n: nat, i: nat)
    requires Behaviour(run, events) && j <= n < |run| && i in run[j].items
    ensures i in run[n].items && run[n].items[i].loop == run[j].items[i].loop
  {
    if j < n {
      StaysWith(run, events, j, n - 1, i);
      assert events[n - 1] == events[n - 1];
      LoopStays(run[n - 1], events[n - 1], i);
    }
  }

  // ---- the global queue ----

  /** `b` was submitted after `a`, and has not been taken before it. */
  ghost predicate Later(s: State, a: nat, b: nat) {
    && a in s.items && b in s.items
    && (Queued(s, a) ==> s.items[b].runs == 0 && !s.items[b].place.OnWorker? && Precedes(s.wq, Work(a), Work(b)))
  }

  lemma QueueStep(s: State, e: Event, a: nat, b: nat)
    requires QueueOk(s) && Wf(s) && Can(s, e) && a in s.items && b in s.items && Precedes(s.wq, Work(a), Work(b))
    requires Queued(Do(s, e), a)
    ensures Queued(s, a) && Precedes(Do(s, e).wq, Work(a), Work(b))
  {
    var x, y := Work(a), Work(b);
    match e
    case Submit(i, _, _) => PrecedesSnoc(s.wq, x, y, Work(i));
    case Shutdown(_) => PrecedesSnoc(s.wq, x, y, Exit);
    case Lock(_, _) =>
      if s.wq != [] {
        PrecedesRest(s.wq, x, y);
      }
    case CancelBegin(i) =>
      WithoutIn(s.wq, Work(i));
      PrecedesWithout(s.wq, Work(i), x, y);
    case _ =>
  }

  // A request behind another one in the queue is not taken
  lemma NotTaken(s: State, e: Event, a: nat, b: nat)
    requires WorkersOk(s) && Wf(s) && Can(s, e) && Later(s, a, b) && Queued(s, a)
    ensures b in Do(s, e).items && Do(s, e).items[b].runs == 0 && !Do(s, e).items[b].place.OnWorker?
  {
    NotFirst(s.wq, Work(a), Work(b));
    PlaceStep(s, e, b);
    RunsStep(s, e, b);
  }

  lemma RunsStep(s: State, e: Event, i: nat)
    requires WorkersOk(s) && Wf(s) && Can(s, e) && i in s.items && !s.items[i].place.OnWorker?
    ensures i in Do(s, e).items && Do(s, e).items[i].runs == s.items[i].runs
  {
    if e.Lock? {} else if e.CancelBegin? {} else {}
  }

  lemma LaterKept(s: State, e: Event, a: nat, b: nat)
    requires Inv(s) && Wf(s) && Can(s, e) && Later(s, a, b) && a != b
    ensures Later(Do(s, e), a, b)
  {
    StepKeeps(s, e, a);
    StepKeeps(s, e, b);
    if Queued(Do(s, e), a) {
      StillQueued(s, e, a);
      QueueStep(s, e, a, b);
      NotTaken(s, e, a, b);
    }
  }

  // No request comes back to the queue
  lemma StillQueued(s: State, e: Event, a: nat)
    requires QueueOk(s) && Wf(s) && Can(s, e) && a in s.items && Queued(Do(s, e), a)
    ensures Queued(s, a)
  {
    if e.CancelBegin? {
      WithoutIn(s.wq, Work(e.id));
    } else if e.Lock? {} else {}
  }

  lemma LaterStart(s: State, e: Event, a: nat)
    requires Inv(s) && Wf(s) && Can(s, e) && e.Submit? && a in s.items
    ensures Later(Do(s, e), a, e.id)
  {
    assert Work(e.id) !in s.wq;
  }

  lemma {:induction false} StaysLater(run: seq<State>, events: seq<Event>, j: nat, n: nat, a: nat, b: nat)
    requires Behaviour(run, events) && j <= n < |run| && Later(run[j], a, b) && a != b
    ensures Later(run[n], a, b)
  {
    if j < n {
      StaysLater(run, events, j, n - 1, a, b);
      Safe(run, events, n - 1);
      assert events[n - 1] == events[n - 1];
      LaterKept(run[n - 1], events[n - 1], a, b);
    }
  }

  // While a request waits in the global queue, no worker has taken one that was submitted after it
  lemma TakenInOrder(run: seq<State>, events: seq<Event>, j: nat, k: nat, n: nat, a: nat, b: nat)
    requires Behaviour(run, events) && j < k < n < |run|
    requires events[j].Submit? && events[j].id == a && events[k].Submit? && events[k].id == b
    requires Queued(run[n], a)
    ensures !Held(run[n], b) && b in run[n].items && run[n].items[b].runs == 0
  {
    assert events[j] == events[j] && events[k] == events[k];
    Submitted(run[j], events[j]);
    StaysWith(run, events, j + 1, k, a);
    Safe(run, events, k);
    Safe(run, events, n);
    LaterStart(run[k], events[k], a);
    StaysLater(run, events, k + 1, n, a, b);
  }

  // ---- the queue of a loop ----

  // The requests a loop has got back, in the order in which their done callbacks are called
  ghost function Line(s: State, l: nat): seq<nat>
    requires l < |s.loops|
  {
    s.loops[l].batch + s.loops[l].wq
  }

  /** The end of the work or of the cancel puts `i` into the queue of its loop. */
  ghost predicate Arrives(s: State, e: Event, i: nat) {
    || (e.Complete? && e.k < |s.workers| && s.workers[e.k] == Ran(i))
    || (e.CancelEnd? && e.l < |s.loops| && s.loops[e.l].cancel == Some(i))
  }

  /** The loop `l` has got `i` back, and no cancel has taken it out again. */
  ghost predicate Back(s: State, l: nat, i: nat) {
    l < |s.loops| && i in s.items && s.items[i].loop == l && (Told(s, i) || i in Line(s, l))
  }

  lemma BackPlace(s: State, l: nat, i: nat)
    requires Inv(s) && l < |s.loops| && i in s.items && s.items[i].loop == l
    ensures Back(s, l, i) <==> s.items[i].place in {InLoop, InBatch, Delivered}
    ensures Told(s, i) <==> s.items[i].place == Delivered
  {
    assert ItemOk(s, i) && LoopOk(s, l);
  }

  // Where a request arrives from
  lemma Arriving(s: State, e: Event, i: nat)
    requires WorkersOk(s) && LoopsOk(s) && ItemsOk(s) && Wf(s) && Can(s, e) && Arrives(s, e, i)
    ensures i in s.items && !Told(s, i) && i !in Line(s, s.items[i].loop)
    ensures e.CancelEnd? ==> e.l == s.items[i].loop
  {
    if e.CancelEnd? {
      assert LoopOk(s, e.l);
    }
    assert ItemOk(s, i) && LoopOk(s, s.items[i].loop);
  }

  lemma Arrived(s: State, e: Event, i: nat)
    requires WorkersOk(s) && LoopsOk(s) && ItemsOk(s) && Wf(s) && Can(s, e) && Arrives(s, e, i)
    ensures i in s.items && !Told(s, i) && Back(Do(s, e), s.items[i].loop, i) && !Told(Do(s, e), i)
    ensures i !in Line(s, s.items[i].loop) && Line(Do(s, e), s.items[i].loop) == Line(s, s.items[i].loop) + [i]
  {
    Arriving(s, e, i);
    var l, t := s.items[i].loop, Do(s, e);
    assert t.loops[l].wq == s.loops[l].wq + [i] && t.loops[l].batch == s.loops[l].batch;
    assert i in t.loops[l].wq;
  }

  lemma BackKept(s: State, e: Event, l: nat, i: nat)
    requires Inv(s) && Wf(s) && Can(s, e) && Back(s, l, i) && !(e == CancelBegin(i) && Unstarted(s, i))
    ensures Back(Do(s, e), l, i)
  {
    BackPlace(s, l, i);
    InvKept(s, e);
    LoopStays(s, e, i);
    BackPlace(Do(s, e), l, i);
    PlaceKept(s, e, i);
  }

  lemma PlaceKept(s: State, e: Event, i: nat)
    requires Inv(s) && Wf(s) && Can(s, e) && i in s.items && s.items[i].place in {InLoop, InBatch, Delivered}
    requires !(e == CancelBegin(i) && Unstarted(s, i))
    ensures i in Do(s, e).items && Do(s, e).items[i].place in {InLoop, InBatch, Delivered}
  {
    if e == CancelBegin(i) {
      CancelFails(s, i);
    } else {
      PlaceStep(s, e, i);
      assert s.wq != [] ==> s.wq[0] in s.wq;
    }
  }

  /** `a` is back and its done callback comes before that of `b`. */
  ghost predicate Ahead(s: State, l: nat, a: nat, b: nat) {
    Back(s, l, a) && b in s.items && s.items[b].loop == l && (Told(s, a) || (!Told(s, b) && Precedes(Line(s, l), a, b)))
  }

  lemma LineGrows(s: State, e: Event, l: nat, i: nat, a: nat, b: nat)
    requires Inv(s) && Wf(s) && Can(s, e) && Arrives(s, e, i)
    requires l < |s.loops| && a in Line(s, l) && Precedes(Line(s, l), a, b)
    ensures l < |Do(s, e).loops| && Precedes(Line(Do(s, e), l), a, b)
  {
    Arrived(s, e, i);
    if l == s.items[i].loop {
      PrecedesSnoc(Line(s, l), a, b, i);
    } else {
      LineApart(s, e, l, i);
    }
  }

  lemma LineApart(s: State, e: Event, l: nat, i: nat)
    requires LoopsOk(s) && Wf(s) && Can(s, e) && Arrives(s, e, i) && l < |s.loops|
    requires i in s.items && l != s.items[i].loop
    ensures l < |Do(s, e).loops| && Line(Do(s, e), l) == Line(s, l)
  {
    if e.CancelEnd? {
      assert LoopOk(s, e.l);
    }
  }

  lemma LineCut(s: State, e: Event, l: nat, a: nat, b: nat)
    requires Wf(s) && Can(s, e) && e.CancelBegin? && l < |s.loops| && Precedes(Line(s, l), a, b)
    ensures l < |Do(s, e).loops| && Precedes(Line(Do(s, e), l), a, b)
  {
    PrecedesWithoutBoth(s.loops[l].batch, s.loops[l].wq, e.id, a, b);
  }

  lemma LineMoves(s: State, e: Event, l: nat, a: nat, b: nat)
    requires LoopsOk(s) && Wf(s) && Can(s, e) && (e.Drain? || e.Deliver?) && l < |s.loops| && Precedes(Line(s, l), a, b)
    ensures l < |Do(s, e).loops| && Precedes(Line(Do(s, e), l), a, b)
  {
    var q, u := s.loops[l].batch, s.loops[l].wq;
    assert LoopOk(s, l);
    if l == e.l {
      if e.Drain? {
        assert q + u == u && u + [] == u;
      } else {
        assert (q + u)[1..] == q[1..] + u;
        PrecedesRest(q + u, a, b);
      }
    }
  }

  lemma LineStays(s: State, e: Event, l: nat)
    requires Wf(s) && Can(s, e) && l < |s.loops|
    requires !e.Complete? && !e.CancelEnd? && !e.CancelBegin? && !e.Drain? && !e.Deliver?
    ensures l < |Do(s, e).loops| && Line(Do(s, e), l) == Line(s, l)
  {
    if e.Lock? {} else {}
  }

  lemma LineStep(s: State, e: Event, l: nat, a: nat, b: nat)
    requires Inv(s) && Wf(s) && Can(s, e) && l < |s.loops| && a in Line(s, l) && Precedes(Line(s, l), a, b)
    ensures l < |Do(s, e).loops| && Precedes(Line(Do(s, e), l), a, b)
  {
    match e
    case Complete(k) => LineGrows(s, e, l, s.workers[k].id, a, b);
    case CancelEnd(m) => LineGrows(s, e, l, s.loops[m].cancel.value, a, b);
    case CancelBegin(_) => LineCut(s, e, l, a, b);
    case Drain(_) => LineMoves(s, e, l, a, b);
    case Deliver(_) => LineMoves(s, e, l, a, b);
    case _ => LineStays(s, e, l);
  }

  lemma ToldStep(s: State, e: Event, i: nat)
    requires Wf(s) && Can(s, e) && i in s.items && !Told(s, i) && Told(Do(s, e), i)
    ensures e.Deliver? && s.loops[e.l].batch[0] == i
  {
    if e.Lock? {} else if e.CancelBegin? {} else {}
  }

  // Only the first of the line is told, by its own loop
  lemma ToldFirst(s: State, e: Event, i: nat)
    requires LoopsOk(s) && Wf(s) && Can(s, e) && i in s.items && !Told(s, i) && Told(Do(s, e), i)
    ensures var l := s.items[i].loop; e == Deliver(l) && l < |s.loops| && Line(s, l) != [] && Line(s, l)[0] == i
  {
    ToldStep(s, e, i);
    assert LoopOk(s, e.l) && s.loops[e.l].batch[0] in s.loops[e.l].batch;
  }

  lemma AheadKept(s: State, e: Event, l: nat, a: nat, b: nat)
    requires Inv(s) && Wf(s) && Can(s, e) && Ahead(s, l, a, b) && !(e == CancelBegin(a) && Unstarted(s, a))
    ensures Ahead(Do(s, e), l, a, b)
  {
    BackKept(s, e, l, a);
    LoopStays(s, e, b);
    if Told(s, a) {
      ToldStays(s, e, a);
    } else {
      LineStep(s, e, l, a, b);
      NotFirst(Line(s, l), a, b);
      if Told(Do(s, e), b) {
        ToldFirst(s, e, b);
      }
    }
  }

  lemma ToldStays(s: State, e: Event, i: nat)
    requires Wf(s) && Can(s, e) && Told(s, i)
    ensures Told(Do(s, e), i)
  {
    StepKeeps(s, e, i);
    if e.Lock? {} else if e.CancelBegin? {} else {}
  }

  // From step `j` to step `n` no cancel takes the request back
  ghost predicate Left(run: seq<State>, events: seq<Event>, j: nat, n: nat, i: nat)
    requires n <= |events| < |run|
  {
    forall m {:trigger events[m]} :: j <= m < n && events[m] == CancelBegin(i) ==> !Unstarted(run[m], i)
  }

  lemma {:induction false} StaysBack(run: seq<State>, events: seq<Event>, j: nat, n: nat, l: nat, i: nat)
    requires Behaviour(run, events) && j <= n < |run| && Back(run[j], l, i) && Left(run, events, j, n, i)
    ensures Back(run[n], l, i)
  {
    if j < n {
      StaysBack(run, events, j, n - 1, l, i);
      Safe(run, events, n - 1);
      assert events[n - 1] == events[n - 1];
      BackKept(run[n - 1], events[n - 1], l, i);
    }
  }

  lemma {:induction false} StaysAhead(run: seq<State>, events: seq<Event>, j: nat, n: nat, l: nat, a: nat, b: nat)
    requires Behaviour(run, events) && j <= n < |run| && Ahead(run[j], l, a, b) && Left(run, events, j, n, a)
    ensures Ahead(run[n], l, a, b)
  {
    if j < n {
      StaysAhead(run, events, j, n - 1, l, a, b);
      Safe(run, events, n - 1);
      assert events[n - 1] == events[n - 1];
      AheadKept(run[n - 1], events[n - 1], l, a, b);
    }
  }

  lemma AheadStart(s: State, e: Event, l: nat, a: nat, b: nat)
    requires Inv(s) && Wf(s) && Can(s, e) && Arrives(s, e, b) && Back(s, l, a) && b in s.items && s.items[b].loop == l
    requires a != b
    ensures Ahead(Do(s, e), l, a, b)
  {
    Arrived(s, e, b);
    BackKept(s, e, l, a);
    LoopStays(s, e, b);
    var q := Line(s, l);
    assert Precedes(q + [b], a, b) by {
      assert b !in q;
    }
  }

  // The done callback is called on the loop that submitted the request
  lemma DeliveredAtHome(run: seq<State>, events: seq<Event>, j: nat, n: nat, i: nat)
    requires Behaviour(run, events) && j < n < |events| && events[j].Submit? && events[j].id == i
    requires !Told(run[n], i) && Told(run[n + 1], i)
    ensures events[n] == Deliver(events[j].loop)
  {
    assert events[j] == events[j] && events[n] == events[n];
    Submitted(run[j], events[j]);
    StaysWith(run, events, j + 1, n, i);
    Safe(run, events, n);
    ToldFirst(run[n], events[n], i);
  }

  // Of two requests of one loop the one that comes back first is told first, unless a cancel takes it out again
  lemma ToldInOrder(run: seq<State>, events: seq<Event>, j: nat, k: nat, n: nat, a: nat, b: nat)
    requires Behaviour(run, events) && j < k < n < |run| && a != b
    requires Arrives(run[j], events[j], a) && Arrives(run[k], events[k], b) && Left(run, events, j, n, a)
    requires a in run[n].items && b in run[n].items && run[n].items[a].loop == run[n].items[b].loop
    ensures Told(run[n], b) ==> Told(run[n], a)
  {
    var l := ArrivedAt(run, events, j, n, a);
    var m := ArrivedAt(run, events, k, n, b);
    StaysBack(run, events, j + 1, k, l, a);
    Safe(run, events, k);
    assert events[k] == events[k];
    AheadStart(run[k], events[k], l, a, b);
    StaysAhead(run, events, k + 1, n, l, a, b);
  }

  lemma ArrivedAt(run: seq<State>, events: seq<Event>, j: nat, n: nat, i: nat) returns (l: nat)
    requires Behaviour(run, events) && j < n < |run| && Arrives(run[j], events[j], i)
    ensures Back(run[j + 1], l, i) && i in run[n].items && run[n].items[i].loop == l
    ensures i in run[j].items && run[j].items[i].loop == l
  {
    assert events[j] == events[j];
    Safe(run, events, j);
    Arrived(run[j], events[j], i);
    l := run[j].items[i].loop;
    StaysWith(run, events, j, n, i);
  }
}
