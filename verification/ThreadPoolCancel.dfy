// When `uv_cancel` succeeds, and that a request it took back never runs.
module ThreadPoolCancel {
  import opened Basics
  import opened Lists
  import opened ThreadPool
  import opened ThreadPoolRuns
  import opened ThreadPoolSteps

  /** Nobody has started on the request. */
  ghost predicate Unstarted(s: State, i: nat) {
    i in s.items && !Held(s, i) && s.items[i].runs == 0
  }

  /** The thread of the loop is free to call: not in the middle of another cancel or of a wake-up. */
  ghost predicate Free(s: State, l: nat) {
    l < |s.loops| && !s.loops[l].waking && s.loops[l].cancel == None
  }

  lemma UnstartedIff(s: State, i: nat)
    requires Inv(s) && Wf(s) && i in s.items && !Told(s, i) && Free(s, s.items[i].loop)
    ensures Can(s, CancelBegin(i))
    ensures Unstarted(s, i) <==> s.items[i].linked && s.items[i].work != Null
    ensures Unstarted(s, i) <==> Queued(s, i) || s.items[i].cancelled
  {
    assert ItemOk(s, i) && LoopOk(s, s.items[i].loop);
    OnePlace(s, i);
    var it := s.items[i];
    if it.place.OnWorker? {
      assert s.workers[it.place.k] in {Busy(i), Ran(i)};
    }
  }

  // A cancel of a request not yet told to the loop succeeds if and only if nobody has started on it; otherwise it
  // changes nothing
  lemma CancelIff(s: State, i: nat)
    requires Inv(s) && Wf(s) && i in s.items && !Told(s, i) && Free(s, s.items[i].loop)
    ensures Can(s, CancelBegin(i))
    ensures Do(s, CancelBegin(i)).loops[s.items[i].loop].cancel == Some(i) <==> Unstarted(s, i)
    ensures !Unstarted(s, i) ==> Do(s, CancelBegin(i)) == s
    ensures Unstarted(s, i) ==> Queued(s, i) || s.items[i].cancelled
  {
    UnstartedIff(s, i);
  }

  // It can then be ended at once: the request is back with the loop, to be told of the cancel
  lemma CancelEnds(s: State, i: nat)
    requires Inv(s) && Wf(s) && i in s.items && !Told(s, i) && Free(s, s.items[i].loop) && Unstarted(s, i)
    ensures Can(s, CancelBegin(i)) && Wf(Do(s, CancelBegin(i)))
    ensures var t := Do(s, CancelBegin(i));
            Can(t, CancelEnd(s.items[i].loop)) && !Queued(t, i) && BeingCancelled(t, i)
            && Completed(Do(t, CancelEnd(s.items[i].loop)), i) && Do(t, CancelEnd(s.items[i].loop)).items[i].cancelled
  {
    CancelIff(s, i);
    InvKept(s, CancelBegin(i));
    var t, l := Do(s, CancelBegin(i)), s.items[i].loop;
    assert t.loops[l].cancel == Some(i);
    StepKeeps(s, CancelBegin(i), i);
    OnePlace(t, i);
    assert i in Do(t, CancelEnd(l)).loops[l].wq;
  }

  // ---- over runs ----

  /** A cancel of the request has succeeded, or is about to. */
  ghost predicate Doomed(s: State, i: nat) {
    i in s.items && (s.items[i].place == Cancelling || s.items[i].cancelled)
  }

  lemma DoomedKept(s: State, e: Event, i: nat)
    requires Inv(s) && Wf(s) && Can(s, e) && Doomed(s, i)
    ensures Doomed(Do(s, e), i)
  {
    StepKeeps(s, e, i);
    StepCancelled(s, e, i);
    if !s.items[i].cancelled {
      CancellingKept(s, e, i);
    }
  }

  // How a request gets from one place to another
  ghost predicate Moves(s: State, e: Event, i: nat, from: Place, to: Place)
    requires Wf(s) && Can(s, e)
  {
    || from == to
    || (e.Lock? && s.wq != [] && s.wq[0] == Work(i))
    || (e.Complete? && s.workers[e.k] == Ran(i) && to == InLoop)
    || (e == CancelBegin(i) && to == Cancelling && Do(s, e).loops[s.items[i].loop].cancel == Some(i))
    || (e.CancelEnd? && s.loops[e.l].cancel == Some(i) && to == InLoop && Do(s, e).items[i].cancelled)
    || (e.Drain? && i in s.loops[e.l].wq && to == InBatch)
    || (e.Deliver? && s.loops[e.l].batch[0] == i && to == Delivered)
  }

  lemma PlaceStep(s: State, e: Event, i: nat)
    requires Wf(s) && Can(s, e) && i in s.items
    ensures i in Do(s, e).items && Moves(s, e, i, s.items[i].place, Do(s, e).items[i].place)
  {
    if e.Lock? {} else if e.CancelBegin? {} else {}
  }

  // Nothing but the end of the cancel moves a request that is being cancelled
  lemma CancellingKept(s: State, e: Event, i: nat)
    requires QueueOk(s) && WorkersOk(s) && LoopsOk(s) && Wf(s) && Can(s, e) && i in s.items
    requires s.items[i].place == Cancelling
    ensures var t := Do(s, e); i in t.items && (t.items[i].place == Cancelling || t.items[i].cancelled)
  {
    PlaceStep(s, e, i);
    assert s.wq != [] ==> s.wq[0] in s.wq;
    if e.Drain? || e.Deliver? {
      assert LoopOk(s, e.l);
    }
  }

  lemma {:induction false} StaysDoomed(run: seq<State>, events: seq<Event>, j: nat, n: nat, i: nat)
    requires Behaviour(run, events) && j <= n < |run| && Doomed(run[j], i)
    ensures Doomed(run[n], i)
  {
    if j < n {
      StaysDoomed(run, events, j, n - 1, i);
      Safe(run, events, n - 1);
      assert events[n - 1] == events[n - 1];
      DoomedKept(run[n - 1], events[n - 1], i);
    }
  }

  // A request cancelled before anybody started on it, while it is still in the global queue for one, never runs, and
  // its done callback, once called, is told so
  lemma CancelledNeverRuns(run: seq<State>, events: seq<Event>, j: nat, n: nat, i: nat)
    requires Behaviour(run, events) && j < n < |run| && events[j] == CancelBegin(i)
    requires Queued(run[j], i) || Unstarted(run[j], i)
    ensures i in run[n].items && run[n].items[i].runs == 0
    ensures Told(run[n], i) ==> run[n].items[i].dones == [Ecanceled]
  {
    assert events[j] == events[j];
    Safe(run, events, j);
    Safe(run, events, n);
    NowDoomed(run[j], i);
    StaysDoomed(run, events, j + 1, n, i);
    assert ItemOk(run[n], i);
  }

  lemma NowDoomed(s: State, i: nat)
    requires Inv(s) && Wf(s) && Can(s, CancelBegin(i)) && (Queued(s, i) || Unstarted(s, i))
    ensures Doomed(Do(s, CancelBegin(i)), i)
  {
    assert ItemOk(s, i);
    OnePlace(s, i);
    CancelIff(s, i);
  }

  // A request that no cancel takes back is told of its one run
  lemma NotCancelledRuns(run: seq<State>, events: seq<Event>, n: nat, i: nat)
    requires Behaviour(run, events) && n < |run| && Told(run[n], i)
    requires forall j: nat :: j < n && events[j] == CancelBegin(i) ==> !Unstarted(run[j], i)
    ensures run[n].items[i].runs == 1 && run[n].items[i].dones == [Status.Ok]
  {
    Safe(run, events, n);
    assert ItemOk(run[n], i);
    NotDoomed(run, events, n, i);
  }

  lemma {:induction false} NotDoomed(run: seq<State>, events: seq<Event>, n: nat, i: nat)
    requires Behaviour(run, events) && n < |run|
    requires forall j: nat :: j < n && events[j] == CancelBegin(i) ==> !Unstarted(run[j], i)
    ensures !Doomed(run[n], i)
  {
    if n > 0 {
      var m := n - 1;
      NotDoomed(run, events, m, i);
      Safe(run, events, m);
      assert events[m] == events[m];
      DoomedOnlyByCancel(run[m], events[m], i);
    }
  }

  lemma DoomedOnlyByCancel(s: State, e: Event, i: nat)
    requires Inv(s) && Wf(s) && Can(s, e) && !Doomed(s, i) && (e == CancelBegin(i) ==> !Unstarted(s, i))
    ensures !Doomed(Do(s, e), i)
  {
    if e == CancelBegin(i) {
      CancelFails(s, i);
    } else if i in s.items {
      PlaceStep(s, e, i);
      StepCancelled(s, e, i);
      NotDoomedYet(s, e, i);
    } else if i in Do(s, e).items {
      StepCancelled(s, e, i);
    }
  }

  lemma CancelFails(s: State, i: nat)
    requires Inv(s) && Wf(s) && Can(s, CancelBegin(i)) && !Unstarted(s, i)
    ensures Do(s, CancelBegin(i)) == s
  {
    assert ItemOk(s, i);
    CancelIff(s, i);
  }

  lemma NotDoomedYet(s: State, e: Event, i: nat)
    requires LoopsOk(s) && Wf(s) && Can(s, e) && i in s.items && i in Do(s, e).items && e != CancelBegin(i)
    requires Moves(s, e, i, s.items[i].place, Do(s, e).items[i].place) && s.items[i].place != Cancelling
    ensures Do(s, e).items[i].place != Cancelling && !(e.CancelEnd? && s.loops[e.l].cancel == Some(i))
  {
    if e.CancelEnd? {
      assert LoopOk(s, e.l);
    } else if e.Lock? {}
  }

  // ---- what callers may always do ----

  // A sleeper to wake up, if there is one
  lemma SomeoneWakes(ws: seq<Worker>) returns (k: nat)
    ensures Wakes(ws, k)
  {
    k := 0;
    if exists j :: 0 <= j < |ws| && ws[j].Waiting? {
      k :| k < |ws| && ws[k].Waiting?;
    }
  }

  // Every loop can always submit a new request, the pool can be shut down once, and sleepers may wake up unasked
  lemma CallsAccepted(s: State, i: nat, l: nat) returns (k: nat)
    requires i !in s.items && l < |s.loops|
    ensures Can(s, Submit(i, l, k)) && (Can(s, Shutdown(k)) <==> !s.down)
    ensures forall j: nat :: Can(s, Spurious(j)) <==> j < |s.workers| && s.workers[j] == Waiting
  {
    k := SomeoneWakes(s.workers);
  }
}
