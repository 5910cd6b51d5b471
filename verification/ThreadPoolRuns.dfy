// What holds in every state of every run of the thread pool.
module ThreadPoolRuns {
  import opened Basics
  import opened Lists
  import opened ThreadPool
  import opened ThreadPoolSteps

  lemma {:induction false} Safe(run: seq<State>, events: seq<Event>, j: nat)
    requires Behaviour(run, events) && j < |run|
    ensures Inv(run[j]) && Wf(run[j])
  {
    if j == 0 {
      assert Inv(run[0]) by {
        CountSome(run[0].workers, Waiting);
        CountSome(run[0].workers, Woken);
        forall l: nat | l < |run[0].loops|
          ensures LoopOk(run[0], l)
        {
          assert run[0].loops[l] == Loop([], [], false, false, None);
        }
      }
      InvWf(run[0]);
    } else {
      Safe(run, events, j - 1);
      assert events[j - 1] == events[j - 1];
      InvKept(run[j - 1], events[j - 1]);
    }
  }

  ghost predicate Queued(s: State, i: nat) { Work(i) in s.wq }
  ghost predicate Held(s: State, i: nat) { exists k :: 0 <= k < |s.workers| && s.workers[k] in {Busy(i), Ran(i)} }
  ghost predicate Completed(s: State, i: nat) { exists l :: 0 <= l < |s.loops| && i in s.loops[l].wq }
  ghost predicate Batched(s: State, i: nat) { exists l :: 0 <= l < |s.loops| && i in s.loops[l].batch }
  ghost predicate BeingCancelled(s: State, i: nat) { exists l :: 0 <= l < |s.loops| && s.loops[l].cancel == Some(i) }
  ghost predicate Told(s: State, i: nat) { i in s.items && s.items[i].dones != [] }

  // Each request is in exactly one place, and there only once
  lemma OnePlace(s: State, i: nat)
    requires Inv(s) && i in s.items
    ensures (if Queued(s, i) then 1 else 0) + (if Held(s, i) then 1 else 0) + (if Completed(s, i) then 1 else 0)
          + (if Batched(s, i) then 1 else 0) + (if BeingCancelled(s, i) then 1 else 0)
          + (if Told(s, i) then 1 else 0) == 1
    ensures forall j, k ::
              0 <= j < |s.workers| && 0 <= k < |s.workers| ==>
                s.workers[j] in {Busy(i), Ran(i)} && s.workers[k] in {Busy(i), Ran(i)} ==> j == k
    ensures NoDup(s.wq) && forall l {:trigger s.loops[l]} :: 0 <= l < |s.loops| ==>
            NoDup(s.loops[l].wq) && NoDup(s.loops[l].batch)
  {
    assert ItemOk(s, i);
    var it := s.items[i];
    assert LoopOk(s, it.loop);
    forall l: nat | l < |s.loops|
      ensures NoDup(s.loops[l].wq) && NoDup(s.loops[l].batch)
      ensures (i in s.loops[l].wq ==> it.place == InLoop) && (i in s.loops[l].batch ==> it.place == InBatch)
      ensures s.loops[l].cancel == Some(i) ==> it.place == Cancelling
    {
      assert LoopOk(s, l);
    }
    match it.place
    case OnWorker(k) => assert s.workers[k] in {Busy(i), Ran(i)};
    case InLoop => assert i in s.loops[it.loop].wq;
    case InBatch => assert i in s.loops[it.loop].batch;
    case Cancelling => assert s.loops[it.loop].cancel == Some(i);
    case InQueue =>
    case Delivered =>
  }

  // The done callback runs at most once; it reports a cancellation exactly if the work never ran, and otherwise
  // follows one run of the work
  lemma DoneOnce(s: State, i: nat)
    requires Inv(s) && i in s.items
    ensures |s.items[i].dones| <= 1 && s.items[i].runs <= 1
    ensures s.items[i].dones != [] ==> (s.items[i].dones[0] == Ecanceled <==> s.items[i].cancelled)
    ensures s.items[i].dones != [] ==> s.items[i].runs == if s.items[i].cancelled then 0 else 1
  {
    assert ItemOk(s, i);
  }

  // `uv_cancel` returned 0 for request `i` at step `j`
  ghost predicate CancelledAt(run: seq<State>, events: seq<Event>, i: nat, j: nat)
    requires |run| == |events| + 1
  {
    j < |events| && events[j].CancelEnd? && events[j].l < |run[j].loops| && run[j].loops[events[j].l].cancel == Some(i)
  }

  lemma StepCancelled(s: State, e: Event, i: nat)
    requires Wf(s) && Can(s, e) && i in Do(s, e).items
    ensures i in s.items || !Do(s, e).items[i].cancelled
    ensures i in s.items ==> (Do(s, e).items[i].cancelled <==>
            s.items[i].cancelled || (e.CancelEnd? && s.loops[e.l].cancel == Some(i)))
    ensures i !in s.items ==> e.Submit? && e.id == i
  {
    if e.Lock? {
      LockCancels(s, e, i);
    } else if e.CancelBegin? {} else if e.CancelEnd? {} else {}
  }

  lemma LockCancels(s: State, e: Event, i: nat)
    requires Wf(s) && Can(s, e) && e.Lock? && i in Do(s, e).items
    ensures i in s.items && Do(s, e).items[i].cancelled == s.items[i].cancelled
  {
  }

  lemma StepKeeps(s: State, e: Event, i: nat)
    requires Wf(s) && Can(s, e) && i in s.items
    ensures i in Do(s, e).items
  {
    if e.CancelBegin? {} else if e.Lock? {} else {}
  }

  lemma {:induction false} CancelledIff(run: seq<State>, events: seq<Event>, n: nat, i: nat)
    requires Behaviour(run, events) && n < |run| && i in run[n].items
    ensures run[n].items[i].cancelled <==> exists j: nat :: j < n && CancelledAt(run, events, i, j)
  {
    if n > 0 {
      var m := n - 1;
      Safe(run, events, m);
      assert events[m] == events[m];
      StepCancelled(run[m], events[m], i);
      if i in run[m].items {
        CancelledIff(run, events, m, i);
        if events[m].CancelEnd? && run[m].loops[events[m].l].cancel == Some(i) {
          assert CancelledAt(run, events, i, m);
        }
      } else {
        NeverCancelled(run, events, m, i);
      }
    }
  }

  // Nothing is cancelled before it was submitted
  lemma {:induction false} NeverCancelled(run: seq<State>, events: seq<Event>, n: nat, i: nat)
    requires Behaviour(run, events) && n < |run| && i !in run[n].items
    ensures forall j: nat :: j < n ==> !CancelledAt(run, events, i, j)
  {
    if n > 0 {
      var m := n - 1;
      Safe(run, events, m);
      assert events[m] == events[m];
      if events[m].CancelEnd? {
        assert LoopOk(run[m], events[m].l);
      }
      if i in run[m].items {
        StepKeeps(run[m], events[m], i);
      }
      NeverCancelled(run, events, m, i);
    }
  }

  lemma NotEnabled(s: State, e: Event)
    requires Quiet(s) && Internal(e)
    ensures !Can(s, e)
  {
  }

  lemma QuietWorker(s: State, k: nat)
    requires Inv(s) && Quiet(s) && k < |s.workers|
    ensures s.workers[k] in {Waiting, Gone}
  {
    var w: nat := if j: nat :| j < |s.workers| && s.workers[j].Waiting? then j else 0;
    assert Wakes(s.workers, w);
    NotEnabled(s, Lock(k, w));
    NotEnabled(s, Run(k));
    NotEnabled(s, Complete(k));
  }

  lemma QuietLoop(s: State, l: nat)
    requires Inv(s) && Quiet(s) && l < |s.loops|
    ensures s.loops[l].wq == [] && s.loops[l].batch == [] && s.loops[l].cancel == None
  {
    assert LoopOk(s, l);
    NotEnabled(s, CancelEnd(l));
    NotEnabled(s, Drain(l));
    NotEnabled(s, Deliver(l));
    NotEnabled(s, LoopWake(l));
  }

  // When nothing can move, every request posted before the exit message has been delivered, exactly once,
  // and after the exit message every worker has left
  lemma QuietMeansDone(s: State)
    requires Inv(s) && Quiet(s)
    ensures forall i :: i in s.items && !s.items[i].late ==> |s.items[i].dones| == 1
    ensures !s.down ==> forall i :: i in s.items ==> |s.items[i].dones| == 1
    ensures s.down ==> forall k :: 0 <= k < |s.workers| ==> s.workers[k] == Gone
  {
    forall k: nat | k < |s.workers|
      ensures s.workers[k] in {Waiting, Gone}
    {
      QuietWorker(s, k);
    }
    CountSome(s.workers, Waiting);
    CountSome(s.workers, Woken);
    assert Waiting in s.workers ==> s.wq == [];
    if Waiting !in s.workers {
      assert s.workers[0] == Gone;
    }
    forall i | i in s.items && !s.items[i].late
      ensures |s.items[i].dones| == 1
    {
      QuietItem(s, i);
    }
  }

  lemma QuietItem(s: State, i: nat)
    requires Inv(s) && Quiet(s) && i in s.items && !s.items[i].late
    requires s.wq == [] || s.wq[0] == Exit
    ensures |s.items[i].dones| == 1
  {
    assert ItemOk(s, i);
    QuietLoop(s, s.items[i].loop);
    assert LoopOk(s, s.items[i].loop);
    match s.items[i].place
    case OnWorker(k) => QuietWorker(s, k);
    case _ =>
  }

  // No lost wake-up, and no worker leaves before the work posted ahead of the exit message is taken
  lemma NoLostWakeup(s: State)
    requires Inv(s)
    ensures Waiting in s.workers ==> |s.wq| <= Count(s.workers, Woken)
    ensures Gone in s.workers ==> forall i :: Work(i) in s.wq ==> i in s.items && s.items[i].late
  {
    CountSome(s.workers, Waiting);
    if Gone in s.workers {
      forall i | Work(i) in s.wq
        ensures i in s.items && s.items[i].late
      {
        var b :| 0 <= b < |s.wq| && s.wq[b] == Work(i);
        assert s.wq[0] == Exit;
      }
    }
  }
}
