// Every send is heard: in an endless run in which the loop and the sender that set the flag get their turns, however
// many others go on sending.
module AsyncLive {
  import opened Async
  import opened Lists

  ghost predicate Steps(run: nat -> State, events: nat -> Event, n: nat) {
    Can(run(n), events(n)) && run(n + 1) == Do(run(n), events(n))
  }

  ghost predicate Endless(run: nat -> State, events: nat -> Event) {
    Start(run(0)) && forall n: nat :: Steps(run, events, n)
  }

  // What the loop thread does by itself, as opposed to what it is told between polls and inside callbacks
  predicate LoopStep(e: Event) {
    e.WakeUp? || e.Read? || e.ReadCounter? || e.Examine? || e.Return? || e.Finish?
  }

  predicate LoopReady(s: State) { s.phase != Idle || s.fd > 0 }

  /** The loop takes a step at `m`, or has none to take: it waits in the poll and there is nothing to read. */
  ghost predicate LoopTurn(run: nat -> State, events: nat -> Event, m: nat) {
    LoopStep(events(m)) || !LoopReady(run(m))
  }

  /** A sender that has set the flag of `h` writes at `m`, or there is none. */
  ghost predicate WriteTurn(run: nat -> State, events: nat -> Event, h: int, m: nat) {
    (events(m).Write? && events(m).h == h) || h !in run(m).writing
  }

  ghost predicate LoopComes(run: nat -> State, events: nat -> Event, n: nat) {
    exists m: nat :: n <= m && LoopTurn(run, events, m)
  }

  ghost predicate WriteComes(run: nat -> State, events: nat -> Event, h: int, n: nat) {
    exists m: nat :: n <= m && WriteTurn(run, events, h, m)
  }

  ghost predicate Fair(run: nat -> State, events: nat -> Event, h: int) {
    forall n: nat :: LoopComes(run, events, n) && WriteComes(run, events, h, n)
  }

  ghost predicate Waits(s: State, h: int) { h in s.pending && Listed(s, h) }

  // How far the loop is from looking at `h`: in the batch, or to be put there by the next scan, or by the one after
  function Stage(s: State, h: int): nat {
    if h in s.batch then 0 else
    match s.phase
    case Reading => 1
    case Idle => 2
    case _ => 3
  }

  // While it reads, every handle can set its flag only once more
  ghost function Way(s: State, h: int): nat {
    if s.phase == Reading then s.fd + |s.writing| + |s.known - s.pending|
    else 2 * |s.batch| + if s.phase.Inside? then 1 else 0
  }

  ghost predicate NotFarther(t: State, s: State, h: int) {
    Stage(t, h) < Stage(s, h) || (Stage(t, h) == Stage(s, h) && Way(t, h) <= Way(s, h))
  }

  ghost predicate Nearer(t: State, s: State, h: int) {
    Stage(t, h) < Stage(s, h) || (Stage(t, h) == Stage(s, h) && Way(t, h) < Way(s, h))
  }

  lemma CasStep(s: State, e: Event, h: int)
    requires Inv(s) && Can(s, e) && e.Cas? && Waits(s, h)
    ensures NotFarther(Do(s, e), s, h)
  {
    assert Counted(s, e.h);
    if e.h !in s.pending {
      var free := s.known - s.pending;
      assert s.known - (s.pending + {e.h}) == free - {e.h} && |free - {e.h}| == |free| - 1;
    }
  }

  lemma CloseStep(s: State, e: Event, h: int)
    requires Inv(s) && Can(s, e) && e.Close? && Waits(s, h) && Waits(Do(s, e), h)
    ensures NotFarther(Do(s, e), s, h)
  {
    NoDupParts(s.listed, s.batch);
    WithoutIn(s.listed, e.h);
    WithoutIn(s.batch, e.h);
  }

  lemma WriteStep(s: State, e: Event, h: int)
    requires Inv(s) && Can(s, e) && e.Write? && Waits(s, h)
    ensures NotFarther(Do(s, e), s, h)
  {
    assert |s.writing - multiset{e.h}| == |s.writing| - 1;
  }

  lemma OpenStep(s: State, e: Event, h: int)
    requires Inv(s) && Can(s, e) && e.Open? && Waits(s, h)
    ensures NotFarther(Do(s, e), s, h)
  {
  }

  // No sender, and nothing the loop is told to do, takes the loop farther away
  lemma OthersStep(s: State, e: Event, h: int)
    requires Inv(s) && Can(s, e) && !LoopStep(e) && Waits(s, h) && h !in s.writing && Waits(Do(s, e), h)
    ensures h !in Do(s, e).writing && NotFarther(Do(s, e), s, h)
  {
    match e
    case Cas(_) => CasStep(s, e, h);
    case Write(_, _) => WriteStep(s, e, h);
    case Close(_) => CloseStep(s, e, h);
    case Open(_, _) => OpenStep(s, e, h);
    case CheapRead(_) =>
  }

  // Every step of the loop brings it nearer, unless it has now looked at `h`
  lemma LoopNearer(s: State, e: Event, h: int)
    requires Inv(s) && Can(s, e) && LoopStep(e) && Waits(s, h) && h !in s.writing && Waits(Do(s, e), h)
    ensures h !in Do(s, e).writing && Nearer(Do(s, e), s, h)
  {
  }

  lemma AnyStep(s: State, e: Event, h: int)
    requires Inv(s) && Can(s, e) && Waits(s, h) && h !in s.writing && Waits(Do(s, e), h)
    ensures h !in Do(s, e).writing && NotFarther(Do(s, e), s, h)
  {
    if LoopStep(e) {
      LoopNearer(s, e, h);
    } else {
      OthersStep(s, e, h);
    }
  }

  // While `h` waits, the loop has something to do
  lemma ReadyWhile(s: State, h: int)
    requires Inv(s) && Waits(s, h) && h !in s.writing
    ensures LoopReady(s)
  {
    assert Coming(s, h);
  }

  lemma {:induction false} SafeAt(run: nat -> State, events: nat -> Event, n: nat)
    requires Endless(run, events)
    ensures Inv(run(n)) && Can(run(n), events(n)) && run(n + 1) == Do(run(n), events(n))
  {
    if n == 0 {
      BeginsSafe(run(0));
    } else {
      SafeAt(run, events, n - 1);
      InvKept(run(n - 1), events(n - 1));
    }
    assert Steps(run, events, n);
  }

  lemma BeginsSafe(s: State)
    requires Start(s)
    ensures Inv(s)
  {
    assert forall h :: Counted(s, h);
  }

  ghost predicate WaitsFor(run: nat -> State, h: int, i: nat, m: nat) {
    forall k: nat {:trigger run(k)} :: i <= k <= m ==> Waits(run(k), h)
  }

  lemma {:induction false} Steady(run: nat -> State, events: nat -> Event, h: int, i: nat, m: nat)
    requires Endless(run, events) && i <= m && h !in run(i).writing && WaitsFor(run, h, i, m)
    ensures h !in run(m).writing && NotFarther(run(m), run(i), h)
  {
    if i < m {
      Steady(run, events, h, i, m - 1);
      SafeAt(run, events, m - 1);
      assert Waits(run(m - 1), h) && Waits(run(m), h);
      AnyStep(run(m - 1), events(m - 1), h);
    }
  }

  lemma TurnNearer(run: nat -> State, events: nat -> Event, h: int, i: nat, m: nat)
    requires Endless(run, events) && i <= m && h !in run(i).writing && WaitsFor(run, h, i, m + 1)
    requires LoopTurn(run, events, m)
    ensures h !in run(m + 1).writing && Nearer(run(m + 1), run(i), h)
  {
    assert Waits(run(m), h) && Waits(run(m + 1), h);
    Steady(run, events, h, i, m);
    SafeAt(run, events, m);
    ReadyWhile(run(m), h);
    LoopNearer(run(m), events(m), h);
  }

  // The flag is taken, or the handle closed
  lemma {:induction false} LookedAt(run: nat -> State, events: nat -> Event, h: int, i: nat, stage: nat, way: nat)
      returns (j: nat)
    requires Endless(run, events) && Fair(run, events, h) && h !in run(i).writing
    requires stage == Stage(run(i), h) && way == Way(run(i), h)
    ensures i <= j && !Waits(run(j), h)
    decreases stage, way
  {
    assert LoopComes(run, events, i);
    var m: nat :| i <= m && LoopTurn(run, events, m);
    if !WaitsFor(run, h, i, m + 1) {
      j :| i <= j <= m + 1 && !Waits(run(j), h);
    } else {
      TurnNearer(run, events, h, i, m);
      j := LookedAt(run, events, h, m + 1, Stage(run(m + 1), h), Way(run(m + 1), h));
    }
  }

  lemma {:induction false} WritesFall(run: nat -> State, events: nat -> Event, h: int, i: nat, m: nat)
    requires Endless(run, events) && i <= m && WaitsFor(run, h, i, m)
    ensures run(m).writing[h] <= run(i).writing[h]
  {
    if i < m {
      WritesFall(run, events, h, i, m - 1);
      SafeAt(run, events, m - 1);
      assert Waits(run(m - 1), h);
    }
  }

  lemma {:induction false} WrittenAt(run: nat -> State, events: nat -> Event, h: int, i: nat) returns (j: nat)
    requires Endless(run, events) && Fair(run, events, h)
    ensures i <= j && (!Waits(run(j), h) || h !in run(j).writing)
    decreases run(i).writing[h]
  {
    assert WriteComes(run, events, h, i);
    var m: nat :| i <= m && WriteTurn(run, events, h, m);
    if !WaitsFor(run, h, i, m) {
      j :| i <= j <= m && !Waits(run(j), h);
    } else {
      WritesFall(run, events, h, i, m);
      SafeAt(run, events, m);
      if h !in run(m).writing {
        j := m;
      } else {
        j := WrittenAt(run, events, h, m + 1);
      }
    }
  }

  // Every send to a handle opened with a callback is followed by a start of the callback, or the handle is closed
  lemma EverySendCalled(run: nat -> State, events: nat -> Event, k: nat, i: nat, h: int) returns (j: nat)
    requires Endless(run, events) && Fair(run, events, h)
    requires k < i && events(k) == Open(h, true) && Sent(run(i), events(i), h)
    ensures i < j && (run(j).calls[h] > run(i).calls[h] || !Listed(run(j), h))
  {
    j := WrittenAt(run, events, h, i + 1);
    if Waits(run(j), h) {
      j := LookedAt(run, events, h, j, Stage(run(j), h), Way(run(j), h));
    }
    if Listed(run(j), h) {
      var first, made := Prefix(run, events, j);
      EverySendHeard(first, made, k, i, j, h);
    }
  }

  // The first `j` steps
  lemma Prefix(run: nat -> State, events: nat -> Event, j: nat) returns (first: seq<State>, made: seq<Event>)
    requires Endless(run, events)
    ensures Behaviour(first, made) && |made| == j
    ensures (forall k: nat :: k <= j ==> first[k] == run(k)) && forall k: nat :: k < j ==> made[k] == events(k)
  {
    first := seq(j + 1, k requires 0 <= k <= j => run(k));
    made := seq(j, k requires 0 <= k < j => events(k));
    forall k | 0 <= k < j
      ensures Can(first[k], made[k]) && first[k + 1] == Do(first[k], made[k])
    {
      SafeAt(run, events, k);
    }
  }

  // One without a callback never has one started
  lemma NeverCalledAt(run: nat -> State, events: nat -> Event, k: nat, j: nat, h: int)
    requires Endless(run, events) && events(k) == Open(h, false)
    ensures run(j).calls[h] == 0
  {
    var n := if j <= k then k + 1 else j;
    var first, made := Prefix(run, events, n);
    NeverCalled(first, made, k, j, h);
  }
}
