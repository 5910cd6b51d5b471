// The wake-up protocol of async handles: any number of senders, one loop thread, one descriptor between them.
module Async {
  import opened Lists

  datatype Phase = Idle | Reading | Scanning | Inside(h: int)

  // `fd` counts the unread bytes; `checking` holds the sends past the cheap read, `writing` those that won the flag.
  // The counters `wins`, `takes` and `calls` (flag set, flag cleared, callback started) are ghost knowledge.
  datatype State = State(listed: seq<int>, batch: seq<int>, callback: set<int>, known: set<int>, phase: Phase, fd: nat,
                         pending: set<int>, checking: multiset<int>, writing: multiset<int>,
                         wins: multiset<int>, takes: multiset<int>, calls: multiset<int>)

  datatype Event =
    | CheapRead(h: int)
    | Cas(h: int)
    | Write(h: int, full: bool)
    | WakeUp
    | Read(r: nat)
    | ReadCounter
    | Examine
    | Return
    | Finish
    | Open(h: int, withCallback: bool)
    | Close(h: int)

  const BUFFER := 1024

  ghost predicate Listed(s: State, h: int) { h in s.listed || h in s.batch }

  // What the loop thread may do to the lists: between polls or inside a callback
  predicate AtWill(s: State) { s.phase.Idle? || s.phase.Inside? }

  ghost predicate Can(s: State, e: Event) {
    match e
    case CheapRead(h) => h in s.known
    case Cas(h) => h in s.checking
    case Write(h, full) => h in s.writing && (full ==> s.fd > 0)
    case WakeUp => s.phase == Idle && s.fd > 0
    // a short read takes all there is
    case Read(r) => s.phase == Reading && r <= s.fd && r <= BUFFER && (r < BUFFER ==> r == s.fd)
    case ReadCounter => s.phase == Reading
    case Examine => s.phase == Scanning && s.batch != []
    case Return => s.phase.Inside?
    case Finish => s.phase == Scanning && s.batch == []
    case Open(h, c) => AtWill(s) && h !in s.known
    case Close(h) => AtWill(s) && Listed(s, h)
  }

  ghost function Scan(s: State): State {
    s.(phase := Scanning, batch := s.listed, listed := [])
  }

  ghost function DoExamine(s: State): State
    requires s.batch != []
  {
    var h := s.batch[0];
    var t := s.(listed := s.listed + [h], batch := s.batch[1..]);
    if h !in s.pending then t else
    var u := t.(pending := s.pending - {h}, takes := s.takes + multiset{h});
    if h !in s.callback then u else u.(calls := s.calls + multiset{h}, phase := Inside(h))
  }

  ghost function Do(s: State, e: Event): State
    requires Can(s, e)
  {
    match e
    case CheapRead(h) => if h in s.pending then s else s.(checking := s.checking + multiset{h})
    case Cas(h) =>
      var t := s.(checking := s.checking - multiset{h});
      if h in s.pending then t
      else t.(pending := s.pending + {h}, wins := s.wins + multiset{h}, writing := s.writing + multiset{h})
    case Write(h, full) => s.(writing := s.writing - multiset{h}, fd := if full then s.fd else s.fd + 1)
    case WakeUp => s.(phase := Reading)
    case Read(r) => var t := s.(fd := s.fd - r); if r == BUFFER then t else Scan(t)
    case ReadCounter => Scan(s.(fd := 0))
    case Examine => DoExamine(s)
    case Return => s.(phase := Scanning)
    case Finish => s.(phase := Idle)
    case Open(h, c) =>
      s.(known := s.known + {h}, listed := s.listed + [h], callback := if c then s.callback + {h} else s.callback)
    case Close(h) => s.(listed := Without(s.listed, h), batch := Without(s.batch, h))
  }

  // ---- the invariant ----

  // Whatever set the flag of `h` will still make the loop look at it
  ghost predicate Coming(s: State, h: int) {
    s.fd > 0 || h in s.writing || s.phase == Reading || h in s.batch
  }

  ghost predicate NoneLost(s: State) {
    forall h {:trigger Coming(s, h)} :: h in s.pending && Listed(s, h) ==> Coming(s, h)
  }

  ghost predicate Counted(s: State, h: int) {
    && s.wins[h] == s.takes[h] + (if h in s.pending then 1 else 0)
    && s.calls[h] == (if h in s.callback then s.takes[h] else 0)
    && (h in s.wins ==> h in s.known) && (h in s.checking ==> h in s.known)
  }

  ghost predicate Once(s: State) {
    NoDup(s.listed + s.batch) && forall h :: Listed(s, h) ==> h in s.known
  }

  ghost predicate Inv(s: State) {
    && NoneLost(s) && Once(s) && s.callback <= s.known
    && (forall h {:trigger Counted(s, h)} :: Counted(s, h))
    && (s.batch != [] ==> s.phase == Scanning || s.phase.Inside?)
  }

  lemma NoneLostKept(s: State, e: Event)
    requires Inv(s) && Can(s, e)
    ensures NoneLost(Do(s, e))
  {
    var t := Do(s, e);
    forall h | h in t.pending && Listed(t, h)
      ensures Coming(t, h)
    {
      assert Coming(s, h) || !Listed(s, h) || h !in s.pending;
      assert Counted(s, h);
      if e.Close? {
        NoDupParts(s.listed, s.batch);
        WithoutIn(s.listed, e.h);
        WithoutIn(s.batch, e.h);
      }
    }
  }

  lemma CountedKept(s: State, e: Event, h: int)
    requires Inv(s) && Can(s, e)
    ensures Counted(Do(s, e), h)
  {
    assert Counted(s, h);
  }

  lemma OnceKept(s: State, e: Event)
    requires Inv(s) && Can(s, e)
    ensures Once(Do(s, e))
  {
    NoDupParts(s.listed, s.batch);
    match e
    case Close(h) =>
      WithoutIn(s.listed, h);
      WithoutIn(s.batch, h);
      NoDupJoin(Without(s.listed, h), Without(s.batch, h));
    case Open(h, c) =>
      assert s.listed + [h] + s.batch == s.listed + ([h] + s.batch);
      NoDupJoin([h], s.batch);
      NoDupJoin(s.listed, [h] + s.batch);
    case Examine => assert s.listed + [s.batch[0]] + s.batch[1..] == s.listed + s.batch;
    case Read(r) => assert [] + s.listed == s.listed;
    case ReadCounter => assert [] + s.listed == s.listed;
    case _ =>
  }

  lemma InvKept(s: State, e: Event)
    requires Inv(s) && Can(s, e)
    ensures Inv(Do(s, e))
  {
    NoneLostKept(s, e);
    OnceKept(s, e);
    forall h
      ensures Counted(Do(s, e), h)
    {
      CountedKept(s, e, h);
    }
    if e.Close? {
      NoDupParts(s.listed, s.batch);
      WithoutIn(s.batch, e.h);
    }
  }

  ghost predicate Start(s: State) {
    && s.listed == [] && s.batch == [] && s.callback == {} && s.known == {} && s.phase == Idle && s.fd == 0
        && s.pending == {}
    && s.checking == multiset{} && s.writing == multiset{} && s.wins == multiset{} && s.takes == multiset{}
        && s.calls == multiset{}
  }

  ghost predicate Behaviour(run: seq<State>, events: seq<Event>) {
    && |run| == |events| + 1 && Start(run[0])
    && forall j {:trigger events[j]} :: 0 <= j < |events| ==>
        Can(run[j], events[j]) && run[j + 1] == Do(run[j], events[j])
  }

  lemma {:induction false} Safe(run: seq<State>, events: seq<Event>, j: nat)
    requires Behaviour(run, events) && j < |run|
    ensures Inv(run[j])
  {
    if j > 0 {
      Safe(run, events, j - 1);
      assert events[j - 1] == events[j - 1];
      InvKept(run[j - 1], events[j - 1]);
    }
  }

  // Callbacks never outnumber the times the flag was set
  lemma CallsBound(run: seq<State>, events: seq<Event>, j: nat, h: int)
    requires Behaviour(run, events) && j < |run|
    ensures run[j].calls[h] <= run[j].wins[h]
  {
    Safe(run, events, j);
    assert Counted(run[j], h);
  }

  // The loop reads on until there is nothing left to read, and only then scans
  lemma ReadBeforeScan(run: seq<State>, events: seq<Event>, j: nat)
    requires Behaviour(run, events) && j < |events| && run[j].phase == Reading
    ensures run[j + 1].phase == Scanning ==> run[j + 1].fd == 0 && run[j + 1].batch == run[j].listed
  {
    assert events[j] == events[j];
  }

  // ---- no send is lost ----

  /** Nothing is left to do for the loop, and no sender is about to write. */
  predicate Quiet(s: State) {
    s.phase == Idle && s.fd == 0 && s.writing == multiset{} && s.checking == multiset{}
  }

  lemma WinsStep(s: State, e: Event, h: int)
    requires Inv(s) && Can(s, e)
    ensures s.wins[h] <= Do(s, e).wins[h]
    ensures h in s.known ==> h in Do(s, e).known && (h in s.callback <==> h in Do(s, e).callback)
  {
  }

  lemma {:induction false} WinsGrow(run: seq<State>, events: seq<Event>, i: nat, j: nat, h: int)
    requires Behaviour(run, events) && i <= j < |run|
    ensures run[i].wins[h] <= run[j].wins[h]
    ensures h in run[i].known ==> h in run[j].known && (h in run[i].callback <==> h in run[j].callback)
  {
    if i < j {
      WinsGrow(run, events, i, j - 1, h);
      Safe(run, events, j - 1);
      assert events[j - 1] == events[j - 1];
      WinsStep(run[j - 1], events[j - 1], h);
    }
  }

  /** The event `e` ends the choice of a send to `h`: it finds the flag set, or sets it. */
  predicate Sent(s: State, e: Event, h: int) {
    (e == CheapRead(h) && h in s.pending) || e == Cas(h)
  }

  // `uv_async_init` decides for good whether a handle has a callback
  lemma OpenedWith(run: seq<State>, events: seq<Event>, k: nat, j: nat, h: int, withCallback: bool)
    requires Behaviour(run, events) && k < j < |run| && events[k] == Open(h, withCallback)
    ensures h in run[j].known && (h in run[j].callback <==> withCallback)
  {
    assert events[k] == events[k];
    Safe(run, events, k);
    WinsGrow(run, events, k + 1, j, h);
  }

  // A handle opened without a callback never has one started
  lemma NeverCalled(run: seq<State>, events: seq<Event>, k: nat, j: nat, h: int)
    requires Behaviour(run, events) && k < |events| && events[k] == Open(h, false) && j < |run|
    ensures run[j].calls[h] == 0
  {
    Safe(run, events, j);
    assert Counted(run[j], h);
    if k < j {
      OpenedWith(run, events, k, j, h, false);
    } else {
      assert events[k] == events[k];
      WinsGrow(run, events, j, k, h);
    }
  }

  lemma CallsFollow(run: seq<State>, events: seq<Event>, i: nat, j: nat, h: int)
    requires Behaviour(run, events) && i < j < |run| && Sent(run[i], events[i], h)
    requires h !in run[j].pending && h in run[j].callback
    ensures run[j].calls[h] > run[i].calls[h]
  {
    assert events[i] == events[i];
    Safe(run, events, i);
    Safe(run, events, i + 1);
    Safe(run, events, j);
    assert Counted(run[i], h) && Counted(run[i + 1], h) && Counted(run[j], h);
    WinsGrow(run, events, i + 1, j, h);
    WinsGrow(run, events, i, j, h);
  }

  // Every send to a handle opened with a callback is followed by a later start of it: in any run, as soon as the flag
  // is found clear again, whatever other senders and the loop are doing
  lemma EverySendHeard(run: seq<State>, events: seq<Event>, k: nat, i: nat, j: nat, h: int)
    requires Behaviour(run, events) && k < i < j < |run| && events[k] == Open(h, true)
    requires Sent(run[i], events[i], h) && h !in run[j].pending
    ensures run[j].calls[h] > run[i].calls[h]
  {
    OpenedWith(run, events, k, j, h, true);
    CallsFollow(run, events, i, j, h);
  }

  // At rest the flag of an open handle is clear
  lemma HeardAtRest(run: seq<State>, events: seq<Event>, k: nat, i: nat, j: nat, h: int)
    requires Behaviour(run, events) && k < i < j < |run| && events[k] == Open(h, true)
    requires Sent(run[i], events[i], h) && Quiet(run[j]) && Listed(run[j], h)
    ensures run[j].calls[h] > run[i].calls[h]
  {
    Safe(run, events, j);
    assert h in run[j].pending ==> Coming(run[j], h);
    EverySendHeard(run, events, k, i, j, h);
  }

  // ---- without new sends and handles the loop comes to rest ----

  predicate Internal(e: Event) {
    e.Cas? || e.Write? || e.WakeUp? || e.Read? || e.ReadCounter? || e.Examine? || e.Return? || e.Finish?
  }

  // How far the loop is from its next read, or from rest when there is nothing to read
  function Rank(s: State): nat {
    match s.phase
    case Idle => if s.fd > 0 then 2 else 0
    case Reading => if s.fd > 0 then 1 else 4 + 2 * |s.listed|
    case Scanning => 3 + 2 * |s.batch|
    case Inside(h) => 4 + 2 * |s.batch|
  }

  ghost predicate Smaller(t: State, s: State) {
    || |t.checking| < |s.checking|
    || (|t.checking| == |s.checking| && |t.writing| < |s.writing|)
    || (|t.checking| == |s.checking| && |t.writing| == |s.writing| && t.fd < s.fd)
    || (|t.checking| == |s.checking| && |t.writing| == |s.writing| && t.fd == s.fd && Rank(t) < Rank(s))
  }

  // Every internal step brings the rest nearer, in a well-founded order: no run of them goes on for ever
  lemma EachStepCounts(s: State, e: Event)
    requires Inv(s) && Can(s, e) && Internal(e)
    ensures Smaller(Do(s, e), s)
  {
    match e
    case Cas(h) => assert |s.checking - multiset{h}| == |s.checking| - 1;
    case Write(h, full) => assert |s.writing - multiset{h}| == |s.writing| - 1;
    case _ =>
  }

  lemma Any(m: multiset<int>) returns (h: int)
    requires m != multiset{}
    ensures h in m
  {
    assert (forall x :: m[x] == 0) ==> m == multiset{};
    h :| h in m;
  }

  // It stops only at rest
  lemma NotStuck(s: State) returns (e: Event)
    requires Inv(s) && !Quiet(s)
    ensures Internal(e) && Can(s, e)
  {
    if s.checking != multiset{} {
      var h := Any(s.checking);
      e := Cas(h);
    } else if s.writing != multiset{} {
      var h := Any(s.writing);
      e := Write(h, false);
    } else {
      match s.phase
      case Idle => e := WakeUp;
      case Reading => e := Read(if s.fd < BUFFER then s.fd else BUFFER);
      case Scanning => e := if s.batch == [] then Finish else Examine;
      case Inside(h) => e := Return;
    }
  }

  // Internal steps open and close nothing
  lemma OnlyMoved(s: State, e: Event)
    requires Inv(s) && Can(s, e) && Internal(e)
    ensures var t := Do(s, e);
            t.callback == s.callback &&
            forall h :: s.wins[h] <= t.wins[h] && (Listed(s, h) <==> Listed(t, h))
  {
    if e.Examine? {
      assert s.batch == [s.batch[0]] + s.batch[1..];
    }
  }

  // From every reachable state the loop can come to rest, and then every open handle with a callback has had it
  // started since its flag was last set
  lemma {:induction false} ComesToRest(s: State) returns (events: seq<Event>, t: State)
    requires Inv(s)
    ensures Inv(t) && Quiet(t) && Leads(s, events, t) && forall e :: e in events ==> Internal(e)
    ensures forall h :: Listed(t, h) ==> h !in t.pending && t.takes[h] == t.wins[h]
    ensures t.callback == s.callback && forall h :: s.wins[h] <= t.wins[h] && (Listed(s, h) <==> Listed(t, h))
    decreases |s.checking|, |s.writing|, s.fd, Rank(s)
  {
    if Quiet(s) {
      events, t := [], s;
      forall h | Listed(t, h)
        ensures h !in t.pending && t.takes[h] == t.wins[h]
      {
        assert Counted(t, h);
        assert h in t.pending ==> Coming(t, h);
      }
    } else {
      var e := NotStuck(s);
      EachStepCounts(s, e);
      InvKept(s, e);
      OnlyMoved(s, e);
      events, t := ComesToRest(Do(s, e));
      assert ([e] + events)[1..] == events;
      events := [e] + events;
    }
  }

  ghost predicate Leads(s: State, events: seq<Event>, t: State)
    decreases |events|
  {
    if events == [] then s == t else Can(s, events[0]) && Leads(Do(s, events[0]), events[1..], t)
  }

  // A send that has been made can always still be heard: no state of any run is a dead end for an open handle
  lemma SendCanBeHeard(run: seq<State>, events: seq<Event>, k: nat, i: nat, h: int)
      returns (more: seq<Event>, t: State)
    requires Behaviour(run, events) && k < i < |events| && events[k] == Open(h, true)
    requires Sent(run[i], events[i], h) && Listed(run[|events|], h)
    ensures Leads(run[|events|], more, t) && (forall e :: e in more ==> Internal(e)) && t.calls[h] > run[i].calls[h]
  {
    var n := |events|;
    assert events[i] == events[i];
    Safe(run, events, i);
    Safe(run, events, i + 1);
    Safe(run, events, n);
    OpenedWith(run, events, k, n, h, true);
    WinsGrow(run, events, i + 1, n, h);
    WinsGrow(run, events, i, n, h);
    more, t := ComesToRest(run[n]);
    assert Counted(run[i], h) && Counted(run[i + 1], h) && Counted(t, h);
  }

  // ---- the order of the handles ----

  // All open handles, those still to be looked at in this scan last: the order in which they are looked at
  ghost function Line(s: State): seq<int> { s.listed + s.batch }

  lemma LineStep(s: State, e: Event, a: int, b: int)
    requires Inv(s) && Can(s, e) && a in s.known && b in s.known && Precedes(Line(s), a, b)
    ensures Precedes(Line(Do(s, e)), a, b)
  {
    match e
    case Examine => assert s.listed + [s.batch[0]] + s.batch[1..] == s.listed + s.batch;
    case Read(_) => assert [] + s.listed == s.listed + [];
    case ReadCounter => assert [] + s.listed == s.listed + [];
    case Open(h, _) => PrecedesInserted(s.listed, h, s.batch, a, b);
    case Close(h) => PrecedesWithoutBoth(s.listed, s.batch, h, a, b);
    case _ =>
  }

  // A new handle goes behind those already looked at, and before those that are not
  lemma NewInLine(s: State, e: Event, a: int)
    requires Inv(s) && Can(s, e) && e.Open? && Listed(s, a)
    ensures if a in s.listed then Precedes(Line(Do(s, e)), a, e.h) else Precedes(Line(Do(s, e)), e.h, a)
  {
    assert e.h !in Line(s);
    NoDupParts(s.listed, s.batch);
  }

  lemma {:induction false} StaysBefore(run: seq<State>, events: seq<Event>, k: nat, j: nat, a: int, b: int)
    requires Behaviour(run, events) && k <= j < |run| && a in run[k].known && b in run[k].known
    requires Precedes(Line(run[k]), a, b)
    ensures a in run[j].known && b in run[j].known && Precedes(Line(run[j]), a, b)
  {
    if k < j {
      StaysBefore(run, events, k, j - 1, a, b);
      Safe(run, events, j - 1);
      assert events[j - 1] == events[j - 1];
      LineStep(run[j - 1], events[j - 1], a, b);
      WinsStep(run[j - 1], events[j - 1], a);
      WinsStep(run[j - 1], events[j - 1], b);
    }
  }

  // For ever after, a handle opened between two scans comes behind those opened before it in every scan: when it is
  // looked at, none of them is still to be looked at. One opened inside a callback comes before those that the scan had
  // not reached
  lemma ExaminedInOrder(run: seq<State>, events: seq<Event>, k: nat, j: nat, a: int)
    requires Behaviour(run, events) && k < j < |events| && events[k].Open? && events[j] == Examine
    requires Listed(run[k], a)
    ensures a in run[k].listed && run[j].batch[0] == events[k].h ==> a !in run[j].batch
    ensures a in run[k].batch && run[j].batch[0] == a ==> events[k].h !in run[j].batch
  {
    assert events[k] == events[k] && events[j] == events[j];
    Safe(run, events, k);
    var h, s := events[k].h, run[j];
    NewInLine(run[k], events[k], a);
    NoDupParts(run[k].listed, run[k].batch);
    if a in run[k].listed {
      StaysBefore(run, events, k + 1, j, a, h);
      FirstBehind(s.listed, s.batch, a, h);
    } else {
      StaysBefore(run, events, k + 1, j, h, a);
      FirstBehind(s.listed, s.batch, h, a);
    }
  }

  lemma FirstBehind(q: seq<int>, u: seq<int>, x: int, y: int)
    requires Precedes(q + u, x, y) && u != []
    ensures u[0] == y ==> x !in u
  {
    if u[0] == y {
      forall p | 0 <= p < |u|
        ensures u[p] != x
      {
        assert (q + u)[|q|] == y && (q + u)[|q| + p] == u[p];
      }
    }
  }

  // ---- handles come and go ----

  // A new handle, and the two steps of a send to it
  lemma OpenedAndSent(s: State, h: int) returns (a: State, b: State, c: State)
    requires Inv(s) && (s.phase == Idle || s.phase.Inside?) && h !in s.known
    ensures Can(s, Open(h, true)) && a == Do(s, Open(h, true))
    ensures Can(a, CheapRead(h)) && b == Do(a, CheapRead(h)) && Can(b, Cas(h)) && c == Do(b, Cas(h))
    ensures Inv(c) && Listed(c, h) && h in c.callback && c.wins[h] == 1
  {
    assert Counted(s, h);
    a := Do(s, Open(h, true));
    InvKept(s, Open(h, true));
    b := Do(a, CheapRead(h));
    InvKept(a, CheapRead(h));
    c := Do(b, Cas(h));
    InvKept(b, Cas(h));
  }

  // Between polls and inside callbacks any new handle can be opened; it can be signalled at once, and called
  lemma FirstCall(s: State, h: int) returns (more: seq<Event>, t: State)
    requires Inv(s) && (s.phase == Idle || s.phase.Inside?) && h !in s.known
    ensures Leads(s, [Open(h, true)] + ([CheapRead(h)] + ([Cas(h)] + more)), t) && Quiet(t)
    ensures t.calls[h] > 0 && forall e :: e in more ==> Internal(e)
  {
    var a, b, c := OpenedAndSent(s, h);
    more, t := ComesToRest(c);
    assert Counted(t, h);
    LeadsOn(b, Cas(h), more, t);
    LeadsOn(a, CheapRead(h), [Cas(h)] + more, t);
    LeadsOn(s, Open(h, true), [CheapRead(h)] + ([Cas(h)] + more), t);
  }

  lemma LeadsOn(s: State, e: Event, more: seq<Event>, t: State)
    requires Can(s, e) && Leads(Do(s, e), more, t)
    ensures Leads(s, [e] + more, t)
  {
    assert ([e] + more)[1..] == more;
  }

  ghost predicate Gone(s: State, h: int) { h in s.known && !Listed(s, h) }

  lemma GoneStep(s: State, e: Event, h: int)
    requires Inv(s) && Can(s, e)
    ensures e == Close(h) || Gone(s, h) ==> Gone(Do(s, e), h) && Do(s, e).calls[h] == s.calls[h]
  {
    if e.Close? {
      NoDupParts(s.listed, s.batch);
      WithoutIn(s.listed, e.h);
      WithoutIn(s.batch, e.h);
    }
  }

  // No callback of a handle starts after it was closed
  lemma {:induction false} ClosedForGood(run: seq<State>, events: seq<Event>, k: nat, j: nat, h: int)
    requires Behaviour(run, events) && k < j < |run| && events[k] == Close(h)
    ensures Gone(run[j], h) && run[j].calls[h] == run[k].calls[h]
  {
    Safe(run, events, j - 1);
    assert events[j - 1] == events[j - 1] && events[k] == events[k];
    GoneStep(run[j - 1], events[j - 1], h);
    if k < j - 1 {
      ClosedForGood(run, events, k, j - 1, h);
    }
  }

  // Between polls and inside callbacks every open handle can be closed
  lemma CloseAccepted(s: State, h: int)
    requires Inv(s) && (s.phase == Idle || s.phase.Inside?) && (h in s.listed || h in s.batch)
    ensures Can(s, Close(h)) && Inv(Do(s, Close(h))) && Gone(Do(s, Close(h)), h)
  {
    InvKept(s, Close(h));
    GoneStep(s, Close(h), h);
  }

  // A send to an open handle ends its choice with its cheap read or with the compare-and-swap that follows
  lemma SendDecides(s: State, h: int)
    requires Inv(s) && h in s.known
    ensures Can(s, CheapRead(h))
    ensures Sent(s, CheapRead(h), h) <==> h in s.pending
    ensures var t := Do(s, CheapRead(h)); h !in s.pending ==> Can(t, Cas(h)) && Sent(t, Cas(h), h)
    ensures var t := Do(s, CheapRead(h)); h !in s.pending ==> h in Do(t, Cas(h)).pending && h in Do(t, Cas(h)).writing
  {
  }

  // A callback starts on the loop thread, where handles may then be opened and closed, this one too
  lemma CallbackMay(s: State, g: int, withCallback: bool)
    requires Inv(s) && s.phase == Scanning && s.batch != [] && s.batch[0] in s.pending && s.batch[0] in s.callback
    ensures Can(s, Examine) && Can(Do(s, Examine), Return)
    ensures var t := Do(s, Examine);
            && t.calls[s.batch[0]] == s.calls[s.batch[0]] + 1 && Can(t, Close(s.batch[0]))
            && (Can(t, Open(g, withCallback)) <==> g !in s.known) && (Can(t, Close(g)) <==> Listed(s, g))
  {
    OnlyMoved(s, Examine);
  }
}
