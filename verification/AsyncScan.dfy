// One scan of the async handles: what it does, as determined by what the callbacks do.
module AsyncScan {
  import opened AsyncLines
  import opened Lists
  import opened Queue

  /** The handles opened, those of them opened with a callback, and the handles closed and signalled by a callback. */
  datatype Change = Change(born: set<Link>, armed: set<Link>, closed: set<Link>, raised: set<Link>) {
    ghost function Then(next: Change): Change {
      Change(born + next.born, armed + next.armed, closed + next.closed, raised + next.raised)
    }
  }

  const Nothing := Change({}, {}, {}, {})

  ghost function Opened(h: Link, withCallback: bool): Change {
    Change({h}, if withCallback then {h} else {}, {}, {})
  }

  ghost function Grown(line: Line, did: Change): Line {
    Line(line.from, line.born + did.born, line.dead + did.closed)
  }

  lemma GrownByOne(line: Line, h: Link)
    ensures Grown(line, Nothing) == line && Grown(line, Change({}, {}, {}, {h})) == line
    ensures Grown(line, Opened(h, true)) == Grown(line, Opened(h, false)) == line.(born := line.born + {h})
    ensures Grown(line, Change({}, {}, {h}, {})) == line.(dead := line.dead + {h})
  {
    assert line.born + {} == line.born && line.dead + {} == line.dead;
  }

  lemma GrownTwice(line: Line, did: Change, next: Change)
    ensures Grown(Grown(line, did), next) == Grown(line, did.Then(next)) && Grown(line, Nothing) == line
  {
    assert line.born + did.born + next.born == line.born + (did.born + next.born);
    assert line.dead + did.closed + next.closed == line.dead + (did.closed + next.closed);
  }

  /** What the loop knows about its handles, and the callbacks it has made. */
  datatype Books = Books(open: set<Link>, pending: set<Link>, callback: set<Link>, closed: set<Link>,
      calls: seq<Link>) {
    ghost predicate Sound() {
      pending <= open && callback <= open && open !! closed
    }
  }

  /** The whole effect of a callback on the books. */
  ghost predicate Moved(was: Books, now: Books, did: Change) {
    && did.born !! was.open + was.closed && did.raised <= was.open + did.born && did.closed <= was.open + did.born
    && did.armed <= did.born
    && now.open == was.open + did.born - did.closed
    && now.pending == was.pending + did.raised - did.closed
    && now.callback == was.callback + did.armed - did.closed
    && now.closed == was.closed + did.closed && now.calls == was.calls
  }

  lemma MovedNot(was: Books)
    ensures Moved(was, was, Nothing)
  {
    var none: set<Link> := {};
    assert Nothing.born == none && Nothing.armed == none && Nothing.closed == none && Nothing.raised == none;
    assert was.open + none - none == was.open && was.pending + none - none == was.pending;
    assert was.callback + none - none == was.callback && was.closed + none == was.closed;
  }

  lemma MovedOpened(was: Books, now: Books, h: Link, withCallback: bool)
    requires was.Sound() && h !in was.open + was.closed
    requires now == was.(open := was.open + {h}, callback := now.callback) && now.callback - {h} == was.callback
    requires h in now.callback <==> withCallback
    ensures Moved(was, now, Opened(h, withCallback))
  {
  }

  lemma MovedSignalled(was: Books, now: Books, h: Link)
    requires was.Sound() && h in was.open && now == was.(pending := was.pending + {h})
    ensures Moved(was, now, Change({}, {}, {}, {h}))
  {
    assert was.callback + {} - {} == was.callback;
  }

  lemma MovedClosed(was: Books, now: Books, h: Link)
    requires was.Sound() && h in was.open
    requires now == Books(was.open - {h}, was.pending - {h}, was.callback - {h}, was.closed + {h}, was.calls)
    ensures Moved(was, now, Change({}, {}, {h}, {}))
  {
  }

  lemma MovedOn(a: Books, b: Books, c: Books, did: Change, next: Change)
    requires a.Sound() && Moved(a, b, did) && Moved(b, c, next)
    ensures Moved(a, c, did.Then(next))
  {
    assert next.born !! did.closed && next.raised !! did.closed;
    assert next.armed !! did.closed;
    assert c.callback == a.callback + (did.armed + next.armed) - (did.closed + next.closed);
  }

  /** One handle examined: whether its callback ran, and what that did. */
  datatype Glance = Glance(handle: Link, ran: bool, did: Change)

  datatype Start = Start(from: seq<Link>, was: Books)

  // The handles still to be examined: closed ones leave the list
  ghost function Left(from: seq<Link>, trace: seq<Glance>): seq<Link> {
    if trace == [] then from else
    var b := Left(from, trace[..|trace| - 1]);
    if b == [] then [] else Except(b[1..], trace[|trace| - 1].did.closed)
  }

  // The flags: a handle loses its own when it is examined
  ghost function Flags(pending: set<Link>, trace: seq<Glance>): set<Link> {
    if trace == [] then pending else
    var g := trace[|trace| - 1];
    Flags(pending, trace[..|trace| - 1]) - {g.handle} + g.did.raised - g.did.closed
  }

  ghost function Born(trace: seq<Glance>): set<Link> {
    if trace == [] then {} else Born(trace[..|trace| - 1]) + trace[|trace| - 1].did.born
  }

  ghost function Armed(trace: seq<Glance>): set<Link> {
    if trace == [] then {} else Armed(trace[..|trace| - 1]) + trace[|trace| - 1].did.armed
  }

  ghost function Dead(trace: seq<Glance>): set<Link> {
    if trace == [] then {} else Dead(trace[..|trace| - 1]) + trace[|trace| - 1].did.closed
  }

  ghost function Called(trace: seq<Glance>): seq<Link> {
    if trace == [] then [] else
    var g := trace[|trace| - 1];
    Called(trace[..|trace| - 1]) + if g.ran then [g.handle] else []
  }

  /** At each turn the first handle left is examined;
      its callback runs if the flag is set, and nothing else does anything. */
  ghost predicate Told(start: Start, trace: seq<Glance>) {
    trace == [] ||
    var before, g := trace[..|trace| - 1], trace[|trace| - 1];
    && Told(start, before)
    && Left(start.from, before) != [] && g.handle == Left(start.from, before)[0]
    && g.ran == (g.handle in Flags(start.was.pending, before) && g.handle in start.was.callback)
    && (!g.ran ==> g.did == Nothing)
  }

  ghost predicate Complete(start: Start, trace: seq<Glance>) {
    Told(start, trace) && Left(start.from, trace) == []
  }

  /** The books after the glances of `trace`. */
  ghost predicate Tallied(was: Books, now: Books, trace: seq<Glance>) {
    && now.open == was.open + Born(trace) - Dead(trace) && Dead(trace) <= was.open + Born(trace)
    && now.pending == Flags(was.pending, trace)
    && now.callback == was.callback + Armed(trace) - Dead(trace) && Armed(trace) <= Born(trace)
    && now.closed == was.closed + Dead(trace) && now.calls == was.calls + Called(trace)
  }

  /** The flag is taken and the callback, if there is one to run, is about to start. */
  ghost function Taken(b: Books, g: Glance): Books {
    b.(pending := b.pending - {g.handle}, calls := b.calls + if g.ran then [g.handle] else [])
  }

  lemma Begun(start: Start)
    ensures Told(start, []) && Tallied(start.was, start.was, []) && Left(start.from, []) == start.from
    ensures Except(start.from, Dead([])) == start.from && Born([]) == {}
  {
    ExceptNone(start.from, {});
    assert start.was.callback + {} - {} == start.was.callback;
  }

  lemma TalliedOn(was: Books, mid: Books, now: Books, trace: seq<Glance>, g: Glance)
    requires mid.Sound() && Tallied(was, mid, trace) && Moved(Taken(mid, g), now, g.did)
    ensures Tallied(was, now, trace + [g])
  {
    var b, d := Born(trace), Dead(trace);
    assert (trace + [g])[..|trace|] == trace;
    assert g.did.born !! d;
    assert g.did.armed !! d;
    assert now.callback == was.callback + (Armed(trace) + g.did.armed) - (d + g.did.closed);
  }

  // The first handle left is open and not a new one
  lemma ToldOn(start: Start, mid: Books, trace: seq<Glance>, g: Glance)
    requires mid.Sound() && Told(start, trace) && Tallied(start.was, mid, trace) && Left(start.from, trace) != []
    requires g.handle == Left(start.from, trace)[0] && g.handle in mid.open - Born(trace)
    requires g.ran == (g.handle in mid.pending * mid.callback) && (!g.ran ==> g.did == Nothing)
    ensures Told(start, trace + [g])
    ensures Left(start.from, trace + [g]) == Except(Left(start.from, trace)[1..], g.did.closed)
  {
    assert (trace + [g])[..|trace|] == trace;
    assert g.handle !in Dead(trace);
    assert g.handle !in Armed(trace);
    assert g.handle in start.was.callback <==> g.handle in mid.callback;
  }

  // ---- what a complete scan has done ----

  lemma {:induction false} DeadIn(trace: seq<Glance>, h: Link)
    ensures h in Dead(trace) <==> exists i :: 0 <= i < |trace| && h in trace[i].did.closed
  {
    if trace != [] {
      DeadIn(trace[..|trace| - 1], h);
    }
  }

  /** A callback of a handle before it has closed the one at `k`. */
  ghost predicate Skipped(from: seq<Link>, trace: seq<Glance>, at: seq<nat>, k: nat)
    requires |at| == |trace| && k < |from|
  {
    exists i :: 0 <= i < |at| && at[i] < k && from[k] in trace[i].did.closed
  }

  /** The handle of `trace[i]` is the one at `at[i]` of the list;
      the places go up, and before `p` only skipped ones miss. */
  ghost predicate Places(from: seq<Link>, trace: seq<Glance>, at: seq<nat>, p: nat) {
    && |at| == |trace| && p <= |from|
    && (forall i :: 0 <= i < |at| ==> at[i] < p && trace[i].handle == from[at[i]])
    && (forall i, j :: 0 <= i < j < |at| ==> at[i] < at[j])
    && (forall i, j :: 0 <= i < j < |at| ==> trace[j].handle !in trace[i].did.closed)
    && (forall k: nat {:trigger Skipped(from, trace, at, k)} :: k < p ==> k in at || Skipped(from, trace, at, k))
  }

  lemma {:induction false} FirstLeft(s: seq<Link>, p: nat, gone: set<Link>) returns (q: nat)
    requires p <= |s| && Except(s[p..], gone) != []
    ensures p <= q < |s| && Except(s[p..], gone)[0] == s[q] && s[q] !in gone
    ensures Except(s[p..], gone)[1..] == Except(s[q + 1..], gone) && forall k :: p <= k < q ==> s[k] in gone
    decreases |s| - p
  {
    assert s[p..][1..] == s[p + 1..];
    if s[p] in gone {
      q := FirstLeft(s, p + 1, gone);
    } else {
      q := p;
    }
  }

  lemma {:induction false} NoneLeft(s: seq<Link>, gone: set<Link>)
    requires Except(s, gone) == []
    ensures forall k :: 0 <= k < |s| ==> s[k] in gone
  {
    if s != [] {
      NoneLeft(s[1..], gone);
    }
  }

  lemma SkippedOn(from: seq<Link>, trace: seq<Glance>, at: seq<nat>, q: nat, k: nat)
    requires |trace| == |at| + 1 && k < |from|
    requires exists i :: 0 <= i < |at| && at[i] < k && from[k] in trace[..|trace| - 1][i].did.closed
    ensures Skipped(from, trace, at + [q], k)
  {
    var i :| 0 <= i < |at| && at[i] < k && from[k] in trace[..|trace| - 1][i].did.closed;
    assert (at + [q])[i] < k && from[k] in trace[i].did.closed;
  }

  // The next handle examined is the first one from `p` on that no callback has closed
  lemma NextPlaced(from: seq<Link>, trace: seq<Glance>, at: seq<nat>, p: nat, q: nat)
    requires trace != [] && Places(from, trace[..|trace| - 1], at, p) && p <= q < |from|
    requires trace[|trace| - 1].handle == from[q] && from[q] !in Dead(trace[..|trace| - 1])
    requires forall k :: p <= k < q ==> from[k] in Dead(trace[..|trace| - 1])
    ensures Places(from, trace, at + [q], q + 1)
  {
    var before, places := trace[..|trace| - 1], at + [q];
    forall k: nat | k < q + 1
      ensures k in places || Skipped(from, trace, places, k)
    {
      if k == q {
        assert places[|at|] == k;
      } else if p <= k {
        DeadIn(before, from[k]);
        SkippedOn(from, trace, at, q, k);
      } else if Skipped(from, before, at, k) {
        SkippedOn(from, trace, at, q, k);
      }
    }
    forall i | 0 <= i < |before|
      ensures from[q] !in before[i].did.closed
    {
      DeadIn(before, from[q]);
    }
  }

  lemma LeftAfter(from: seq<Link>, trace: seq<Glance>, p: nat) returns (q: nat)
    requires trace != [] && p <= |from| && Left(from, trace[..|trace| - 1]) != []
    requires Left(from, trace[..|trace| - 1]) == Except(from[p..], Dead(trace[..|trace| - 1]))
    ensures p <= q < |from| && Left(from, trace[..|trace| - 1])[0] == from[q] && from[q] !in Dead(trace[..|trace| - 1])
    ensures forall k :: p <= k < q ==> from[k] in Dead(trace[..|trace| - 1])
    ensures Left(from, trace) == Except(from[q + 1..], Dead(trace))
  {
    var gone := Dead(trace[..|trace| - 1]);
    q := FirstLeft(from, p, gone);
    ExceptTwice(from[q + 1..], gone, trace[|trace| - 1].did.closed);
  }

  lemma {:induction false} Placed(start: Start, trace: seq<Glance>) returns (at: seq<nat>, p: nat)
    requires Told(start, trace)
    ensures Places(start.from, trace, at, p) && Left(start.from, trace) == Except(start.from[p..], Dead(trace))
  {
    if trace == [] {
      at, p := [], 0;
      ExceptNone(start.from, {});
      assert start.from[0..] == start.from;
    } else {
      at, p := Placed(start, trace[..|trace| - 1]);
      var q := LeftAfter(start.from, trace, p);
      NextPlaced(start.from, trace, at, p, q);
      at, p := at + [q], q + 1;
    }
  }

  lemma AllPlaced(start: Start, trace: seq<Glance>) returns (at: seq<nat>)
    requires Complete(start, trace)
    ensures Places(start.from, trace, at, |start.from|)
  {
    var p;
    at, p := Placed(start, trace);
    var from := start.from;
    NoneLeft(from[p..], Dead(trace));
    forall k: nat | k < |from|
      ensures k in at || Skipped(from, trace, at, k)
    {
      if p <= k {
        assert from[k] == from[p..][k - p];
        DeadIn(trace, from[k]);
      } else if Skipped(from, trace, at, k) {
      }
    }
  }

  // A handle that was listed is examined exactly unless the callback of one before it has closed it
  lemma ExaminedIff(start: Start, trace: seq<Glance>, k: nat)
    requires Complete(start, trace) && NoDup(start.from) && k < |start.from|
    ensures (exists i :: 0 <= i < |trace| && trace[i].handle == start.from[k]) <==>
            forall i, j :: 0 <= i < |trace| && 0 <= j < k && trace[i].handle == start.from[j] ==>
              start.from[k] !in trace[i].did.closed
  {
    var at := AllPlaced(start, trace);
    if m :| 0 <= m < |trace| && trace[m].handle == start.from[k] {
      assert at[m] == k;
    } else {
      assert k !in at && Skipped(start.from, trace, at, k);
      var i :| 0 <= i < |at| && at[i] < k && start.from[k] in trace[i].did.closed;
      assert trace[i].handle == start.from[at[i]];
    }
  }

  // No handle is examined twice, none out of order, and none that has been closed
  lemma ExaminedOnce(start: Start, trace: seq<Glance>, i: nat, j: nat)
    requires Told(start, trace) && NoDup(start.from) && i < j < |trace|
    ensures trace[i].handle != trace[j].handle && trace[j].handle !in trace[i].did.closed
    ensures exists a, b ::
              0 <= a < b < |start.from| && trace[i].handle == start.from[a] && trace[j].handle == start.from[b]
  {
    var at, p := Placed(start, trace);
    assert at[i] < at[j];
  }

  lemma {:induction false} ToldAt(start: Start, trace: seq<Glance>, i: nat)
    requires Told(start, trace) && i < |trace|
    ensures Told(start, trace[..i]) && Told(start, trace[..i + 1]) && trace[..i + 1] == trace[..i] + [trace[i]]
  {
    if i == |trace| - 1 {
      assert trace[..i + 1] == trace;
    } else {
      var before := trace[..|trace| - 1];
      ToldAt(start, before, i);
      assert before[..i] == trace[..i] && before[..i + 1] == trace[..i + 1];
    }
  }

  // The flag of a handle not examined yet: set at the start, or by a callback
  lemma {:induction false} FlagIff(start: Start, trace: seq<Glance>, h: Link)
    requires Told(start, trace) && h in Left(start.from, trace) && NoDup(start.from)
    ensures h in Flags(start.was.pending, trace) <==>
            h in start.was.pending || exists i :: 0 <= i < |trace| && h in trace[i].did.raised
  {
    if trace != [] {
      var before, g := trace[..|trace| - 1], trace[|trace| - 1];
      var b := Left(start.from, before);
      LeftDistinct(start.from, before);
      ExceptElements(b[1..], g.did.closed);
      assert h in Elements(b[1..]) - g.did.closed && h != g.handle;
      FlagIff(start, before, h);
      if i :| 0 <= i < |trace| && h in trace[i].did.raised {
        assert i < |before| ==> before[i] == trace[i];
      }
    }
  }

  // The callback of a handle runs exactly if it has one and its flag was set, at the start or by an earlier callback;
  // while none runs nothing is opened, closed or signalled
  lemma CalledIff(start: Start, trace: seq<Glance>, i: nat)
    requires Told(start, trace) && NoDup(start.from) && i < |trace|
    ensures var h := trace[i].handle;
            trace[i].ran <==>
              h in start.was.callback &&
              (h in start.was.pending || exists k :: 0 <= k < i && h in trace[k].did.raised)
    ensures !trace[i].ran ==> trace[i].did == Nothing
  {
    ToldAt(start, trace, i);
    var before, now := trace[..i], trace[..i + 1];
    assert now[..|now| - 1] == before && now[i] == trace[i];
    FlagIff(start, before, trace[i].handle);
    if k :| 0 <= k < i && trace[i].handle in trace[k].did.raised {
      assert trace[i].handle in before[k].did.raised;
    }
  }

  lemma {:induction false} LeftDistinct(from: seq<Link>, trace: seq<Glance>)
    requires NoDup(from)
    ensures NoDup(Left(from, trace))
  {
    if trace != [] {
      var b := Left(from, trace[..|trace| - 1]);
      LeftDistinct(from, trace[..|trace| - 1]);
      if b != [] {
        ExceptElements(b[1..], trace[|trace| - 1].did.closed);
      }
    }
  }
}
