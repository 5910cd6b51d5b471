// The scan of the async handles after a wake-up: every handle is taken off a private list and put back,
// while callbacks open, close and signal handles as they like.
module AsyncDrain {
  import opened AsyncLines
  import opened AsyncScan
  import opened Lists
  import opened Queue

  // An element leaves its list; the other list stays as it is
  method Unlink(h: Link, ghost hd: Link, ghost s: seq<Link>, ghost od: Link, ghost u: seq<Link>)
    requires Ring(hd, s) && Ring(od, u) && h in Elements(s) && {hd} + Elements(s) !! {od} + Elements(u)
    modifies {hd} + Elements(s)
    ensures Ring(hd, Except(s, {h})) && Ring(od, u)
  {
    ghost var k :| 0 <= k < |s| && s[k] == h;
    ExceptOne(s, k);
    RingsApart(hd, s, k + 1, od, u);
    Remove(h, hd, s, k);
    forall i | 0 <= i <= |u|
      ensures Tied([od] + u, i)
    {
      assert old(Tied([od] + u, i)) && ([od] + u)[i] in [od] + u;
    }
  }

  method UnlinkEither(h: Link, ghost hd: Link, ghost s: seq<Link>, ghost od: Link, ghost u: seq<Link>)
    requires Ring(hd, s) && Ring(od, u) && h in Elements(s) + Elements(u) && {hd} + Elements(s) !! {od} + Elements(u)
    modifies {hd, od} + Elements(s) + Elements(u)
    ensures Ring(hd, Except(s, {h})) && Ring(od, Except(u, {h}))
  {
    TakenOut(s, u, h);
    ghost var inU := h in Elements(u);
    Unlink(h, if inU then od else hd, if inU then u else s, if inU then hd else od, if inU then s else u);
  }

  method Append(q: Link, hd: Link, ghost s: seq<Link>, ghost od: Link, ghost u: seq<Link>)
    requires Ring(hd, s) && Ring(od, u) && {hd} + Elements(s) !! {od} + Elements(u)
            && q !in {hd, od} + Elements(s) + Elements(u)
    modifies hd`prev, Ahead([hd] + s, 0)`next, q
    ensures Ring(hd, s + [q]) && Ring(od, u)
  {
    RingsApart(hd, s, 0, od, u);
    InsertTail(hd, q, s);
    forall i | 0 <= i <= |u|
      ensures Tied([od] + u, i)
    {
      assert old(Tied([od] + u, i)) && ([od] + u)[i] in [od] + u;
    }
  }

  class Loop {
    // The head of the list of open handles and what it holds
    const head: Link
    ghost var listed: seq<Link>
    var open: set<Link>
    // The handles whose flag is set, and those with a callback
    var pending: set<Link>
    var callback: set<Link>
    // The handles closed so far, and those whose callbacks were made
    ghost var closed: set<Link>
    ghost var calls: seq<Link>

    constructor ()
      ensures Valid() && fresh(head) && listed == [] && open == {}
    {
      head := new Link();
      listed, open, pending, callback, closed, calls := [], {}, {}, {}, {}, [];
      new;
      Init(head);
    }

    ghost function Known(): Books
      reads this
    {
      Books(open, pending, callback, closed, calls)
    }

    ghost predicate Valid()
      reads this, head, listed
    {
      Ring(head, listed) && open == Elements(listed) && Known().Sound()
    }

    /** The open handles are spread over the list and the private one with the head `queue`. */
    ghost predicate Draining(queue: Link, batch: seq<Link>)
      reads this, head, listed, queue, batch
    {
      && Ring(head, listed) && Ring(queue, batch) && {head} + Elements(listed) !! {queue} + Elements(batch)
      && open == Elements(listed) + Elements(batch) && Known().Sound()
    }

    // uv_async_init: a new handle at the end of the list
    method Open(withCallback: bool, ghost queue: Link, ghost batch: seq<Link>) returns (h: Link)
      requires Draining(queue, batch)
      modifies this`listed, this`open, this`callback, head`prev, Ahead([head] + listed, 0)`next
      ensures Draining(queue, batch) && pending == old(pending)
      ensures fresh(h) && h !in Elements(old(listed)) && listed == old(listed) + [h] && open == old(open) + {h}
      ensures callback - {h} == old(callback) && (h in callback <==> withCallback)
    {
      h := new Link();
      Append(h, head, listed, queue, batch);
      listed := listed + [h];
      open := open + {h};
      if withCallback {
        callback := callback + {h};
      }
    }

    // uv__async_close: the handle leaves whichever list it is on
    method Close(h: Link, ghost queue: Link, ghost batch: seq<Link>) returns (ghost rest: seq<Link>)
      requires Draining(queue, batch) && h in open
      modifies this`listed, this`open, this`pending, this`callback, this`closed, {head, queue} + open
      ensures Draining(queue, rest) && open == old(open) - {h} && pending == old(pending) - {h}
              && closed == old(closed) + {h}
      ensures rest == Except(batch, {h}) && listed == Except(old(listed), {h}) && callback == old(callback) - {h}
    {
      UnlinkEither(h, head, listed, queue, batch);
      TakenOut(listed, batch, h);
      rest := Except(batch, {h});
      listed := Except(listed, {h});
      open := open - {h};
      pending := pending - {h};
      callback := callback - {h};
      closed := closed + {h};
    }

    // uv_async_send, from a callback
    method Signal(h: Link, ghost queue: Link, ghost batch: seq<Link>)
      requires Draining(queue, batch) && h in open
      modifies this`pending
      ensures Draining(queue, batch) && pending == old(pending) + {h}
    {
      pending := pending + {h};
    }

    method OpenOne(ghost queue: Link, ghost batch: seq<Link>, ghost line: Line) returns (ghost did: Change)
      requires Draining(queue, batch) && InLine(listed, batch, line)
      modifies this`listed, this`open, this`callback, head`prev, Ahead([head] + listed, 0)`next
      ensures Draining(queue, batch) && did.closed == {} && InLine(listed, batch, Grown(line, did))
      ensures Moved(old(Known()), Known(), did) && fresh(did.born)
    {
      ghost var was := Known();
      var withCallback: bool := *;
      var h := Open(withCallback, queue, batch);
      NewInLine(old(listed), batch, line, h);
      did := Opened(h, withCallback);
      MovedOpened(was, Known(), h, withCallback);
      GrownByOne(line, h);
    }

    // One thing a callback may do on the loop thread: open, signal or close some handle
    method Act(queue: Link, ghost batch: seq<Link>, ghost line: Line) returns (ghost did: Change, ghost rest: seq<Link>)
      requires Draining(queue, batch) && InLine(listed, batch, line)
      modifies this`listed, this`open, this`pending, this`callback, this`closed, {head, queue} + open
      ensures Draining(queue, rest) && rest == Except(batch, did.closed) && InLine(listed, rest, Grown(line, did))
      ensures Moved(old(Known()), Known(), did) && fresh(did.born)
    {
      ghost var was := Known();
      ExceptNone(batch, {});
      var opens: bool := *;
      if opens || open == {} {
        did := OpenOne(queue, batch, line);
        return did, batch;
      }
      var h :| h in open;
      GrownByOne(line, h);
      if * {
        Signal(h, queue, batch);
        MovedSignalled(was, Known(), h);
        return Change({}, {}, {}, {h}), batch;
      }
      rest := Close(h, queue, batch);
      MovedClosed(was, Known(), h);
      GoneFromLine(old(listed), batch, line, h);
      return Change({}, {}, {h}, {}), rest;
    }

    method Acts(steps: nat, queue: Link, ghost batch: seq<Link>, ghost line: Line)
        returns (ghost did: Change, ghost rest: seq<Link>)
      requires Draining(queue, batch) && InLine(listed, batch, line)
      modifies this`listed, this`open, this`pending, this`callback, this`closed, {head, queue} + open
      ensures Draining(queue, rest) && rest == Except(batch, did.closed) && InLine(listed, rest, Grown(line, did))
      ensures Moved(old(Known()), Known(), did) && fresh(did.born)
      decreases steps
    {
      ghost var was := Known();
      if steps == 0 {
        ExceptNone(batch, {});
        MovedNot(was);
        GrownTwice(line, Nothing, Nothing);
        return Nothing, batch;
      }
      did, rest := Act(queue, batch, line);
      ghost var mid := Known();
      ghost var next;
      next, rest := Acts(steps - 1, queue, rest, Grown(line, did));
      MovedOn(was, mid, Known(), did, next);
      GrownTwice(line, did, next);
      ExceptTwice(batch, did.closed, next.closed);
      did := did.Then(next);
    }

    // The callback of `h`, whatever it does
    method Callback(ghost h: Link, queue: Link, ghost batch: seq<Link>, ghost line: Line)
        returns (ghost did: Change, ghost rest: seq<Link>)
      requires Draining(queue, batch) && InLine(listed, batch, line)
      modifies this`listed, this`open, this`pending, this`callback, this`closed, this`calls, {head, queue} + open
      ensures Draining(queue, rest) && rest == Except(batch, did.closed) && InLine(listed, rest, Grown(line, did))
      ensures Moved(old(Known()).(calls := old(calls) + [h]), Known(), did) && fresh(did.born)
    {
      calls := calls + [h];
      var steps: nat := *;
      did, rest := Acts(steps, queue, batch, line);
    }

    // The first handle of the private list goes back to the end of the open list
    method PutBack(queue: Link, ghost batch: seq<Link>) returns (q: Link)
      requires Draining(queue, batch) && batch != []
      modifies this`listed, {head, queue} + open
      ensures q == batch[0] && Draining(queue, batch[1..]) && listed == old(listed) + [q]
    {
      q := Head(queue, batch);
      ghost var rest, longer := batch[1..], listed + [q];
      HeadAndRest(batch);
      MovedOver(listed, batch);
      assert {head} + Elements(longer) !! {queue} + Elements(rest) && open == Elements(longer) + Elements(rest);
      Unlink(q, queue, batch, head, listed);
      Append(q, head, listed, queue, rest);
      listed := longer;
    }

    // One round: the handle is put back before its flag is cleared and its callback runs
    method Visit(queue: Link, ghost batch: seq<Link>, ghost line: Line) returns (ghost g: Glance, ghost rest: seq<Link>)
      requires Draining(queue, batch) && batch != [] && InLine(listed, batch, line)
      modifies this`listed, this`open, this`pending, this`callback, this`closed, this`calls, {head, queue} + open
      ensures Draining(queue, rest) && rest == Except(batch[1..], g.did.closed)
              && InLine(listed, rest, Grown(line, g.did))
      ensures g.handle == batch[0] && g.ran == (batch[0] in old(pending) * old(callback))
      ensures !g.ran ==> g.did == Nothing
      ensures Moved(Taken(old(Known()), g), Known(), g.did) && fresh(g.did.born)
    {
      var h := PutBack(queue, batch);
      BackInLine(old(listed), batch, line);
      HeadAndRest(batch);
      rest := batch[1..];
      ExceptNone(rest, {});
      GrownByOne(line, h);
      if h !in pending {
        assert pending - {h} == pending;
        MovedNot(Known());
        return Glance(h, false, Nothing), rest;
      }
      Clear(h, queue, rest);
      if h !in callback {
        MovedNot(Known());
        return Glance(h, false, Nothing), rest;
      }
      ghost var did;
      did, rest := Callback(h, queue, rest, line);
      return Glance(h, true, did), rest;
    }

    // The compare-and-swap that takes the flag
    method Clear(h: Link, ghost queue: Link, ghost batch: seq<Link>)
      requires Draining(queue, batch)
      modifies this`pending
      ensures Draining(queue, batch) && pending == old(pending) - {h}
    {
      pending := pending - {h};
    }

    ghost predicate Scanning(start: Start, queue: Link, trace: seq<Glance>)
      reads this, head, listed, queue, Left(start.from, trace)
    {
      && Draining(queue, Left(start.from, trace)) && Told(start, trace) && Tallied(start.was, Known(), trace)
      && InLine(listed, Left(start.from, trace), Line(start.from, Born(trace), Dead(trace)))
    }

    lemma ScanBegins(start: Start, queue: Link)
      requires Draining(queue, start.from) && listed == [] && start.was == Known()
      ensures Scanning(start, queue, [])
    {
      Begun(start);
      var born, dead := Born([]), Dead([]);
      assert Except(listed, born) == [] && [] + start.from == start.from;
    }

    // The next handle of the private list
    method Round(queue: Link, ghost start: Start, ghost trace: seq<Glance>) returns (ghost next: seq<Glance>)
      requires Scanning(start, queue, trace) && Left(start.from, trace) != []
      modifies this`listed, this`open, this`pending, this`callback, this`closed, this`calls, {head, queue} + open
      ensures Scanning(start, queue, next) && |Left(start.from, next)| < |Left(start.from, trace)|
      ensures fresh(Born(next) - Born(trace)) && fresh(open - old(open))
    {
      ghost var mid, batch := Known(), Left(start.from, trace);
      assert batch[0] in Elements(batch);
      ghost var g, rest := Visit(queue, batch, Line(start.from, Born(trace), Dead(trace)));
      ToldOn(start, mid, trace, g);
      TalliedOn(start.was, mid, Known(), trace, g);
      ExceptShort(batch[1..], g.did.closed);
      next := trace + [g];
      assert next[..|trace|] == trace;
    }

    predicate Done(queue: Link, ghost batch: seq<Link>)
      requires Ring(queue, batch)
      reads queue, batch
      ensures Done(queue, batch) <==> batch == []
    {
      EmptyRing(queue, batch);
      IsEmpty(queue)
    }

    method ScanAll(queue: Link, ghost start: Start) returns (ghost trace: seq<Glance>)
      requires Scanning(start, queue, [])
      modifies this`listed, this`open, this`pending, this`callback, this`closed, this`calls, {head, queue} + open
      ensures Scanning(start, queue, trace) && Left(start.from, trace) == [] && fresh(Born(trace))
    {
      trace := [];
      while !Done(queue, Left(start.from, trace))
        invariant Scanning(start, queue, trace) && fresh(Born(trace)) && fresh(open - old(open))
        decreases |Left(start.from, trace)|
      {
        trace := Round(queue, start, trace);
      }
    }

    // uv__async_event: what is examined, called and left alone is determined by what the callbacks do, and the handles
    // afterwards are the old ones in their order and the new ones, without the closed ones
    method Event() returns (ghost trace: seq<Glance>)
      requires Valid()
      modifies this`listed, this`open, this`pending, this`callback, this`closed, this`calls, {head} + open
      ensures Valid() && Complete(Start(old(listed), old(Known())), trace) && Tallied(old(Known()), Known(), trace)
      ensures Except(listed, Born(trace)) == Except(old(listed), Dead(trace)) && fresh(Born(trace))
    {
      ghost var start := Start(listed, Known());
      var queue := new Link();
      Move(head, queue, listed);
      listed := [];
      ScanBegins(start, queue);
      trace := ScanAll(queue, start);
      assert Except(listed, Born(trace)) + [] == Except(listed, Born(trace));
    }
  }
}
