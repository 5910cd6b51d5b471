// The relay phase of a proxy session and its teardown: two connections, each with a state machine for
// reading and one for writing, driven by the callbacks of the event loop.
module ProxyRelay {
  import opened Basics

  datatype ConnState = Busy | Done | Stop | Dead

  datatype Part = Socket | Timer

  datatype End = In | Out {
    function Other(): End { if this == In then Out else In }
  }

  // A callback of the event loop for the connection at one end: a read that ended, a write that ended after the
  // loop took some of the bytes, an idle timer, a write cancelled by a close, and a closed handle
  datatype Event =
    | Readable(at: End, nread: int, data: seq<Byte>)
    | Written(at: End, status: int, taken: nat)
    | Expired(at: End)
    | Cancelled(at: End)
    | Closed(at: End, part: Part)
  {
    // The bytes this callback brings from an end, and how many it reports as written to it
    ghost function Brings(e: End): seq<Byte> { if Readable? && at == e then data else [] }
    ghost function Takes(e: End): nat { if Written? && at == e then taken else 0 }
  }

  const BUFFER := 2048

  const PROXY_START := 6
  const PROXY := 7
  const ALMOST_DEAD_0 := 9
  const ALMOST_DEAD_1 := 10
  const DEAD := 14

  const ETIMEDOUT := -110

  // What a sequence of callbacks brings from an end, and how much it reports as written to it; the first write of a
  // session that `begins` is the reply
  ghost function Brought(script: seq<Event>, e: End): seq<Byte> {
    if script == [] then [] else Brought(script[..|script| - 1], e) + script[|script| - 1].Brings(e)
  }

  ghost function Passed(script: seq<Event>, e: End, begins: bool): nat {
    if script == [] || (begins && |script| == 1) then 0
    else Passed(script[..|script| - 1], e, begins) + script[|script| - 1].Takes(e)
  }

  // The state of the session after a callback: an error or a timer kills it, and every close brings it nearer its end
  ghost function Onward(state: int, ev: Event): int {
    match ev
    case Readable(_, nread, _) => if nread < 0 then ALMOST_DEAD_1 else PROXY
    case Written(_, status, _) => if status < 0 then ALMOST_DEAD_1 else PROXY
    case Expired(_) => ALMOST_DEAD_1
    case Cancelled(_) => state
    case Closed(_, _) => state + 1
  }

  ghost function Passing(state: int, script: seq<Event>): int {
    if script == [] then state else Onward(Passing(state, script[..|script| - 1]), script[|script| - 1])
  }

  /** What was read from each end and written to it. */
  datatype Bytes = Bytes(inSeen: seq<Byte>, inSent: seq<Byte>, outSeen: seq<Byte>, outSent: seq<Byte>) {
    ghost function Seen(e: End): seq<Byte> { if e == In then inSeen else outSeen }
    ghost function Sent(e: End): seq<Byte> { if e == In then inSent else outSent }
  }

  /** Exactly what the callbacks brought was read, and as much written as they report. */
  ghost predicate Advanced(was: Bytes, now: Bytes, script: seq<Event>, begins: bool) {
    AdvancedAt(was, now, script, In, begins) && AdvancedAt(was, now, script, Out, begins)
  }

  ghost predicate AdvancedAt(was: Bytes, now: Bytes, script: seq<Event>, e: End, begins: bool) {
    && now.Seen(e) == was.Seen(e) + Brought(script, e)
    && was.Sent(e) <= now.Sent(e) && |now.Sent(e)| == |was.Sent(e)| + Passed(script, e, begins)
  }

  lemma AdvancedAtOn(was: Bytes, mid: Bytes, now: Bytes, script: seq<Event>, ev: Event, e: End, begins: bool)
    requires AdvancedAt(was, mid, script, e, begins) && mid.Sent(e) <= now.Sent(e)
    requires now.Seen(e) == mid.Seen(e) + ev.Brings(e)
    requires |now.Sent(e)| == |mid.Sent(e)| + if begins && script == [] then 0 else ev.Takes(e)
    ensures AdvancedAt(was, now, script + [ev], e, begins)
  {
    OneMore(script, ev, e, begins);
    Regroup(was.Seen(e), Brought(script, e), ev.Brings(e));
  }

  lemma OneMore(script: seq<Event>, ev: Event, e: End, begins: bool)
    ensures Brought(script + [ev], e) == Brought(script, e) + ev.Brings(e)
    ensures Passed(script + [ev], e, begins) ==
            Passed(script, e, begins) + if begins && script == [] then 0 else ev.Takes(e)
  {
    assert (script + [ev])[..|script|] == script;
  }

  lemma Regroup(a: seq<Byte>, b: seq<Byte>, c: seq<Byte>)
    ensures a + b + c == a + (b + c)
  {
  }

  lemma AdvancedOn(was: Bytes, mid: Bytes, now: Bytes, script: seq<Event>, n: nat, begins: bool)
    requires n < |script| && Advanced(was, mid, script[..n], begins)
    requires var e, o := script[n].at, script[n].at.Other();
             && now.Seen(e) == mid.Seen(e) + script[n].Brings(e) && mid.Sent(e) <= now.Sent(e)
             && |now.Sent(e)| == |mid.Sent(e)| + (if begins && n == 0 then 0 else script[n].Takes(e))
             && now.Seen(o) == mid.Seen(o) && now.Sent(o) == mid.Sent(o)
    ensures Advanced(was, now, script[..n + 1], begins)
  {
    AdvancedAtOn(was, mid, now, script[..n], script[n], In, begins);
    AdvancedAtOn(was, mid, now, script[..n], script[n], Out, begins);
    assert script[..n] + [script[n]] == script[..n + 1];
  }

  class Conn {
    var rdstate: ConnState
    var wrstate: ConnState
    var result: int
    const buf: array<Byte>

    // What the event loop holds for the connection: whether it reads, the write in flight, the handles whose
    // close callback is to come, and a cancelled write whose callback is to come
    var reading: bool
    var source: array?<Byte>
    var length: int
    var closing: set<Part>
    var cancelling: bool
    // The bytes read from the connection, and those written to it, since the relay began
    ghost var seen: seq<Byte>
    ghost var sent: seq<Byte>

    ghost predicate Sized()
    {
      buf.Length == BUFFER
    }

    constructor ()
      ensures rdstate == Stop && wrstate == Stop && result == 0 && Sized() && fresh(buf)
      ensures !reading && source == null && closing == {} && !cancelling && seen == [] && sent == []
    {
      rdstate, wrstate, result := Stop, Stop, 0;
      buf := new Byte[BUFFER](i => 0);
      reading, source, length, closing, cancelling, seen, sent := false, null, 0, {}, false, [], [];
    }

    method Read()
      requires rdstate == Stop && !reading
      modifies this`rdstate, this`reading
      ensures rdstate == Busy && reading
    {
      reading := true;
      rdstate := Busy;
    }

    method Write(data: array<Byte>, len: int)
      requires wrstate == Stop || wrstate == Done
      requires source == null && 0 <= len <= data.Length
      modifies this`wrstate, this`source, this`length
      ensures wrstate == Busy && source == data && length == len
    {
      wrstate := Busy;
      source, length := data, len;
    }

    method Close()
      requires rdstate != Dead && wrstate != Dead && closing == {}
      modifies this`rdstate, this`wrstate, this`closing, this`reading, this`cancelling, this`source
      ensures rdstate == Dead && wrstate == Dead && closing == {Socket, Timer}
      ensures !reading && source == null && cancelling == (old(source) != null)
    {
      rdstate := Dead;
      wrstate := Dead;
      closing := {Socket, Timer};
      reading, cancelling, source := false, source != null, null;
    }
  }

  // One direction: `b` is read from, `a` is written to
  ghost predicate Pipe(b: Conn, a: Conn)
    reads b, a, b.buf
  {
    if b.rdstate == Busy then
      b.reading && a.wrstate == Stop && a.source == null && a.sent == b.seen
    else
      b.rdstate == Stop && !b.reading && a.wrstate == Busy && a.source == b.buf && 0 <= a.length <= b.buf.Length
          && a.sent + b.buf[..a.length] == b.seen
  }

  class Client {
    var state: int
    const incoming: Conn
    const outgoing: Conn
    var freed: bool
    // An assertion has failed, which ends the program
    var aborted: bool

    // A session whose reply to the client, `len` bytes of its buffer, has just been handed to the event loop
    constructor (len: nat)
      requires len <= BUFFER
      ensures Valid() && Starting() && fresh(Objects())
    {
      state, freed, aborted := PROXY_START, false, false;
      incoming := new Conn();
      outgoing := new Conn();
      new;
      incoming.Write(incoming.buf, len);
    }

    ghost predicate Apart()
      reads this
    {
      incoming != outgoing && incoming.buf != outgoing.buf && incoming.Sized() && outgoing.Sized()
    }

    ghost function Objects(): set<object>
    {
      {this, incoming, outgoing, incoming.buf, outgoing.buf}
    }

    ghost predicate Open(c: Conn)
      reads c
    {
      c.closing == {} && !c.cancelling
    }

    /** The reply to the client is being written, nothing else goes on. */
    ghost predicate Starting()
      reads this, incoming, outgoing
    {
      && state == PROXY_START && Open(incoming) && Open(outgoing)
      && incoming.rdstate == Stop && incoming.wrstate == Busy && incoming.source != null && !incoming.reading
      && 0 <= incoming.length <= incoming.source.Length
      && outgoing.rdstate == Stop && outgoing.wrstate == Stop && outgoing.source == null && !outgoing.reading
          && outgoing.result == 0
      && incoming.seen == incoming.sent == outgoing.seen == outgoing.sent == []
    }

    ghost predicate Relaying()
      reads this, incoming, outgoing, incoming.buf, outgoing.buf
    {
      && state == PROXY && Open(incoming) && Open(outgoing) && incoming.result >= 0 && outgoing.result >= 0
      && Pipe(incoming, outgoing) && Pipe(outgoing, incoming)
    }

    ghost predicate Gone(c: Conn)
      reads c
    {
      c.rdstate == Dead && c.wrstate == Dead && !c.reading && c.source == null && (c.cancelling ==> Socket in c.closing)
    }

    ghost predicate Closing()
      reads this, incoming, outgoing
    {
      && ALMOST_DEAD_1 <= state <= DEAD && Gone(incoming) && Gone(outgoing)
      && |incoming.closing| + |outgoing.closing| == DEAD - state
    }

    /** What was written to one connection is the beginning of what was read from the other. */
    ghost predicate Faithful()
      reads incoming, outgoing
    {
      outgoing.sent <= incoming.seen && incoming.sent <= outgoing.seen
    }

    ghost predicate Valid()
      reads this, incoming, outgoing, incoming.buf, outgoing.buf
    {
      Apart() && Faithful() && (Starting() || Relaying() || Closing()) && (freed <==> state == DEAD) && !aborted
    }

    // ---- the state machine ----

    // The assertions of do_proxy_start
    predicate StartAsserts()
      reads incoming, outgoing
    {
      incoming.rdstate == Stop && incoming.wrstate == Done && outgoing.rdstate == Stop && outgoing.wrstate == Stop
    }

    method Kill() returns (next: int)
      requires Apart() && (state < ALMOST_DEAD_0 ==> Open(incoming) && Open(outgoing))
      requires state < ALMOST_DEAD_0 ==>
              incoming.rdstate != Dead && incoming.wrstate != Dead
              && outgoing.rdstate != Dead && outgoing.wrstate != Dead
      modifies {incoming, outgoing}`rdstate, {incoming, outgoing}`wrstate, {incoming, outgoing}`reading
      modifies {incoming, outgoing}`source, {incoming, outgoing}`length, {incoming, outgoing}`closing,
          {incoming, outgoing}`cancelling
      ensures old(state) >= ALMOST_DEAD_0 ==> next == state && unchanged(incoming) && unchanged(outgoing)
      ensures old(state) < ALMOST_DEAD_0 ==>
              next == ALMOST_DEAD_1 && Gone(incoming) && Gone(outgoing)
              && incoming.closing == outgoing.closing == {Socket, Timer}
    {
      if state >= ALMOST_DEAD_0 {
        return state;
      }
      next := ALMOST_DEAD_1;
      incoming.Close();
      outgoing.Close();
    }

    // Whether the cycle of one direction fails: -1 in the source
    static method Cycle(a: Conn, b: Conn) returns (failed: bool)
      requires a != b && a.buf != b.buf && b.Sized()
      // the read machine of `b` and the write machine of `a`, between two callbacks or after the one of either
      requires Between(b, a)
      modifies a`wrstate, a`source, a`length, b`rdstate, b`reading
      ensures failed == (a.result < 0 || b.result < 0)
      ensures failed ==> unchanged(a) && unchanged(b)
      ensures !failed ==> Pipe(b, a)
    {
      if a.result < 0 {
        return true;
      }
      if b.result < 0 {
        return true;
      }
      if a.wrstate == Done {
        a.wrstate := Stop;
      }
      if a.wrstate == Stop {
        if b.rdstate == Stop {
          b.Read();
        } else if b.rdstate == Done {
          a.Write(b.buf, b.result);
          b.rdstate := Stop;
        }
      }
      return false;
    }

    method DoProxyStart() returns (next: int)
      requires Apart() && state == PROXY_START && Open(incoming) && Open(outgoing) && StartAsserts()
      requires !incoming.reading && incoming.source == null && !outgoing.reading && outgoing.source == null
              && outgoing.result >= 0
      requires incoming.seen == incoming.sent == outgoing.seen == outgoing.sent == []
      modifies {incoming, outgoing}`rdstate, {incoming, outgoing}`wrstate, {incoming, outgoing}`reading
      modifies {incoming, outgoing}`source, {incoming, outgoing}`length, {incoming, outgoing}`closing,
          {incoming, outgoing}`cancelling
      ensures Faithful() && Became(next) && (next == PROXY <==> incoming.result >= 0 && outgoing.result >= 0)
    {
      incoming.wrstate := Stop;
      if incoming.result < 0 {
        next := Kill();
        return;
      }
      incoming.Read();
      outgoing.Read();
      return PROXY;
    }

    /** The connections are as they should be in state `next`. */
    ghost predicate Became(next: int)
      reads this, incoming, outgoing, incoming.buf, outgoing.buf
    {
      if next == PROXY then
        Open(incoming) && Open(outgoing) && incoming.result >= 0 && outgoing.result >= 0 && Pipe(incoming, outgoing)
            && Pipe(outgoing, incoming)
      else
        next == ALMOST_DEAD_1 && Gone(incoming) && Gone(outgoing)
            && incoming.closing == outgoing.closing == {Socket, Timer}
    }

    method DoProxy() returns (next: int)
      requires Apart() && state == PROXY && Open(incoming) && Open(outgoing) && Faithful()
      requires Between(incoming, outgoing) && Between(outgoing, incoming)
      modifies {incoming, outgoing}`rdstate, {incoming, outgoing}`wrstate, {incoming, outgoing}`reading
      modifies {incoming, outgoing}`source, {incoming, outgoing}`length, {incoming, outgoing}`closing,
          {incoming, outgoing}`cancelling
      ensures Faithful() && Became(next) && (next == PROXY <==> incoming.result >= 0 && outgoing.result >= 0)
    {
      var failed := Cycle(incoming, outgoing);
      if !failed {
        failed := Cycle(outgoing, incoming);
      }
      if failed {
        next := Kill();
        return;
      }
      return PROXY;
    }

    method DoAlmostDead() returns (next: int)
      requires state >= ALMOST_DEAD_0
      ensures next == state + 1
    {
      return state + 1;
    }

    ghost predicate Due()
      reads this, incoming, outgoing, incoming.buf, outgoing.buf
    {
      if state == PROXY_START then
        StartAsserts() ==>
        && Open(incoming) && Open(outgoing)
        && !incoming.reading && incoming.source == null && !outgoing.reading && outgoing.source == null
            && outgoing.result >= 0
        && incoming.seen == incoming.sent == outgoing.seen == outgoing.sent == []
      else if state == PROXY then
        Open(incoming) && Open(outgoing) && Faithful() && Between(incoming, outgoing) && Between(outgoing, incoming)
      else
        && ALMOST_DEAD_1 <= state < DEAD && Gone(incoming) && Gone(outgoing) && Faithful()
        && |incoming.closing| + |outgoing.closing| == DEAD - state - 1
    }

    // Called by every callback
    method DoNext()
      requires Apart() && !freed && !aborted && Due()
      modifies this`state, this`freed, this`aborted
      modifies {incoming, outgoing}`rdstate, {incoming, outgoing}`wrstate, {incoming, outgoing}`reading
      modifies {incoming, outgoing}`source, {incoming, outgoing}`length, {incoming, outgoing}`closing,
          {incoming, outgoing}`cancelling
      ensures aborted <==> old(state == PROXY_START && !StartAsserts())
      ensures !aborted ==> Valid() && !Starting()
      ensures aborted ==> state == old(state) && unchanged(incoming) && unchanged(outgoing)
      ensures old(state) >= ALMOST_DEAD_0 ==> state == old(state) + 1 && unchanged(incoming) && unchanged(outgoing)
      ensures !aborted && old(state) < ALMOST_DEAD_0 ==>
              state == if incoming.result >= 0 && outgoing.result >= 0 then PROXY else ALMOST_DEAD_1
    {
      var next;
      if state == PROXY_START {
        if !StartAsserts() {
          aborted := true;
          return;
        }
        next := DoProxyStart();
      } else if state == PROXY {
        next := DoProxy();
      } else {
        next := DoAlmostDead();
      }
      state := next;
      if state == DEAD {
        freed := true;
      }
    }

    function At(e: End): Conn { if e == In then incoming else outgoing }

    function Peer(c: Conn): Conn { if c == incoming then outgoing else incoming }

    // ---- the callbacks ----

    /** Nothing is read and nothing written. */
    twostate predicate SameBytes()
      reads incoming, outgoing
    {
      && incoming.seen == old(incoming.seen) && incoming.sent == old(incoming.sent)
      && outgoing.seen == old(outgoing.seen) && outgoing.sent == old(outgoing.sent)
    }

    // The event loop puts `data` into the buffer; conn_read_done up to do_next
    static method Receive(c: Conn, nread: int, data: seq<Byte>, ghost a: Conn)
      requires c != a && c.buf != a.buf && c.Sized() && c.reading && Pipe(c, a)
      requires nread <= BUFFER && |data| == if nread < 0 then 0 else nread
      modifies c`rdstate, c`result, c`reading, c`seen, c.buf
      ensures AfterRead(c, a) && c.result == nread && c.seen == old(c.seen) + data
    {
      forall i | 0 <= i < |data| {
        c.buf[i] := data[i];
      }
      c.seen := c.seen + data;
      assert c.buf[..|data|] == data;
      c.rdstate := Done;
      c.result := nread;
      c.reading := false;
    }

    // conn_read_done; the event loop has put `data` into the buffer, or reports an error or the end of the stream
    method ReadDone(c: Conn, nread: int, data: seq<Byte>)
      requires Valid() && c in {incoming, outgoing} && c.reading
      requires nread <= BUFFER && |data| == if nread < 0 then 0 else nread
      modifies this`state, this`freed, this`aborted, incoming, outgoing, c.buf
      ensures Valid() && !Starting() && c.seen == old(c.seen) + data && c.sent == old(c.sent)
      ensures Peer(c).seen == old(Peer(c).seen) && Peer(c).sent == old(Peer(c).sent)
      ensures state == if nread < 0 then ALMOST_DEAD_1 else PROXY
    {
      assert Relaying() && Pipe(c, Peer(c)) && Pipe(Peer(c), c);
      Receive(c, nread, data, Peer(c));
      assert Pipe(Peer(c), c);
      DoNext();
    }

    // conn_write_done; the event loop has taken `taken` bytes of the buffer, all of them unless the write failed
    method WriteDone(c: Conn, status: int, ghost taken: nat)
      requires Valid() && c in {incoming, outgoing} && c.source != null
      requires status <= 0 && taken <= c.length <= c.source.Length && (status == 0 ==> taken == c.length)
      modifies this`state, this`freed, this`aborted, incoming, outgoing
      ensures Valid() && !Starting()
      ensures c.sent == old(c.sent) + if old(state) == PROXY then old(c.source[..taken]) else []
      ensures c.seen == old(c.seen) && Peer(c).seen == old(Peer(c).seen) && Peer(c).sent == old(Peer(c).sent)
      ensures state == if status < 0 then ALMOST_DEAD_1 else PROXY
    {
      if state == PROXY {
        assert Pipe(Peer(c), c);
        assert c.source[..taken] <= c.source[..c.length];
        c.sent := c.sent + c.source[..taken];
      }
      c.source := null;
      c.wrstate := Done;
      c.result := status;
      DoNext();
    }

    // conn_timer_expire; both timers run while the reply is written and during the relay
    method TimerExpire(c: Conn)
      requires Valid() && c in {incoming, outgoing} && state < ALMOST_DEAD_0
      modifies this`state, this`freed, this`aborted, incoming, outgoing
      ensures aborted <==> old(Starting())
      ensures !aborted ==> Valid() && state == ALMOST_DEAD_1
      ensures Faithful() && SameBytes()
    {
      c.result := ETIMEDOUT;
      DoNext();
    }

    // The callback of a write that was cancelled by the close: the status is UV_ECANCELED
    method WriteCancelled(c: Conn)
      requires Valid() && c in {incoming, outgoing} && c.cancelling
      modifies c`cancelling
      ensures Valid() && !c.cancelling
    {
      c.cancelling := false;
    }

    // conn_close_done
    method CloseDone(c: Conn, part: Part)
      requires Valid() && c in {incoming, outgoing} && part in c.closing && (part == Socket ==> !c.cancelling)
      modifies this`state, this`freed, this`aborted, incoming, outgoing
      ensures Valid() && state == old(state) + 1 && c.closing == old(c.closing) - {part}
              && Peer(c).closing == old(Peer(c).closing)
      ensures (freed <==> incoming.closing == outgoing.closing == {}) && SameBytes()
    {
      c.closing := c.closing - {part};
      DoNext();
    }

    // ---- what holds at all times ----

    // In each direction either the source is read or the destination is written, and what is being written
    // are the bytes read last
    lemma OneAtATime(c: Conn)
      requires Valid() && state == PROXY && c in {incoming, outgoing}
      ensures c.reading != (Peer(c).source != null)
      ensures c.seen == Peer(c).sent + if Peer(c).source != null then Peer(c).source[..Peer(c).length] else []
    {
      assert Pipe(c, Peer(c));
    }

    // No callback is left that could touch a freed session
    lemma NothingAfterFree(c: Conn)
      requires Valid() && freed && c in {incoming, outgoing}
      ensures !c.reading && c.source == null && c.closing == {} && !c.cancelling
    {
      assert |incoming.closing| == 0 && |outgoing.closing| == 0;
    }

    // Some close callback of a killed session, cancelled writes first
    method CloseSome() returns (closed: bool)
      requires Valid() && ALMOST_DEAD_1 <= state < DEAD
      modifies this`state, this`freed, this`aborted, incoming, outgoing
      ensures Valid() && state == if closed then old(state) + 1 else old(state)
      ensures !closed ==> Cancelling() < old(Cancelling())
    {
      var first: bool := *;
      var c := if outgoing.closing == {} || (first && incoming.closing != {}) then incoming else outgoing;
      assert |c.closing| > 0;
      var part :| part in c.closing;
      if part == Socket && c.cancelling {
        WriteCancelled(c);
        return false;
      }
      CloseDone(c, part);
      return true;
    }

    ghost function Cancelling(): nat
      reads incoming, outgoing
    {
      (if incoming.cancelling then 1 else 0) + if outgoing.cancelling then 1 else 0
    }

    // Once killed, a session is freed by exactly four close callbacks, in whatever order they come
    method Teardown() returns (closes: nat)
      requires Valid() && state == ALMOST_DEAD_1
      modifies this`state, this`freed, this`aborted, incoming, outgoing
      ensures Valid() && freed && closes == 4
    {
      closes := 0;
      while !freed
        invariant Valid() && ALMOST_DEAD_1 <= state <= DEAD && closes == state - ALMOST_DEAD_1
        decreases DEAD - state, Cancelling()
      {
        var closed := CloseSome();
        if closed {
          closes := closes + 1;
        }
      }
    }

    // ---- any callback, and any sequence of them ----

    /** The event loop may make this callback now. */
    predicate Possible(ev: Event)
      reads this, incoming, outgoing
    {
      match ev
      case Readable(at, nread, data) => At(at).reading && nread <= BUFFER && |data| == if nread < 0 then 0 else nread
      case Written(at, status, taken) =>
        At(at).source != null && status <= 0 && taken <= At(at).length && (status == 0 ==> taken == At(at).length)
      case Expired(_) => state < ALMOST_DEAD_0
      case Cancelled(at) => At(at).cancelling
      case Closed(at, part) => part in At(at).closing && (part == Socket ==> !At(at).cancelling)
    }

    // A session that is not over always has a callback to come: the reply; in each direction a read that may bring
    // anything or a write that may succeed, and not both; a close, or a write that is cancelled first
    lemma NeverStuck(e: End, nread: int, data: seq<Byte>)
      requires Valid() && !freed && nread <= BUFFER && |data| == if nread < 0 then 0 else nread
      ensures state == PROXY_START ==> Possible(Written(In, 0, incoming.length)) && Possible(Expired(e))
      ensures state == PROXY ==>
                var o := e.Other();
                && Possible(Expired(e))
                && if At(o).source == null then Possible(Readable(e, nread, data))
                   else At(o).length >= 0 && Possible(Written(o, 0, At(o).length))
                        && forall status, taken: nat :: status < 0 && taken <= At(o).length ==>
                          Possible(Written(o, status, taken))
      ensures state >= ALMOST_DEAD_1 ==>
                exists at, part :: part in At(at).closing && (Possible(Closed(at, part)) || Possible(Cancelled(at)))
    {
      if state == PROXY {
        assert Pipe(At(e), At(e.Other())) && Pipe(At(e.Other()), At(e));
      } else if state >= ALMOST_DEAD_1 {
        var at := if incoming.closing != {} then In else Out;
        assert |At(at).closing| > 0;
        var part :| part in At(at).closing;
        assert Possible(Closed(at, part)) || Possible(Cancelled(at));
      }
    }

    ghost function History(): Bytes
      reads incoming, outgoing
    {
      Bytes(incoming.seen, incoming.sent, outgoing.seen, outgoing.sent)
    }

    // While the reply is written the only other callback that may come is a timer, and the assertions of
    // do_proxy_start, which every first callback enters, hold exactly when it is not that. Only a read brings bytes,
    // and only a write takes some, from those in flight.
    method Fire(ev: Event)
      requires Valid() && !freed && Possible(ev)
      modifies this`state, this`freed, this`aborted, incoming, outgoing, incoming.buf, outgoing.buf
      ensures aborted <==> old(Starting()) && ev.Expired?
      ensures old(Starting()) && !ev.Expired? ==> ev.Written? && ev.at == In && !Starting()
      ensures !aborted ==> Valid() && !Starting() && state == Onward(old(state), ev)
      ensures Faithful()
      ensures var c := At(ev.at); c.seen == old(c.seen) + ev.Brings(ev.at)
      ensures var c := At(ev.at);
              c.sent == old(c.sent) + if ev.Written? && !old(Starting()) then old(c.source[..ev.taken]) else []
      ensures var d := At(ev.at.Other()); d.seen == old(d.seen) && d.sent == old(d.sent)
    {
      var c := At(ev.at);
      assert Peer(c) == At(ev.at.Other());
      match ev
      case Readable(_, nread, data) => ReadDone(c, nread, data);
      case Written(_, status, taken) =>
        assert Pipe(Peer(c), c) || Starting();
        WriteDone(c, status, taken);
      case Expired(_) => TimerExpire(c);
      case Cancelled(_) => WriteCancelled(c);
      case Closed(_, part) => CloseDone(c, part);
    }

    /** The first `n` callbacks of `script` have been made. */
    ghost predicate Going(first: int, was: Bytes, script: seq<Event>, n: nat, begins: bool)
      reads this, incoming, outgoing, incoming.buf, outgoing.buf
    {
      && n <= |script| && Faithful() && (!aborted ==> Valid())
      && (if aborted then n == 1 && begins && script[0].Expired? else Starting() == (begins && n == 0))
      && (n > 0 && begins && script[0].Expired? ==> aborted)
      && (!aborted ==> state == Passing(first, script[..n]))
      && Advanced(was, History(), script[..n], begins)
    }

    method Next(ghost first: int, ghost was: Bytes, script: seq<Event>, n: nat, ghost begins: bool)
      requires Going(first, was, script, n, begins) && !freed && !aborted && n < |script| && Possible(script[n])
      modifies this`state, this`freed, this`aborted, incoming, outgoing, incoming.buf, outgoing.buf
      ensures Going(first, was, script, n + 1, begins)
    {
      ghost var mid := History();
      Fire(script[n]);
      AdvancedOn(was, mid, History(), script, n, begins);
      assert script[..n + 1][..n] == script[..n];
    }

    // Callbacks in the order of `script`, as long as the next one is possible, `n` in all: the bytes written are always
    // the first of those read, in order, and no assertion fails but in one case: an idle timer expires before the
    // reply has been written
    method Run(script: seq<Event>) returns (n: nat)
      requires Valid()
      modifies this`state, this`freed, this`aborted, incoming, outgoing, incoming.buf, outgoing.buf
      ensures n <= |script| && (n < |script| ==> aborted || freed || !Possible(script[n]))
      ensures Faithful()
      ensures aborted <==> n > 0 && old(Starting()) && script[0].Expired?
      ensures aborted ==> n == 1
      ensures !aborted ==> Valid() && state == Passing(old(state), script[..n])
      ensures Advanced(old(History()), History(), script[..n], old(Starting()))
    {
      n := 0;
      ghost var first, begins, was := state, Starting(), History();
      while n < |script| && !freed && !aborted && Possible(script[n])
        invariant Going(first, was, script, n, begins)
      {
        Next(first, was, script, n, begins);
        n := n + 1;
      }
    }

    // A whole session: what has been written to an end is as much of what was read from the other as the writes report
    static method Session(len: nat, script: seq<Event>) returns (cx: Client, n: nat)
      requires len <= BUFFER
      ensures n <= |script| && (n < |script| ==> cx.aborted || cx.freed || !cx.Possible(script[n]))
      ensures cx.aborted <==> n > 0 && script[0].Expired?
      ensures !cx.aborted ==>
              cx.state == Passing(PROXY_START, script[..n]) && (cx.freed <==> cx.state == DEAD)
      ensures forall e :: cx.At(e).seen == Brought(script[..n], e)
      ensures forall e :: var k := Passed(script[..n], e, true);
                k <= |Brought(script[..n], e.Other())| && cx.At(e).sent == Brought(script[..n], e.Other())[..k]
    {
      cx := new Client(len);
      n := cx.Run(script);
    }

    // A timer that expires at once
    static method ExpiredAtOnce(len: nat, at: End) returns (cx: Client)
      requires len <= BUFFER
      ensures cx.aborted
    {
      cx := new Client(len);
      cx.Fire(Expired(at));
    }
  }

  // The read machine of `b` and the write machine of `a` after one callback, before the session has reacted
  ghost predicate Between(b: Conn, a: Conn)
    reads b, a, b.buf
  {
    (Pipe(b, a) && a.sent <= b.seen) || AfterRead(b, a) || AfterWrite(b, a)
  }

  // The read callback of `b` has run
  ghost predicate AfterRead(b: Conn, a: Conn)
    reads b, a, b.buf
  {
    && b.rdstate == Done && !b.reading && a.wrstate == Stop && a.source == null && b.result <= b.buf.Length
        && a.sent <= b.seen
    && (b.result >= 0 ==> a.sent + b.buf[..b.result] == b.seen)
  }

  // The write callback of `a` has run
  ghost predicate AfterWrite(b: Conn, a: Conn)
    reads b, a
  {
    b.rdstate == Stop && !b.reading && a.wrstate == Done && a.source == null && a.sent <= b.seen
        && (a.result >= 0 ==> a.sent == b.seen)
  }
}
