// The table of I/O watchers by descriptor, their event masks, and the queue of changes for the poller.
module IoWatchers {
  import opened Lists
  import opened Words

  datatype Poll = In | Out | RdHup

  const INT_MAX := 0x7fff_ffff

  class Watcher {
    const fd: int
    var events: set<Poll>
    var pevents: set<Poll>

    constructor (fd: int)
      requires fd >= -1
      ensures this.fd == fd && events == {} && pevents == {}
    {
      this.fd := fd;
      events, pevents := {}, {};
    }
  }

  // What a slot of the table points to; the two trailing slots hold pointers of another kind
  datatype Entry = Null | Io(w: Watcher) | Other(p: nat)

  ghost function Filled(s: seq<Entry>): nat {
    if s == [] then 0 else Filled(s[..|s| - 1]) + if s[|s| - 1].Null? then 0 else 1
  }

  lemma {:induction false} FilledUpdate(s: seq<Entry>, i: nat, e: Entry)
    requires i < |s|
    ensures Filled(s[i := e]) == Filled(s) - (if s[i].Null? then 0 else 1) + if e.Null? then 0 else 1
  {
    var n := |s| - 1;
    if i == n {
      assert s[i := e][..n] == s[..n];
    } else {
      assert s[i := e][..n] == s[..n][i := e];
      FilledUpdate(s[..n], i, e);
    }
  }

  lemma {:induction false} FilledMore(s: seq<Entry>, u: seq<Entry>)
    requires s <= u && forall i :: |s| <= i < |u| ==> u[i].Null?
    ensures Filled(u) == Filled(s)
  {
    if |s| == |u| {
      assert s == u;
    } else {
      FilledMore(s, u[..|u| - 1]);
    }
  }

  lemma {:induction false} FilledSome(s: seq<Entry>, i: nat)
    requires i < |s| && !s[i].Null?
    ensures Filled(s) > 0
  {
    if i < |s| - 1 {
      FilledSome(s[..|s| - 1], i);
    }
  }

  lemma AllFlags(mask: set<Poll>)
    ensures mask - {In, Out, RdHup} == {}
  {
    forall p | p in mask
      ensures p in {In, Out, RdHup}
    {
      match p
      case In =>
      case Out =>
      case RdHup =>
    }
  }

  // The queue with `w` in it: at the end, unless it is there already
  function Queued(q: seq<Watcher>, w: Watcher): seq<Watcher> { if w in q then q else q + [w] }

  class Loop {
    var watchers: array?<Entry>
    var nwatchers: nat
    var nfds: nat
    var queue: seq<Watcher>
    // The interest list of the kernel
    var pollset: map<int, set<Poll>>
    ghost var all: set<Watcher>

    constructor ()
      ensures Valid() && all == {} && nwatchers == 0 && watchers == null
    {
      watchers, nwatchers, nfds, queue, pollset, all := null, 0, 0, [], map[], {};
    }

    ghost function Table(): seq<Entry>
      reads this, watchers
      requires watchers != null ==> watchers.Length == nwatchers + 2
    {
      if watchers == null then [] else watchers[..nwatchers]
    }

    /** The two trailing slots; none before the first allocation. */
    ghost function Trailer(): seq<Entry>
      reads this, watchers
      requires watchers != null ==> watchers.Length == nwatchers + 2
    {
      if watchers == null then [Null, Null] else watchers[nwatchers..]
    }

    ghost predicate Sized()
      reads this, watchers
    {
      (watchers == null ==> nwatchers == 0) && (watchers != null ==> watchers.Length == nwatchers + 2)
    }

    /** The table, the masks and the queue agree about `w`. */
    ghost predicate Agrees(w: Watcher)
      reads this, watchers, w
      requires Sized()
    {
      && w.fd >= -1 && (w.pevents != {} <==> 0 <= w.fd < nwatchers && Table()[w.fd] == Io(w))
      && (w.events != {} ==> w.pevents != {} && w.fd in pollset && pollset[w.fd] == w.events)
      && (w.pevents != {} && w.pevents != w.events ==> w in queue)
      && (w in queue ==> w.pevents != {})
    }

    ghost predicate Valid()
      reads this, watchers, all
    {
      && Sized()
      && (forall w {:trigger Agrees(w)} :: w in all ==> Agrees(w))
      && (forall u, w :: u in all && w in all && u.fd == w.fd >= 0 ==> u == w)
      && (forall i :: 0 <= i < |Table()| ==>
          Table()[i].Null?
          || (Table()[i].Io? && Table()[i].w in all && Table()[i].w.fd == i))
      && nfds == Filled(Table())
      && NoDup(queue) && (forall w :: w in queue ==> w in all)
    }

    // The table has room for `len` descriptors and the two trailing slots unless `len + 2` is above 2^31:
    // then the power of two is 0 and the block that is asked for has no slots at all
    static method TableSize(len: nat) returns (n: nat)
      requires len + 2 < WRAP
      ensures (n + 2) % WRAP >= len + 2 <==> len + 2 <= 0x8000_0000
      ensures len + 2 > 0x8000_0000 ==> n == WRAP - 2
      ensures len + 2 <= 0x8000_0000 ==>
              len <= n && n + 2 <= 0x8000_0000 && IsPower(n + 2) &&
              forall p: nat :: IsPower(p) && len + 2 <= p ==> n + 2 <= p
    {
      var power := NextPowerOfTwo(len + 2);
      n := (power + WRAP - 2) % WRAP;
      assert power == 0 ==> n == WRAP - 2;
      assert power != 0 ==> n == power - 2;
    }

    // Not `ok` when the block that is asked for has no room for its own entries: the source then writes outside of
    // it, and the model stops with the old table
    method MaybeResize(len: nat) returns (ok: bool)
      requires Sized() && len + 2 < WRAP
      modifies this`watchers, this`nwatchers
      ensures ok <==> len <= old(nwatchers) || len + 2 <= 0x8000_0000
      ensures !ok ==> watchers == old(watchers) && nwatchers == old(nwatchers)
      ensures Sized() && (ok ==> nwatchers >= len) && old(nwatchers) <= nwatchers
              && (watchers == old(watchers) || fresh(watchers))
      ensures old(Table()) <= Table() && forall i :: |old(Table())| <= i < |Table()| ==> Table()[i].Null?
      ensures Trailer() == old(Trailer())
      ensures nwatchers == old(nwatchers) ||
              (IsPower(nwatchers + 2) && forall p: nat :: IsPower(p) && len + 2 <= p ==> nwatchers + 2 <= p)
    {
      if len <= nwatchers {
        return true;
      }
      var list, count := Null, Null;
      if watchers != null {
        list, count := watchers[nwatchers], watchers[nwatchers + 1];
      }
      var n := TableSize(len);
      var slots := (n + 2) % WRAP;
      if slots < n + 2 {
        return false;
      }
      var more := new Entry[slots];
      ghost var was := Table();
      Realloc(more);
      var i := nwatchers;
      while i < n
        invariant nwatchers <= i <= n && more[..nwatchers] == was
        invariant forall j :: nwatchers <= j < i ==> more[j] == Null
      {
        more[i] := Null;
        i := i + 1;
      }
      more[n] := list;
      more[n + 1] := count;
      watchers, nwatchers := more, n;
      return true;
    }

    // What realloc keeps of the old block
    method Realloc(more: array<Entry>)
      requires Sized() && nwatchers <= more.Length && more != watchers
      modifies more
      ensures more[..nwatchers] == Table()
    {
      if watchers != null {
        forall i | 0 <= i < nwatchers {
          more[i] := watchers[i];
        }
      }
    }

    // uv__io_init: a watcher of its own for each descriptor
    method Add(w: Watcher)
      requires Valid() && w.events == w.pevents == {} && w !in queue && w.fd >= -1
      requires w.fd >= 0 ==> forall u :: u in all ==> u.fd != w.fd
      modifies this`all
      ensures Valid() && all == old(all) + {w}
    {
      all := all + {w};
      assert w.fd < 0 || w.fd >= nwatchers || Table()[w.fd] != Io(w);
      forall u | u in all
        ensures Agrees(u)
      {
        assert u != w ==> old(Agrees(u));
      }
    }

    // The table grows; every watcher keeps its slot
    method Grow(len: nat) returns (ok: bool)
      requires Valid() && len + 2 < WRAP
      modifies this`watchers, this`nwatchers
      ensures ok <==> len <= old(nwatchers) || len + 2 <= 0x8000_0000
      ensures Valid() && (ok ==> nwatchers >= len) && Trailer() == old(Trailer())
              && (watchers == old(watchers) || fresh(watchers))
      ensures !ok ==> watchers == old(watchers) && nwatchers == old(nwatchers)
    {
      ok := MaybeResize(len);
      FilledMore(old(Table()), Table());
      forall w | w in all
        ensures Agrees(w)
      {
        assert old(Agrees(w));
      }
    }

    // Not `ok` for the one descriptor the asserts allow and the table cannot be sized for
    method Start(w: Watcher, events: set<Poll>) returns (ok: bool)
      requires Valid() && w in all && events != {} && 0 <= w.fd < INT_MAX
      modifies this`watchers, this`nwatchers, this`nfds, this`queue, w`pevents, watchers
      ensures ok <==> w.fd != INT_MAX - 1 || w.fd < old(nwatchers)
      ensures Valid() && Trailer() == old(Trailer())
      ensures ok ==> w.pevents == old(w.pevents) + events
      ensures ok ==> w.fd < nwatchers && Table()[w.fd] == Io(w)
      ensures queue == if ok && w.events != w.pevents then Queued(old(queue), w) else old(queue)
      ensures !ok ==> w.pevents == old(w.pevents) && watchers == old(watchers) && nwatchers == old(nwatchers)
    {
      ok := Grow(w.fd + 1);
      if ok {
        Enter(w, events);
      }
    }

    // The failing input
    static method StartAtTop(events: set<Poll>) returns (lp: Loop, w: Watcher, ok: bool)
      requires events != {}
      ensures !ok && w.fd == INT_MAX - 1 && lp.Valid() && lp.all == {w} && lp.nwatchers == 0 && w.pevents == {}
    {
      lp := new Loop();
      w := new Watcher(INT_MAX - 1);
      lp.Add(w);
      ok := lp.Start(w, events);
    }

    method Enter(w: Watcher, events: set<Poll>)
      requires Valid() && w in all && events != {} && 0 <= w.fd < nwatchers
      modifies this`nfds, this`queue, w`pevents, watchers
      ensures Valid() && w.pevents == old(w.pevents) + events && Trailer() == old(Trailer())
      ensures Table()[w.fd] == Io(w)
      ensures queue == if w.events != w.pevents then Queued(old(queue), w) else old(queue)
    {
      assert Agrees(w);
      ghost var was, q0 := Table(), queue;
      FilledUpdate(was, w.fd, Io(w));
      w.pevents := w.pevents + events;
      if w.events == w.pevents {
        return;
      }
      if w !in queue {
        queue := queue + [w];
      }
      if watchers[w.fd] == Null {
        watchers[w.fd] := Io(w);
        nfds := nfds + 1;
      }
      assert Table() == was[w.fd := Io(w)];
      assert Trailer() == old(Trailer());
      forall u | u in all
        ensures Agrees(u)
      {
        assert old(Agrees(u));
        if u == w {} else {
          assert u in queue <==> u in q0;
        }
      }
    }

    method Stop(w: Watcher, events: set<Poll>)
      requires Valid() && w in all && events != {}
      modifies this`nfds, this`queue, w`events, w`pevents, watchers
      ensures Valid() && w.pevents == old(w.pevents) - events && Trailer() == old(Trailer())
      ensures w.pevents == {} ==> w !in queue && queue == Without(old(queue), w) && w.events == {}
      ensures w.pevents != {} ==> queue == Queued(old(queue), w) && w.events == old(w.events)
    {
      assert Agrees(w);
      if w.fd == -1 {
        WithoutNone(queue, w);
        return;
      }
      if w.fd >= nwatchers {
        WithoutNone(queue, w);
        return;
      }
      w.pevents := w.pevents - events;
      if w.pevents == {} {
        Unwatch(w);
      } else {
        if w !in queue {
          queue := queue + [w];
        }
        assert Table() == old(Table()) && Trailer() == old(Trailer());
        forall u | u in all
          ensures Agrees(u)
        {
          assert old(Agrees(u));
        }
      }
    }

    /** Valid but for `w`, whose mask has become empty. */
    ghost predicate Emptied(w: Watcher)
      reads this, watchers, all
    {
      && Sized() && w in all && 0 <= w.fd < nwatchers && w.pevents == {}
      && Table()[w.fd] in {Null, Io(w)} && (w.events != {} ==> Table()[w.fd] == Io(w))
      && (forall u {:trigger Agrees(u)} :: u in all && u != w ==> Agrees(u))
      && (forall u, v :: u in all && v in all && u.fd == v.fd >= 0 ==> u == v)
      && (forall i :: 0 <= i < |Table()| ==>
            Table()[i].Null? || (Table()[i].Io? && Table()[i].w in all && Table()[i].w.fd == i))
      && nfds == Filled(Table())
      && NoDup(queue) && (forall u :: u in queue ==> u in all)
    }

    // The watcher leaves the queue and the table
    method Unwatch(w: Watcher)
      requires Emptied(w)
      modifies this`nfds, this`queue, w`events, watchers
      ensures Valid() && w.pevents == {} && w !in queue && w.events == {} && Trailer() == old(Trailer())
      ensures queue == Without(old(queue), w)
    {
      ghost var was, q0 := Table(), queue;
      FilledUpdate(was, w.fd, Null);
      WithoutIn(queue, w);
      queue := Without(queue, w);
      if watchers[w.fd] != Null {
        assert watchers[w.fd] == Io(w) && nfds > 0;
        watchers[w.fd] := Null;
        nfds := nfds - 1;
        w.events := {};
      }
      assert Table() == was[w.fd := Null];
      assert Trailer() == old(Trailer());
      forall u | u in all
        ensures Agrees(u)
      {
        if u == w {} else {
          assert old(Agrees(u));
          assert u in queue <==> u in q0;
        }
      }
    }

    // uv__io_close: the descriptor may get a new watcher afterwards
    method Close(w: Watcher)
      requires Valid() && w in all
      modifies this`nfds, this`queue, this`pollset, this`all, w`events, w`pevents, watchers
      ensures Valid() && all == old(all) - {w} && w !in queue && w.events == w.pevents == {} && w.fd !in pollset
    {
      Stop(w, {In, Out, RdHup});
      AllFlags(old(w.pevents));
      Forget(w);
    }

    method Forget(w: Watcher)
      requires Valid() && w in all && w.pevents == {}
      modifies this`pollset, this`all
      ensures Valid() && all == old(all) - {w} && w !in queue && w.events == {} && w.fd !in pollset
    {
      assert Agrees(w);
      pollset := pollset - {w.fd};
      all := all - {w};
      forall u | u in all
        ensures Agrees(u)
      {
        assert old(Agrees(u));
      }
    }

    // The poller takes over the changed masks: PS_ADD where the kernel does not know the descriptor yet,
    // PS_DELETE and PS_ADD where it does
    method TakeOver(w: Watcher)
      requires Valid() && queue != [] && w == queue[0]
      modifies this`queue, this`pollset, w`events
      ensures Valid() && queue == old(queue)[1..] && w.events == w.pevents != {} && 0 <= w.fd < nwatchers
      ensures pollset == old(pollset)[w.fd := w.pevents]
    {
      assert Agrees(w);
      queue := Without(queue, w);
      var addFailed := false;
      if w.events == {} {
        if w.fd in pollset {
          addFailed := true;
        } else {
          pollset := pollset[w.fd := w.pevents];
        }
      }
      if w.events != {} || addFailed {
        pollset := pollset - {w.fd};
        pollset := pollset[w.fd := w.pevents];
      }
      w.events := w.pevents;
      forall u | u in all
        ensures Agrees(u)
      {
        assert old(Agrees(u));
      }
    }

    method Drain()
      requires Valid()
      modifies this`queue, this`pollset, all`events
      ensures Valid() && queue == []
      ensures forall w :: w in all ==>
              w.pevents == w.events
              && (w.pevents != {} ==> w.fd in pollset && pollset[w.fd] == w.pevents)
    {
      while queue != []
        invariant Valid() && all == old(all)
        decreases |queue|
      {
        TakeOver(queue[0]);
      }
      forall w | w in all
        ensures w.pevents == w.events && (w.pevents != {} ==> w.fd in pollset && pollset[w.fd] == w.pevents)
      {
        assert Agrees(w);
      }
    }

    // An event for a descriptor nobody watches any more: the kernel is told to forget it
    method Disarm(fd: nat)
      requires Valid() && fd < nwatchers && watchers[fd] == Null
      modifies this`pollset
      ensures Valid() && pollset == old(pollset) - {fd}
    {
      pollset := pollset - {fd};
      forall u | u in all
        ensures Agrees(u)
      {
        assert old(Agrees(u));
      }
    }

    // Without watchers the poller has nothing to do
    lemma NothingToPoll()
      requires Valid() && nfds == 0
      ensures queue == [] && forall w :: w in all ==> w.pevents == {}
    {
      forall w | w in all
        ensures w.pevents == {}
      {
        assert Agrees(w);
        if w.pevents != {} {
          FilledSome(Table(), w.fd);
        }
      }
      assert queue != [] ==> queue[0] in queue && Agrees(queue[0]);
    }
  }
}
