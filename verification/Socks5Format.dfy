// Which bytes the parser of the SOCKS protocol takes for a message, told over whole inputs: where it finds an error,
// where a message ends, and what it has read then.
module Socks5Format {
  import opened Basics
  import opened Socks5

  // A counted field is at least one byte long for the parser, even if its length is zero
  function AtLeastOne(n: nat): nat { if n == 0 then 1 else n }

  function Port(hi: Byte, lo: Byte): nat {
    var high: nat := hi;
    high * 256 + lo
  }

  ghost predicate Filled(a: seq<Byte>, p: seq<Byte>) {
    |p| < |a| && a[..|p|] == p && a[|p|] == 0
  }

  // ---- the messages ----

  /** Up to the address of a request: version 5, command 1 or 3, any byte, a known type, and the length of a name. */
  predicate Opened(p: seq<Byte>) {
    |p| >= 4 && p[0] == 5 && p[1] in {1, 3} && p[3] in {1, 3, 4} && (p[3] == 3 ==> |p| >= 5)
  }

  function AddressAt(p: seq<Byte>): nat
    requires Opened(p)
  {
    if p[3] == 3 then 5 else 4
  }

  function AddressLength(p: seq<Byte>): nat
    requires Opened(p)
  {
    if p[3] == 1 then 4 else if p[3] == 4 then 16 else p[4]
  }

  function PortAt(p: seq<Byte>): nat
    requires Opened(p)
  {
    AddressAt(p) + AtLeastOne(AddressLength(p))
  }

  /** `p` begins with a request, the port included. */
  predicate HasRequest(p: seq<Byte>) { Opened(p) && |p| >= PortAt(p) + 2 }

  ghost predicate HoldsRequest(cx: Ctx, p: seq<Byte>)
    requires HasRequest(p)
  {
    && cx.state == Dead && cx.cmd == (if p[1] == 1 then TcpConnect else UdpAssoc)
    && cx.atyp == (if p[3] == 1 then Ipv4 else if p[3] == 4 then Ipv6 else Host)
    && cx.arg1 == AddressLength(p) && Filled(cx.daddr, p[AddressAt(p)..AddressAt(p) + AddressLength(p)])
    && cx.dport == Port(p[PortAt(p)], p[PortAt(p) + 1])
  }

  /** `p` begins with a greeting: version 5, the number of methods, the methods. */
  predicate HasGreeting(p: seq<Byte>) { |p| >= 2 && p[0] == 5 && |p| >= 2 + AtLeastOne(p[1]) }

  /** `p` begins with version 1, the length of the name, the name, and the length of the password. */
  predicate HasName(p: seq<Byte>) { |p| >= 2 && p[0] == 1 && |p| >= 3 + AtLeastOne(p[1]) }

  function PasswordAt(p: seq<Byte>): nat
    requires HasName(p)
  {
    3 + AtLeastOne(p[1])
  }

  predicate HasPassword(p: seq<Byte>) {
    HasName(p) && |p| >= PasswordAt(p) + AtLeastOne(p[PasswordAt(p) - 1])
  }

  ghost predicate HoldsPassword(cx: Ctx, p: seq<Byte>)
    requires HasPassword(p)
  {
    var at := PasswordAt(p);
    && cx.state == ReqVersion && cx.userlen == p[1] && cx.passlen == p[at - 1]
    && Filled(cx.username, p[2..2 + p[1]]) && Filled(cx.password, p[at..at + p[at - 1]])
  }

  // ---- one byte, and the rest ----

  lemma RunHead(cx: Ctx, p: seq<Byte>)
    requires Valid(cx) && p != []
    ensures var n := Step(cx, p[0]);
            Valid(n.cx) && Run(cx, p) == if n.err != Ok then Outcome(n.cx, n.err, 1) else
            Run(n.cx, p[1..]).(used := Run(n.cx, p[1..]).used + 1)
  {
    StepValid(cx, p[0]);
  }

  // A run that goes on with `q` from the state `d`, after `n` bytes
  ghost predicate GoesOn(o: Outcome, n: nat, d: Ctx, q: seq<Byte>) {
    Valid(d) && o == Run(d, q).(used := n + Run(d, q).used)
  }

  lemma GoesFurther(o: Outcome, n: nat, d: Ctx, q: seq<Byte>, m: nat, e: Ctx, r: seq<Byte>)
    requires GoesOn(o, n, d, q) && GoesOn(Run(d, q), m, e, r)
    ensures GoesOn(o, n + m, e, r)
  {
  }

  lemma Split(cx: Ctx, p: seq<Byte>, n: nat)
    requires Valid(cx) && n <= |p|
    ensures var o := Run(cx, p[..n]);
            if o.err != Ok then Run(cx, p) == o else GoesOn(Run(cx, p), n, o.cx, p[n..])
  {
    var a, b := p[..n], p[n..];
    assert p == a + b;
    RunJoin(cx, a, b);
  }

  lemma PutNone(s: seq<Byte>)
    requires s != []
    ensures Put(s, 0, []) == s[0 := 0]
  {
  }

  lemma PutFilled(s: seq<Byte>, p: seq<Byte>)
    requires |p| < |s|
    ensures Filled(Put(s, 0, p), p)
  {
    PutHolds(s, p);
  }

  // ---- the counted fields ----

  lemma {:induction false} ShortAddress(cx: Ctx, p: seq<Byte>)
    requires Valid(cx) && cx.state == ReqDaddr && (p == [] || cx.arg0 + |p| < cx.arg1)
    ensures Run(cx, p).err == Ok
    decreases |p|
  {
    if p != [] {
      RunHead(cx, p);
      ShortAddress(Step(cx, p[0]).cx, p[1..]);
    }
  }

  lemma WholeAddress(cx: Ctx, p: seq<Byte>)
    requires Valid(cx) && cx.state == ReqDaddr && cx.arg0 == 0 && |p| >= AtLeastOne(cx.arg1)
    ensures var n := cx.arg1;
            GoesOn(Run(cx, p), AtLeastOne(n), cx.(daddr := Put(cx.daddr, 0, p[..n]), arg0 := n, state := ReqDport0),
                   p[AtLeastOne(n)..])
  {
    if cx.arg1 == 0 {
      RunHead(cx, p);
      PutNone(cx.daddr);
      assert p[..0] == [];
    } else {
      TakeDaddr(cx, p[..cx.arg1]);
      Split(cx, p, cx.arg1);
    }
  }

  lemma AtPort(cx: Ctx, p: seq<Byte>)
    requires Valid(cx) && cx.state == ReqDport0
    ensures if |p| < 2 then Run(cx, p).err == Ok
            else Run(cx, p) == Outcome(cx.(state := Dead, dport := Port(p[0], p[1])), ExecCmd, 2)
  {
    if |p| >= 2 {
      assert p == [p[0]] + ([p[1]] + p[2..]);
      RunPort(cx, p[0], p[1], p[2..]);
    } else if p != [] {
      RunHead(cx, p);
    }
  }

  lemma AtAddress(cx: Ctx, p: seq<Byte>)
    requires Valid(cx) && cx.state == ReqDaddr && cx.arg0 == 0
    ensures var n, m := cx.arg1, AtLeastOne(cx.arg1);
            if |p| < m + 2 then Run(cx, p).err == Ok
            else Run(cx, p) == Outcome(cx.(daddr := Put(cx.daddr, 0, p[..n]), arg0 := n, state := Dead,
                                           dport := Port(p[m], p[m + 1])), ExecCmd, m + 2)
  {
    var n, m := cx.arg1, AtLeastOne(cx.arg1);
    if |p| < m {
      ShortAddress(cx, p);
    } else {
      WholeAddress(cx, p);
      AtPort(cx.(daddr := Put(cx.daddr, 0, p[..n]), arg0 := n, state := ReqDport0), p[m..]);
    }
  }

  // ---- a request ----

  ghost function TypeOf(c: Byte): Atyp { if c == 1 then Ipv4 else if c == 4 then Ipv6 else Host }

  // Where the address begins
  ghost function Ready(cx: Ctx, cmd: Cmd, c: Byte, n: Byte): Ctx {
    cx.(state := ReqDaddr, cmd := cmd, atyp := TypeOf(c), arg0 := 0, arg1 := n)
  }

  lemma TypeRead(cx: Ctx, p: seq<Byte>)
    requires Valid(cx) && cx.state == ReqAtyp && p != []
    ensures if p[0] !in {1, 3, 4} then Run(cx, p) == Outcome(cx.(arg0 := 0), BadAtyp, 1)
            else GoesOn(Run(cx, p), 1, if p[0] == 3 then Sized(cx) else
                        Ready(cx, cx.cmd, p[0], if p[0] == 1 then 4 else 16), p[1..])
  {
    RunHead(cx, p);
  }

  // Where the length of a name is read
  ghost function Sized(cx: Ctx): Ctx { cx.(arg0 := 0, arg1 := 0, atyp := Host, state := ReqAtypHost) }

  lemma AtType(cx: Ctx, p: seq<Byte>)
    requires Valid(cx) && cx.state == ReqAtyp
    ensures if p == [] || p == [3] then Run(cx, p).err == Ok
            else if p[0] !in {1, 3, 4} then Run(cx, p) == Outcome(cx.(arg0 := 0), BadAtyp, 1)
            else if p[0] == 3 then GoesOn(Run(cx, p), 2, Ready(cx, cx.cmd, 3, p[1]), p[2..])
            else GoesOn(Run(cx, p), 1, Ready(cx, cx.cmd, p[0], if p[0] == 1 then 4 else 16), p[1..])
  {
    if p != [] {
      TypeRead(cx, p);
      if p[0] == 3 {
        AtLength(Sized(cx), p[1..]);
        if |p| > 1 {
          assert p[1..][1..] == p[2..];
          GoesFurther(Run(cx, p), 1, Sized(cx), p[1..], 1, Ready(cx, cx.cmd, 3, p[1]), p[2..]);
        }
      }
    }
  }

  lemma AtLength(cx: Ctx, p: seq<Byte>)
    requires Valid(cx) && cx.state == ReqAtypHost
    ensures if p == [] then Run(cx, p).err == Ok
            else GoesOn(Run(cx, p), 1, cx.(state := ReqDaddr, arg1 := p[0]), p[1..])
  {
    if p != [] {
      RunHead(cx, p);
    }
  }

  ghost function CommandOf(c: Byte): Cmd { if c == 1 then TcpConnect else UdpAssoc }

  lemma AtReserved(cx: Ctx, p: seq<Byte>)
    requires Valid(cx) && cx.state == ReqReserved
    ensures if p == [] then Run(cx, p).err == Ok else GoesOn(Run(cx, p), 1, cx.(state := ReqAtyp), p[1..])
  {
    if p != [] {
      RunHead(cx, p);
    }
  }

  lemma AtCommand(cx: Ctx, p: seq<Byte>)
    requires Valid(cx) && cx.state == ReqCmd
    ensures if p == [] then Run(cx, p).err == Ok
            else if p[0] !in {1, 3} then Run(cx, p) == Outcome(cx, BadCmd, 1)
            else if |p| == 1 then Run(cx, p).err == Ok
            else GoesOn(Run(cx, p), 2, cx.(state := ReqAtyp, cmd := CommandOf(p[0])), p[2..])
  {
    if p != [] {
      RunHead(cx, p);
      if p[0] in {1, 3} {
        AtReserved(cx.(state := ReqReserved, cmd := CommandOf(p[0])), p[1..]);
        assert |p| > 1 ==> p[1..][1..] == p[2..];
      }
    }
  }

  lemma AtFront(cx: Ctx, p: seq<Byte>)
    requires Valid(cx) && cx.state == ReqVersion
    ensures if p == [] then Run(cx, p).err == Ok
            else if p[0] != 5 then Run(cx, p) == Outcome(cx, BadVersion, 1)
            else if |p| == 1 then Run(cx, p).err == Ok
            else if p[1] !in {1, 3} then Run(cx, p) == Outcome(cx.(state := ReqCmd), BadCmd, 2)
            else if |p| == 2 then Run(cx, p).err == Ok
            else GoesOn(Run(cx, p), 3, cx.(state := ReqAtyp, cmd := CommandOf(p[1])), p[3..])
  {
    if p != [] {
      RunHead(cx, p);
      if p[0] == 5 {
        var q := p[1..];
        AtCommand(cx.(state := ReqCmd), q);
        assert |p| > 2 ==> q[2..] == p[3..];
      }
    }
  }

  // An address of a known type is behind the front
  lemma AtOpened(cx: Ctx, p: seq<Byte>)
    requires Valid(cx) && cx.state == ReqVersion && Opened(p)
    ensures var n: Byte := AddressLength(p);
            GoesOn(Run(cx, p), AddressAt(p), Ready(cx, CommandOf(p[1]), p[3], n),
                   p[AddressAt(p)..])
  {
    AtFront(cx, p);
    var d, q := cx.(state := ReqAtyp, cmd := CommandOf(p[1])), p[3..];
    AtType(d, q);
    assert q[0] == p[3] && q[1..] == p[4..] && (|p| >= 5 ==> q[1] == p[4] && q[2..] == p[5..]);
  }

  // The whole request, from where the address begins
  ghost function Requested(d: Ctx, p: seq<Byte>): Ctx
    requires Valid(d) && HasRequest(p)
  {
    var at, n := AddressAt(p), AddressLength(p);
    d.(daddr := Put(d.daddr, 0, p[at..at + n]), arg0 := n, state := Dead,
       dport := Port(p[PortAt(p)], p[PortAt(p) + 1]))
  }

  lemma AddressRead(d: Ctx, p: seq<Byte>)
    requires Valid(d) && d.state == ReqDaddr && d.arg0 == 0 && HasRequest(p) && d.arg1 == AddressLength(p)
    ensures Run(d, p[AddressAt(p)..]) == Outcome(Requested(d, p), ExecCmd, AtLeastOne(d.arg1) + 2)
  {
    AtAddress(d, p[AddressAt(p)..]);
    RestAt(p, AddressAt(p), d.arg1, AtLeastOne(d.arg1));
  }

  lemma RequestHeld(cx: Ctx, p: seq<Byte>, c: Byte)
    requires Valid(cx) && HasRequest(p) && c == AddressLength(p)
    ensures Valid(Ready(cx, CommandOf(p[1]), p[3], c))
    ensures HoldsRequest(Requested(Ready(cx, CommandOf(p[1]), p[3], c), p), p)
  {
    PutFilled(cx.daddr, p[AddressAt(p)..AddressAt(p) + AddressLength(p)]);
  }

  lemma RequestRead(cx: Ctx, p: seq<Byte>)
    requires Valid(cx) && cx.state == ReqVersion && HasRequest(p)
    ensures var n: Byte := AddressLength(p);
            var d := Ready(cx, CommandOf(p[1]), p[3], n);
            Valid(d) && Run(cx, p) == Outcome(Requested(d, p), ExecCmd, PortAt(p) + 2)
  {
    AtOpened(cx, p);
    var n: Byte := AddressLength(p);
    AddressRead(Ready(cx, CommandOf(p[1]), p[3], n), p);
  }

  lemma RestAt(p: seq<Byte>, at: nat, n: nat, m: nat)
    requires n <= m && at + m + 2 <= |p|
    ensures p[at..][..n] == p[at..at + n] && p[at..][m] == p[at + m] && p[at..][m + 1] == p[at + m + 1]
  {
  }

  lemma RequestUnfinished(cx: Ctx, p: seq<Byte>)
    requires Valid(cx) && cx.state == ReqVersion && Opened(p) && !HasRequest(p)
    ensures Run(cx, p).err == Ok
  {
    AtOpened(cx, p);
    var n: Byte := AddressLength(p);
    AtAddress(Ready(cx, CommandOf(p[1]), p[3], n), p[AddressAt(p)..]);
  }

  lemma RequestFront(cx: Ctx, p: seq<Byte>)
    requires Valid(cx) && cx.state == ReqVersion && !Opened(p)
    ensures var o := Run(cx, p);
            if p != [] && p[0] != 5 then o == Outcome(cx, BadVersion, 1)
            else if |p| >= 2 && p[1] !in {1, 3} then o == Outcome(cx.(state := ReqCmd), BadCmd, 2)
            else if |p| >= 4 && p[3] !in {1, 3, 4} then o.err == BadAtyp && o.used == 4 && o.cx.state == ReqAtyp
            else o.err == Ok
  {
    AtFront(cx, p);
    if |p| >= 3 && p[0] == 5 && p[1] in {1, 3} {
      var q := p[3..];
      AtType(cx.(state := ReqAtyp, cmd := CommandOf(p[1])), q);
      assert |p| >= 4 ==> q[0] == p[3];
      assert |p| == 4 && p[3] == 3 ==> q == [3];
    }
  }

  // Of a request the parser reports a bad version, command or address type exactly if it has one, and at that byte; it
  // reports the command exactly at the second byte of the port, whatever the reserved byte is, and holds the fields
  lemma RequestVerdict(cx: Ctx, p: seq<Byte>)
    requires Valid(cx) && cx.state == ReqVersion
    ensures var o := Run(cx, p);
            && (o.err == BadVersion <==> p != [] && p[0] != 5)
            && (o.err == BadCmd <==> |p| >= 2 && p[0] == 5 && p[1] !in {1, 3})
            && (o.err == BadAtyp <==> |p| >= 4 && p[0] == 5 && p[1] in {1, 3} && p[3] !in {1, 3, 4})
            && (o.err == ExecCmd <==> HasRequest(p)) && o.err !in {AuthSelect, AuthVerify}
    ensures var o := Run(cx, p);
            && (o.err == BadVersion ==> o.used == 1 && o.cx == cx)
            && (o.err == BadCmd ==> o.used == 2 && o.cx.state == ReqCmd)
            && (o.err == BadAtyp ==> o.used == 4 && o.cx.state == ReqAtyp)
            && (HasRequest(p) ==> o.used == PortAt(p) + 2 && HoldsRequest(o.cx, p))
  {
    if HasRequest(p) {
      RequestRead(cx, p);
      RequestHeld(cx, p, AddressLength(p));
    } else if Opened(p) {
      RequestUnfinished(cx, p);
    } else {
      RequestFront(cx, p);
    }
  }

  // ---- a greeting ----

  lemma {:induction false} ShortMethods(cx: Ctx, p: seq<Byte>)
    requires Valid(cx) && cx.state == Methods && (p == [] || cx.arg0 + |p| < cx.arg1)
    ensures Run(cx, p).err == Ok
    decreases |p|
  {
    if p != [] {
      RunHead(cx, p);
      ShortMethods(Step(cx, p[0]).cx, p[1..]);
    }
  }

  lemma AtMethods(cx: Ctx, p: seq<Byte>)
    requires Valid(cx) && cx.state == Methods && cx.arg0 == 0
    ensures var n := cx.arg1;
            if |p| < AtLeastOne(n) then Run(cx, p).err == Ok
            else Run(cx, p) == Outcome(cx.(methods := cx.methods + MethodsOf(p[..n]), arg0 := n), AuthSelect,
                AtLeastOne(n))
  {
    var n := cx.arg1;
    if |p| < AtLeastOne(n) {
      ShortMethods(cx, p);
    } else if n == 0 {
      RunHead(cx, p);
      assert p[..0] == [] && cx.methods + {} == cx.methods;
    } else {
      TakeMethods(cx, p[..n]);
      Split(cx, p, n);
    }
  }

  lemma {:induction false} MethodsNamed(p: seq<Byte>)
    ensures NoAuth in MethodsOf(p) <==> 0 in p
    ensures Gssapi in MethodsOf(p) <==> 1 in p
    ensures Passwd in MethodsOf(p) <==> 2 in p
  {
    if p != [] {
      MethodsNamed(p[1..]);
      assert p == [p[0]] + p[1..];
    }
  }

  // Of a greeting the parser reports a bad version exactly at its first byte, and asks for a choice exactly at the last
  // method; it has then taken in the methods it knows, and no others
  lemma GreetingVerdict(cx: Ctx, p: seq<Byte>)
    requires Valid(cx) && cx.state == Version
    ensures var o := Run(cx, p);
            && (o.err == BadVersion <==> p != [] && p[0] != 5) && (o.err == BadVersion ==> o.used == 1 && o.cx == cx)
            && (o.err == AuthSelect <==> HasGreeting(p)) && o.err in {Ok, BadVersion, AuthSelect}
    ensures HasGreeting(p) ==>
              var o, named := Run(cx, p), p[2..2 + p[1]];
              && o.used == 2 + AtLeastOne(p[1])
              && (NoAuth in o.cx.methods <==> NoAuth in cx.methods || 0 in named)
              && (Gssapi in o.cx.methods <==> Gssapi in cx.methods || 1 in named)
              && (Passwd in o.cx.methods <==> Passwd in cx.methods || 2 in named)
  {
    if p != [] {
      RunHead(cx, p);
      if p[0] == 5 && |p| > 1 {
        var a := cx.(state := Nmethods);
        RunHead(a, p[1..]);
        var q := p[1..][1..];
        assert q == p[2..];
        AtMethods(Step(a, p[1]).cx, q);
        if HasGreeting(p) {
          assert q[..p[1]] == p[2..2 + p[1]];
          MethodsNamed(q[..p[1]]);
        }
      }
    }
  }

  // ---- user name and password ----

  lemma {:induction false} ShortUsername(cx: Ctx, p: seq<Byte>)
    requires Valid(cx) && cx.state == AuthPwUsername && (p == [] || cx.arg0 + |p| < cx.userlen)
    ensures Run(cx, p).err == Ok
    decreases |p|
  {
    if p != [] {
      RunHead(cx, p);
      ShortUsername(Step(cx, p[0]).cx, p[1..]);
    }
  }

  lemma WholeUsername(cx: Ctx, p: seq<Byte>)
    requires Valid(cx) && cx.state == AuthPwUsername && cx.arg0 == 0 && |p| >= AtLeastOne(cx.userlen)
    ensures var n := cx.userlen;
            GoesOn(Run(cx, p), AtLeastOne(n),
                   cx.(username := Put(cx.username, 0, p[..n]), arg0 := n, state := AuthPwPasslen), p[AtLeastOne(n)..])
  {
    if cx.userlen == 0 {
      RunHead(cx, p);
      PutNone(cx.username);
      assert p[..0] == [];
    } else {
      TakeUsername(cx, p[..cx.userlen]);
      Split(cx, p, cx.userlen);
    }
  }

  lemma AtPassword(cx: Ctx, p: seq<Byte>)
    requires Valid(cx) && cx.state == AuthPwPassword && cx.arg0 == 0
    ensures var n := cx.passlen;
            if |p| < AtLeastOne(n) then Run(cx, p).err == Ok
            else Run(cx, p) == Outcome(cx.(password := Put(cx.password, 0, p[..n]), arg0 := n, state := ReqVersion),
                                       AuthVerify, AtLeastOne(n))
  {
    var n := cx.passlen;
    if |p| < AtLeastOne(n) {
      if p != [] {
        RunShort(cx, p);
      }
    } else if n == 0 {
      RunHead(cx, p);
      PutNone(cx.password);
      assert p[..0] == [];
    } else {
      TakePassword(cx, p[..n]);
      Split(cx, p, n);
    }
  }

  lemma AtPasslen(cx: Ctx, p: seq<Byte>)
    requires Valid(cx) && cx.state == AuthPwPasslen
    ensures if p == [] || |p| < 1 + AtLeastOne(p[0]) then Run(cx, p).err == Ok
            else Run(cx, p) == Outcome(cx.(passlen := p[0], password := Put(cx.password, 0, p[1..1 + p[0]]), arg0 :=
                p[0],
                                           state := ReqVersion), AuthVerify, 1 + AtLeastOne(p[0]))
  {
    if p != [] {
      RunHead(cx, p);
      AtPassword(Step(cx, p[0]).cx, p[1..]);
      if |p| >= 1 + AtLeastOne(p[0]) {
        assert p[1..][..p[0]] == p[1..1 + p[0]];
      }
    }
  }

  // Where the length of the password is read
  ghost function Named(cx: Ctx, user: seq<Byte>): Ctx
    requires Valid(cx) && |user| < 256
  {
    cx.(userlen := |user|, username := Put(cx.username, 0, user), arg0 := |user|, state := AuthPwPasslen)
  }

  lemma RestOf(p: seq<Byte>, n: nat)
    requires 1 + AtLeastOne(n) <= |p|
    ensures p[1..][..n] == p[1..1 + n] && p[1..][AtLeastOne(n)..] == p[1 + AtLeastOne(n)..]
  {
  }

  lemma LengthRead(cx: Ctx, p: seq<Byte>)
    requires Valid(cx) && cx.state == AuthPwUserlen && p != []
    ensures GoesOn(Run(cx, p), 1, cx.(arg0 := 0, userlen := p[0], state := AuthPwUsername), p[1..])
  {
    RunHead(cx, p);
  }

  // The name, from its length on
  lemma AtUserlen(cx: Ctx, p: seq<Byte>)
    requires Valid(cx) && cx.state == AuthPwUserlen
    ensures if p == [] || |p| < 1 + AtLeastOne(p[0]) then Run(cx, p).err == Ok
            else GoesOn(Run(cx, p), 1 + AtLeastOne(p[0]), Named(cx, p[1..1 + p[0]]), p[1 + AtLeastOne(p[0])..])
  {
    if p != [] {
      var d, n: nat := cx.(arg0 := 0, userlen := p[0], state := AuthPwUsername), p[0];
      LengthRead(cx, p);
      if |p| < 1 + AtLeastOne(n) {
        ShortUsername(d, p[1..]);
      } else {
        WholeUsername(d, p[1..]);
        RestOf(p, n);
        GoesFurther(Run(cx, p), 1, d, p[1..], AtLeastOne(n), Named(cx, p[1..1 + n]), p[1 + AtLeastOne(n)..]);
      }
    }
  }

  lemma NameRead(cx: Ctx, p: seq<Byte>)
    requires Valid(cx) && cx.state == AuthPwVersion && p != [] && p[0] == 1
    ensures if |p| < 2 || |p| < 2 + AtLeastOne(p[1]) then Run(cx, p).err == Ok
            else GoesOn(Run(cx, p), 2 + AtLeastOne(p[1]), Named(cx, p[2..2 + p[1]]), p[2 + AtLeastOne(p[1])..])
  {
    RunHead(cx, p);
    AtUserlen(cx.(state := AuthPwUserlen), p[1..]);
    if |p| >= 2 && |p| >= 2 + AtLeastOne(p[1]) {
      TailOfTail(p, p[1]);
    }
  }

  lemma TailOfTail(p: seq<Byte>, n: nat)
    requires 2 + AtLeastOne(n) <= |p|
    ensures p[1..][0] == p[1] && p[1..][1..1 + n] == p[2..2 + n]
    ensures p[1..][1 + AtLeastOne(n)..] == p[2 + AtLeastOne(n)..]
  {
  }

  ghost function Passed(cx: Ctx, pass: seq<Byte>): Ctx
    requires Valid(cx) && |pass| < 256
  {
    cx.(passlen := |pass|, password := Put(cx.password, 0, pass), arg0 := |pass|, state := ReqVersion)
  }

  ghost predicate PasswordOutcome(cx: Ctx, p: seq<Byte>, at: nat, n: Byte, o: Outcome)
    requires Valid(cx)
  {
    if |p| < at + AtLeastOne(n) then o.err == Ok
    else o == Outcome(Passed(cx, p[at..at + n]), AuthVerify, 1 + AtLeastOne(n))
  }

  // The password, in a text that has its length before `at`
  lemma PasswordFrom(cx: Ctx, p: seq<Byte>, at: nat, n: Byte)
    requires Valid(cx) && cx.state == AuthPwPasslen && 1 <= at <= |p| && n == p[at - 1]
    ensures PasswordOutcome(cx, p, at, n, Run(cx, p[at - 1..]))
  {
    AtPasslen(cx, p[at - 1..]);
    if |p| >= at + AtLeastOne(n) {
      assert p[at - 1..][1..1 + n] == p[at..at + n];
    }
  }

  // The outcome of a whole message
  ghost function Accepted(cx: Ctx, p: seq<Byte>): Outcome
    requires Valid(cx) && HasPassword(p)
  {
    var at := PasswordAt(p);
    var n: nat := p[at - 1];
    Outcome(Passed(Named(cx, p[2..2 + p[1]]), p[at..at + n]), AuthVerify, at + AtLeastOne(n))
  }

  lemma WholeName(cx: Ctx, p: seq<Byte>, d: Ctx)
    requires Valid(cx) && cx.state == AuthPwVersion && HasName(p) && d == Named(cx, p[2..2 + p[1]])
    ensures GoesOn(Run(cx, p), PasswordAt(p) - 1, d, p[PasswordAt(p) - 1..]) && d.state == AuthPwPasslen
  {
    NameRead(cx, p);
  }

  lemma AfterName(cx: Ctx, p: seq<Byte>, o: Outcome, d: Ctx)
    requires Valid(cx) && HasName(p) && d == Named(cx, p[2..2 + p[1]]) && d.state == AuthPwPasslen
    requires GoesOn(o, PasswordAt(p) - 1, d, p[PasswordAt(p) - 1..])
    ensures if HasPassword(p) then o == Accepted(cx, p) else o.err == Ok
  {
    PasswordFrom(d, p, PasswordAt(p), p[PasswordAt(p) - 1]);
  }

  lemma PasswordRead(cx: Ctx, p: seq<Byte>)
    requires Valid(cx) && cx.state == AuthPwVersion && HasName(p)
    ensures if HasPassword(p) then Run(cx, p) == Accepted(cx, p) else Run(cx, p).err == Ok
  {
    var d := Named(cx, p[2..2 + p[1]]);
    WholeName(cx, p, d);
    AfterName(cx, p, Run(cx, p), d);
  }

  lemma BothHeld(cx: Ctx, p: seq<Byte>, o: Outcome)
    requires Valid(cx) && HasPassword(p) && o == Accepted(cx, p)
    ensures o.err == AuthVerify && o.used == PasswordAt(p) + AtLeastOne(p[PasswordAt(p) - 1])
            && HoldsPassword(o.cx, p)
  {
    var user, at := p[2..2 + p[1]], PasswordAt(p);
    PutFilled(cx.username, user);
    PutFilled(cx.password, p[at..at + p[at - 1]]);
  }

  // Of a user name with its password the parser reports a bad version exactly at the first byte, and asks for a check
  // exactly at the last byte of the password, holding both
  lemma PasswordVerdict(cx: Ctx, p: seq<Byte>)
    requires Valid(cx) && cx.state == AuthPwVersion
    ensures var o := Run(cx, p);
            && (o.err == BadVersion <==> p != [] && p[0] != 1) && (o.err == BadVersion ==> o.used == 1 && o.cx == cx)
            && (o.err == AuthVerify <==> HasPassword(p)) && o.err in {Ok, BadVersion, AuthVerify}
    ensures HasPassword(p) ==>
              Run(cx, p).used == PasswordAt(p) + AtLeastOne(p[PasswordAt(p) - 1]) && HoldsPassword(Run(cx, p).cx, p)
  {
    if HasName(p) {
      PasswordRead(cx, p);
      if HasPassword(p) {
        BothHeld(cx, p, Run(cx, p));
      }
    } else if p != [] {
      if p[0] == 1 {
        NameRead(cx, p);
      } else {
        RunHead(cx, p);
      }
    }
  }

  // Behind a request everything is taken and nothing reported
  lemma {:induction false} AfterRequest(cx: Ctx, p: seq<Byte>)
    requires Valid(cx) && cx.state == Dead
    ensures Run(cx, p) == Outcome(cx, Ok, |p|)
    decreases |p|
  {
    if p != [] {
      RunHead(cx, p);
      AfterRequest(cx, p[1..]);
    }
  }
}
