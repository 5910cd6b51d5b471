// The incremental parser of the SOCKS protocol: one byte at a time, across any number of reads.
module Socks5 {
  import opened Basics

  datatype State =
    | Version | Nmethods | Methods
    | AuthPwVersion | AuthPwUserlen | AuthPwUsername | AuthPwPasslen | AuthPwPassword
    | ReqVersion | ReqCmd | ReqReserved | ReqAtyp | ReqAtypHost | ReqDaddr | ReqDport0 | ReqDport1
    | Dead

  datatype Err = BadVersion | BadCmd | BadAtyp | Ok | AuthSelect | AuthVerify | ExecCmd

  datatype Method = NoAuth | Gssapi | Passwd

  datatype Cmd = TcpConnect | TcpBind | UdpAssoc

  datatype Atyp = Ipv4 | Ipv6 | Host

  const CAPACITY := 257

  // The fields of the parser as one value
  datatype Ctx = Ctx(state: State, arg0: nat, arg1: nat, methods: set<Method>, cmd: Cmd, atyp: Atyp, userlen: nat,
      passlen: nat,
                     dport: nat, username: seq<Byte>, password: seq<Byte>, daddr: seq<Byte>)

  datatype Next = Next(cx: Ctx, err: Err)

  ghost predicate Valid(cx: Ctx) {
    && |cx.username| == |cx.password| == |cx.daddr| == CAPACITY && cx.userlen < 256 && cx.passlen < 256
    && (cx.state == Methods ==> cx.arg0 <= cx.arg1)
    && (cx.state == AuthPwUsername ==> cx.arg0 <= cx.userlen)
    && (cx.state == AuthPwPassword ==> cx.arg0 <= cx.passlen)
    && (cx.state == ReqAtypHost ==> cx.arg0 == 0)
    && (cx.state == ReqDaddr ==> cx.arg0 <= cx.arg1 < 256)
    && (cx.state == ReqDport1 ==> cx.dport % 256 == 0)
    && cx.dport < 0x1_0000
  }

  function MethodOf(c: Byte): set<Method> {
    if c == 0 then {NoAuth} else if c == 1 then {Gssapi} else if c == 2 then {Passwd} else {}
  }

  // Byte `c` goes into a field of `len` bytes that holds `at` of them; a full field is ended by a zero byte
  ghost function Stored(s: seq<Byte>, at: nat, len: nat, c: Byte): seq<Byte>
    requires at <= len < |s|
  {
    var t := if at < len then s[at := c] else s;
    if at + 1 < len then t else t[len := 0]
  }

  // How many bytes the field holds then
  function Held(at: nat, len: nat): nat { if at < len then at + 1 else at }

  ghost function Step(cx: Ctx, c: Byte): Next
    requires Valid(cx)
  {
    match cx.state
    case Version => if c != 5 then Next(cx, BadVersion) else Next(cx.(state := Nmethods), Ok)
    case Nmethods => Next(cx.(arg0 := 0, arg1 := c, state := Methods), Ok)
    case Methods =>
      var d := if cx.arg0 < cx.arg1 then cx.(methods := cx.methods + MethodOf(c), arg0 := cx.arg0 + 1) else cx;
      Next(d, if d.arg0 == d.arg1 then AuthSelect else Ok)
    case AuthPwVersion => if c != 1 then Next(cx, BadVersion) else Next(cx.(state := AuthPwUserlen), Ok)
    case AuthPwUserlen => Next(cx.(arg0 := 0, userlen := c, state := AuthPwUsername), Ok)
    case AuthPwUsername =>
      var n := Held(cx.arg0, cx.userlen);
      Next(cx.(username := Stored(cx.username, cx.arg0, cx.userlen, c), arg0 := n,
               state := if n == cx.userlen then AuthPwPasslen else cx.state), Ok)
    case AuthPwPasslen => Next(cx.(arg0 := 0, passlen := c, state := AuthPwPassword), Ok)
    case AuthPwPassword =>
      var n := Held(cx.arg0, cx.passlen);
      var d := cx.(password := Stored(cx.password, cx.arg0, cx.passlen, c), arg0 := n);
      if n == cx.passlen then Next(d.(state := ReqVersion), AuthVerify) else Next(d, Ok)
    case ReqVersion => if c != 5 then Next(cx, BadVersion) else Next(cx.(state := ReqCmd), Ok)
    case ReqCmd =>
      if c == 1 then Next(cx.(cmd := TcpConnect, state := ReqReserved), Ok)
      else if c == 3 then Next(cx.(cmd := UdpAssoc, state := ReqReserved), Ok)
      else Next(cx, BadCmd)
    case ReqReserved => Next(cx.(state := ReqAtyp), Ok)
    case ReqAtyp =>
      var d := cx.(arg0 := 0);
      if c == 1 then Next(d.(state := ReqDaddr, atyp := Ipv4, arg1 := 4), Ok)
      else if c == 3 then Next(d.(state := ReqAtypHost, atyp := Host, arg1 := 0), Ok)
      else if c == 4 then Next(d.(state := ReqDaddr, atyp := Ipv6, arg1 := 16), Ok)
      else Next(d, BadAtyp)
    case ReqAtypHost => Next(cx.(arg1 := c, state := ReqDaddr), Ok)
    case ReqDaddr =>
      var n := Held(cx.arg0, cx.arg1);
      Next(cx.(daddr := Stored(cx.daddr, cx.arg0, cx.arg1, c), arg0 := n,
               state := if n == cx.arg1 then ReqDport0 else cx.state), Ok)
    case ReqDport0 => Next(cx.(dport := c * 256, state := ReqDport1), Ok)
    case ReqDport1 => Next(cx.(dport := cx.dport + c, state := Dead), ExecCmd)
    case Dead => Next(cx, Ok)
  }

  // A byte of a name, a password or an address
  lemma StoreValid(cx: Ctx, c: Byte)
    requires Valid(cx) && cx.state in {AuthPwUsername, AuthPwPassword, ReqDaddr}
    ensures Valid(Step(cx, c).cx)
  {
  }

  lemma StepValid(cx: Ctx, c: Byte)
    requires Valid(cx)
    ensures Valid(Step(cx, c).cx)
  {
    if cx.state in {AuthPwUsername, AuthPwPassword, ReqDaddr} {
      StoreValid(cx, c);
    }
  }

  // ---- runs ----

  // The parser stops at the first byte whose step reports something
  datatype Outcome = Outcome(cx: Ctx, err: Err, used: nat)

  ghost function Run(cx: Ctx, p: seq<Byte>): (o: Outcome)
    requires Valid(cx)
    ensures Valid(o.cx) && o.used <= |p| && (o.err == Ok ==> o.used == |p|)
    decreases |p|
  {
    if p == [] then Outcome(cx, Ok, 0) else
    StepValid(cx, p[0]);
    var n := Step(cx, p[0]);
    if n.err != Ok then Outcome(n.cx, n.err, 1) else
    var o := Run(n.cx, p[1..]);
    o.(used := o.used + 1)
  }

  // What comes after the first event is not looked at; without an event the next read goes on where this one ended
  lemma {:induction false} RunJoin(cx: Ctx, p: seq<Byte>, q: seq<Byte>)
    requires Valid(cx)
    ensures var o := Run(cx, p); Run(cx, p + q) == if o.err != Ok then o
            else Run(o.cx, q).(used := |p| + Run(o.cx, q).used)
    decreases |p|
  {
    if p == [] {
      assert p + q == q;
    } else {
      StepValid(cx, p[0]);
      var n := Step(cx, p[0]);
      assert (p + q)[1..] == p[1..] + q;
      if n.err == Ok {
        RunJoin(n.cx, p[1..], q);
      }
    }
  }

  // The same bytes in pieces, read one after the other up to the first event
  ghost function RunPieces(cx: Ctx, pieces: seq<seq<Byte>>): (o: Outcome)
    requires Valid(cx)
    ensures Valid(o.cx)
    decreases |pieces|
  {
    if pieces == [] then Outcome(cx, Ok, 0) else
    var o := Run(cx, pieces[0]);
    if o.err != Ok then o else
    var r := RunPieces(o.cx, pieces[1..]);
    r.(used := o.used + r.used)
  }

  ghost function Joined(pieces: seq<seq<Byte>>): seq<Byte> {
    if pieces == [] then [] else pieces[0] + Joined(pieces[1..])
  }

  // However the bytes are split, the event, the fields and the number of bytes used are the same
  lemma {:induction false} ChunksDoNotMatter(cx: Ctx, pieces: seq<seq<Byte>>)
    requires Valid(cx)
    ensures RunPieces(cx, pieces) == Run(cx, Joined(pieces))
    decreases |pieces|
  {
    if pieces != [] {
      RunJoin(cx, pieces[0], Joined(pieces[1..]));
      var o := Run(cx, pieces[0]);
      if o.err == Ok {
        ChunksDoNotMatter(o.cx, pieces[1..]);
      }
    }
  }

  // ---- fields of a given length ----

  // A field of `len` bytes, of which `at` are there, takes in `p`
  ghost function Put(s: seq<Byte>, at: nat, p: seq<Byte>): seq<Byte>
    requires at + |p| < |s|
  {
    s[..at] + p + [0] + s[at + |p| + 1..]
  }

  lemma PutFirst(s: seq<Byte>, at: nat, p: seq<Byte>)
    requires at + |p| < |s| && p != []
    ensures |p| == 1 ==> Put(s, at, p) == Stored(s, at, at + 1, p[0])
    ensures |p| > 1 ==> Put(s, at, p) == Put(Stored(s, at, at + |p|, p[0]), at + 1, p[1..])
  {
    var t := s[at := p[0]];
    assert t[..at + 1] == s[..at] + [p[0]];
    if |p| == 1 {
      assert Put(s, at, p) == t[at + 1 := 0];
    } else {
      assert p == [p[0]] + p[1..];
      assert t[at + |p| + 1..] == s[at + |p| + 1..];
      assert s[..at] + p == s[..at] + [p[0]] + p[1..];
    }
  }

  lemma PutHolds(s: seq<Byte>, p: seq<Byte>)
    requires |p| < |s|
    ensures |Put(s, 0, p)| == |s| && Put(s, 0, p)[..|p|] == p && Put(s, 0, p)[|p|] == 0
  {
  }

  lemma {:induction false} TakeDaddr(cx: Ctx, p: seq<Byte>)
    requires Valid(cx) && cx.state == ReqDaddr && p != [] && cx.arg0 + |p| == cx.arg1
    ensures Run(cx, p) == Outcome(cx.(daddr := Put(cx.daddr, cx.arg0, p), arg0 := cx.arg1, state := ReqDport0), Ok, |p|)
    decreases |p|
  {
    var d := cx.(daddr := Stored(cx.daddr, cx.arg0, cx.arg1, p[0]), arg0 := cx.arg0 + 1,
                  state := if |p| == 1 then ReqDport0 else cx.state);
    assert Step(cx, p[0]) == Next(d, Ok) && Valid(d);
    PutFirst(cx.daddr, cx.arg0, p);
    if |p| > 1 {
      TakeDaddr(d, p[1..]);
    }
  }

  lemma {:induction false} TakeUsername(cx: Ctx, p: seq<Byte>)
    requires Valid(cx) && cx.state == AuthPwUsername && p != [] && cx.arg0 + |p| == cx.userlen
    ensures Run(cx, p) ==
            Outcome(cx.(username := Put(cx.username, cx.arg0, p), arg0 := cx.userlen, state := AuthPwPasslen), Ok, |p|)
    decreases |p|
  {
    var d := cx.(username := Stored(cx.username, cx.arg0, cx.userlen, p[0]), arg0 := cx.arg0 + 1,
                  state := if |p| == 1 then AuthPwPasslen else cx.state);
    assert Step(cx, p[0]) == Next(d, Ok) && Valid(d);
    PutFirst(cx.username, cx.arg0, p);
    if |p| > 1 {
      TakeUsername(d, p[1..]);
    }
  }

  lemma {:induction false} TakePassword(cx: Ctx, p: seq<Byte>)
    requires Valid(cx) && cx.state == AuthPwPassword && p != [] && cx.arg0 + |p| == cx.passlen
    ensures Run(cx, p) ==
            Outcome(cx.(password := Put(cx.password, cx.arg0, p), arg0 := cx.passlen, state := ReqVersion),
                    AuthVerify, |p|)
    decreases |p|
  {
    var d := cx.(password := Stored(cx.password, cx.arg0, cx.passlen, p[0]), arg0 := cx.arg0 + 1,
                  state := if |p| == 1 then ReqVersion else cx.state);
    assert Step(cx, p[0]) == Next(d, if |p| == 1 then AuthVerify else Ok) && Valid(d);
    PutFirst(cx.password, cx.arg0, p);
    if |p| > 1 {
      TakePassword(d, p[1..]);
    }
  }

  ghost function MethodsOf(p: seq<Byte>): set<Method> {
    if p == [] then {} else MethodOf(p[0]) + MethodsOf(p[1..])
  }

  lemma MethodsStep(ms: set<Method>, p: seq<Byte>)
    requires p != []
    ensures ms + MethodsOf(p) == ms + MethodOf(p[0]) + MethodsOf(p[1..])
    ensures |p| == 1 ==> ms + MethodsOf(p) == ms + MethodOf(p[0])
  {
  }

  lemma {:induction false} TakeMethods(cx: Ctx, p: seq<Byte>)
    requires Valid(cx) && cx.state == Methods && p != [] && cx.arg0 + |p| == cx.arg1
    ensures Run(cx, p) == Outcome(cx.(methods := cx.methods + MethodsOf(p), arg0 := cx.arg1), AuthSelect, |p|)
    decreases |p|
  {
    var d := cx.(methods := cx.methods + MethodOf(p[0]), arg0 := cx.arg0 + 1);
    MethodsStep(cx.methods, p);
    assert Step(cx, p[0]) == Next(d, if |p| == 1 then AuthSelect else Ok);
    if |p| > 1 {
      TakeMethods(d, p[1..]);
    }
  }

  // ---- the messages of RFC 1928 and RFC 1929 ----

  datatype Request = Request(cmd: Cmd, atyp: Atyp, addr: seq<Byte>, port: nat)

  predicate WellFormed(r: Request) {
    && r.cmd != TcpBind && r.port < 0x1_0000
    && (r.atyp == Ipv4 ==> |r.addr| == 4) && (r.atyp == Ipv6 ==> |r.addr| == 16) && (r.atyp == Host ==> |r.addr| <= 255)
  }

  // Section 4 of RFC 1928
  function EncodeRequest(r: Request): seq<Byte>
    requires WellFormed(r)
  {
    [5, if r.cmd == TcpConnect then 1 else 3, 0]
    + (match r.atyp case Ipv4 => [1] case Host => [3, |r.addr|] case Ipv6 => [4])
    + r.addr + [r.port / 256, r.port % 256]
  }

  /** The parser holds the request `r`, and waits for nothing more. */
  ghost predicate Holds(cx: Ctx, r: Request)
    requires Valid(cx)
  {
    && cx.state == Dead && cx.cmd == r.cmd && cx.atyp == r.atyp && cx.dport == r.port
    && |r.addr| < CAPACITY && cx.daddr[..|r.addr|] == r.addr && cx.daddr[|r.addr|] == 0 && cx.arg1 == |r.addr|
  }

  // One byte, then the rest
  lemma RunByte(cx: Ctx, c: Byte, q: seq<Byte>)
    requires Valid(cx) && Step(cx, c).err == Ok
    ensures Valid(Step(cx, c).cx)
    ensures var o := Run(Step(cx, c).cx, q); Run(cx, [c] + q) == o.(used := 1 + o.used)
  {
    StepValid(cx, c);
    assert ([c] + q)[1..] == q && ([c] + q)[0] == c;
  }

  lemma RunLowPort(cx: Ctx, lo: Byte, q: seq<Byte>)
    requires Valid(cx) && cx.state == ReqDport1
    ensures Run(cx, [lo] + q) == Outcome(cx.(state := Dead, dport := cx.dport + lo), ExecCmd, 1)
  {
    assert ([lo] + q)[0] == lo;
  }

  lemma RunPort(cx: Ctx, hi: Byte, lo: Byte, q: seq<Byte>)
    requires Valid(cx) && cx.state == ReqDport0
    ensures Run(cx, [hi] + ([lo] + q)) == Outcome(cx.(state := Dead, dport := hi * 256 + lo), ExecCmd, 2)
  {
    RunByte(cx, hi, [lo] + q);
    RunLowPort(cx.(state := ReqDport1, dport := hi * 256), lo, q);
  }

  // From the address on
  lemma RunAddress(cx: Ctx, addr: seq<Byte>, hi: Byte, lo: Byte, q: seq<Byte>)
    requires Valid(cx) && cx.state == ReqDaddr && addr != [] && cx.arg0 == 0 && cx.arg1 == |addr|
    ensures var d := cx.(daddr := Put(cx.daddr, 0, addr), arg0 := |addr|, state := Dead, dport := hi * 256 + lo);
            Run(cx, addr + ([hi] + ([lo] + q))) == Outcome(d, ExecCmd, |addr| + 2)
  {
    TakeDaddr(cx, addr);
    RunJoin(cx, addr, [hi] + ([lo] + q));
    RunPort(cx.(daddr := Put(cx.daddr, 0, addr), arg0 := cx.arg1, state := ReqDport0), hi, lo, q);
  }

  // Up to the address: version, command, reserved byte, address type and, for a name, its length
  ghost function Front(r: Request): seq<Byte>
    requires WellFormed(r)
  {
    [5] + ([if r.cmd == TcpConnect then 1 else 3] + ([0] + TypeBytes(r)))
  }

  ghost function TypeBytes(r: Request): seq<Byte>
    requires WellFormed(r)
  {
    match r.atyp case Ipv4 => [1] case Host => [3] + [|r.addr|] case Ipv6 => [4]
  }

  lemma FrontParts(r: Request, q: seq<Byte>)
    requires WellFormed(r)
    ensures Front(r) + q == [5] + ([if r.cmd == TcpConnect then 1 else 3] + ([0] + (TypeBytes(r) + q)))
  {
  }

  ghost function Fronted(cx: Ctx, r: Request): Ctx {
    cx.(state := ReqDaddr, cmd := r.cmd, atyp := r.atyp, arg0 := 0, arg1 := |r.addr|)
  }

  lemma RunType(cx: Ctx, r: Request, q: seq<Byte>)
    requires Valid(cx) && cx.state == ReqAtyp && WellFormed(r)
    ensures var d := cx.(state := ReqDaddr, atyp := r.atyp, arg0 := 0, arg1 := |r.addr|);
            Valid(d) && Run(cx, TypeBytes(r) + q) ==
            Run(d, q).(used := (if r.atyp == Host then 2 else 1) + Run(d, q).used)
  {
    match r.atyp
    case Ipv4 => RunByte(cx, 1, q);
    case Ipv6 => RunByte(cx, 4, q);
    case Host =>
      var n: Byte := |r.addr|;
      assert [3] + [n] + q == [3] + ([n] + q);
      RunByte(cx, 3, [n] + q);
      RunByte(Step(cx, 3).cx, n, q);
  }

  lemma RunVersion(cx: Ctx, q: seq<Byte>)
    requires Valid(cx) && cx.state == ReqVersion
    ensures var d := cx.(state := ReqCmd); Valid(d) && Run(cx, [5] + q) == Run(d, q).(used := 1 + Run(d, q).used)
  {
    RunByte(cx, 5, q);
  }

  lemma RunCommand(cx: Ctx, cmd: Cmd, q: seq<Byte>)
    requires Valid(cx) && cx.state == ReqCmd && cmd != TcpBind
    ensures var d := cx.(state := ReqAtyp, cmd := cmd);
            Valid(d) && Run(cx, [if cmd == TcpConnect then 1 else 3] + ([0] + q)) ==
                Run(d, q).(used := 2 + Run(d, q).used)
  {
    var c: Byte := if cmd == TcpConnect then 1 else 3;
    RunByte(cx, c, [0] + q);
    var b := cx.(state := ReqReserved, cmd := cmd);
    assert Step(cx, c) == Next(b, Ok);
    RunByte(b, 0, q);
  }

  lemma RunFront(cx: Ctx, r: Request, q: seq<Byte>)
    requires Valid(cx) && cx.state == ReqVersion && WellFormed(r)
    ensures var d := Fronted(cx, r);
            Valid(d) && Run(cx, Front(r) + q) == Run(d, q).(used := |Front(r)| + Run(d, q).used)
  {
    FrontParts(r, q);
    RunVersion(cx, [if r.cmd == TcpConnect then 1 else 3] + ([0] + (TypeBytes(r) + q)));
    RunCommand(cx.(state := ReqCmd), r.cmd, TypeBytes(r) + q);
    RunType(cx.(state := ReqAtyp, cmd := r.cmd), r, q);
  }

  lemma EncodedParts(r: Request, q: seq<Byte>)
    requires WellFormed(r)
    ensures EncodeRequest(r) + q == Front(r) + (r.addr + ([r.port / 256] + ([r.port % 256] + q)))
    ensures |EncodeRequest(r)| == |Front(r)| + |r.addr| + 2
  {
  }

  // A request is parsed back to its fields, and not a byte behind it is used
  lemma RequestRoundTrip(cx: Ctx, r: Request, q: seq<Byte>)
    requires Valid(cx) && cx.state == ReqVersion && WellFormed(r) && r.addr != []
    ensures var o := Run(cx, EncodeRequest(r) + q); o.err == ExecCmd && Holds(o.cx, r) && o.used == |EncodeRequest(r)|
    ensures var o := Run(cx, EncodeRequest(r) + q);
            o.cx.methods == cx.methods && o.cx.username == cx.username && o.cx.password == cx.password
  {
    var hi: Byte, lo: Byte := r.port / 256, r.port % 256;
    EncodedParts(r, q);
    RunFront(cx, r, r.addr + ([hi] + ([lo] + q)));
    RunAddress(Fronted(cx, r), r.addr, hi, lo, q);
    PutHolds(cx.daddr, r.addr);
  }

  lemma RunNoAddress(cx: Ctx, hi: Byte, lo: Byte)
    requires Valid(cx) && cx.state == ReqDaddr && cx.arg0 == cx.arg1
    ensures Run(cx, [hi] + ([lo] + [])).err == Ok
  {
    RunByte(cx, hi, [lo] + []);
    RunByte(Step(cx, hi).cx, lo, []);
  }

  // A name of length 0 is not understood: one byte of the port goes for an address byte, so that the request
  // ends before the parser has seen all of its port
  lemma RequestIff(cx: Ctx, r: Request)
    requires Valid(cx) && cx.state == ReqVersion && WellFormed(r)
    ensures Run(cx, EncodeRequest(r)).err == ExecCmd <==> r.addr != []
  {
    assert EncodeRequest(r) + [] == EncodeRequest(r);
    if r.addr != [] {
      RequestRoundTrip(cx, r, []);
    } else {
      var hi: Byte, lo: Byte := r.port / 256, r.port % 256;
      EncodedParts(r, []);
      assert [] + ([hi] + ([lo] + [])) == [hi] + ([lo] + []);
      RunFront(cx, r, [hi] + ([lo] + []));
      RunNoAddress(Fronted(cx, r), hi, lo);
    }
  }

  // Section 3 of RFC 1928
  lemma GreetingRoundTrip(cx: Ctx, methods: seq<Byte>, q: seq<Byte>)
    requires Valid(cx) && cx.state == Version && 1 <= |methods| <= 255
    ensures var o := Run(cx, [5, |methods|] + methods + q);
            o.err == AuthSelect && o.cx.methods == cx.methods + MethodsOf(methods) && o.used == 2 + |methods|
  {
    var n: Byte := |methods|;
    assert [5, n] + methods + q == [5] + ([n] + (methods + q));
    RunByte(cx, 5, [n] + (methods + q));
    RunByte(Step(cx, 5).cx, n, methods + q);
    TakeMethods(Step(Step(cx, 5).cx, n).cx, methods);
    RunJoin(Step(Step(cx, 5).cx, n).cx, methods, q);
  }

  // Without methods the parser waits for one more byte
  lemma GreetingIff(cx: Ctx, methods: seq<Byte>)
    requires Valid(cx) && cx.state == Version && |methods| <= 255
    ensures Run(cx, [5, |methods|] + methods).err == AuthSelect <==> methods != []
  {
    if methods != [] {
      GreetingRoundTrip(cx, methods, []);
      assert [5, |methods|] + methods + [] == [5, |methods|] + methods;
    } else {
      assert [5, 0] + methods == [5] + ([0] + []);
      RunByte(cx, 5, [0] + []);
      RunByte(Step(cx, 5).cx, 0, []);
    }
  }

  lemma RunUser(cx: Ctx, user: seq<Byte>, q: seq<Byte>)
    requires Valid(cx) && cx.state == AuthPwVersion && 1 <= |user| <= 255
    ensures var d := cx.(username := Put(cx.username, 0, user), userlen := |user|, arg0 := |user|,
                         state := AuthPwPasslen);
            Valid(d) && Run(cx, [1] + ([|user|] + (user + q))) == Run(d, q).(used := 2 + |user| + Run(d, q).used)
  {
    var m: Byte := |user|;
    RunByte(cx, 1, [m] + (user + q));
    var a := Step(cx, 1).cx;
    RunByte(a, m, user + q);
    TakeUsername(Step(a, m).cx, user);
    RunJoin(Step(a, m).cx, user, q);
  }

  lemma RunPass(cx: Ctx, pass: seq<Byte>, q: seq<Byte>)
    requires Valid(cx) && cx.state == AuthPwPasslen && 1 <= |pass| <= 255
    ensures Run(cx, [|pass|] + (pass + q)) ==
            Outcome(cx.(password := Put(cx.password, 0, pass), passlen := |pass|, arg0 := |pass|, state := ReqVersion),
                    AuthVerify, 1 + |pass|)
  {
    var n: Byte := |pass|;
    RunByte(cx, n, pass + q);
    TakePassword(Step(cx, n).cx, pass);
    RunJoin(Step(cx, n).cx, pass, q);
  }

  // Section 2 of RFC 1929
  function EncodePassword(user: seq<Byte>, pass: seq<Byte>): seq<Byte>
    requires |user| <= 255 && |pass| <= 255
  {
    [1, |user|] + user + [|pass|] + pass
  }

  lemma PasswordParts(user: seq<Byte>, pass: seq<Byte>, q: seq<Byte>)
    requires |user| <= 255 && |pass| <= 255
    ensures EncodePassword(user, pass) + q == [1] + ([|user|] + (user + ([|pass|] + (pass + q))))
    ensures |EncodePassword(user, pass)| == 3 + |user| + |pass|
  {
  }

  /** The parser holds the user name and the password, and waits for a request. */
  ghost predicate Knows(cx: Ctx, user: seq<Byte>, pass: seq<Byte>)
    requires Valid(cx) && |user| <= 255 && |pass| <= 255
  {
    && cx.state == ReqVersion && cx.userlen == |user| && cx.passlen == |pass|
    && cx.username[..|user|] == user && cx.username[|user|] == 0
    && cx.password[..|pass|] == pass && cx.password[|pass|] == 0
  }

  lemma PasswordRoundTrip(cx: Ctx, user: seq<Byte>, pass: seq<Byte>, q: seq<Byte>)
    requires Valid(cx) && cx.state == AuthPwVersion && 1 <= |user| <= 255 && 1 <= |pass| <= 255
    ensures var o := Run(cx, EncodePassword(user, pass) + q);
            o.err == AuthVerify && o.used == |EncodePassword(user, pass)| && Knows(o.cx, user, pass)
  {
    var n: Byte := |pass|;
    PasswordParts(user, pass, q);
    RunUser(cx, user, [n] + (pass + q));
    RunPass(cx.(username := Put(cx.username, 0, user), userlen := |user|, arg0 := |user|, state := AuthPwPasslen),
        pass, q);
    PutHolds(cx.username, user);
    PutHolds(cx.password, pass);
  }

  lemma {:induction false} RunShort(cx: Ctx, q: seq<Byte>)
    requires Valid(cx) && cx.state == AuthPwPassword
    ensures var o := Run(cx, q);
            (o.err == Ok || o.err == AuthVerify) && o.cx.passlen == cx.passlen
            && (cx.arg0 + |q| < cx.passlen ==> o.err == Ok)
    decreases |q|
  {
    if q != [] {
      StepValid(cx, q[0]);
      if Step(cx, q[0]).err == Ok {
        RunShort(Step(cx, q[0]).cx, q[1..]);
      }
    }
  }

  // The first byte of the password taken for its length: the rest is not long enough
  lemma PassAsLength(cx: Ctx, pass: seq<Byte>)
    requires Valid(cx) && cx.state == AuthPwPasslen
    ensures var o := Run(cx, pass); o.err == Ok || (o.err == AuthVerify && o.cx.passlen != |pass|)
  {
    if pass != [] {
      StepValid(cx, pass[0]);
      RunShort(Step(cx, pass[0]).cx, pass[1..]);
    }
  }

  // After an empty user name the length of the password is taken for a byte of the name
  lemma NoName(cx: Ctx, n: Byte, q: seq<Byte>)
    requires Valid(cx) && cx.state == AuthPwUserlen
    ensures var d := cx.(arg0 := 0, userlen := 0, username := cx.username[0 := 0], state := AuthPwPasslen);
            Valid(d) && Run(cx, [0] + ([n] + q)) == Run(d, q).(used := 2 + Run(d, q).used)
  {
    RunByte(cx, 0, [n] + q);
    RunByte(cx.(arg0 := 0, userlen := 0, state := AuthPwUsername), n, q);
  }

  lemma NoUser(cx: Ctx, pass: seq<Byte>)
    requires Valid(cx) && cx.state == AuthPwVersion && |pass| <= 255
    ensures var o := Run(cx, [1] + ([0] + ([|pass|] + pass)));
            o.err == Ok || (o.err == AuthVerify && o.cx.passlen != |pass|)
  {
    var n: Byte := |pass|;
    var a := cx.(state := AuthPwUserlen);
    RunByte(cx, 1, [0] + ([n] + pass));
    NoName(a, n, pass);
    PassAsLength(a.(arg0 := 0, userlen := 0, username := cx.username[0 := 0], state := AuthPwPasslen), pass);
  }

  lemma NoPass(cx: Ctx, user: seq<Byte>)
    requires Valid(cx) && cx.state == AuthPwVersion && 1 <= |user| <= 255
    ensures Run(cx, [1] + ([|user|] + (user + ([0] + ([] + []))))).err == Ok
  {
    RunUser(cx, user, [0] + ([] + []));
    RunByte(cx.(username := Put(cx.username, 0, user), userlen := |user|, arg0 := |user|, state := AuthPwPasslen),
            0, [] + []);
  }

  // User name and password are understood if and only if neither is empty
  lemma PasswordIff(cx: Ctx, user: seq<Byte>, pass: seq<Byte>)
    requires Valid(cx) && cx.state == AuthPwVersion && |user| <= 255 && |pass| <= 255
    ensures var o := Run(cx, EncodePassword(user, pass));
            o.err == AuthVerify && Knows(o.cx, user, pass) <==> user != [] && pass != []
  {
    PasswordParts(user, pass, []);
    assert EncodePassword(user, pass) + [] == EncodePassword(user, pass);
    if user == [] {
      assert user + ([|pass|] + (pass + [])) == [|pass|] + pass;
      NoUser(cx, pass);
    } else if pass == [] {
      NoPass(cx, user);
    } else {
      PasswordRoundTrip(cx, user, pass, []);
    }
  }

  class Parser {
    var state: State
    var arg0: nat
    var arg1: nat
    var methods: set<Method>
    var cmd: Cmd
    var atyp: Atyp
    var userlen: nat
    var passlen: nat
    var dport: nat
    const username: array<Byte>
    const password: array<Byte>
    const daddr: array<Byte>

    ghost function Value(): Ctx
      reads this, username, password, daddr
    {
      Ctx(state, arg0, arg1, methods, cmd, atyp, userlen, passlen, dport, username[..], password[..], daddr[..])
    }

    ghost predicate Sound()
      reads this, username, password, daddr
    {
      username != password && username != daddr && password != daddr && Valid(Value())
    }

    // s5_init
    constructor ()
      ensures Sound() && state == Version && methods == {} && fresh(username) && fresh(password) && fresh(daddr)
    {
      state, arg0, arg1, methods, cmd, atyp, userlen, passlen, dport := Version, 0, 0, {}, TcpConnect, Ipv4, 0, 0, 0;
      username := new Byte[CAPACITY](i => 0);
      password := new Byte[CAPACITY](i => 0);
      daddr := new Byte[CAPACITY](i => 0);
    }

    // A byte for one of the three buffers
    method Store(a: array<Byte>, at: nat, len: nat, c: Byte) returns (n: nat)
      requires at <= len < a.Length
      modifies a
      ensures a[..] == Stored(old(a[..]), at, len, c) && n == Held(at, len)
    {
      n := at;
      if at < len {
        a[at] := c;
        n := at + 1;
      }
      if n == len {
        a[len] := 0;
      }
    }

    // The switch over the state, in four parts: the greeting
    method TakeGreeting(c: Byte) returns (err: Err)
      requires Sound() && state in {Version, Nmethods, Methods}
      modifies this, username, password, daddr
      ensures Next(Value(), err) == old(Step(Value(), c))
    {
      err := Ok;
      match state
      case Version =>
        if c != 5 {
          return BadVersion;
        }
        state := Nmethods;
      case Nmethods =>
        arg0 := 0;
        arg1 := c;
        state := Methods;
      case Methods =>
        if arg0 < arg1 {
          methods := methods + MethodOf(c);
          arg0 := arg0 + 1;
        }
        if arg0 == arg1 {
          return AuthSelect;
        }
    }

    // User name and password
    method TakePassword(c: Byte) returns (err: Err)
      requires Sound() && state in {AuthPwVersion, AuthPwUserlen, AuthPwUsername, AuthPwPasslen, AuthPwPassword}
      modifies this, username, password, daddr
      ensures Next(Value(), err) == old(Step(Value(), c))
    {
      err := Ok;
      match state
      case AuthPwVersion =>
        if c != 1 {
          return BadVersion;
        }
        state := AuthPwUserlen;
      case AuthPwUserlen =>
        arg0 := 0;
        userlen := c;
        state := AuthPwUsername;
      case AuthPwUsername =>
        arg0 := Store(username, arg0, userlen, c);
        if arg0 == userlen {
          state := AuthPwPasslen;
        }
      case AuthPwPasslen =>
        arg0 := 0;
        passlen := c;
        state := AuthPwPassword;
      case AuthPwPassword =>
        arg0 := Store(password, arg0, passlen, c);
        if arg0 == passlen {
          state := ReqVersion;
          return AuthVerify;
        }
    }

    // The front of a request
    method TakeCommand(c: Byte) returns (err: Err)
      requires Sound() && state in {ReqVersion, ReqCmd, ReqReserved}
      modifies this, username, password, daddr
      ensures Next(Value(), err) == old(Step(Value(), c))
    {
      err := Ok;
      match state
      case ReqVersion =>
        if c != 5 {
          return BadVersion;
        }
        state := ReqCmd;
      case ReqCmd =>
        if c == 1 {
          cmd := TcpConnect;
        } else if c == 3 {
          cmd := UdpAssoc;
        } else {
          return BadCmd;
        }
        state := ReqReserved;
      case ReqReserved =>
        state := ReqAtyp;
    }

    // Address and port
    method TakeAddress(c: Byte) returns (err: Err)
      requires Sound() && state in {ReqAtyp, ReqAtypHost, ReqDaddr, ReqDport0, ReqDport1, Dead}
      modifies this, username, password, daddr
      ensures Next(Value(), err) == old(Step(Value(), c))
    {
      err := Ok;
      match state
      case ReqAtyp =>
        arg0 := 0;
        if c == 1 {
          state, atyp, arg1 := ReqDaddr, Ipv4, 4;
        } else if c == 3 {
          state, atyp, arg1 := ReqAtypHost, Host, 0;
        } else if c == 4 {
          state, atyp, arg1 := ReqDaddr, Ipv6, 16;
        } else {
          return BadAtyp;
        }
      case ReqAtypHost =>
        arg1 := c;
        state := ReqDaddr;
      case ReqDaddr =>
        arg0 := Store(daddr, arg0, arg1, c);
        if arg0 == arg1 {
          state := ReqDport0;
        }
      case ReqDport0 =>
        dport := c * 256;
        state := ReqDport1;
      case ReqDport1 =>
        dport := dport + c;
        state := Dead;
        return ExecCmd;
      case Dead =>
    }

    method Take(c: Byte) returns (err: Err)
      requires Sound()
      modifies this, username, password, daddr
      ensures Sound() && Next(Value(), err) == old(Step(Value(), c))
    {
      StepValid(Value(), c);
      match state
      case Version | Nmethods | Methods =>
        err := TakeGreeting(c);
      case AuthPwVersion | AuthPwUserlen | AuthPwUsername | AuthPwPasslen | AuthPwPassword =>
        err := TakePassword(c);
      case ReqVersion | ReqCmd | ReqReserved =>
        err := TakeCommand(c);
      case _ =>
        err := TakeAddress(c);
    }

    // s5_parse: the `n` bytes of `p` from `at` on
    method Parse(p: array<Byte>, at: nat, n: nat) returns (err: Err, next: nat, left: nat)
      requires Sound() && at + n <= p.Length && p !in {username, password, daddr}
      modifies this, username, password, daddr
      ensures Sound() && next + left == at + n && next >= at
      ensures Outcome(Value(), err, next - at) == old(Run(Value(), p[at..at + n]))
    {
      ghost var all, was := p[at..at + n], Value();
      var i := 0;
      err := Ok;
      ReachedStart(was, all);
      while i < n
        invariant 0 <= i <= n && Sound() && p[at..at + n] == all && Reached(was, all, i, Value())
      {
        var c := p[at + i];
        assert c == all[i];
        ReachedNext(was, all, i, Value());
        err := Take(c);
        i := i + 1;
        if err != Ok {
          return err, at + i, n - i;
        }
      }
      ReachedEnd(was, all, Value());
      return Ok, at + i, n - i;
    }

    // s5_select_auth: false for a method the parser does not go on with
    method SelectAuth(m: Method) returns (ok: bool)
      requires Sound()
      modifies this`state
      ensures Sound() && ok == (m != Gssapi)
      ensures Value() == old(Value()).(state :=
              match m case NoAuth => ReqVersion case Passwd => AuthPwVersion case Gssapi => old(state))
    {
      match m
      case NoAuth =>
        state := ReqVersion;
        return true;
      case Passwd =>
        state := AuthPwVersion;
        return true;
      case Gssapi => return false;
    }
  }

  lemma RunOne(cx: Ctx, c: Byte)
    requires Valid(cx)
    ensures Run(cx, [c]) == Outcome(Step(cx, c).cx, Step(cx, c).err, 1)
  {
    StepValid(cx, c);
    assert [c][1..] == [];
  }

  lemma RunSnoc(cx: Ctx, a: seq<Byte>, c: Byte)
    requires Valid(cx) && Run(cx, a).err == Ok
    ensures Run(cx, a + [c]) == Outcome(Step(Run(cx, a).cx, c).cx, Step(Run(cx, a).cx, c).err, |a| + 1)
  {
    RunJoin(cx, a, [c]);
    RunOne(Run(cx, a).cx, c);
  }

  lemma Around(p: seq<Byte>, i: nat)
    requires i < |p|
    ensures p[..i] + [p[i]] == p[..i + 1] && p[..i + 1] + p[i + 1..] == p
  {
  }

  // The first `i` bytes of `p` have brought the parser from `was` to `cx` and reported nothing
  ghost predicate Reached(was: Ctx, p: seq<Byte>, i: nat, cx: Ctx) {
    Valid(was) && i <= |p| && Run(was, p[..i]) == Outcome(cx, Ok, i)
  }

  lemma ReachedStart(was: Ctx, p: seq<Byte>)
    requires Valid(was)
    ensures Reached(was, p, 0, was)
  {
    assert p[..0] == [];
  }

  // One byte more
  lemma ReachedNext(was: Ctx, p: seq<Byte>, i: nat, cx: Ctx)
    requires Reached(was, p, i, cx) && i < |p|
    ensures Valid(cx)
    ensures var n := Step(cx, p[i]);
            if n.err == Ok then Reached(was, p, i + 1, n.cx) else Run(was, p) == Outcome(n.cx, n.err, i + 1)
  {
    Around(p, i);
    RunSnoc(was, p[..i], p[i]);
    RunJoin(was, p[..i + 1], p[i + 1..]);
  }

  lemma ReachedEnd(was: Ctx, p: seq<Byte>, cx: Ctx)
    requires Reached(was, p, |p|, cx)
    ensures Run(was, p) == Outcome(cx, Ok, |p|)
  {
    assert p[..|p|] == p;
  }
}
