// Dotted-quad text: printing and parsing of IPv4 addresses.
module Inet4 {
  import opened Basics

  datatype Error = Ok | Einval | Enospc

  const NUL: char := '\0'

  // ---- text of one octet and of an address ----

  function Digit(d: int): (c: char)
    requires 0 <= d < 10
    ensures DigitValue(c) == d && c !in {NUL, '.', ':'}
  {
    ('0' as int + d) as char
  }

  // The position of `c` in "0123456789", or -1
  function DigitValue(c: char): (d: int)
    ensures -1 <= d < 10
    ensures d == -1 <==> !('0' <= c <= '9')
  {
    if '0' <= c <= '9' then c as int - '0' as int else -1
  }

  lemma DigitOf(c: char)
    requires DigitValue(c) != -1
    ensures Digit(DigitValue(c)) == c
  {
  }

  function Dec(b: Byte): (s: string)
    ensures 1 <= |s| <= 3
  {
    if b < 10 then [Digit(b)]
    else if b < 100 then [Digit(b / 10), Digit(b % 10)]
    else [Digit(b / 100), Digit(b / 10 % 10), Digit(b % 10)]
  }

  function Dotted(b: seq<Byte>): (s: string)
    requires |b| == 4
    ensures 7 <= |s| <= 15
  {
    Dec(b[0]) + "." + Dec(b[1]) + "." + Dec(b[2]) + "." + Dec(b[3])
  }

  // ---- the parser, as a function of what is left to read ----

  // `done`: finished octets; `saw`: a digit of the current octet was read; `cur`: its value so far
  ghost function Parse4(done: seq<Byte>, saw: bool, cur: Byte, s: string): Option<seq<Byte>>
    requires |done| <= 3
    decreases |s|
  {
    if s == [] || s[0] == NUL then
      if |done| == 3 && saw then Some(done + [cur]) else None
    else
      var d := DigitValue(s[0]);
      if d != -1 then
        if (saw && cur == 0) || cur * 10 + d > 255 then None else Parse4(done, true, cur * 10 + d, s[1..])
      else if s[0] == '.' && saw && |done| < 3 then
        Parse4(done + [cur], false, 0, s[1..])
      else None
  }

  lemma ReadDigit(done: seq<Byte>, saw: bool, cur: Byte, d: int, rest: string)
    requires |done| <= 3 && 0 <= d < 10 && (saw ==> cur != 0) && cur * 10 + d < 256
    ensures Parse4(done, saw, cur, [Digit(d)] + rest) == Parse4(done, true, cur * 10 + d, rest)
  {
    assert ([Digit(d)] + rest)[1..] == rest;
  }

  lemma ReadDot(done: seq<Byte>, cur: Byte, rest: string)
    requires |done| <= 2
    ensures Parse4(done, true, cur, "." + rest) == Parse4(done + [cur], false, 0, rest)
  {
    assert ("." + rest)[1..] == rest;
  }

  lemma ReadTwo(done: seq<Byte>, t: int, o: int, rest: string)
    requires |done| <= 3 && 1 <= t < 10 && 0 <= o < 10
    ensures Parse4(done, false, 0, [Digit(t), Digit(o)] + rest) == Parse4(done, true, t * 10 + o, rest)
  {
    ReadDigit(done, false, 0, t, [Digit(o)] + rest);
    ReadDigit(done, true, t, o, rest);
    assert [Digit(t), Digit(o)] + rest == [Digit(t)] + ([Digit(o)] + rest);
  }

  lemma ReadThree(done: seq<Byte>, h: int, t: int, o: int, rest: string)
    requires |done| <= 3 && 1 <= h < 10 && 0 <= t < 10 && 0 <= o < 10 && h * 100 + t * 10 + o < 256
    ensures Parse4(done, false, 0, [Digit(h), Digit(t), Digit(o)] + rest) ==
            Parse4(done, true, h * 100 + t * 10 + o, rest)
  {
    ReadTwo(done, h, t, [Digit(o)] + rest);
    ReadDigit(done, true, h * 10 + t, o, rest);
    assert [Digit(h), Digit(t), Digit(o)] + rest == [Digit(h), Digit(t)] + ([Digit(o)] + rest);
  }

  lemma ReadDec(done: seq<Byte>, b: Byte, rest: string)
    requires |done| <= 3
    ensures Parse4(done, false, 0, Dec(b) + rest) == Parse4(done, true, b, rest)
  {
    var h, t, o := b / 100, b / 10 % 10, b % 10;
    assert b == h * 100 + t * 10 + o;
    if b < 10 {
      ReadDigit(done, false, 0, b, rest);
    } else if b < 100 {
      assert Dec(b) == [Digit(t), Digit(o)];
      ReadTwo(done, t, o, rest);
    } else {
      assert Dec(b) == [Digit(h), Digit(t), Digit(o)];
      ReadThree(done, h, t, o, rest);
    }
  }

  lemma ReadLast(done: seq<Byte>, b: Byte)
    requires |done| == 3
    ensures Parse4(done, false, 0, Dec(b)) == Some(done + [b])
  {
    ReadDec(done, b, "");
    assert Dec(b) + "" == Dec(b);
  }

  lemma ReadOctet(done: seq<Byte>, b: Byte, rest: string)
    requires |done| <= 2
    ensures Parse4(done, false, 0, Dec(b) + ("." + rest)) == Parse4(done + [b], false, 0, rest)
  {
    ReadDec(done, b, "." + rest);
    ReadDot(done, b, rest);
  }

  lemma DottedParts(a: string, b: string, c: string, d: string)
    ensures a + "." + b + "." + c + "." + d == a + ("." + (b + ("." + (c + ("." + d)))))
  {
  }

  // The parser reads back what the printer wrote
  lemma RoundTrip4(b: seq<Byte>)
    requires |b| == 4
    ensures Parse4([], false, 0, Dotted(b)) == Some(b)
  {
    var t3 := Dec(b[3]);
    var t2 := Dec(b[2]) + ("." + t3);
    var t1 := Dec(b[1]) + ("." + t2);
    DottedParts(Dec(b[0]), Dec(b[1]), Dec(b[2]), t3);
    ReadOctet([], b[0], t1);
    ReadOctet([b[0]], b[1], t2);
    assert [b[0]] + [b[1]] == b[..2];
    ReadOctet(b[..2], b[2], t3);
    assert b[..2] + [b[2]] == b[..3];
    ReadLast(b[..3], b[3]);
    assert [] + [b[0]] == [b[0]] && b[..3] + [b[3]] == b;
  }

  // ---- what was read when the parser is in a given state ----

  ghost function ReadOctets(done: seq<Byte>): string {
    if done == [] then "" else ReadOctets(done[..|done| - 1]) + Dec(done[|done| - 1]) + "."
  }

  ghost function Read(done: seq<Byte>, saw: bool, cur: Byte): string {
    ReadOctets(done) + if saw then Dec(cur) else ""
  }

  lemma DecGrows(cur: Byte, d: int)
    requires 0 <= d < 10 && 0 < cur && cur * 10 + d < 256
    ensures Dec(cur * 10 + d) == Dec(cur) + [Digit(d)]
  {
  }

  lemma ReadFour(done: seq<Byte>, cur: Byte)
    requires |done| == 3
    ensures Read(done, true, cur) == Dotted(done + [cur])
  {
    assert done[..2][..1][..0] == [];
    assert done[..2][..1] == [done[0]];
    assert ReadOctets([done[0]]) == Dec(done[0]) + ".";
    assert ReadOctets(done[..2]) == ReadOctets([done[0]]) + Dec(done[1]) + ".";
    assert ReadOctets(done) == ReadOctets(done[..2]) + Dec(done[2]) + ".";
  }

  lemma ReadDigitText(done: seq<Byte>, saw: bool, cur: Byte, c: char)
    requires (!saw ==> cur == 0) && !(saw && cur == 0) && DigitValue(c) != -1 && cur * 10 + DigitValue(c) < 256
    ensures Read(done, true, cur * 10 + DigitValue(c)) == Read(done, saw, cur) + [c]
  {
    DigitOf(c);
    if saw {
      DecGrows(cur, DigitValue(c));
    }
  }

  lemma ReadDotText(done: seq<Byte>, cur: Byte)
    ensures Read(done + [cur], false, 0) == Read(done, true, cur) + "."
  {
    assert (done + [cur])[..|done|] == done;
  }

  lemma Regroup(a: string, s: string)
    requires s != []
    ensures (a + [s[0]]) + s[1..] == a + s
  {
  }

  // Anything the parser accepts is what the printer writes for the result
  lemma {:induction false} OnlyDotted(done: seq<Byte>, saw: bool, cur: Byte, s: string)
    requires |done| <= 3 && (!saw ==> cur == 0) && NUL !in s
    requires Parse4(done, saw, cur, s).Some?
    ensures var b := Parse4(done, saw, cur, s).value; |b| == 4 && Read(done, saw, cur) + s == Dotted(b)
    decreases |s|
  {
    if s == [] {
      ReadFour(done, cur);
      assert Read(done, saw, cur) + s == Read(done, saw, cur);
    } else {
      assert s[0] in s;
      var d := DigitValue(s[0]);
      if d != -1 {
        OnlyDotted(done, true, cur * 10 + d, s[1..]);
        ReadDigitText(done, saw, cur, s[0]);
      } else {
        OnlyDotted(done + [cur], false, 0, s[1..]);
        ReadDotText(done, cur);
      }
      Regroup(Read(done, saw, cur), s);
    }
  }

  // Accepted are exactly the printed addresses
  lemma Accepts4(s: string)
    requires NUL !in s
    ensures Parse4([], false, 0, s).Some? <==> exists b: seq<Byte> :: |b| == 4 && s == Dotted(b)
    ensures forall b: seq<Byte> :: |b| == 4 && s == Dotted(b) ==> Parse4([], false, 0, s) == Some(b)
  {
    if Parse4([], false, 0, s).Some? {
      OnlyDotted([], false, 0, s);
      assert Read([], false, 0) + s == s;
    }
    forall b: seq<Byte> | |b| == 4 && s == Dotted(b)
      ensures Parse4([], false, 0, s) == Some(b)
    {
      RoundTrip4(b);
    }
  }

  // ---- the code ----

  // Writes the text at `dst[off..]`, which has room for `size` characters
  method InetNtop4(src: seq<Byte>, dst: array<char>, off: nat, size: nat) returns (err: Error)
    requires |src| == 4 && off + size <= dst.Length
    modifies dst
    ensures err == (if |Dotted(src)| >= size then Enospc else Ok)
    ensures err == Ok ==>
            dst[off..off + |Dotted(src)|] == Dotted(src) &&
            forall k :: off + |Dotted(src)| <= k < off + size ==> dst[k] == NUL
    ensures forall k :: 0 <= k < dst.Length && (err != Ok || k < off || off + size <= k) ==> dst[k] == old(dst[k])
  {
    var tmp := Dotted(src);  // snprintf; the text and its terminator fit the sixteen bytes of `tmp`
    var l := |tmp|;
    if l <= 0 || l >= size {
      return Enospc;
    }
    // strncpy pads with zeros
    var i := 0;
    while i < size
      invariant 0 <= i <= size
      invariant forall k :: off <= k < off + i ==> dst[k] == (if k - off < l then tmp[k - off] else NUL)
      invariant forall k :: 0 <= k < dst.Length && (k < off || off + i <= k) ==> dst[k] == old(dst[k])
    {
      dst[off + i] := if i < l then tmp[i] else NUL;
      i := i + 1;
    }
    dst[off + size - 1] := NUL;
    return Ok;
  }

  // The loop of inet_pton4, filling its local buffer
  method ScanQuad(src: string, from: nat, tmp: array<Byte>) returns (err: Error)
    requires from <= |src| && tmp.Length == 4
    modifies tmp
    ensures err == (if Parse4([], false, 0, src[from..]).Some? then Ok else Einval)
    ensures err == Ok ==> tmp[..] == Parse4([], false, 0, src[from..]).value
  {
    ghost var want := Parse4([], false, 0, src[from..]);
    ghost var done: seq<Byte> := [];
    var saw, octets, tp, i := false, 0, 0, from;
    tmp[0] := 0;
    while i < |src| && src[i] != NUL
      invariant from <= i <= |src| && 0 <= tp <= 3 && octets == tp + (if saw then 1 else 0)
      invariant !saw ==> tmp[tp] == 0
      invariant done == tmp[..tp]
      invariant Parse4(done, saw, tmp[tp], src[i..]) == want
    {
      var ch := src[i];
      ghost var rest := src[i..];
      i := i + 1;
      assert rest[1..] == src[i..] && rest[0] == ch;
      var d := DigitValue(ch);
      if d != -1 {
        var nw := tmp[tp] * 10 + d;
        if saw && tmp[tp] == 0 {
          return Einval;
        }
        if nw > 255 {
          return Einval;
        }
        tmp[tp] := nw;
        if !saw {
          octets := octets + 1;
          if octets > 4 {
            return Einval;
          }
          saw := true;
        }
      } else if ch == '.' && saw {
        if octets == 4 {
          return Einval;
        }
        done := done + [tmp[tp]];
        tp := tp + 1;
        tmp[tp] := 0;
        saw := false;
      } else {
        return Einval;
      }
    }
    if octets < 4 {
      return Einval;
    }
    assert tmp[..] == done + [tmp[3]];
    return Ok;
  }

  // The accepted texts without a terminator are the dotted quads
  lemma QuadText(s: string)
    requires NUL !in s
    ensures Parse4([], false, 0, s).Some? ==>
            |Parse4([], false, 0, s).value| == 4 && s == Dotted(Parse4([], false, 0, s).value)
    ensures Parse4([], false, 0, s).None? ==> forall b: seq<Byte> :: |b| == 4 ==> s != Dotted(b)
  {
    Accepts4(s);
    if Parse4([], false, 0, s).Some? {
      OnlyDotted([], false, 0, s);
      assert Read([], false, 0) + s == s;
    }
  }

  // Reads the text src[from..] up to its end, and writes four bytes at `dst[at]` if all of it is a dotted quad
  method InetPton4(src: string, from: nat, dst: array<Byte>, at: nat) returns (err: Error)
    requires from <= |src| && at + 4 <= dst.Length
    modifies dst
    ensures err == (if Parse4([], false, 0, src[from..]).Some? then Ok else Einval)
    ensures err == Ok ==> dst[at..at + 4] == Parse4([], false, 0, src[from..]).value
    ensures err == Ok && NUL !in src ==> src[from..] == Dotted(dst[at..at + 4])
    ensures err != Ok && NUL !in src ==> forall b: seq<Byte> :: |b| == 4 ==> src[from..] != Dotted(b)
    ensures forall k :: 0 <= k < dst.Length && (err != Ok || k < at || at + 4 <= k) ==> dst[k] == old(dst[k])
  {
    ghost var s := src[from..];
    if NUL !in src {
      QuadText(s);
    }
    var tmp := new Byte[4];
    err := ScanQuad(src, from, tmp);
    if err == Ok {
      forall k | 0 <= k < 4 {
        dst[at + k] := tmp[k];
      }
      assert dst[at..at + 4] == tmp[..];
    }
  }
}
