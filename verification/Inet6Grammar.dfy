// Which texts are IPv6 addresses: the three forms of section 2.2 of RFC 4291, as a grammar,
// and the proof that the parser accepts these and no others.
module Inet6Grammar {
  import opened Basics
  import opened Inet4
  import opened Inet6

  // ---- the grammar ----

  ghost predicate AllHex(g: string) {
    forall i :: 0 <= i < |g| ==> HexValue(g[i]) != -1
  }

  ghost function Number(g: string): nat
    requires AllHex(g)
  {
    if g == [] then 0 else Number(g[..|g| - 1]) * 16 + HexValue(g[|g| - 1])
  }

  // One to four hexadecimal digits of either case, or a dotted quad
  datatype Piece = Group(digits: string) | Quad(octets: seq<Byte>) {
    ghost predicate Valid() {
      match this
      case Group(g) => 1 <= |g| <= 4 && AllHex(g)
      case Quad(b) => |b| == 4
    }

    ghost function Text(): string
      requires Valid()
    {
      match this
      case Group(g) => g
      case Quad(b) => Dotted(b)
    }

    ghost function Value(): seq<Byte>
      requires Valid()
    {
      match this
      case Group(g) => [Number(g) / 0x100 % 0x100, Number(g) % 0x100]
      case Quad(b) => b
    }
  }

  // Only the last piece may be a dotted quad
  ghost predicate Row(ps: seq<Piece>) {
    forall i :: 0 <= i < |ps| ==> ps[i].Valid() && (ps[i].Quad? ==> i == |ps| - 1)
  }

  ghost predicate AllGroups(ps: seq<Piece>) {
    forall i :: 0 <= i < |ps| ==> ps[i].Group? && ps[i].Valid()
  }

  ghost function Text(ps: seq<Piece>): string
    requires Row(ps)
  {
    if ps == [] then "" else if |ps| == 1 then ps[0].Text() else ps[0].Text() + ":" + Text(ps[1..])
  }

  ghost function Value(ps: seq<Piece>): seq<Byte>
    requires Row(ps)
  {
    if ps == [] then [] else ps[0].Value() + Value(ps[1..])
  }

  // Form 1, and form 3 without "::": sixteen bytes, written out
  ghost predicate Full(s: string, b: seq<Byte>, ps: seq<Piece>) {
    Row(ps) && s == Text(ps) && |b| == 16 && b == Value(ps)
  }

  // Form 2, and form 3 with "::": "::" stands for the missing bytes, at least two, which are zero
  ghost predicate Compressed(s: string, b: seq<Byte>, l: seq<Piece>, r: seq<Piece>) {
    && AllGroups(l) && Row(r) && s == Text(l) + "::" + Text(r)
    && |Value(l)| + |Value(r)| <= 14 && b == Value(l) + Zeros(16 - |Value(l)| - |Value(r)|) + Value(r)
  }

  ghost predicate Address(s: string, b: seq<Byte>) {
    (exists ps :: Full(s, b, ps)) || (exists l, r :: Compressed(s, b, l, r))
  }

  // ---- pieces ----

  lemma FirstHex(ps: seq<Piece>)
    requires Row(ps) && ps != []
    ensures Text(ps) != [] && HexValue(Text(ps)[0]) != -1
  {
    match ps[0]
    case Group(g) =>
      assert ps[0].Text()[0] == g[0];
    case Quad(b) =>
      DecDigits(b[0]);
      assert ps[0].Text()[0] == Dec(b[0])[0];
  }

  lemma RowTail(ps: seq<Piece>)
    requires Row(ps) && ps != []
    ensures Row(ps[1..]) && (|ps| > 1 ==> ps[0].Group?)
  {
  }

  lemma {:induction false} EvenValue(ps: seq<Piece>)
    requires Row(ps)
    ensures |Value(ps)| % 2 == 0
  {
    if ps != [] {
      EvenValue(ps[1..]);
    }
  }

  lemma PutFirst(g: string, ps: seq<Piece>)
    requires Group(g).Valid() && Row(ps) && ps != []
    ensures var qs := [Group(g)] + ps;
            Row(qs) && Text(qs) == g + ":" + Text(ps) && Value(qs) == Group(g).Value() + Value(ps)
  {
    assert ([Group(g)] + ps)[1..] == ps;
  }

  lemma OnePiece(p: Piece)
    requires p.Valid()
    ensures Row([p]) && Text([p]) == p.Text() && Value([p]) == p.Value()
  {
    assert [p][1..] == [];
  }

  // ---- the parser reads what the grammar describes ----

  lemma NumberStep(cur: string, c: char)
    requires AllHex(cur) && HexValue(c) != -1
    ensures AllHex(cur + [c]) && Number(cur + [c]) == Number(cur) * 16 + HexValue(c)
  {
    assert (cur + [c])[..|cur|] == cur;
  }

  lemma ReadOne(out: seq<Byte>, colon: int, tok: string, seen: nat, val: nat, c: char, rest: string)
    requires -1 <= colon <= |out| && seen < 4 && HexValue(c) != -1 && c != NUL
    ensures Parse6(out, colon, tok, seen, val, [c] + rest) ==
            Parse6(out, colon, tok, seen + 1, val * 16 + HexValue(c), rest)
  {
    assert ([c] + rest)[1..] == rest;
  }

  lemma {:induction false} ReadDigits(out: seq<Byte>, colon: int, tok: string, cur: string, g: string, rest: string)
    requires -1 <= colon <= |out| && AllHex(cur) && AllHex(g) && |cur| + |g| <= 4
    ensures AllHex(cur + g)
    ensures Parse6(out, colon, tok, |cur|, Number(cur), g + rest) ==
            Parse6(out, colon, tok, |cur + g|, Number(cur + g), rest)
    decreases |g|
  {
    if g == [] {
      assert cur + g == cur && g + rest == rest;
    } else {
      NumberStep(cur, g[0]);
      assert g + rest == [g[0]] + (g[1..] + rest) && cur + [g[0]] + g[1..] == cur + g;
      ReadOne(out, colon, tok, |cur|, Number(cur), g[0], g[1..] + rest);
      ReadDigits(out, colon, tok, cur + [g[0]], g[1..], rest);
    }
  }

  lemma {:induction false} NumberBound(g: string)
    requires AllHex(g) && |g| <= 4
    ensures Number(g) <
            if |g| == 0 then 1 else if |g| == 1 then 0x10 else if |g| == 2 then 0x100
            else if |g| == 3 then 0x1000 else 0x1_0000
  {
    if g != [] {
      NumberBound(g[..|g| - 1]);
    }
  }

  // A group and the colon behind it
  lemma ReadGroup(out: seq<Byte>, colon: int, tok: string, g: string, rest: string)
    requires -1 <= colon <= |out| <= 14 && Group(g).Valid() && rest != [] && rest[0] != NUL
    ensures Parse6(out, colon, tok, 0, 0, g + ":" + rest) ==
            Parse6(out + Group(g).Value(), colon, rest, 0, 0, rest)
  {
    ReadDigits(out, colon, tok, "", g, ":" + rest);
    assert "" + g == g && g + ":" + rest == g + (":" + rest);
    NumberBound(g);
    ReadColon(out, colon, tok, |g|, Number(g), rest);
  }

  // A row up to the end of the text
  lemma {:induction false} ReadRow(out: seq<Byte>, colon: int, ps: seq<Piece>)
    requires -1 <= colon <= |out| && Row(ps) && |out| + |Value(ps)| <= 16
    ensures var t := Text(ps); Parse6(out, colon, t, 0, 0, t) == Finish(out + Value(ps), colon, 0, 0)
    decreases |ps|
  {
    if ps == [] {
      assert out + Value(ps) == out;
    } else if |ps| == 1 {
      OnePiece(ps[0]);
      assert ps == [ps[0]];
      ReadLastPiece(out, colon, ps[0]);
    } else {
      RowTail(ps);
      FirstHex(ps[1..]);
      ReadGroup(out, colon, Text(ps), ps[0].digits, Text(ps[1..]));
      ReadRow(out + ps[0].Value(), colon, ps[1..]);
      Assoc(out, ps[0].Value(), Value(ps[1..]));
    }
  }

  lemma ReadLastPiece(out: seq<Byte>, colon: int, p: Piece)
    requires -1 <= colon <= |out| && p.Valid() && |out| + |p.Value()| <= 16
    ensures var t := p.Text(); Parse6(out, colon, t, 0, 0, t) == Finish(out + p.Value(), colon, 0, 0)
  {
    match p
    case Group(g) =>
      ReadDigits(out, colon, g, "", g, "");
      assert "" + g == g && g + "" == g;
    case Quad(b) => ReadDotted(out, colon, b);
  }

  // The last group before "::"
  lemma ReadLastLeft(out: seq<Byte>, g: string, rest: string)
    requires |out| <= 14 && Group(g).Valid()
    ensures var t, o := g + ":" + (":" + rest), out + Group(g).Value();
            Parse6(out, -1, t, 0, 0, t) == Parse6(o, |o|, rest, 0, 0, rest)
  {
    ReadGroup(out, -1, g + ":" + (":" + rest), g, ":" + rest);
    assert (":" + rest)[1..] == rest;
  }

  lemma GapAfter(g: string, u: string, rest: string)
    ensures g + "::" + rest == g + ":" + (":" + rest)
    ensures g + ":" + u + "::" + rest == g + ":" + (u + "::" + rest)
  {
  }

  lemma LeftText(l: seq<Piece>, rest: string)
    requires AllGroups(l) && l != []
    ensures if |l| == 1 then Text(l) + "::" + rest == l[0].digits + ":" + (":" + rest) && Value(l) == l[0].Value()
            else Text(l) + "::" + rest == l[0].digits + ":" + (Text(l[1..]) + "::" + rest)
                 && Value(l) == l[0].Value() + Value(l[1..])
  {
    if |l| == 1 {
      GapAfter(l[0].digits, "", rest);
      OnePiece(l[0]);
      assert l == [l[0]];
    } else {
      GapAfter(l[0].digits, Text(l[1..]), rest);
    }
  }

  // The groups before "::"
  lemma {:induction false} ReadLeft(out: seq<Byte>, l: seq<Piece>, rest: string)
    requires AllGroups(l) && l != [] && |out| + |Value(l)| <= 14
    ensures var t, o := Text(l) + "::" + rest, out + Value(l);
            Parse6(out, -1, t, 0, 0, t) == Parse6(o, |o|, rest, 0, 0, rest)
    decreases |l|
  {
    var g, v := l[0].digits, l[0].Value();
    LeftText(l, rest);
    if |l| == 1 {
      ReadLastLeft(out, g, rest);
    } else {
      FirstHex(l[1..]);
      var u := Text(l[1..]) + "::" + rest;
      assert u[0] == Text(l[1..])[0];
      ReadGroup(out, -1, g + ":" + u, g, u);
      ReadLeft(out + v, l[1..], rest);
      Assoc(out, v, Value(l[1..]));
    }
  }

  lemma FullAccepted(s: string, b: seq<Byte>, ps: seq<Piece>)
    requires Full(s, b, ps)
    ensures ParseText(s) == Some(b)
  {
    FirstHex(ps);
    ReadRow([], -1, ps);
    assert [] + Value(ps) == b;
  }

  // Where "::" has been read
  lemma ReadGapAt(l: seq<Piece>, rest: string)
    requires AllGroups(l) && |Value(l)| <= 14
    ensures ParseText(Text(l) + "::" + rest) == Parse6(Value(l), |Value(l)|, rest, 0, 0, rest)
  {
    var s := Text(l) + "::" + rest;
    if l == [] {
      assert s == "::" + rest && s[1..] == ":" + rest && (":" + rest)[1..] == rest;
    } else {
      FirstHex(l);
      assert s[0] == Text(l)[0];
      ReadLeft([], l, rest);
      assert [] + Value(l) == Value(l);
    }
  }

  lemma CompressedAccepted(s: string, b: seq<Byte>, l: seq<Piece>, r: seq<Piece>)
    requires Compressed(s, b, l, r)
    ensures ParseText(s) == Some(b)
  {
    var v, w := Value(l), Value(r);
    ReadGapAt(l, Text(r));
    ReadRow(v, |v|, r);
    FillGap(v, w);
  }

  // ---- what the parser reads is in the grammar ----

  // Up to the second colon of "::"
  ghost function Upto(l: seq<Piece>): string
    requires Row(l)
  {
    if l == [] then ":" else Text(l) + "::"
  }

  // What is left, together with the digits of the current token, is a row, or has the only "::" after the groups `l`
  ghost predicate Describes(out: seq<Byte>, colon: int, t: string, b: seq<Byte>, gap: bool, l: seq<Piece>,
      r: seq<Piece>)
    requires -1 <= colon <= |out|
  {
    && Row(r) && AllGroups(l)
    && if gap then
         var o := out + Value(l);
         colon == -1 && t == Upto(l) + Text(r) && Finish(o + Value(r), |o|, 0, 0) == Some(b)
       else
         l == [] && t == Text(r) && Finish(out + Value(r), colon, 0, 0) == Some(b)
  }

  lemma AddToRow(out: seq<Byte>, colon: int, g: string, t: string, b: seq<Byte>, r: seq<Piece>)
    requires -1 <= colon <= |out| && Group(g).Valid() && t != []
    requires Describes(out + Group(g).Value(), colon, t, b, false, [], r)
    ensures Describes(out, colon, g + ":" + t, b, false, [], [Group(g)] + r)
  {
    PutFirst(g, r);
    Assoc(out, Group(g).Value(), Value(r));
  }

  lemma PutLeft(g: string, l: seq<Piece>)
    requires Group(g).Valid() && AllGroups(l)
    ensures var k := [Group(g)] + l;
            AllGroups(k) && Upto(k) == g + ":" + Upto(l) && Value(k) == Group(g).Value() + Value(l)
  {
    if l == [] {
      OnePiece(Group(g));
      assert [Group(g)] + l == [Group(g)];
    } else {
      PutFirst(g, l);
    }
  }

  lemma AddToLeft(out: seq<Byte>, colon: int, g: string, t: string, b: seq<Byte>, l: seq<Piece>, r: seq<Piece>)
    requires -1 <= colon <= |out| && Group(g).Valid()
    requires Describes(out + Group(g).Value(), colon, t, b, true, l, r)
    ensures Describes(out, colon, g + ":" + t, b, true, [Group(g)] + l, r)
  {
    PutLeft(g, l);
    Assoc(out, Group(g).Value(), Value(l));
    Assoc(g + ":", Upto(l), Text(r));
  }

  // The colon that follows another one
  lemma AddGap(out: seq<Byte>, t: string, b: seq<Byte>, l: seq<Piece>, r: seq<Piece>)
    requires Describes(out, |out|, t, b, false, l, r)
    ensures Describes(out, -1, "" + (":" + t), b, true, l, r)
  {
    assert out + Value([]) == out && "" + (":" + t) == ":" + t;
  }

  lemma AddGroup(out: seq<Byte>, colon: int, g: string, t: string, b: seq<Byte>, gap: bool, l: seq<Piece>,
      r: seq<Piece>) returns (l': seq<Piece>, r': seq<Piece>)
    requires -1 <= colon <= |out| && Group(g).Valid() && t != []
    requires Describes(out + Group(g).Value(), colon, t, b, gap, l, r)
    ensures Describes(out, colon, g + (":" + t), b, gap, l', r')
  {
    assert g + (":" + t) == g + ":" + t;
    if gap {
      AddToLeft(out, colon, g, t, b, l, r);
      l', r' := [Group(g)] + l, r;
    } else {
      AddToRow(out, colon, g, t, b, r);
      l', r' := l, [Group(g)] + r;
    }
  }

  lemma AtEnd(out: seq<Byte>, colon: int, cur: string) returns (r: seq<Piece>)
    requires -1 <= colon <= |out| && AllHex(cur) && |cur| <= 4 && Finish(out, colon, |cur|, Number(cur)).Some?
    ensures Describes(out, colon, cur, Finish(out, colon, |cur|, Number(cur)).value, false, [], r)
  {
    if cur != [] {
      r := [Group(cur)];
      OnePiece(Group(cur));
    } else {
      r := [];
      assert out + Value(r) == out;
    }
  }

  lemma AtDot(out: seq<Byte>, colon: int, t: string) returns (r: seq<Piece>)
    requires -1 <= colon <= |out| && NUL !in t && AsQuad(out, colon, t).Some?
    ensures Describes(out, colon, t, AsQuad(out, colon, t).value, false, [], r)
  {
    var q := Parse4([], false, 0, t).value;
    OnlyDotted([], false, 0, t);
    assert Read([], false, 0) + t == t;
    r := [Quad(q)];
    OnePiece(Quad(q));
  }

  // The parser as it is at a colon, and what it goes on with
  lemma AtColon(out: seq<Byte>, colon: int, cur: string, t: string)
    requires -1 <= colon <= |out| && AllHex(cur) && |cur| <= 4 && NUL !in t
    requires Parse6(out, colon, cur + (":" + t), |cur|, Number(cur), ":" + t).Some?
    ensures var p := Parse6(out, colon, cur + (":" + t), |cur|, Number(cur), ":" + t);
            if cur == [] then colon == -1 && p == Parse6(out, |out|, t, 0, 0, t)
            else t != [] && p == Parse6(out + Group(cur).Value(), colon, t, 0, 0, t)
  {
    assert (":" + t)[1..] == t;
  }

  lemma {:induction false} Sound(out: seq<Byte>, colon: int, cur: string, s: string)
      returns (gap: bool, l: seq<Piece>, r: seq<Piece>)
    requires -1 <= colon <= |out| && AllHex(cur) && |cur| <= 4 && NUL !in cur + s
    requires Parse6(out, colon, cur + s, |cur|, Number(cur), s).Some?
    ensures Describes(out, colon, cur + s, Parse6(out, colon, cur + s, |cur|, Number(cur), s).value, gap, l, r)
    decreases |s|, 0
  {
    gap, l, r := false, [], [];
    if s == [] {
      assert cur + s == cur;
      r := AtEnd(out, colon, cur);
    } else if HexValue(s[0]) != -1 {
      var next := cur + [s[0]];
      assert next[..|cur|] == cur && next + s[1..] == cur + s;
      gap, l, r := Sound(out, colon, next, s[1..]);
    } else if s[0] == ':' {
      gap, l, r := SoundColon(out, colon, cur, s[1..]);
      assert s == ":" + s[1..];
    } else {
      assert s[0] in cur + s;
      r := AtDot(out, colon, cur + s);
    }
  }

  lemma {:induction false} SoundColon(out: seq<Byte>, colon: int, cur: string, t: string)
      returns (gap: bool, l: seq<Piece>, r: seq<Piece>)
    requires -1 <= colon <= |out| && AllHex(cur) && |cur| <= 4 && NUL !in t
    requires Parse6(out, colon, cur + (":" + t), |cur|, Number(cur), ":" + t).Some?
    ensures Describes(out, colon, cur + (":" + t),
                      Parse6(out, colon, cur + (":" + t), |cur|, Number(cur), ":" + t).value, gap, l, r)
    decreases |t|, 1
  {
    AtColon(out, colon, cur, t);
    assert "" + t == t;
    if cur == [] {
      gap, l, r := Sound(out, |out|, "", t);
      gap := true;
      AddGap(out, t, Parse6(out, |out|, t, 0, 0, t).value, l, r);
    } else {
      gap, l, r := Sound(out + Group(cur).Value(), colon, "", t);
      l, r := AddGroup(out, colon, cur, t, Parse6(out + Group(cur).Value(), colon, t, 0, 0, t).value, gap, l, r);
    }
  }

  lemma NotBoth(l: seq<Piece>, t: string)
    requires AllGroups(l)
    ensures Upto(l) + t != [] && ((Upto(l) + t)[0] == ':' <==> l == [])
  {
    if l != [] {
      FirstHex(l);
      assert (Upto(l) + t)[0] == Text(l)[0];
    }
  }

  lemma OnlyFull(t: string, b: seq<Byte>, r: seq<Piece>)
    requires Describes([], -1, t, b, false, [], r)
    ensures Full(t, b, r) && t != [] && t[0] != ':'
  {
    assert [] + Value(r) == Value(r);
    FirstHex(r);
  }

  lemma GapText(l: seq<Piece>, rest: string)
    requires AllGroups(l)
    ensures (if l == [] then ":" + (Upto(l) + rest) else Upto(l) + rest) == Text(l) + "::" + rest
  {
    GapAfter("", "", rest);
  }

  lemma GapBytes(v: seq<Byte>, w: seq<Byte>, b: seq<Byte>)
    requires |v| % 2 == 0 && |w| % 2 == 0 && Finish(v + w, |v|, 0, 0) == Some(b)
    ensures |v| + |w| <= 14 && b == v + Zeros(16 - |v| - |w|) + w
  {
    FillGap(v, w);
  }

  lemma OnlyGap(t: string, b: seq<Byte>, l: seq<Piece>, r: seq<Piece>)
    requires Describes([], -1, t, b, true, l, r)
    ensures Compressed(if l == [] then ":" + t else t, b, l, r)
    ensures t != [] && (t[0] == ':' <==> l == [])
  {
    var v, w := Value(l), Value(r);
    NotBoth(l, Text(r));
    GapText(l, Text(r));
    assert [] + v == v;
    EvenValue(l);
    EvenValue(r);
    GapBytes(v, w, b);
  }

  lemma OnlyAddresses(s: string, b: seq<Byte>)
    requires NUL !in s && ParseText(s) == Some(b)
    ensures Address(s, b)
  {
    var t := if s != [] && s[0] == ':' then s[1..] else s;
    assert "" + t == t && (s == t || s == ":" + t);
    var gap, l, r := Sound([], -1, "", t);
    if gap {
      OnlyGap(t, b, l, r);
      assert Compressed(s, b, l, r);
    } else {
      OnlyFull(t, b, r);
      assert Full(s, b, r);
    }
  }

  /** The parser accepts exactly the texts of the grammar, each with its one value. */
  lemma Accepts6(s: string)
    requires NUL !in s
    ensures forall b: seq<Byte> :: ParseText(s) == Some(b) <==> Address(s, b)
    ensures ParseText(s).Some? <==> exists b: seq<Byte> :: Address(s, b)
  {
    forall b: seq<Byte>
      ensures ParseText(s) == Some(b) <==> Address(s, b)
    {
      if ParseText(s) == Some(b) {
        OnlyAddresses(s, b);
      }
      if ps :| Full(s, b, ps) {
        FullAccepted(s, b, ps);
      }
      if l, r :| Compressed(s, b, l, r) {
        CompressedAccepted(s, b, l, r);
      }
    }
    if ParseText(s).Some? {
      assert Address(s, ParseText(s).value);
    }
  }
}
