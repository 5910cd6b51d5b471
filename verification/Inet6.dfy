// IPv6 address text: the compressed form of section 2.2 of RFC 4291 and sections 4 and 5 of RFC 5952.
module Inet6 {
  import opened Basics
  import opened Inet4

  type word = x: int | 0 <= x < 0x1_0000

  // ---- hexadecimal groups ----

  function HexDigit(d: int): (c: char)
    requires 0 <= d < 16
    ensures HexValue(c) == d && c !in {NUL, '.', ':'}
  {
    if d < 10 then ('0' as int + d) as char else ('a' as int + d - 10) as char
  }

  // The position of `c` among the lower- or upper-case hexadecimal digits, or -1
  function HexValue(c: char): (d: int)
    ensures -1 <= d < 16
  {
    if '0' <= c <= '9' then c as int - '0' as int
    else if 'a' <= c <= 'f' then c as int - 'a' as int + 10
    else if 'A' <= c <= 'F' then c as int - 'A' as int + 10
    else -1
  }

  // Lower-case digits without leading zeros
  function Hex(w: word): (s: string)
    ensures 1 <= |s| <= 4 && HexValue(s[0]) != -1
    ensures (w < 0x10 ==> |s| == 1) && (w < 0x100 ==> |s| <= 2) && (w < 0x1000 ==> |s| <= 3)
  {
    if w < 0x10 then [HexDigit(w)] else Hex(w / 0x10) + [HexDigit(w % 0x10)]
  }

  // Groups separated by colons
  ghost function Groups(ws: seq<word>): string {
    if |ws| == 0 then "" else if |ws| == 1 then Hex(ws[0]) else Hex(ws[0]) + ":" + Groups(ws[1..])
  }

  lemma {:induction false} GroupsAppend(ws: seq<word>, w: word)
    requires ws != []
    ensures Groups(ws + [w]) == Groups(ws) + ":" + Hex(w)
  {
    if |ws| > 1 {
      GroupsAppend(ws[1..], w);
      assert (ws + [w])[1..] == ws[1..] + [w];
      assert Groups(ws + [w]) == Hex(ws[0]) + ":" + Groups(ws[1..] + [w]);
    } else {
      assert (ws + [w])[1..] == [w];
    }
  }

  lemma {:induction false} GroupsSize(ws: seq<word>)
    ensures |Groups(ws)| <= 5 * |ws| && (ws != [] ==>
            |Groups(ws)| < 5 * |ws| && Groups(ws) != [] && HexValue(Groups(ws)[0]) != -1)
  {
    if |ws| > 1 {
      GroupsSize(ws[1..]);
    }
  }

  // ---- words and bytes ----

  ghost function Bytes(w: word): seq<Byte> { [w / 0x100, w % 0x100] }

  ghost function BytesOf(ws: seq<word>): (b: seq<Byte>)
    ensures |b| == 2 * |ws|
  {
    if ws == [] then [] else BytesOf(ws[..|ws| - 1]) + Bytes(ws[|ws| - 1])
  }

  lemma {:induction false} BytesAppend(a: seq<word>, b: seq<word>)
    ensures BytesOf(a + b) == BytesOf(a) + BytesOf(b)
  {
    if b == [] {
      assert a + b == a;
    } else {
      var m := |b| - 1;
      assert (a + b)[..|a + b| - 1] == a + b[..m];
      BytesAppend(a, b[..m]);
    }
  }

  ghost function Zeros(n: nat): seq<Byte> { seq(n, _ => 0) }

  lemma {:induction false} BytesZero(ws: seq<word>)
    requires forall k :: 0 <= k < |ws| ==> ws[k] == 0
    ensures BytesOf(ws) == Zeros(2 * |ws|)
  {
    if ws != [] {
      BytesZero(ws[..|ws| - 1]);
    }
  }

  // ---- the longest run of zero words ----

  ghost predicate ZeroRun(ws: seq<word>, a: int, k: int) {
    0 <= a && 0 <= k && a + k <= |ws| && forall j :: a <= j < a + k ==> ws[j] == 0
  }

  // The leftmost of the longest runs of at least two zero words; base -1 if there is none
  ghost predicate IsBest(ws: seq<word>, base: int, len: int) {
    if base == -1 then forall a, k :: ZeroRun(ws, a, k) ==> k < 2
    else ZeroRun(ws, base, len) && len >= 2 && forall a, k :: ZeroRun(ws, a, k) ==> k < len || (k == len && base <= a)
  }

  lemma BestUnique(ws: seq<word>, b: int, l: int, b': int, l': int)
    requires IsBest(ws, b, l) && IsBest(ws, b', l')
    ensures b == b' && (b != -1 ==> l == l')
  {
    assert b != -1 ==> ZeroRun(ws, b, l);
    assert b' != -1 ==> ZeroRun(ws, b', l');
  }

  // ---- the text of an address ----

  ghost predicate Embeds4(ws: seq<word>, base: int, len: int)
    requires |ws| == 8
  {
    base == 0 && (len == 6 || (len == 5 && ws[5] == 0xffff))
  }

  ghost function Tail(ws: seq<word>, base: int, len: int): string
    requires |ws| == 8 && 0 <= base && 0 <= len && base + len <= 8
  {
    if base == 0 && len == 6 then Dotted(BytesOf(ws[6..]))
    else if base == 0 && len == 5 && ws[5] == 0xffff then Hex(0xffff) + ":" + Dotted(BytesOf(ws[6..]))
    else Groups(ws[base + len..])
  }

  ghost function Form(ws: seq<word>, base: int, len: int): string
    requires |ws| == 8 && (base == -1 || (0 <= base && 0 <= len && base + len <= 8))
  {
    if base == -1 then Groups(ws) else Groups(ws[..base]) + "::" + Tail(ws, base, len)
  }

  // ---- the parser, as a function of what is left to read ----

  ghost function Finish(out: seq<Byte>, colon: int, seen: nat, val: nat): Option<seq<Byte>>
    requires -1 <= colon <= |out|
  {
    if seen > 0 && |out| + 2 > 16 then None else
    var o := if seen > 0 then out + [val / 0x100 % 0x100, val % 0x100] else out;
    if colon != -1 then
      if |o| >= 16 then None else Some(o[..colon] + Zeros(16 - |o|) + o[colon..])
    else if |o| != 16 then None else Some(o)
  }

  // `out`: Bytes written so far; `colon`: where "::" was seen, or -1; `tok`: the text from the start of the
  // current token; `seen`, `val`: digits read of the current group and their value
  ghost function Parse6(out: seq<Byte>, colon: int, tok: string, seen: nat, val: nat, s: string): Option<seq<Byte>>
    requires -1 <= colon <= |out|
    decreases |s|
  {
    if s == [] || s[0] == NUL then Finish(out, colon, seen, val)
    else if HexValue(s[0]) != -1 then
      if seen + 1 > 4 then None else Parse6(out, colon, tok, seen + 1, val * 16 + HexValue(s[0]), s[1..])
    else if s[0] == ':' then
      if seen == 0 then
        if colon != -1 then None else Parse6(out, |out|, s[1..], 0, val, s[1..])
      else if s[1..] == [] || s[1] == NUL then None
      else if |out| + 2 > 16 then None
      else Parse6(out + [val / 0x100 % 0x100, val % 0x100], colon, s[1..], 0, 0, s[1..])
    else if s[0] == '.' && |out| + 4 <= 16 then
      match Parse4([], false, 0, tok)
      case None => None
      case Some(quad) => Finish(out + quad, colon, 0, val)
    else None
  }

  ghost function ParseText(s: string): Option<seq<Byte>> {
    if s != [] && s[0] == ':' then
      if |s| < 2 || s[1] != ':' then None else Parse6([], -1, s[1..], 0, 0, s[1..])
    else Parse6([], -1, s, 0, 0, s)
  }

  // ---- the parser reads what the printer wrote ----

  lemma ReadHexDigit(out: seq<Byte>, colon: int, tok: string, seen: nat, val: nat, d: int, rest: string)
    requires -1 <= colon <= |out| && seen < 4 && 0 <= d < 16
    ensures Parse6(out, colon, tok, seen, val, [HexDigit(d)] + rest) ==
            Parse6(out, colon, tok, seen + 1, val * 16 + d, rest)
  {
    assert ([HexDigit(d)] + rest)[1..] == rest;
  }

  lemma ReadHex2(out: seq<Byte>, colon: int, tok: string, c: int, d: int, rest: string)
    requires -1 <= colon <= |out| && 0 <= c < 16 && 0 <= d < 16
    ensures Parse6(out, colon, tok, 0, 0, [HexDigit(c), HexDigit(d)] + rest) ==
            Parse6(out, colon, tok, 2, c * 16 + d, rest)
  {
    ReadHexDigit(out, colon, tok, 0, 0, c, [HexDigit(d)] + rest);
    ReadHexDigit(out, colon, tok, 1, c, d, rest);
    assert [HexDigit(c), HexDigit(d)] + rest == [HexDigit(c)] + ([HexDigit(d)] + rest);
  }

  lemma ReadHex3(out: seq<Byte>, colon: int, tok: string, b: int, c: int, d: int, rest: string)
    requires -1 <= colon <= |out| && 0 <= b < 16 && 0 <= c < 16 && 0 <= d < 16
    ensures Parse6(out, colon, tok, 0, 0, [HexDigit(b), HexDigit(c), HexDigit(d)] + rest) ==
            Parse6(out, colon, tok, 3, b * 256 + c * 16 + d, rest)
  {
    ReadHex2(out, colon, tok, b, c, [HexDigit(d)] + rest);
    ReadHexDigit(out, colon, tok, 2, b * 16 + c, d, rest);
    assert [HexDigit(b), HexDigit(c), HexDigit(d)] + rest == [HexDigit(b), HexDigit(c)] + ([HexDigit(d)] + rest);
  }

  lemma {:induction false} ReadHex(out: seq<Byte>, colon: int, tok: string, w: word, rest: string)
    requires -1 <= colon <= |out|
    ensures Parse6(out, colon, tok, 0, 0, Hex(w) + rest) == Parse6(out, colon, tok, |Hex(w)|, w, rest)
    decreases w
  {
    if w < 0x10 {
      ReadHexDigit(out, colon, tok, 0, 0, w, rest);
    } else {
      var v: word, d := w / 0x10, w % 0x10;
      var s := Hex(v);
      assert s + [HexDigit(d)] + rest == s + ([HexDigit(d)] + rest);
      ReadHex(out, colon, tok, v, [HexDigit(d)] + rest);
      ReadHexDigit(out, colon, tok, |s|, v, d, rest);
    }
  }

  lemma ReadColon(out: seq<Byte>, colon: int, tok: string, seen: nat, w: word, rest: string)
    requires -1 <= colon <= |out| <= 14 && seen > 0 && rest != [] && rest[0] != NUL
    ensures Parse6(out, colon, tok, seen, w, ":" + rest) == Parse6(out + Bytes(w), colon, rest, 0, 0, rest)
  {
    assert (":" + rest)[1..] == rest;
    assert [w / 0x100 % 0x100, w % 0x100] == Bytes(w);
  }

  lemma FirstBytes(gs: seq<word>)
    requires gs != []
    ensures BytesOf(gs) == Bytes(gs[0]) + BytesOf(gs[1..])
  {
    BytesAppend([gs[0]], gs[1..]);
    assert [gs[0]] + gs[1..] == gs;
    assert [gs[0]][..0] == [];
    assert BytesOf([gs[0]]) == [] + Bytes(gs[0]);
  }

  lemma {:induction false} ReadGroups(out: seq<Byte>, colon: int, tok: string, gs: seq<word>, rest: string)
      returns (tok': string, seen: nat)
    requires -1 <= colon <= |out| && gs != [] && |out| + 2 * |gs| <= 16
    ensures seen > 0
    ensures Parse6(out, colon, tok, 0, 0, Groups(gs) + rest)
         == Parse6(out + BytesOf(gs[..|gs| - 1]), colon, tok', seen, gs[|gs| - 1], rest)
    decreases |gs|
  {
    if |gs| == 1 {
      ReadHex(out, colon, tok, gs[0], rest);
      tok', seen := tok, |Hex(gs[0])|;
      assert out + BytesOf([]) == out;
    } else {
      var t := Groups(gs[1..]) + rest;
      assert Groups(gs) + rest == Hex(gs[0]) + (":" + t);
      GroupsSize(gs[1..]);
      assert t[0] == Groups(gs[1..])[0];
      ReadHex(out, colon, tok, gs[0], ":" + t);
      ReadColon(out, colon, tok, |Hex(gs[0])|, gs[0], t);
      tok', seen := ReadGroups(out + Bytes(gs[0]), colon, t, gs[1..], rest);
      FirstBytes(gs[..|gs| - 1]);
      assert gs[..|gs| - 1][1..] == gs[1..][..|gs[1..]| - 1];
      Assoc<Byte>(out, Bytes(gs[0]), BytesOf(gs[1..][..|gs[1..]| - 1]));
    }
  }

  lemma ReadGroupsToEnd(out: seq<Byte>, colon: int, gs: seq<word>)
    requires -1 <= colon <= |out| && gs != [] && |out| + 2 * |gs| <= 16
    ensures var s := Groups(gs); Parse6(out, colon, s, 0, 0, s) == Finish(out + BytesOf(gs), colon, 0, 0)
  {
    var s := Groups(gs);
    var m := |gs| - 1;
    var tok', seen := ReadGroups(out, colon, s, gs, "");
    assert s + "" == s;
    assert out + BytesOf(gs[..m]) + Bytes(gs[m]) == out + BytesOf(gs);
    assert [gs[m] / 0x100 % 0x100, gs[m] % 0x100] == Bytes(gs[m]);
  }

  // At a dot the current token is read again, as a dotted quad
  ghost function AsQuad(out: seq<Byte>, colon: int, tok: string): Option<seq<Byte>>
    requires -1 <= colon <= |out|
  {
    match Parse4([], false, 0, tok)
    case None => None
    case Some(quad) => Finish(out + quad, colon, 0, 0)
  }

  lemma ReadDot(out: seq<Byte>, colon: int, tok: string, seen: nat, val: nat, rest: string)
    requires -1 <= colon <= |out| && |out| <= 12
    ensures Parse6(out, colon, tok, seen, val, "." + rest) == AsQuad(out, colon, tok)
  {
    assert HexValue('.') == -1;
  }

  lemma DecDigits(b: Byte)
    ensures b < 10 ==> Dec(b) == [HexDigit(b)]
    ensures 10 <= b < 100 ==> Dec(b) == [HexDigit(b / 10), HexDigit(b % 10)]
    ensures 100 <= b ==> Dec(b) == [HexDigit(b / 100), HexDigit(b / 10 % 10), HexDigit(b % 10)]
  {
    assert forall d {:trigger Digit(d)} :: 0 <= d < 10 ==> Digit(d) == HexDigit(d);
  }

  lemma DecHex(out: seq<Byte>, colon: int, tok: string, b: Byte, rest: string)
    requires -1 <= colon <= |out| && |out| <= 12
    ensures Parse6(out, colon, tok, 0, 0, Dec(b) + ("." + rest)) == AsQuad(out, colon, tok)
  {
    var h, t, o := b / 100, b / 10 % 10, b % 10;
    var r := "." + rest;
    DecDigits(b);
    if b < 10 {
      ReadHexDigit(out, colon, tok, 0, 0, b, r);
      ReadDot(out, colon, tok, 1, b, rest);
    } else if b < 100 {
      ReadHex2(out, colon, tok, b / 10, o, r);
      ReadDot(out, colon, tok, 2, b / 10 * 16 + o, rest);
    } else {
      ReadHex3(out, colon, tok, h, t, o, r);
      ReadDot(out, colon, tok, 3, h * 256 + t * 16 + o, rest);
    }
  }

  lemma ReadDotted(out: seq<Byte>, colon: int, quad: seq<Byte>)
    requires -1 <= colon <= |out| && |out| <= 12 && |quad| == 4
    ensures var s := Dotted(quad); Parse6(out, colon, s, 0, 0, s) == Finish(out + quad, colon, 0, 0)
  {
    var s := Dotted(quad);
    var rest := Dec(quad[1]) + "." + Dec(quad[2]) + "." + Dec(quad[3]);
    assert s == Dec(quad[0]) + ("." + rest);
    DecHex(out, colon, s, quad[0], rest);
    RoundTrip4(quad);
  }

  // Reading up to and past "::"
  lemma ReadGap(ws: seq<word>, tail: string)
    requires |ws| <= 6
    ensures ParseText(Groups(ws) + "::" + tail) == Parse6(BytesOf(ws), 2 * |ws|, tail, 0, 0, tail)
  {
    var s := Groups(ws) + "::" + tail;
    var gap := ":" + (":" + tail);
    assert s == Groups(ws) + gap;
    assert (":" + tail)[1..] == tail;
    if ws == [] {
      assert s[1..] == ":" + tail;
    } else {
      GroupsSize(ws);
      assert s[0] == Groups(ws)[0];
      var m := |ws| - 1;
      var tok, seen := ReadGroups([], -1, s, ws, gap);
      assert [] + BytesOf(ws[..m]) == BytesOf(ws[..m]);
      ReadColon(BytesOf(ws[..m]), -1, tok, seen, ws[m], ":" + tail);
    }
  }

  // The gap is filled with zeros
  lemma FillGap(a: seq<Byte>, c: seq<Byte>)
    requires |a| + |c| < 16
    ensures Finish(a + c, |a|, 0, 0) == Some(a + Zeros(16 - |a| - |c|) + c)
  {
    assert (a + c)[..|a|] == a && (a + c)[|a|..] == c;
  }

  lemma BytesParts(ws: seq<word>, a: seq<word>, b: seq<word>, c: seq<word>)
    requires ws == a + b + c
    ensures BytesOf(ws) == BytesOf(a) + BytesOf(b) + BytesOf(c)
  {
    BytesAppend(a, b);
    BytesAppend(a + b, c);
  }

  lemma Expand(ws: seq<word>, base: int, len: int)
    requires |ws| == 8 && ZeroRun(ws, base, len) && len >= 2
    ensures Finish(BytesOf(ws[..base]) + BytesOf(ws[base + len..]), 2 * base, 0, 0) == Some(BytesOf(ws))
  {
    BytesZero(ws[base..base + len]);
    BytesParts(ws, ws[..base], ws[base..base + len], ws[base + len..]);
    FillGap(BytesOf(ws[..base]), BytesOf(ws[base + len..]));
  }

  lemma ReadMapped(ws: seq<word>)
    requires |ws| == 8 && ws[5] == 0xffff
    ensures var t := Hex(0xffff) + ":" + Dotted(BytesOf(ws[6..]));
            Parse6([], 0, t, 0, 0, t) == Finish(BytesOf(ws[5..]), 0, 0, 0)
  {
    var quad := BytesOf(ws[6..]);
    var t := Hex(0xffff) + ":" + Dotted(quad);
    ReadHex([], 0, t, 0xffff, ":" + Dotted(quad));
    assert t == Hex(0xffff) + (":" + Dotted(quad));
    ReadColon([], 0, t, |Hex(0xffff)|, 0xffff, Dotted(quad));
    assert [] + Bytes(0xffff) == Bytes(0xffff);
    ReadDotted(Bytes(0xffff), 0, quad);
    BytesAppend([ws[5]], ws[6..]);
    assert ws[5..] == [ws[5]] + ws[6..];
    assert BytesOf([ws[5]]) == Bytes(0xffff) by {
      assert [ws[5]][..0] == [];
    }
  }

  lemma ReadTail(ws: seq<word>, base: int, len: int)
    requires |ws| == 8 && ZeroRun(ws, base, len) && len >= 2
    ensures var t := Tail(ws, base, len);
            Parse6(BytesOf(ws[..base]), 2 * base, t, 0, 0, t) ==
                Finish(BytesOf(ws[..base]) + BytesOf(ws[base + len..]), 2 * base, 0, 0)
  {
    var out := BytesOf(ws[..base]);
    if base == 0 && len == 6 {
      ReadDotted(out, 0, BytesOf(ws[6..]));
    } else if base == 0 && len == 5 && ws[5] == 0xffff {
      ReadMapped(ws);
      assert out + BytesOf(ws[5..]) == BytesOf(ws[5..]);
    } else if base + len < 8 {
      ReadGroupsToEnd(out, 2 * base, ws[base + len..]);
    } else {
      assert out + BytesOf(ws[8..]) == out;
    }
  }

  // The parser reads back what the printer wrote, in every form
  lemma RoundTrip6(ws: seq<word>, base: int, len: int)
    requires |ws| == 8 && IsBest(ws, base, len)
    ensures ParseText(Form(ws, base, len)) == Some(BytesOf(ws))
  {
    if base == -1 {
      GroupsSize(ws);
      ReadGroupsToEnd([], -1, ws);
      assert [] + BytesOf(ws) == BytesOf(ws);
    } else {
      ReadGap(ws[..base], Tail(ws, base, len));
      ReadTail(ws, base, len);
      Expand(ws, base, len);
    }
  }

  function Word(hi: Byte, lo: Byte): word {
    var h: int := hi;
    h * 0x100 + lo
  }

  ghost function WordsOf(b: seq<Byte>): (ws: seq<word>)
    requires |b| == 16
    ensures |ws| == 8
  {
    seq(8, i requires 0 <= i < 8 => Word(b[2 * i], b[2 * i + 1]))
  }

  lemma WordBytes(hi: Byte, lo: Byte)
    ensures Bytes(Word(hi, lo)) == [hi, lo]
  {
  }

  lemma BytesLast(ws: seq<word>, n: nat)
    requires 1 <= n <= |ws|
    ensures BytesOf(ws[..n]) == BytesOf(ws[..n - 1]) + Bytes(ws[n - 1])
  {
    assert ws[..n][..n - 1] == ws[..n - 1];
  }

  lemma TwoMore(b: seq<Byte>, m: nat)
    requires m + 2 <= |b|
    ensures b[..m + 2] == b[..m] + [b[m], b[m + 1]]
  {
  }

  lemma {:induction false} WordsBytes(b: seq<Byte>, n: nat)
    requires |b| == 16 && n <= 8
    ensures BytesOf(WordsOf(b)[..n]) == b[..2 * n]
  {
    if n > 0 {
      var m := 2 * (n - 1);
      WordsBytes(b, n - 1);
      BytesLast(WordsOf(b), n);
      WordBytes(b[m], b[m + 1]);
      TwoMore(b, m);
    }
  }

  // The text form of an address
  ghost predicate Text6(b: seq<Byte>, s: string)
    requires |b| == 16
  {
    exists base, len :: IsBest(WordsOf(b), base, len) && s == Form(WordsOf(b), base, len)
  }

  lemma TextUnique(b: seq<Byte>, s: string, t: string)
    requires |b| == 16 && Text6(b, s) && Text6(b, t)
    ensures s == t
  {
    var base, len :| IsBest(WordsOf(b), base, len) && s == Form(WordsOf(b), base, len);
    var base', len' :| IsBest(WordsOf(b), base', len') && t == Form(WordsOf(b), base', len');
    BestUnique(WordsOf(b), base, len, base', len');
  }

  lemma ParseUndoesText(b: seq<Byte>, s: string)
    requires |b| == 16 && Text6(b, s)
    ensures ParseText(s) == Some(b)
  {
    var ws := WordsOf(b);
    var base, len :| IsBest(ws, base, len) && s == Form(ws, base, len);
    RoundTrip6(ws, base, len);
    WordsBytes(b, 8);
    assert ws[..8] == ws && b[..16] == b;
  }

  // ---- the code: printing ----

  // Copies the sixteen bytes into eight words
  method ToWords(src: seq<Byte>) returns (words: array<word>)
    requires |src| == 16
    ensures fresh(words) && words[..] == WordsOf(src)
  {
    words := new word[8](_ => 0);
    var i := 0;
    while i < 16
      invariant 0 <= i <= 16
      invariant forall k :: 0 <= k < 8 ==>
        words[k] ==
          if 2 * k + 1 < i then Word(src[2 * k], src[2 * k + 1]) else if 2 * k < i then Word(src[2 * k], 0) else 0
    {
      // the two halves have no bit in common, so "or" is "+"
      if i % 2 == 0 {
        words[i / 2] := words[i / 2] + Word(src[i], 0);
      } else {
        words[i / 2] := words[i / 2] + src[i];
      }
      i := i + 1;
    }
  }

  // All runs that end before `to` lose against the best one
  ghost predicate BestUpTo(ws: seq<word>, base: int, len: int, to: int) {
    && (base == -1 ==> len == 0)
    && (base != -1 ==> ZeroRun(ws, base, len) && len >= 1 && base + len <= to)
    && forall a, k :: ZeroRun(ws, a, k) && a + k <= to && k > 0 ==> base != -1 && (k < len || (k == len && base <= a))
  }

  ghost predicate CurrentRun(ws: seq<word>, base: int, len: int, i: int)
    requires 0 <= i <= |ws|
  {
    if base == -1 then i == 0 || ws[i - 1] != 0
    else len >= 1 && base + len == i && ZeroRun(ws, base, len) && (base == 0 || ws[base - 1] != 0)
  }

  // The best run after the current one has ended before `i`
  lemma RunEnds(ws: seq<word>, base: int, len: int, cbase: int, clen: int, i: int, base': int, len': int)
    requires 0 <= i <= |ws| && CurrentRun(ws, cbase, clen, i)
            && BestUpTo(ws, base, len, if cbase == -1 then i else cbase)
    requires if cbase != -1 && (base == -1 || clen > len) then base' == cbase && len' == clen
            else base' == base && len' == len
    ensures BestUpTo(ws, base', len', i)
    ensures i < |ws| && ws[i] != 0 ==> BestUpTo(ws, base', len', i + 1)
  {
    forall a, k | ZeroRun(ws, a, k) && a + k <= i && k > 0
      ensures base' != -1 && (k < len' || (k == len' && base' <= a))
    {
    }
    if i < |ws| && ws[i] != 0 {
      forall a, k | ZeroRun(ws, a, k) && a + k <= i + 1 && k > 0
        ensures a + k <= i
      {
      }
    }
  }

  method LongestRun(words: array<word>) returns (base: int, len: int)
    requires words.Length == 8
    ensures IsBest(words[..], base, len)
  {
    ghost var ws := words[..];
    base, len := -1, 0;
    var cbase, clen := -1, 0;
    var i := 0;
    while i < 8
      invariant 0 <= i <= 8
      invariant CurrentRun(ws, cbase, clen, i)
      invariant BestUpTo(ws, base, len, if cbase == -1 then i else cbase)
    {
      ghost var b0, l0, c0, k0 := base, len, cbase, clen;
      if words[i] == 0 {
        if cbase == -1 {
          cbase, clen := i, 1;
        } else {
          clen := clen + 1;
        }
      } else {
        if cbase != -1 {
          if base == -1 || clen > len {
            base, len := cbase, clen;
          }
          cbase := -1;
        }
        RunEnds(ws, b0, l0, c0, k0, i, base, len);
      }
      i := i + 1;
    }

    ghost var b0, l0 := base, len;
    if cbase != -1 {
      if base == -1 || clen > len {
        base, len := cbase, clen;
      }
    }
    RunEnds(ws, b0, l0, cbase, clen, 8, base, len);
    forall a, k | ZeroRun(ws, a, k)
      ensures k == 0 || (base != -1 && (k < len || (k == len && base <= a)))
    {
    }
    if base != -1 && len < 2 {
      base := -1;
    }
  }

  // What is printed once word `i` is reached
  ghost function Shown(ws: seq<word>, base: int, len: int, i: int): string
    requires |ws| == 8 && 0 <= i <= 8 && (base == -1 || (0 <= base && 2 <= len && base + len <= 8))
  {
    if base == -1 || i <= base then Groups(ws[..i])
    else if i <= base + len then Groups(ws[..base]) + ":"
    else Groups(ws[..base]) + "::" + Groups(ws[base + len..i])
  }

  // What word `i` adds to the text
  ghost function Piece(ws: seq<word>, base: int, len: int, i: int): string
    requires |ws| == 8 && 0 <= i < 8
  {
    if base != -1 && base <= i < base + len then (if i == base then ":" else "")
    else (if i != 0 then ":" else "") + Hex(ws[i])
  }

  lemma GroupsStep(ws: seq<word>, from: int, i: int)
    requires 0 <= from <= i < |ws|
    ensures Groups(ws[from..i + 1]) == Groups(ws[from..i]) + (if i > from then ":" else "") + Hex(ws[i])
  {
    var run := ws[from..i];
    assert ws[from..i + 1] == run + [ws[i]];
    if i > from {
      GroupsAppend(run, ws[i]);
    }
  }

  lemma Assoc<T>(a: seq<T>, b: seq<T>, c: seq<T>)
    ensures (a + b) + c == a + (b + c)
  {
  }

  lemma ShownBefore(ws: seq<word>, base: int, len: int, i: int)
    requires |ws| == 8 && 0 <= i < 8 && (base == -1 || (0 <= base && 2 <= len && base + len <= 8))
            && (base == -1 || i < base)
    ensures Shown(ws, base, len, i + 1) == Shown(ws, base, len, i) + Piece(ws, base, len, i)
  {
    GroupsStep(ws, 0, i);
    Assoc(Groups(ws[..i]), if i > 0 then ":" else "", Hex(ws[i]));
  }

  // The first word after the gap
  lemma ShownResumed(ws: seq<word>, base: int, len: int)
    requires |ws| == 8 && 0 <= base && 2 <= len && base + len < 8
    ensures var i := base + len; Shown(ws, base, len, i + 1) == Shown(ws, base, len, i) + Piece(ws, base, len, i)
  {
    var i := base + len;
    GroupsStep(ws, i, i);
    var a, h := Groups(ws[..base]), Hex(ws[i]);
    assert ws[i..i] == [];
    assert (a + ":") + (":" + h) == a + "::" + h;
  }

  lemma ShownAfter(ws: seq<word>, base: int, len: int, i: int)
    requires |ws| == 8 && 0 <= i < 8 && 0 <= base && 2 <= len && base + len <= i
    ensures Shown(ws, base, len, i + 1) == Shown(ws, base, len, i) + Piece(ws, base, len, i)
  {
    if i == base + len {
      ShownResumed(ws, base, len);
    } else {
      GroupsStep(ws, base + len, i);
      var a, g, h := Groups(ws[..base]), Groups(ws[base + len..i]), Hex(ws[i]);
      Assoc(g, ":", h);
      Assoc(a + "::", g, ":" + h);
    }
  }

  lemma ShownStep(ws: seq<word>, base: int, len: int, i: int)
    requires |ws| == 8 && 0 <= i < 8 && (base == -1 || (0 <= base && 2 <= len && base + len <= 8))
    ensures Shown(ws, base, len, i + 1) == Shown(ws, base, len, i) + Piece(ws, base, len, i)
  {
    if base == -1 || i < base {
      ShownBefore(ws, base, len, i);
    } else if i >= base + len {
      ShownAfter(ws, base, len, i);
    }
  }

  // sprintf: the text and its terminator
  method Put(tmp: array<char>, tp: nat, text: string)
    requires tp + |text| < tmp.Length
    modifies tmp
    ensures tmp[..tp] == old(tmp[..tp]) && tmp[tp..tp + |text|] == text
    ensures tmp[..tp + |text|] == old(tmp[..tp]) + text
  {
    var i := 0;
    while i < |text|
      invariant 0 <= i <= |text|
      invariant forall k :: 0 <= k < tp ==> tmp[k] == old(tmp[k])
      invariant forall k :: tp <= k < tp + i ==> tmp[k] == text[k - tp]
    {
      tmp[tp + i] := text[i];
      i := i + 1;
    }
    tmp[tp + |text|] := NUL;
  }

  // The words from the first one to be shown as IPv4 text on
  ghost predicate Stops(ws: seq<word>, base: int, len: int, i: int)
    requires |ws| == 8
  {
    i == 6 && base == 0 && (len == 6 || (len == 7 && ws[7] != 1) || (len == 5 && ws[5] == 0xffff))
  }

  lemma StopForm(ws: seq<word>, base: int, len: int)
    requires |ws| == 8 && 2 <= len && base + len <= 8 && 6 >= base + len && Stops(ws, base, len, 6)
    ensures Shown(ws, base, len, 6) + ":" + Dotted(BytesOf(ws[6..])) == Form(ws, base, len)
    ensures |Shown(ws, base, len, 6)| <= 6
  {
    assert ws[..0] == [];
    if len == 5 {
      assert ws[5..6] == [ws[5]];
    }
  }

  lemma ShownAll(ws: seq<word>, base: int, len: int)
    requires |ws| == 8 && IsBest(ws, base, len) && !Embeds4(ws, base, len)
    ensures base != -1 ==> ZeroRun(ws, base, len)
    ensures Shown(ws, base, len, 8) + (if base != -1 && base + len == 8 then ":" else "") == Form(ws, base, len)
    ensures |Form(ws, base, len)| <= 40
  {
    assert ws[..8] == ws;
    GroupsSize(ws);
    if base != -1 {
      assert ws[base + len..8] == ws[base + len..];
      GroupsSize(ws[..base]);
      GroupsSize(ws[base + len..]);
    }
  }

  method PutChar(tmp: array<char>, tp: nat, c: char)
    requires tp < tmp.Length
    modifies tmp
    ensures tmp[..tp + 1] == old(tmp[..tp]) + [c]
  {
    tmp[tp] := c;
  }

  lemma QuadBytes(src: seq<Byte>)
    requires |src| == 16
    ensures src[12..] == BytesOf(WordsOf(src)[6..])
  {
    var ws := WordsOf(src);
    WordsBytes(src, 6);
    WordsBytes(src, 8);
    BytesAppend(ws[..6], ws[6..]);
    assert ws[..8] == ws[..6] + ws[6..];
    assert src[..16] == src[..12] + src[12..];
    assert BytesOf(ws[..6]) + BytesOf(ws[6..]) == src[..12] + src[12..];
  }

  // The last four bytes as IPv4 text; the buffer is always large enough
  method PutQuad(src: seq<Byte>, tmp: array<char>, tp: nat) returns (err: Error, tp': nat)
    requires |src| == 16 && tmp.Length == 46 && tp <= 30
    modifies tmp
    ensures err == Ok && tp' == tp + |Dotted(src[12..])| && tmp[..tp'] == old(tmp[..tp]) + Dotted(src[12..])
  {
    err := InetNtop4(src[12..], tmp, tp, 46 - tp);
    tp' := tp + |Dotted(src[12..])|;
    assert tmp[..tp'] == tmp[..tp] + tmp[tp..tp'];
  }

  // A separating colon, but not at the start
  method Separate(tmp: array<char>, tp: nat, i: nat) returns (tp': nat)
    requires tp < tmp.Length
    modifies tmp
    ensures tp' <= tp + 1 && tmp.Length >= tp' && tmp[..tp'] == old(tmp[..tp]) + if i != 0 then ":" else ""
  {
    tp' := tp;
    if i != 0 {
      PutChar(tmp, tp, ':');
      tp' := tp + 1;
    }
  }

  // The text of a word after what has been written so far and its separator
  method PutHex(text: string, tmp: array<char>, tp: nat, ghost shown: string, ghost sep: string) returns (tp': nat)
    requires |text| <= 4 && tp + |text| < tmp.Length && tmp[..tp] == shown + sep
    modifies tmp
    ensures tp' == tp + |text| && tmp[..tp'] == shown + (sep + text)
  {
    Put(tmp, tp, text);
    tp' := tp + |text|;
    Assoc(shown, sep, text);
  }

  // The loop over the words
  method PutWords(src: seq<Byte>, words: array<word>, base: int, len: int, tmp: array<char>)
      returns (err: Error, tp: nat)
    requires |src| == 16 && words.Length == 8 && words[..] == WordsOf(src) && IsBest(words[..], base, len)
            && tmp.Length == 46
    requires base != -1 ==> ZeroRun(words[..], base, len)
    modifies tmp
    ensures words[..] == WordsOf(src)
    ensures err == Ok && tp <= 40
    ensures tmp[..tp] + (if base != -1 && base + len == 8 then ":" else "") == Form(WordsOf(src), base, len)
  {
    ghost var ws := words[..];
    var w5, w7 := words[5], words[7];
    tp := 0;
    var i := 0;
    while i < 8
      invariant 0 <= i <= 8 && words[..] == ws
      invariant tp <= 5 * i && tmp[..tp] == Shown(ws, base, len, i)
      invariant i > 6 ==> !Embeds4(ws, base, len)
    {
      ShownStep(ws, base, len, i);
      if base != -1 && base <= i < base + len {
        if i == base {
          PutChar(tmp, tp, ':');
          tp := tp + 1;
        }
        i := i + 1;
        continue;
      }
      ghost var shown := tmp[..tp];
      tp := Separate(tmp, tp, i);
      if i == 6 && base == 0 && (len == 6 || (len == 7 && w7 != 0x0001) || (len == 5 && w5 == 0xffff)) {
        StopForm(ws, base, len);
        QuadBytes(src);
        err, tp := PutQuad(src, tmp, tp);
        return err, tp;
      }
      tp := PutHex(Hex(words[i]), tmp, tp, shown, if i != 0 then ":" else "");
      i := i + 1;
    }
    ShownAll(ws, base, len);
    return Ok, tp;
  }

  // Prints into `dst`, which has room for `size` characters
  method InetNtop6(src: seq<Byte>, dst: array<char>, size: nat) returns (err: Error, ghost text: string)
    requires |src| == 16 && size <= dst.Length
    modifies dst
    ensures Text6(src, text) && |text| < 46
    ensures err == (if |text| + 1 > size then Enospc else Ok)
    ensures err == Ok ==> dst[..|text|] == text && dst[|text|] == NUL
    ensures forall k :: 0 <= k < dst.Length && (err != Ok || |text| < k) ==> dst[k] == old(dst[k])
  {
    var words := ToWords(src);
    var base, len := LongestRun(words);
    assert base != -1 ==> ZeroRun(words[..], base, len);
    text := Form(words[..], base, len);
    var tmp := new char[46];
    var tp;
    err, tp := PutWords(src, words, base, len, tmp);
    if base != -1 && base + len == 8 {
      PutChar(tmp, tp, ':');
      tp := tp + 1;
    }
    assert tmp[..tp] == text;
    err := CopyOut(tmp, tp, dst, size, text);
  }

  method CopyOut(tmp: array<char>, len: nat, dst: array<char>, size: nat, ghost text: string) returns (err: Error)
    requires len < tmp.Length && tmp[..len] == text && size <= dst.Length && tmp != dst
    modifies tmp, dst
    ensures err == (if |text| + 1 > size then Enospc else Ok)
    ensures err == Ok ==> dst[..|text|] == text && dst[|text|] == NUL
    ensures forall k :: 0 <= k < dst.Length && (err != Ok || |text| < k) ==> dst[k] == old(dst[k])
  {
    tmp[len] := NUL;
    if len + 1 > size {
      return Enospc;
    }
    assert tmp[..len] == text;
    forall k | 0 <= k <= len {
      dst[k] := tmp[k];
    }
    assert dst[..len] == tmp[..len];
    return Ok;
  }

  // ---- the code: parsing ----

  // Moves the bytes after "::" to the end, by hand and from the back
  method ShiftTail(tmp: array<Byte>, colonp: nat, tp: nat)
    requires tmp.Length == 16 && colonp <= tp < 16
    requires forall k :: tp <= k < 16 ==> tmp[k] == 0
    modifies tmp
    ensures tmp[..] == old(tmp[..colonp]) + Zeros(16 - tp) + old(tmp[colonp..tp])
  {
    var n := tp - colonp;
    var i := 1;
    while i <= n
      invariant 1 <= i <= n + 1
      invariant forall k :: 0 <= k < tp - i + 1 ==> tmp[k] == old(tmp[k])
      invariant forall k :: tp - i + 1 <= k < 16 - i + 1 ==> tmp[k] == 0
      invariant forall k :: 16 - i + 1 <= k < 16 ==> tmp[k] == old(tmp[k - (16 - tp)])
    {
      tmp[16 - i] := tmp[colonp + n - i];
      tmp[colonp + n - i] := 0;
      i := i + 1;
    }
  }

  method Store(tmp: array<Byte>, tp: nat, val: int)
    requires tp + 2 <= tmp.Length && 0 <= val
    modifies tmp
    ensures tmp[..tp + 2] == old(tmp[..tp]) + [val / 0x100 % 0x100, val % 0x100]
    ensures forall k :: tp + 2 <= k < tmp.Length ==> tmp[k] == old(tmp[k])
  {
    tmp[tp] := val / 0x100 % 0x100;
    tmp[tp + 1] := val % 0x100;
  }

  // What follows the loop
  method Complete(tmp: array<Byte>, tp0: nat, colonp: int, seen: nat, val: nat) returns (err: Error)
    requires tmp.Length == 16 && tp0 <= 16 && -1 <= colonp <= tp0
    requires forall k :: tp0 <= k < 16 ==> tmp[k] == 0
    modifies tmp
    ensures err == (if old(Finish(tmp[..tp0], colonp, seen, val)).Some? then Ok else Einval)
    ensures err == Ok ==> tmp[..] == old(Finish(tmp[..tp0], colonp, seen, val)).value
  {
    var tp := tp0;
    if seen > 0 {
      if tp + 2 > 16 {
        return Einval;
      }
      Store(tmp, tp, val);
      tp := tp + 2;
    }

    ghost var o := tmp[..tp];
    if colonp != -1 {
      if tp == 16 {
        return Einval;
      }
      assert tmp[..colonp] == o[..colonp] && tmp[colonp..tp] == o[colonp..];
      ShiftTail(tmp, colonp, tp);
      tp := 16;
    }
    if tp != 16 {
      return Einval;
    }
    return Ok;
  }

  // The four last bytes in IPv4 form, where the current token starts
  method ScanQuadTail(src: string, curtok: nat, tmp: array<Byte>, tp: nat, colonp: int) returns (err: Error)
    requires curtok <= |src| && tmp.Length == 16 && tp + 4 <= 16 && -1 <= colonp <= tp
    requires forall k :: tp <= k < 16 ==> tmp[k] == 0
    modifies tmp
    ensures var want := AsQuad(old(tmp[..tp]), colonp, src[curtok..]);
            err == (if want.Some? then Ok else Einval) && (err == Ok ==> tmp[..] == want.value)
  {
    ghost var out := tmp[..tp];
    err := InetPton4(src, curtok, tmp, tp);
    if err == Ok {
      assert tmp[..tp + 4] == out + tmp[tp..tp + 4];
      err := Complete(tmp, tp + 4, colonp, 0, 0);
    }
  }

  // The loop over the characters; `tmp` starts out zeroed
  method ScanText(src: string, tmp: array<Byte>) returns (err: Error)
    requires tmp.Length == 16 && forall k :: 0 <= k < 16 ==> tmp[k] == 0
    modifies tmp
    ensures err == (if ParseText(src).Some? then Ok else Einval)
    ensures err == Ok ==> tmp[..] == ParseText(src).value
  {
    ghost var want := ParseText(src);
    var i := 0;
    if |src| > 0 && src[0] == ':' {
      i := 1;
      if |src| < 2 || src[1] != ':' {
        return Einval;
      }
    }
    var tp, colonp, curtok, seen, val := 0, -1, i, 0, 0;
    assert src[0..] == src && tmp[..0] == [];
    while i < |src| && src[i] != NUL
      invariant 0 <= curtok <= i <= |src| && 0 <= tp <= 16 && -1 <= colonp <= tp && 0 <= seen <= 4 && 0 <= val
      invariant seen == 0 ==> val == 0
      invariant forall k :: tp <= k < 16 ==> tmp[k] == 0
      invariant Parse6(tmp[..tp], colonp, src[curtok..], seen, val, src[i..]) == want
    {
      var ch := src[i];
      ghost var rest := src[i..];
      i := i + 1;
      assert rest[1..] == src[i..] && rest[0] == ch;
      if HexValue(ch) != -1 {
        val := val * 16 + HexValue(ch);
        seen := seen + 1;
        if seen > 4 {
          return Einval;
        }
        continue;
      }
      if ch == ':' {
        curtok := i;
        if seen == 0 {
          if colonp != -1 {
            return Einval;
          }
          colonp := tp;
          continue;
        } else if i == |src| || src[i] == NUL {
          return Einval;
        }
        if tp + 2 > 16 {
          return Einval;
        }
        Store(tmp, tp, val);
        tp := tp + 2;
        seen, val := 0, 0;
        continue;
      }
      if ch == '.' && tp + 4 <= 16 {
        err := ScanQuadTail(src, curtok, tmp, tp, colonp);
        return;
      }
      return Einval;
    }
    err := Complete(tmp, tp, colonp, seen, val);
  }

  // Parses the whole of `src` into the sixteen bytes at `dst`, which stay as they are if it is no address
  method InetPton6(src: string, dst: array<Byte>) returns (err: Error)
    requires dst.Length >= 16
    modifies dst
    ensures err == (if ParseText(src).Some? then Ok else Einval)
    ensures err == Ok ==> dst[..16] == ParseText(src).value
    ensures forall b: seq<Byte> {:trigger Text6(b, src)} :: |b| == 16 && Text6(b, src) ==> err == Ok && dst[..16] == b
    ensures forall k :: 0 <= k < dst.Length && (err != Ok || 16 <= k) ==> dst[k] == old(dst[k])
  {
    forall b: seq<Byte> | |b| == 16 && Text6(b, src)
      ensures ParseText(src) == Some(b)
    {
      ParseUndoesText(b, src);
    }
    var tmp := new Byte[16](_ => 0);
    err := ScanText(src, tmp);
    if err == Ok {
      forall k | 0 <= k < 16 {
        dst[k] := tmp[k];
      }
      assert dst[..16] == tmp[..];
    }
  }
}
