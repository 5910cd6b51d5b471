// What the printed text of an IPv6 address looks like, told without the functions that print it: the recommendations of
// section 4 of RFC 5952. And where the text that is read ends.
module Inet6Text {
  import opened Basics
  import opened Inet4
  import opened Inet6

  predicate IsSeparator(c: char) { c == ':' || c == '.' }

  predicate IsDigit(c: char) { '0' <= c <= '9' || 'a' <= c <= 'f' }

  ghost predicate Written(s: string) {
    forall i :: 0 <= i < |s| ==> IsDigit(s[i]) || IsSeparator(s[i])
  }

  /** Two colons stand next to each other. */
  ghost predicate GapAt(s: string, i: int) {
    0 <= i < |s| - 1 && s[i] == ':' && s[i + 1] == ':'
  }

  /** A group or an octet of more than one digit begins with a zero. */
  ghost predicate LeadingZeroAt(s: string, i: int) {
    0 <= i < |s| - 1 && s[i] == '0' && (i == 0 || IsSeparator(s[i - 1])) && !IsSeparator(s[i + 1])
  }

  // ---- stretches of text without a gap ----

  ghost predicate Clean(s: string) {
    && Written(s) && s != [] && IsDigit(s[0]) && IsDigit(s[|s| - 1])
    && (forall i :: !GapAt(s, i)) && forall i :: !LeadingZeroAt(s, i)
  }

  lemma Joined(a: string, c: char, b: string)
    requires Clean(a) && Clean(b) && IsSeparator(c)
    ensures Clean(a + [c] + b)
  {
    var s, n := a + [c] + b, |a|;
    forall i
      ensures !GapAt(s, i) && !LeadingZeroAt(s, i)
    {
      if i < n {
        assert !GapAt(a, i) && !LeadingZeroAt(a, i);
      } else if i > n {
        assert !GapAt(b, i - n - 1) && !LeadingZeroAt(b, i - n - 1);
      }
    }
  }

  ghost predicate Digits(s: string) {
    s != [] && (|s| > 1 ==> s[0] != '0') && forall i :: 0 <= i < |s| ==> IsDigit(s[i])
  }

  lemma DigitsClean(s: string)
    requires Digits(s)
    ensures Clean(s) && '.' !in s
  {
    forall i
      ensures !GapAt(s, i) && !LeadingZeroAt(s, i)
    {
    }
  }

  lemma {:induction false} HexDigits(w: word)
    ensures Digits(Hex(w)) && (Hex(w)[0] == '0' ==> w == 0)
    decreases w
  {
    if w >= 0x10 {
      HexDigits(w / 0x10);
    }
  }

  lemma {:induction false} GroupsClean(ws: seq<word>)
    requires ws != []
    ensures Clean(Groups(ws)) && '.' !in Groups(ws)
  {
    HexDigits(ws[0]);
    DigitsClean(Hex(ws[0]));
    if |ws| > 1 {
      GroupsClean(ws[1..]);
      Joined(Hex(ws[0]), ':', Groups(ws[1..]));
    }
  }

  lemma DecDigitsOnly(b: Byte)
    ensures Digits(Dec(b))
  {
  }

  lemma DottedClean(b: seq<Byte>)
    requires |b| == 4
    ensures Clean(Dotted(b)) && '.' in Dotted(b)
  {
    forall i | 0 <= i < 4
      ensures Clean(Dec(b[i]))
    {
      DecDigitsOnly(b[i]);
      DigitsClean(Dec(b[i]));
    }
    Joined(Dec(b[0]), '.', Dec(b[1]));
    Joined(Dec(b[0]) + "." + Dec(b[1]), '.', Dec(b[2]));
    Joined(Dec(b[0]) + "." + Dec(b[1]) + "." + Dec(b[2]), '.', Dec(b[3]));
    assert Dotted(b)[|Dec(b[0])|] == '.';
  }

  // ---- the text around the gap ----

  lemma Gapped(a: string, t: string)
    requires (a == "" || Clean(a)) && (t == "" || Clean(t))
    ensures var s := a + "::" + t;
            Written(s) && (forall i :: GapAt(s, i) <==> i == |a|) && forall i :: !LeadingZeroAt(s, i)
  {
    var s, n := a + "::" + t, |a|;
    assert s[n] == ':' && s[n + 1] == ':';
    forall i
      ensures (GapAt(s, i) <==> i == n) && !LeadingZeroAt(s, i)
    {
      if i < n {
        assert !GapAt(a, i) && !LeadingZeroAt(a, i);
      } else if i > n + 1 {
        assert !GapAt(t, i - n - 2) && !LeadingZeroAt(t, i - n - 2);
      }
    }
  }

  lemma TailClean(ws: seq<word>, base: int, len: int)
    requires |ws| == 8 && 0 <= base && 0 <= len && base + len <= 8
    ensures var t := Tail(ws, base, len); (t == "" || Clean(t)) && ('.' in t <==> Embeds4(ws, base, len))
  {
    if base == 0 && len == 6 {
      DottedClean(BytesOf(ws[6..]));
    } else if base == 0 && len == 5 && ws[5] == 0xffff {
      HexDigits(0xffff);
      DigitsClean(Hex(0xffff));
      DottedClean(BytesOf(ws[6..]));
      Joined(Hex(0xffff), ':', Dotted(BytesOf(ws[6..])));
    } else if base + len < 8 {
      GroupsClean(ws[base + len..]);
    }
  }

  /** Two words next to each other are zero. */
  ghost predicate TwoZeros(ws: seq<word>, k: int) {
    0 <= k < |ws| - 1 && ws[k] == 0 && ws[k + 1] == 0
  }

  /** The address is IPv4-compatible, and neither of the low two words makes the run longer, or IPv4-mapped. */
  ghost predicate EndsDotted(ws: seq<word>)
    requires |ws| == 8
  {
    (forall k :: 0 <= k < 5 ==> ws[k] == 0) && ((ws[5] == 0 && ws[6] != 0) || ws[5] == 0xffff)
  }

  lemma Embedded(ws: seq<word>, base: int, len: int)
    requires |ws| == 8 && IsBest(ws, base, len)
    ensures base != -1 && Embeds4(ws, base, len) <==> EndsDotted(ws)
  {
    if base != -1 {
      assert ZeroRun(ws, base, len);
    }
    assert base == 0 && len == 6 ==> !ZeroRun(ws, 0, 7);
    if EndsDotted(ws) {
      assert ZeroRun(ws, 0, if ws[5] == 0 then 6 else 5);
    }
  }

  lemma GapIff(ws: seq<word>, base: int, len: int)
    requires |ws| == 8 && IsBest(ws, base, len)
    ensures base != -1 <==> exists k :: TwoZeros(ws, k)
  {
    if base != -1 {
      assert ZeroRun(ws, base, len) && TwoZeros(ws, base);
    } else {
      forall k
        ensures !TwoZeros(ws, k)
      {
        assert ZeroRun(ws, k, 2) ==> false;
      }
    }
  }

  lemma FormText(ws: seq<word>, base: int, len: int)
    requires |ws| == 8 && IsBest(ws, base, len)
    ensures var s := Form(ws, base, len);
            && Written(s) && (forall i :: !LeadingZeroAt(s, i)) && ('.' in s <==> base != -1 && Embeds4(ws, base, len))
            && forall i :: GapAt(s, i) <==> base != -1 && i == |Groups(ws[..base])|
  {
    if base == -1 {
      GroupsClean(ws);
    } else {
      assert ZeroRun(ws, base, len);
      if base > 0 {
        GroupsClean(ws[..base]);
      }
      TailClean(ws, base, len);
      Gapped(Groups(ws[..base]), Tail(ws, base, len));
    }
  }

  // The printed text has only decimal digits, lower-case letters, colons and dots; no group and no octet has leading
  // zeros; "::" occurs exactly if two adjacent words are zero, and then once; and a dotted quad exactly if the address
  // is an IPv4-mapped one, or has just its first six words zero
  lemma PrintedText(b: seq<Byte>, s: string)
    requires |b| == 16 && Text6(b, s)
    ensures forall i :: 0 <= i < |s| ==> '0' <= s[i] <= '9' || 'a' <= s[i] <= 'f' || s[i] == ':' || s[i] == '.'
    ensures forall i :: !LeadingZeroAt(s, i)
    ensures (exists i :: GapAt(s, i)) <==> exists k :: TwoZeros(WordsOf(b), k)
    ensures forall i, j :: GapAt(s, i) && GapAt(s, j) ==> i == j
    ensures '.' in s <==> EndsDotted(WordsOf(b))
  {
    var ws := WordsOf(b);
    var base, len :| IsBest(ws, base, len) && s == Form(ws, base, len);
    FormText(ws, base, len);
    GapIff(ws, base, len);
    Embedded(ws, base, len);
    if base != -1 {
      assert GapAt(s, |Groups(ws[..base])|);
    }
  }

  // ---- where the text ends ----

  ghost predicate EndsAt(s: string, k: nat) {
    k < |s| && s[k] == NUL && NUL !in s[..k]
  }

  lemma EndsRest(s: string, k: nat)
    requires EndsAt(s, k) && k > 0
    ensures s[0] == s[..k][0] != NUL && EndsAt(s[1..], k - 1) && s[..k][1..] == s[1..][..k - 1]
  {
    assert s[..k][0] in s[..k];
    forall i | 0 <= i < k - 1
      ensures s[1..][i] != NUL
    {
      assert s[..k][i + 1] in s[..k];
    }
  }

  lemma {:induction false} Ends4(done: seq<Byte>, saw: bool, cur: Byte, s: string, k: nat)
    requires |done| <= 3 && EndsAt(s, k)
    ensures Parse4(done, saw, cur, s) == Parse4(done, saw, cur, s[..k])
    decreases k
  {
    if k > 0 {
      EndsRest(s, k);
      var d := DigitValue(s[0]);
      if d != -1 {
        if !(saw && cur == 0) && cur * 10 + d <= 255 {
          Ends4(done, true, cur * 10 + d, s[1..], k - 1);
        }
      } else if s[0] == '.' && saw && |done| < 3 {
        Ends4(done + [cur], false, 0, s[1..], k - 1);
      }
    }
  }

  lemma EndsLater(cur: string, s: string, k: nat)
    requires NUL !in cur && EndsAt(s, k)
    ensures EndsAt(cur + s, |cur| + k) && (cur + s)[..|cur| + k] == cur + s[..k]
  {
  }

  // `cur`: the digits of the current token that have been read
  lemma {:induction false} Ends6(out: seq<Byte>, colon: int, cur: string, seen: nat, val: nat, s: string, k: nat)
    requires -1 <= colon <= |out| && NUL !in cur && EndsAt(s, k)
    ensures Parse6(out, colon, cur + s, seen, val, s) == Parse6(out, colon, cur + s[..k], seen, val, s[..k])
    decreases k
  {
    if k > 0 {
      EndsRest(s, k);
      var t := s[..k];
      if HexValue(s[0]) != -1 {
        var next := cur + [s[0]];
        assert next + s[1..] == cur + s && next + t[1..] == cur + t;
        Ends6(out, colon, next, seen + 1, val * 16 + HexValue(s[0]), s[1..], k - 1);
      } else if s[0] == ':' {
        EndsColon(out, colon, cur, seen, val, s, k);
      } else {
        EndsLater(cur, s, k);
        Ends4([], false, 0, cur + s, |cur| + k);
      }
    }
  }

  lemma {:induction false} EndsColon(out: seq<Byte>, colon: int, cur: string, seen: nat, val: nat, s: string, k: nat)
    requires -1 <= colon <= |out| && EndsAt(s, k) && k > 0 && s[0] == ':'
    ensures Parse6(out, colon, cur + s, seen, val, s) == Parse6(out, colon, cur + s[..k], seen, val, s[..k])
    decreases k, 0
  {
    EndsRest(s, k);
    var u := s[1..];
    assert "" + u == u && "" + u[..k - 1] == u[..k - 1];
    if seen == 0 {
      Ends6(out, |out|, "", 0, val, u, k - 1);
    } else if k > 1 {
      assert u[..k - 1][0] == u[0];
      EndsRest(u, k - 1);
      if |out| + 2 <= 16 {
        Ends6(out + [val / 0x100 % 0x100, val % 0x100], colon, "", 0, 0, u, k - 1);
      }
    }
  }

  // From the start of the text
  lemma EndsWhole(s: string, k: nat)
    requires EndsAt(s, k)
    ensures Parse6([], -1, s, 0, 0, s) == Parse6([], -1, s[..k], 0, 0, s[..k])
  {
    assert "" + s == s && "" + s[..k] == s[..k];
    Ends6([], -1, "", 0, 0, s, k);
  }

  // Both parsers read up to the first NUL and no further
  lemma TextEnds(s: string, k: nat)
    requires EndsAt(s, k)
    ensures Parse4([], false, 0, s) == Parse4([], false, 0, s[..k])
    ensures ParseText(s) == ParseText(s[..k])
  {
    Ends4([], false, 0, s, k);
    if k > 0 && s[0] == ':' {
      EndsRest(s, k);
      EndsWhole(s[1..], k - 1);
      assert k > 1 ==> s[..k][1] == s[1];
    } else {
      EndsWhole(s, k);
    }
  }

  // ---- upper and lower case ----

  function Low(c: char): char { if 'A' <= c <= 'F' then (c as int + 0x20) as char else c }

  ghost function Lowered(s: string): string { seq(|s|, i requires 0 <= i < |s| => Low(s[i])) }

  lemma LowRest(s: string)
    requires s != []
    ensures Lowered(s)[0] == Low(s[0]) && Lowered(s)[1..] == Lowered(s[1..])
  {
  }

  lemma LowDigit(c: char)
    ensures HexValue(Low(c)) == HexValue(c) && DigitValue(Low(c)) == DigitValue(c)
    ensures (Low(c) == ':' <==> c == ':') && (Low(c) == '.' <==> c == '.') && (Low(c) == NUL <==> c == NUL)
  {
  }

  lemma {:induction false} Lowered4(done: seq<Byte>, saw: bool, cur: Byte, s: string)
    requires |done| <= 3
    ensures Parse4(done, saw, cur, Lowered(s)) == Parse4(done, saw, cur, s)
    decreases |s|
  {
    if s != [] {
      LowRest(s);
      LowDigit(s[0]);
      var d := DigitValue(s[0]);
      if d != -1 {
        if !(saw && cur == 0) && cur * 10 + d <= 255 {
          Lowered4(done, true, cur * 10 + d, s[1..]);
        }
      } else if s[0] == '.' && saw && |done| < 3 {
        Lowered4(done + [cur], false, 0, s[1..]);
      }
    }
  }

  lemma {:induction false} Lowered6(out: seq<Byte>, colon: int, tok: string, seen: nat, val: nat, s: string)
    requires -1 <= colon <= |out|
    ensures Parse6(out, colon, Lowered(tok), seen, val, Lowered(s)) == Parse6(out, colon, tok, seen, val, s)
    decreases |s|
  {
    if s != [] {
      LowRest(s);
      LowDigit(s[0]);
      var t := s[1..];
      if t != [] {
        LowRest(t);
        LowDigit(t[0]);
      }
      if HexValue(s[0]) != -1 {
        Lowered6(out, colon, tok, seen + 1, val * 16 + HexValue(s[0]), t);
      } else if s[0] == ':' {
        Lowered6(out, |out|, t, 0, val, t);
        if |out| + 2 <= 16 {
          Lowered6(out + [val / 0x100 % 0x100, val % 0x100], colon, t, 0, 0, t);
        }
      } else {
        Lowered4([], false, 0, tok);
      }
    }
  }

  // The parser takes upper- and lower-case digits for the same
  lemma CaseIgnored(s: string)
    ensures ParseText(Lowered(s)) == ParseText(s)
  {
    Lowered6([], -1, s, 0, 0, s);
    if s != [] {
      LowRest(s);
      LowDigit(s[0]);
      Lowered6([], -1, s[1..], 0, 0, s[1..]);
      if |s| > 1 {
        LowDigit(s[1]);
      }
    }
  }
}
