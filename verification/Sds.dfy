/** Printing strings quoted, and splitting a line into arguments (src/rmutil/sds.c). */
module Sds {
  import opened Values
  import opened Orders

  type Bytes = seq<Byte>

  const QUOTE: Byte := 34
  const APOSTROPHE: Byte := 39
  const BACKSLASH: Byte := 92
  const SPACE: Byte := 32
  const LETTER_X: Byte := 120

  /** isprint in the C locale. */
  predicate IsPrint(b: Byte) { 32 <= b <= 126 }

  /** isspace in the C locale. */
  predicate IsSpace(b: Byte) { b == SPACE || 9 <= b <= 13 }

  /** is_hex_digit. */
  predicate IsHexDigit(b: Byte) { 48 <= b <= 57 || 97 <= b <= 102 || 65 <= b <= 70 }

  /** hex_digit_to_int. */
  function HexDigitToInt(b: Byte): (d: nat)
    ensures d < 16
  {
    if 48 <= b <= 57 then b - 48
    else if 97 <= b <= 102 then b - 87
    else if 65 <= b <= 70 then b - 55
    else 0
  }

  /** A digit as %x prints it. */
  function HexDigit(d: nat): (b: Byte)
    requires d < 16
    ensures IsHexDigit(b) && HexDigitToInt(b) == d
  {
    if d < 10 then 48 + d else 87 + d
  }

  // ---------------------------------------------------------------- printing

  /** The form of one byte between quotes. */
  function Escape(b: Byte): Bytes {
    if b == BACKSLASH || b == QUOTE then [BACKSLASH, b]
    else if b == 10 then [BACKSLASH, 110]
    else if b == 13 then [BACKSLASH, 114]
    else if b == 9 then [BACKSLASH, 116]
    else if b == 7 then [BACKSLASH, 97]
    else if b == 8 then [BACKSLASH, 98]
    else if IsPrint(b) then [b]
    else [BACKSLASH, LETTER_X, HexDigit(b / 16), HexDigit(b % 16)]
  }

  function Escaped(p: Bytes): Bytes {
    if p == [] then [] else Escape(p[0]) + Escaped(p[1..])
  }

  function Quoted(p: Bytes): Bytes {
    [QUOTE] + Escaped(p) + [QUOTE]
  }

  /** The switch of sdscatrepr. */
  method CatByte(s: Bytes, b: Byte) returns (r: Bytes)
    ensures r == s + Escape(b)
  {
    if b == BACKSLASH || b == QUOTE {
      r := s + [BACKSLASH, b];
    } else if b == 10 {
      r := s + [BACKSLASH, 110];
    } else if b == 13 {
      r := s + [BACKSLASH, 114];
    } else if b == 9 {
      r := s + [BACKSLASH, 116];
    } else if b == 7 {
      r := s + [BACKSLASH, 97];
    } else if b == 8 {
      r := s + [BACKSLASH, 98];
    } else if IsPrint(b) {
      r := s + [b];
    } else {
      r := s + [BACKSLASH, LETTER_X, HexDigit(b / 16), HexDigit(b % 16)];
    }
  }

  /** sdscatrepr. */
  method CatRepr(s: Bytes, p: Bytes) returns (r: Bytes)
    ensures r == s + Quoted(p)
  {
    hide Escape;
    r := s + [QUOTE];
    for i := 0 to |p|
      invariant r + Escaped(p[i..]) == s + [QUOTE] + Escaped(p)
    {
      ghost var was := r;
      r := CatByte(r, p[i]);
      assert p[i..][1..] == p[i + 1..];
      assert was + (Escape(p[i]) + Escaped(p[i + 1..])) == r + Escaped(p[i + 1..]);
    }
    assert r == s + [QUOTE] + Escaped(p) by { assert Escaped(p[|p|..]) == [] && r + [] == r; }
    r := r + [QUOTE];
  }

  // ---------------------------------------------------------------- splitting

  /** The byte i places on; a string ends with a NUL. */
  function Peek(s: Bytes, i: nat): Byte {
    if i < |s| then s[i] else 0
  }

  function SkipBlanks(s: Bytes): (r: Bytes)
    ensures |r| <= |s| && (Peek(r, 0) == 0 || !IsSpace(Peek(r, 0)))
  {
    if s != [] && s[0] != 0 && IsSpace(s[0]) then SkipBlanks(s[1..]) else s
  }

  /** Whether the scanner is outside quotes, inside double quotes or inside single ones. */
  datatype Mode = Plain | InQ | InSq

  /**
   * What scanning one token does next: fail, finish with what is left of the line, or go on after consuming some
   * bytes.
   */
  datatype Scan = Fail | Done(rest: Bytes) | More(mode: Mode, add: Bytes, eaten: nat)

  /** The byte a backslash sequence other than a hexadecimal one stands for. */
  function Unescape(b: Byte): Byte {
    if b == 110 then 10
    else if b == 114 then 13
    else if b == 116 then 9
    else if b == 98 then 8
    else if b == 97 then 7
    else b
  }

  /** A closing quote must be followed by a space or nothing at all. */
  function Close(s: Bytes): Scan
    requires s != []
  {
    if Peek(s, 1) != 0 && !IsSpace(Peek(s, 1)) then Fail else Done(s[1..])
  }

  /** One turn of the token loop. */
  function ScanStep(s: Bytes, mode: Mode): (x: Scan)
    ensures x.More? ==> 0 < x.eaten <= |s|
    ensures x.Done? ==> |x.rest| <= |s| && (mode != Plain || (Peek(s, 0) != 0) ==> |x.rest| < |s|)
  {
    var b := Peek(s, 0);
    match mode
    case InQ =>
      if b == BACKSLASH && Peek(s, 1) == LETTER_X && IsHexDigit(Peek(s, 2)) && IsHexDigit(Peek(s, 3)) then
        More(InQ, [HexDigitToInt(Peek(s, 2)) * 16 + HexDigitToInt(Peek(s, 3))], 4)
      else if b == BACKSLASH && Peek(s, 1) != 0 then More(InQ, [Unescape(Peek(s, 1))], 2)
      else if b == QUOTE then Close(s)
      else if b == 0 then Fail
      else More(InQ, [b], 1)
    case InSq =>
      if b == BACKSLASH && Peek(s, 1) == APOSTROPHE then More(InSq, [APOSTROPHE], 2)
      else if b == APOSTROPHE then Close(s)
      else if b == 0 then Fail
      else More(InSq, [b], 1)
    case Plain =>
      if b == 0 then Done(s)
      else if b == SPACE || b == 10 || b == 13 || b == 9 then Done(s[1..])
      else if b == QUOTE then More(InQ, [], 1)
      else if b == APOSTROPHE then More(InSq, [], 1)
      else More(Plain, [b], 1)
  }

  /** The token that begins where the scanner stands, and what is left of the line after it. */
  function Token(s: Bytes, mode: Mode, current: Bytes): (t: Option<(Bytes, Bytes)>)
    ensures t.Some? ==> |t.value.1| <= |s| && (Peek(s, 0) != 0 ==> |t.value.1| < |s|)
    decreases |s|
  {
    match ScanStep(s, mode)
    case Fail => None
    case Done(rest) => Some((current, rest))
    case More(m, add, eaten) => Token(s[eaten..], m, current + add)
  }

  /** All arguments of a line, or none if its quotes are wrong. */
  function Args(s: Bytes): Option<seq<Bytes>>
    decreases |s|
  {
    var s' := SkipBlanks(s);
    if Peek(s', 0) == 0 then Some([])
    else
      match Token(s', Plain, [])
      case None => None
      case Some((token, rest)) =>
        match Args(rest)
        case None => None
        case Some(args) => Some([token] + args)
  }

  /** sdssplitargs. */
  method SplitArgs(line: Bytes) returns (vector: Option<seq<Bytes>>)
    ensures vector == Args(line)
  {
    hide Token, ScanStep;
    var p: nat := 0;
    var tokens: seq<Bytes> := [];
    assert line[0..] == line;
    PrependTwice([], [], Args(line));
    while true
      invariant p <= |line|
      invariant Args(line) == Prepend(tokens, Args(line[p..]))
      decreases |line| - p
    {
      ghost var start := p;
      p := Skip(line, p);
      if Peek(line[p..], 0) == 0 {
        assert tokens + [] == tokens;
        return Some(tokens);
      }
      var current, q := GetToken(line, p);
      if q.None? {
        return None;
      }
      ghost var token, rest := Token(line[p..], Plain, []).value.0, Token(line[p..], Plain, []).value.1;
      assert Args(line[start..]) == Prepend([token], Args(rest));
      PrependTwice(tokens, token, Args(rest));
      tokens := tokens + [current];
      p := q.value;
    }
  }

  function Prepend(tokens: seq<Bytes>, args: Option<seq<Bytes>>): Option<seq<Bytes>> {
    if args.None? then None else Some(tokens + args.value)
  }

  lemma PrependTwice(tokens: seq<Bytes>, token: Bytes, args: Option<seq<Bytes>>)
    ensures Prepend(tokens, Prepend([token], args)) == Prepend(tokens + [token], args)
    ensures Prepend([], args) == args
  {
    if args.Some? {
      assert [] + args.value == args.value;
      assert tokens + ([token] + args.value) == tokens + [token] + args.value;
    }
  }

  /** Skipping blanks. */
  method Skip(line: Bytes, from: nat) returns (p: nat)
    requires from <= |line|
    ensures from <= p <= |line| && line[p..] == SkipBlanks(line[from..])
  {
    p := from;
    while p < |line| && line[p] != 0 && IsSpace(line[p])
      invariant from <= p <= |line| && SkipBlanks(line[p..]) == SkipBlanks(line[from..])
    {
      assert line[p..][1..] == line[p + 1..];
      p := p + 1;
    }
  }

  /** The token loop, with its flags. */
  method GetToken(line: Bytes, from: nat) returns (current: Bytes, q: Option<nat>)
    requires from <= |line| && Peek(line[from..], 0) != 0
    ensures q.None? <==> Token(line[from..], Plain, []).None?
    ensures q.Some? ==> from < q.value <= |line| && Token(line[from..], Plain, []) == Some((current, line[q.value..]))
  {
    var inq, insq, done := false, false, false;
    var p := from;
    current := [];
    while !done
      invariant from <= p <= |line| && !(inq && insq)
      invariant !done ==> Token(line[from..], Plain, []) == Token(line[p..], ModeOf(inq, insq), current)
      invariant done ==> Token(line[from..], Plain, []) == Some((current, line[p..]))
      decreases |line| - p, !done
    {
      ghost var s, mode, was := line[p..], ModeOf(inq, insq), current;
      var n: nat := 1;
      if inq {
        if Peek(line[p..], 0) == BACKSLASH && Peek(line[p..], 1) == LETTER_X
           && IsHexDigit(Peek(line[p..], 2)) && IsHexDigit(Peek(line[p..], 3)) {
          current := current + [HexDigitToInt(Peek(line[p..], 2)) * 16 + HexDigitToInt(Peek(line[p..], 3))];
          n := 4;
        } else if Peek(line[p..], 0) == BACKSLASH && Peek(line[p..], 1) != 0 {
          current := current + [Unescape(Peek(line[p..], 1))];
          n := 2;
        } else if Peek(line[p..], 0) == QUOTE {
          if Peek(line[p..], 1) != 0 && !IsSpace(Peek(line[p..], 1)) {
            return [], None;
          }
          done := true;
        } else if Peek(line[p..], 0) == 0 {
          return [], None;
        } else {
          current := current + [Peek(line[p..], 0)];
        }
      } else if insq {
        if Peek(line[p..], 0) == BACKSLASH && Peek(line[p..], 1) == APOSTROPHE {
          current := current + [APOSTROPHE];
          n := 2;
        } else if Peek(line[p..], 0) == APOSTROPHE {
          if Peek(line[p..], 1) != 0 && !IsSpace(Peek(line[p..], 1)) {
            return [], None;
          }
          done := true;
        } else if Peek(line[p..], 0) == 0 {
          return [], None;
        } else {
          current := current + [Peek(line[p..], 0)];
        }
      } else {
        if Peek(line[p..], 0) == 0 {
          done := true;
          n := 0;
        } else if Peek(line[p..], 0) in {SPACE, 10, 13, 9} {
          done := true;
        } else if Peek(line[p..], 0) == QUOTE {
          inq := true;
        } else if Peek(line[p..], 0) == APOSTROPHE {
          insq := true;
        } else {
          current := current + [Peek(line[p..], 0)];
        }
      }
      assert ScanStep(s, mode) == if done then Done(s[n..]) else More(ModeOf(inq, insq), current[|was|..], n);
      assert current == was + current[|was|..];
      p := p + n;
      assert s[n..] == line[p..];
    }
    q := Some(p);
  }

  function ModeOf(inq: bool, insq: bool): Mode {
    if inq then InQ else if insq then InSq else Plain
  }

  // ---------------------------------------------------------------- the round trip

  /** Quoted forms joined by single spaces. */
  function Line(list: seq<Bytes>): Bytes {
    if list == [] then []
    else if |list| == 1 then Quoted(list[0])
    else Quoted(list[0]) + [SPACE] + Line(list[1..])
  }

  /** The escape of a byte is scanned back as that byte, whatever follows. */
  lemma EscapeScanned(b: Byte, rest: Bytes)
    ensures ScanStep(Escape(b) + rest, InQ) == More(InQ, [b], |Escape(b)|)
  {
    var s := Escape(b) + rest;
    assert forall i | 0 <= i < |Escape(b)| :: Peek(s, i) == Escape(b)[i];
  }

  /** The inside of a quoted string is scanned as the string, whatever follows. */
  lemma {:induction false} EscapedEaten(p: Bytes, rest: Bytes, current: Bytes)
    ensures Token(Escaped(p) + rest, InQ, current) == Token(rest, InQ, current + p)
    decreases |p|
  {
    hide Escape;
    var s := Escaped(p) + rest;
    if p == [] {
      assert s == rest && current + p == current;
    } else {
      var later := Escaped(p[1..]) + rest;
      assert s == Escape(p[0]) + later;
      EscapeScanned(p[0], later);
      assert s[|Escape(p[0])|..] == later;
      EscapedEaten(p[1..], rest, current + [p[0]]);
      assert current + [p[0]] + p[1..] == current + p;
    }
  }

  lemma QuotedScanned(p: Bytes, rest: Bytes)
    requires rest == [] || rest[0] == SPACE
    ensures Token(Quoted(p) + rest, Plain, []) == Some((p, rest))
    ensures SkipBlanks(Quoted(p) + rest) == Quoted(p) + rest && Peek(Quoted(p) + rest, 0) != 0
  {
    hide Escaped;
    var s := Quoted(p) + rest;
    var none: Bytes := [];
    var tail := [QUOTE] + rest;
    assert s[1..] == Escaped(p) + tail;
    assert ScanStep(s, Plain) == More(InQ, none, 1) && none + none == none;
    EscapedEaten(p, tail, none);
    assert none + p == p && tail[1..] == rest && Peek(tail, 1) == if rest == [] then 0 else SPACE;
  }

  /** Joining the printed forms of any byte strings with spaces and splitting the line gives the strings back. */
  lemma {:induction false} RoundTrip(list: seq<Bytes>)
    ensures Args(Line(list)) == Some(list)
    decreases |list|
  {
    hide Quoted, Token;
    if list != [] {
      var rest := if |list| == 1 then [] else [SPACE] + Line(list[1..]);
      assert Line(list) == Quoted(list[0]) + rest;
      QuotedScanned(list[0], rest);
      if |list| == 1 {
        assert list == [list[0]] + [];
      } else {
        RoundTrip(list[1..]);
        SpaceSkipped(Line(list[1..]));
        assert list == [list[0]] + list[1..];
      }
    }
  }

  lemma SpaceSkipped(s: Bytes)
    ensures Args([SPACE] + s) == Args(s)
  {
    assert ([SPACE] + s)[1..] == s;
  }
}
