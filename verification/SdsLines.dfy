/** Which lines are split into which arguments, and which are refused (src/rmutil/sds.c). */
module SdsLines {
  import opened Values
  import opened Orders
  import opened Sds

  /** A blank that ends a word; a vertical tab or a form feed does not. */
  predicate EndsWord(b: Byte) { b == SPACE || b == 9 || b == 10 || b == 13 }

  /** A word outside quotes. */
  predicate IsWord(w: Bytes) {
    && w != [] && !IsSpace(w[0])
    && forall i | 0 <= i < |w| :: w[i] != 0 && w[i] != QUOTE && w[i] != APOSTROPHE && !EndsWord(w[i])
  }

  /** What may follow a word or a closing quote: nothing, or blanks of which the first ends a word. */
  predicate IsGap(s: Bytes) {
    (s == [] || EndsWord(s[0])) && forall i | 0 <= i < |s| :: IsSpace(s[i])
  }

  lemma {:induction false} WordEaten(w: Bytes, rest: Bytes, current: Bytes)
    requires forall i | 0 <= i < |w| :: w[i] != 0 && w[i] != QUOTE && w[i] != APOSTROPHE && !EndsWord(w[i])
    ensures Token(w + rest, Plain, current) == Token(rest, Plain, current + w)
    decreases |w|
  {
    if w == [] {
      assert w + rest == rest && current + w == current;
    } else {
      var s := w + rest;
      assert s[1..] == w[1..] + rest && current + w == current + [w[0]] + w[1..];
      assert ScanStep(s, Plain) == More(Plain, [w[0]], 1);
      WordEaten(w[1..], rest, current + [w[0]]);
    }
  }

  /** Leading blanks, of any kind, count for nothing. */
  lemma {:induction false} BlanksSkipped(gap: Bytes, s: Bytes)
    requires forall i | 0 <= i < |gap| :: IsSpace(gap[i])
    ensures SkipBlanks(gap + s) == SkipBlanks(s) && Args(gap + s) == Args(s)
    decreases |gap|
  {
    if gap == [] {
      assert gap + s == s;
    } else {
      assert (gap + s)[1..] == gap[1..] + s;
      BlanksSkipped(gap[1..], s);
    }
  }

  /** Words, each followed by the gap that comes after it. */
  function Spaced(parts: seq<(Bytes, Bytes)>): Bytes {
    if parts == [] then [] else parts[0].0 + parts[0].1 + Spaced(parts[1..])
  }

  function Words(parts: seq<(Bytes, Bytes)>): seq<Bytes> {
    seq(|parts|, i requires 0 <= i < |parts| => parts[i].0)
  }

  /** A line of plain words is split at the blanks between them; only the last word needs none after it. */
  lemma {:induction false} WordsSplit(parts: seq<(Bytes, Bytes)>)
    requires forall i | 0 <= i < |parts| ::
               IsWord(parts[i].0) && IsGap(parts[i].1) && (parts[i].1 == [] ==> i == |parts| - 1)
    ensures Args(Spaced(parts)) == Some(Words(parts))
    decreases |parts|
  {
    hide Token, IsGap;
    if parts != [] {
      var (w, gap) := parts[0];
      var later := Spaced(parts[1..]);
      var s := Spaced(parts);
      WordsSplit(parts[1..]);
      assert Words(parts) == [w] + Words(parts[1..]);
      assert s == w + (gap + later);
      assert SkipBlanks(s) == s && Peek(s, 0) != 0;
      WordTaken(w, gap, later);
    }
  }

  lemma WordTaken(w: Bytes, gap: Bytes, later: Bytes)
    requires IsWord(w) && IsGap(gap) && (gap == [] ==> later == [])
    ensures Token(w + (gap + later), Plain, []).Some?
    ensures var (t, rest) := Token(w + (gap + later), Plain, []).value; t == w && Args(rest) == Args(later)
  {
    var rest, none: Bytes := gap + later, [];
    WordEaten(w, rest, none);
    assert none + w == w;
    if gap != [] {
      assert rest[1..] == gap[1..] + later;
      BlanksSkipped(gap[1..], later);
    }
  }

  // ---------------------------------------------------------------- single quotes

  /** A string as it stands in single quotes: only a single quote needs a backslash. */
  function SingleEscaped(p: Bytes): Bytes {
    if p == [] then []
    else (if p[0] == APOSTROPHE then [BACKSLASH, APOSTROPHE] else [p[0]]) + SingleEscaped(p[1..])
  }

  function SingleQuoted(p: Bytes): Bytes {
    [APOSTROPHE] + SingleEscaped(p) + [APOSTROPHE]
  }

  /** No NUL, and no backslash that a single quote would follow. */
  predicate Singly(p: Bytes) {
    0 !in p && forall i | 0 <= i < |p| && p[i] == BACKSLASH :: i + 1 < |p| && p[i + 1] != APOSTROPHE
  }

  lemma {:induction false} SingleEaten(p: Bytes, rest: Bytes, current: Bytes)
    requires Singly(p)
    ensures Token(SingleEscaped(p) + rest, InSq, current) == Token(rest, InSq, current + p)
    decreases |p|
  {
    var s := SingleEscaped(p) + rest;
    if p == [] {
      assert s == rest && current + p == current;
    } else {
      var later := SingleEscaped(p[1..]) + rest;
      assert p[0] in p && forall b | b in p[1..] :: b in p;
      assert Singly(p[1..]) by {
        forall i | 0 <= i < |p| - 1 && p[1..][i] == BACKSLASH
          ensures i + 1 < |p[1..]| && p[1..][i + 1] != APOSTROPHE
        {
          assert p[i + 1] == BACKSLASH;
        }
      }
      assert s == (if p[0] == APOSTROPHE then [BACKSLASH, APOSTROPHE] else [p[0]]) + later;
      assert p[0] == BACKSLASH ==> later[0] != APOSTROPHE;
      assert ScanStep(s, InSq) == More(InSq, [p[0]], if p[0] == APOSTROPHE then 2 else 1);
      assert s[if p[0] == APOSTROPHE then 2 else 1..] == later;
      SingleEaten(p[1..], rest, current + [p[0]]);
      assert current + [p[0]] + p[1..] == current + p;
    }
  }

  // ---------------------------------------------------------------- quotes and what follows them

  /** Whether a line in quotes is an argument depends on what follows: a blank, or nothing. */
  predicate MayFollow(rest: Bytes) {
    rest == [] || rest[0] == 0 || IsSpace(rest[0])
  }

  /** A quoted string is one argument if a blank or nothing follows; otherwise the line is refused. */
  lemma QuotedArgument(p: Bytes, rest: Bytes)
    ensures Token(Quoted(p) + rest, Plain, []) == if MayFollow(rest) then Some((p, rest)) else None
    ensures Singly(p) ==>
              Token(SingleQuoted(p) + rest, Plain, []) == if MayFollow(rest) then Some((p, rest)) else None
    ensures !MayFollow(rest) ==> Args(Quoted(p) + rest) == None
    ensures !MayFollow(rest) && Singly(p) ==> Args(SingleQuoted(p) + rest) == None
  {
    hide Escaped, SingleEscaped, Singly;
    var none: Bytes := [];
    assert none + p == p;
    var s, s' := Quoted(p) + rest, SingleQuoted(p) + rest;
    assert s[1..] == Escaped(p) + ([QUOTE] + rest) && s'[1..] == SingleEscaped(p) + ([APOSTROPHE] + rest);
    assert ScanStep(s, Plain) == More(InQ, none, 1) && ScanStep(s', Plain) == More(InSq, none, 1);
    assert none + none == none;
    EscapedEaten(p, [QUOTE] + rest, none);
    Closed(QUOTE, rest);
    if Singly(p) {
      SingleEaten(p, [APOSTROPHE] + rest, none);
      Closed(APOSTROPHE, rest);
    }
  }

  lemma Closed(q: Byte, rest: Bytes)
    requires q == QUOTE || q == APOSTROPHE
    ensures ScanStep([q] + rest, if q == QUOTE then InQ else InSq) == if MayFollow(rest) then Done(rest) else Fail
  {
    var s := [q] + rest;
    assert s[1..] == rest && (rest != [] ==> s[1] == rest[0]);
  }

  /** A quote that nothing closes is refused. */
  lemma UnterminatedRefused(p: Bytes)
    ensures Args([QUOTE] + Escaped(p)) == None
    ensures Singly(p) ==> Args([APOSTROPHE] + SingleEscaped(p)) == None
  {
    hide Escaped, SingleEscaped, Singly;
    var none: Bytes := [];
    var s, s' := [QUOTE] + Escaped(p), [APOSTROPHE] + SingleEscaped(p);
    assert s[1..] == Escaped(p) + none && s'[1..] == SingleEscaped(p) + none;
    assert ScanStep(s, Plain) == More(InQ, none, 1) && ScanStep(s', Plain) == More(InSq, none, 1);
    assert none + none == none;
    EscapedEaten(p, none, none);
    if Singly(p) { SingleEaten(p, none, none); }
  }

  // ---------------------------------------------------------------- what is printed

  const LOWER_DIGITS := "0123456789abcdef"
  const UPPER_DIGITS := "0123456789ABCDEF"

  /** A hexadecimal digit in either case. */
  predicate DigitOf(b: Byte, d: nat) {
    d < 16 && (b == LOWER_DIGITS[d] as int || b == UPPER_DIGITS[d] as int)
  }

  /** Inside double quotes two hexadecimal digits, each in either case, are read as the byte with that number. */
  lemma HexScanned(h: nat, l: nat, b: Byte, c: Byte, rest: Bytes)
    requires DigitOf(b, h) && DigitOf(c, l)
    ensures ScanStep([BACKSLASH, LETTER_X, b, c] + rest, InQ) == More(InQ, [16 * h + l], 4)
  {
    DigitRead(b, h);
    DigitRead(c, l);
    var s := [BACKSLASH, LETTER_X, b, c] + rest;
    assert Peek(s, 0) == BACKSLASH && Peek(s, 1) == LETTER_X && Peek(s, 2) == b && Peek(s, 3) == c;
  }

  lemma DigitRead(b: Byte, d: nat)
    requires DigitOf(b, d)
    ensures IsHexDigit(b) && HexDigitToInt(b) == d
  {
    assert LOWER_DIGITS[d] as int == if d < 10 then 48 + d else 87 + d;
    assert UPPER_DIGITS[d] as int == if d < 10 then 48 + d else 55 + d;
  }

  /** Whatever bytes a string has, its quoted form consists of printable ones. */
  lemma {:induction false} QuotedPrints(p: Bytes)
    ensures forall b | b in Escaped(p) + [QUOTE] :: IsPrint(b)
    ensures forall b | b in Quoted(p) :: IsPrint(b)
    decreases |p|
  {
    if p != [] { QuotedPrints(p[1..]); }
  }
}
