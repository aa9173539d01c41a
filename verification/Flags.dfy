/** The packed 2-bit bucket flags of khash (src/util/khash.h): bit 1 means empty, bit 0 means deleted. */
module Flags {

  const ONE: bv32 := 1
  const TWO: bv32 := 2
  const THREE: bv32 := 3

  // ---------------------------------------------------------------- one word

  /** The two bits at shift s. */
  function Field(w: bv32, s: bv32): bv32
    requires s <= 30
  {
    (w >> s) & 3
  }

  function ClearBoth(w: bv32, s: bv32): bv32
    requires s <= 30
  {
    w & !(THREE << s)
  }

  function ClearEmpty(w: bv32, s: bv32): bv32
    requires s <= 30
  {
    w & !(TWO << s)
  }

  function SetDel(w: bv32, s: bv32): bv32
    requires s <= 30
  {
    w | (ONE << s)
  }

  // Each write changes the two bits of its own bucket as it should, and those of no other.

  lemma ClearedBoth(w: bv32, s: bv32, t: bv32)
    requires s <= 30 && t <= 30 && s & 1 == 0 && t & 1 == 0
    ensures Field(ClearBoth(w, s), t) == if s == t then 0 else Field(w, t)
  {
  }

  lemma ClearedEmpty(w: bv32, s: bv32, t: bv32)
    requires s <= 30 && t <= 30 && s & 1 == 0 && t & 1 == 0
    ensures Field(ClearEmpty(w, s), t) == if s == t then Field(w, t) & 1 else Field(w, t)
  {
  }

  lemma DelSet(w: bv32, s: bv32, t: bv32)
    requires s <= 30 && t <= 30 && s & 1 == 0 && t & 1 == 0
    ensures Field(SetDel(w, s), t) == if s == t then Field(w, t) | 1 else Field(w, t)
  {
  }

  // ---------------------------------------------------------------- the flag array

  /** The shift of bucket i inside its word. */
  function Shift(i: nat): (s: bv32)
    ensures s <= 30 && s & 1 == 0
  {
    [0, 2, 4, 6, 8, 10, 12, 14, 16, 18, 20, 22, 24, 26, 28, 30][i % 16]
  }

  lemma ShiftsDiffer(i: nat, j: nat)
    requires i / 16 == j / 16 && i != j
    ensures Shift(i) != Shift(j)
  {
  }

  function WordCount(n: nat): nat { n / 16 + 1 }

  /** memset to 0xaa: every bucket empty and not deleted. */
  const ALL_EMPTY: bv32 := 0xaaaaaaaa

  function Bits(words: seq<bv32>, i: nat): bv32
    requires i / 16 < |words|
  {
    Field(words[i / 16], Shift(i))
  }

  predicate IsEmpty(words: seq<bv32>, i: nat)
    requires i / 16 < |words|
  {
    Bits(words, i) & 2 != 0
  }

  predicate IsDel(words: seq<bv32>, i: nat)
    requires i / 16 < |words|
  {
    Bits(words, i) & 1 != 0
  }

  predicate IsEither(words: seq<bv32>, i: nat)
    requires i / 16 < |words|
  {
    Bits(words, i) & 3 != 0
  }

  lemma EmptyField(s: bv32)
    requires s <= 30 && s & 1 == 0
    ensures Field(ALL_EMPTY, s) == 2
  {
  }

  /** Clearing both bits of bucket i makes it live and leaves every other bucket alone. */
  lemma BothCleared(words: seq<bv32>, i: nat, j: nat)
    requires i / 16 < |words| && j / 16 < |words|
    ensures var after := words[i / 16 := ClearBoth(words[i / 16], Shift(i))];
            Bits(after, j) == if i == j then 0 else Bits(words, j)
  {
    hide Shift, Field, ClearBoth;
    ClearedBoth(words[i / 16], Shift(i), Shift(j));
    if i / 16 == j / 16 && i != j { ShiftsDiffer(i, j); }
  }

  /** Clearing the empty bit of bucket i keeps its deleted bit and every other bucket. */
  lemma EmptyCleared(words: seq<bv32>, i: nat, j: nat)
    requires i / 16 < |words| && j / 16 < |words|
    ensures var after := words[i / 16 := ClearEmpty(words[i / 16], Shift(i))];
            Bits(after, j) == if i == j then Bits(words, j) & 1 else Bits(words, j)
  {
    hide Shift, Field, ClearEmpty;
    ClearedEmpty(words[i / 16], Shift(i), Shift(j));
    if i / 16 == j / 16 && i != j { ShiftsDiffer(i, j); }
  }

  /** Setting the deleted bit of bucket i keeps its empty bit and every other bucket. */
  lemma DelMarked(words: seq<bv32>, i: nat, j: nat)
    requires i / 16 < |words| && j / 16 < |words|
    ensures var after := words[i / 16 := SetDel(words[i / 16], Shift(i))];
            Bits(after, j) == if i == j then Bits(words, j) | 1 else Bits(words, j)
  {
    hide Shift, Field, SetDel;
    DelSet(words[i / 16], Shift(i), Shift(j));
    if i / 16 == j / 16 && i != j { ShiftsDiffer(i, j); }
  }
}
