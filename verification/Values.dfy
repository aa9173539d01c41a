/** Typed values and their comparators (src/value.h, src/key.h, src/key.c). */
module Values {

  type Byte = b: int | 0 <= b < 256

  /** A tagged value. Inf and NegInf occur only as query bounds. */
  datatype Value =
    | Null
    | Inf
    | NegInf
    | Str(str: seq<Byte>)
    | Int32(intval: int)
    | Int64(longval: int)
    | Uint(uintval: int)
    | Bool(boolval: int)
    | Float(floatval: real)
    | Double(doubleval: real)
    | Time(timeval: int)

  /** The comparators a column can be given. */
  datatype CmpFunc = CmpString | CmpInt | CmpLong | CmpUint | CmpFloat | CmpDouble | CmpTime

  /** tolower in the C locale. */
  function Fold(b: Byte): Byte {
    if 65 <= b <= 90 then b + 32 else b
  }

  /** strncasecmp over the common length of a and b: it stops at a difference, or at a NUL in both. */
  function StrNCaseCmp(a: seq<Byte>, b: seq<Byte>): int {
    if a == [] || b == [] then 0
    else if Fold(a[0]) != Fold(b[0]) then Fold(a[0]) - Fold(b[0])
    else if a[0] == 0 then 0
    else StrNCaseCmp(a[1..], b[1..])
  }

  function CmpStrings(a: seq<Byte>, b: seq<Byte>): int {
    var cmp := StrNCaseCmp(a, b);
    if cmp == 0 && |a| != |b| then (if |a| > |b| then 1 else -1) else cmp
  }

  /** The union member a numeric comparator reads. A value of another type is outside the model and reads as zero. */
  function Member(f: CmpFunc, v: Value): real {
    match (f, v)
    case (CmpInt, Int32(i)) => i as real
    case (CmpInt, Bool(i)) => i as real
    case (CmpLong, Int64(i)) => i as real
    case (CmpUint, Uint(i)) => i as real
    case (CmpTime, Time(i)) => i as real
    case (CmpFloat, Float(r)) => r
    case (CmpDouble, Double(r)) => r
    case _ => 0.0
  }

  function StringMember(v: Value): seq<Byte> {
    if v.Str? then v.str else []
  }

  /** Comparison of two ordinary values, after the special values have been dealt with. */
  function CmpOrdinary(f: CmpFunc, a: Value, b: Value): int {
    if f.CmpString? then CmpStrings(StringMember(a), StringMember(b))
    else if Member(f, a) < Member(f, b) then -1
    else if Member(f, a) > Member(f, b) then 1
    else 0
  }

  /** A typed comparator: NULL first, then the infinities, then the ordinary values. */
  function Cmp(f: CmpFunc, a: Value, b: Value): int {
    if a.Null? then (if b.Null? then 0 else 1)
    else if b.Null? then -1
    else if a.Inf? || b.NegInf? then 1
    else if b.Inf? || a.NegInf? then -1
    else CmpOrdinary(f, a, b)
  }

  /** A value that can be stored in an index. */
  predicate Storable(v: Value) {
    !v.Inf? && !v.NegInf?
  }

  lemma {:induction false} StringsAntisymmetric(a: seq<Byte>, b: seq<Byte>)
    ensures CmpStrings(a, b) < 0 <==> CmpStrings(b, a) > 0
    ensures CmpStrings(a, b) == 0 <==> CmpStrings(b, a) == 0
  {
    if a != [] && b != [] && Fold(a[0]) == Fold(b[0]) && a[0] != 0 {
      StringsAntisymmetric(a[1..], b[1..]);
    }
  }

  lemma {:induction false} StringsTransitive(a: seq<Byte>, b: seq<Byte>, c: seq<Byte>)
    requires CmpStrings(a, b) <= 0 && CmpStrings(b, c) <= 0
    ensures CmpStrings(a, c) <= 0
    ensures CmpStrings(a, b) < 0 || CmpStrings(b, c) < 0 ==> CmpStrings(a, c) < 0
  {
    if a != [] && b != [] && c != [] && a[0] != 0
       && Fold(a[0]) == Fold(b[0]) == Fold(c[0]) {
      StringsTransitive(a[1..], b[1..], c[1..]);
    }
  }

  /** Two strings are equal under the comparator when they agree, case aside, up to a NUL and have one length. */
  lemma {:induction false} StringsEqual(a: seq<Byte>, b: seq<Byte>)
    ensures CmpStrings(a, b) == 0 <==>
            |a| == |b| && forall i | 0 <= i < |a| && 0 !in a[..i] :: Fold(a[i]) == Fold(b[i])
  {
    if |a| == |b| && a != [] {
      if Fold(a[0]) != Fold(b[0]) {
        assert 0 !in a[..0];
      } else if a[0] == 0 {
        forall i | 0 < i < |a| ensures 0 in a[..i] { assert a[..i][0] == 0; }
      } else {
        StringsEqual(a[1..], b[1..]);
        forall i | 0 < i < |a| ensures 0 in a[..i] <==> 0 in a[1..][..i - 1] {
          assert a[..i] == [a[0]] + a[1..][..i - 1];
        }
        if CmpStrings(a, b) == 0 {
          forall i | 0 <= i < |a| && 0 !in a[..i] ensures Fold(a[i]) == Fold(b[i]) {
            if i > 0 { assert a[1..][i - 1] == a[i] && b[1..][i - 1] == b[i]; }
          }
        } else {
          var j :| 0 <= j < |a| - 1 && 0 !in a[1..][..j] && Fold(a[1..][j]) != Fold(b[1..][j]);
          assert a[j + 1] == a[1..][j] && b[j + 1] == b[1..][j];
        }
      }
    }
  }

  // ---------------------------------------------------------------- the orders themselves

  /** Every comparator of whole numbers orders the values of its type by size. */
  lemma IntegersInOrder(a: int, b: int)
    ensures (Cmp(CmpInt, Int32(a), Int32(b)) < 0 <==> a < b) && (Cmp(CmpInt, Int32(a), Int32(b)) == 0 <==> a == b)
    ensures (Cmp(CmpInt, Bool(a), Bool(b)) < 0 <==> a < b) && (Cmp(CmpInt, Bool(a), Bool(b)) == 0 <==> a == b)
    ensures (Cmp(CmpLong, Int64(a), Int64(b)) < 0 <==> a < b) && (Cmp(CmpLong, Int64(a), Int64(b)) == 0 <==> a == b)
    ensures (Cmp(CmpUint, Uint(a), Uint(b)) < 0 <==> a < b) && (Cmp(CmpUint, Uint(a), Uint(b)) == 0 <==> a == b)
    ensures (Cmp(CmpTime, Time(a), Time(b)) < 0 <==> a < b) && (Cmp(CmpTime, Time(a), Time(b)) == 0 <==> a == b)
  {
  }

  lemma RealsInOrder(x: real, y: real)
    ensures (Cmp(CmpFloat, Float(x), Float(y)) < 0 <==> x < y) && (Cmp(CmpFloat, Float(x), Float(y)) == 0 <==> x == y)
    ensures (Cmp(CmpDouble, Double(x), Double(y)) < 0 <==> x < y)
    ensures (Cmp(CmpDouble, Double(x), Double(y)) == 0 <==> x == y)
  {
  }

  const UPPER_CASE := "ABCDEFGHIJKLMNOPQRSTUVWXYZ"
  const LOWER_CASE := "abcdefghijklmnopqrstuvwxyz"

  /** Two bytes are one letter, in upper and in lower case. */
  predicate CaseOf(upper: Byte, lower: Byte) {
    exists i | 0 <= i < 26 :: UPPER_CASE[i] as int == upper && LOWER_CASE[i] as int == lower
  }

  /** c is b, or the lower case of the letter b. */
  predicate LowerOf(b: Byte, c: Byte) {
    if exists l: Byte :: CaseOf(b, l) then CaseOf(b, c) else c == b
  }

  /** Two bytes are equal, case aside. */
  predicate SameLetter(a: Byte, b: Byte) {
    exists c: Byte :: LowerOf(a, c) && LowerOf(b, c)
  }

  /** Bytes are compared in lower case, and only letters have one. */
  lemma FoldIsLowerCase(b: Byte, c: Byte)
    ensures LowerOf(b, c) <==> Fold(b) == c
  {
    assert forall i | 0 <= i < 26 :: UPPER_CASE[i] as int == 65 + i && LOWER_CASE[i] as int == 97 + i;
    if 65 <= b <= 90 {
      assert UPPER_CASE[b - 65] as int == b && LOWER_CASE[b - 65] as int == b + 32;
      assert CaseOf(b, b + 32);
    }
  }

  lemma SameFold(a: Byte, b: Byte)
    ensures SameLetter(a, b) <==> Fold(a) == Fold(b)
  {
    hide LowerOf;
    FoldIsLowerCase(a, Fold(a));
    FoldIsLowerCase(b, Fold(a));
    forall c: Byte ensures (LowerOf(a, c) <==> Fold(a) == c) && (LowerOf(b, c) <==> Fold(b) == c) {
      FoldIsLowerCase(a, c);
      FoldIsLowerCase(b, c);
    }
  }

  /**
   * Two strings are compared by the lower case of the first bytes in which they differ, case aside; where they do not
   * differ up to the end of one, or up to a NUL in both, by their lengths.
   */
  lemma {:induction false} StringsInOrder(a: seq<Byte>, b: seq<Byte>) returns (i: nat, x: Byte, y: Byte)
    ensures i <= |a| && i <= |b|
    ensures forall j | 0 <= j < i :: a[j] != 0 && SameLetter(a[j], b[j])
    ensures i < |a| && i < |b| ==> LowerOf(a[i], x) && LowerOf(b[i], y) && (x != y || a[i] == b[i] == 0)
    ensures i < |a| && i < |b| && x != y ==>
              (CmpStrings(a, b) < 0 <==> x < y) && (CmpStrings(a, b) == 0 <==> x == y)
    ensures i == |a| || i == |b| || x == y ==>
              (CmpStrings(a, b) < 0 <==> |a| < |b|) && (CmpStrings(a, b) == 0 <==> |a| == |b|)
  {
    hide LowerOf, SameLetter;
    i, x, y := 0, 0, 0;
    if a != [] && b != [] {
      x, y := Fold(a[0]), Fold(b[0]);
      FoldIsLowerCase(a[0], x);
      FoldIsLowerCase(b[0], y);
      if x == y && a[0] != 0 {
        var k;
        k, x, y := StringsInOrder(a[1..], b[1..]);
        i := k + 1;
        SameFold(a[0], b[0]);
        forall j | 0 < j < i ensures a[j] != 0 && SameLetter(a[j], b[j]) {
          assert a[j] == a[1..][j - 1] && b[j] == b[1..][j - 1];
        }
      }
    }
  }

  /** The comparator of strings compares the strings. */
  lemma StringsCompared(a: seq<Byte>, b: seq<Byte>)
    ensures Cmp(CmpString, Str(a), Str(b)) == CmpStrings(a, b)
  {
  }

  /** On stored values a comparator is a total preorder with NULL on top. */
  lemma CmpTotalPreorder(f: CmpFunc, a: Value, b: Value)
    requires Storable(a) && Storable(b)
    ensures Cmp(f, a, a) == 0
    ensures Cmp(f, a, b) < 0 <==> Cmp(f, b, a) > 0
    ensures Cmp(f, a, b) == 0 <==> Cmp(f, b, a) == 0
    ensures a.Null? ==> Cmp(f, b, a) <= 0
  {
    hide Member, StringMember, CmpStrings;
    StringsAntisymmetric(StringMember(a), StringMember(b));
    StringsAntisymmetric(StringMember(a), StringMember(a));
  }

  /** Comparison against any bound, infinities included, is monotone along the order of the stored values. */
  lemma CmpMonotone(f: CmpFunc, a: Value, b: Value, bound: Value)
    requires Storable(a) && Storable(b)
    requires Cmp(f, a, b) <= 0
    ensures Cmp(f, b, bound) <= 0 ==> Cmp(f, a, bound) <= 0
    ensures Cmp(f, b, bound) < 0 ==> Cmp(f, a, bound) < 0
    ensures Cmp(f, a, b) < 0 && Cmp(f, b, bound) <= 0 ==> Cmp(f, a, bound) < 0
  {
    hide CmpOrdinary;
    OrdinaryMonotone(f, a, b, bound);
  }

  lemma OrdinaryMonotone(f: CmpFunc, a: Value, b: Value, bound: Value)
    ensures CmpOrdinary(f, a, b) <= 0 && CmpOrdinary(f, b, bound) <= 0 ==> CmpOrdinary(f, a, bound) <= 0
    ensures CmpOrdinary(f, a, b) <= 0 && CmpOrdinary(f, b, bound) < 0 ==> CmpOrdinary(f, a, bound) < 0
    ensures CmpOrdinary(f, a, b) < 0 && CmpOrdinary(f, b, bound) <= 0 ==> CmpOrdinary(f, a, bound) < 0
  {
    hide Member, StringMember, CmpStrings;
    if f.CmpString? {
      var s, t, u := StringMember(a), StringMember(b), StringMember(bound);
      if CmpStrings(s, t) <= 0 && CmpStrings(t, u) <= 0 { StringsTransitive(s, t, u); }
    } else {
      RealsMonotone(Member(f, a), Member(f, b), Member(f, bound));
    }
  }

  lemma RealsMonotone(x: real, y: real, z: real)
    ensures x <= y && y <= z ==> x <= z
    ensures x <= y && y < z ==> x < z
    ensures x < y && y <= z ==> x < z
  {
  }

  /** The infinities bound every stored value on one side; only NULL lies outside the open interval. */
  lemma InfinitiesBound(f: CmpFunc, a: Value)
    requires Storable(a)
    ensures Cmp(f, a, NegInf) > 0
    ensures Cmp(f, a, Inf) < 0 <==> !a.Null?
    ensures Cmp(f, a, Inf) != 0
  {
  }
}
