/** The binary heap, sifted in place (src/rmutil/heap.c). */
module Heaps {
  import opened Orders

  /** The comparison of a heap: a total preorder. */
  ghost predicate TotalOrder<T(!new)>(cmp: Compare<T>) {
    && (forall x :: cmp(x, x) == 0)
    && (forall x, y :: cmp(x, y) < 0 <==> cmp(y, x) > 0)
    && (forall x, y, z {:trigger cmp(x, y), cmp(y, z)} :: cmp(x, y) >= 0 && cmp(y, z) >= 0 ==> cmp(x, z) >= 0)
  }

  lemma AtLeast<T(!new)>(cmp: Compare<T>, x: T, y: T, z: T)
    requires TotalOrder(cmp)
    ensures cmp(x, x) == 0 && (cmp(x, y) < 0 <==> cmp(y, x) > 0) && (cmp(x, y) > 0 <==> cmp(y, x) < 0)
    ensures cmp(x, y) >= 0 && cmp(y, z) >= 0 ==> cmp(x, z) >= 0
    ensures cmp(x, y) < 0 ==> cmp(y, x) >= 0
  {
  }

  /** The place above a place of the range that begins at first. */
  function Up(first: nat, i: nat): (p: nat)
    requires i > first
    ensures first <= p < i
  {
    first + (i - first - 1) / 2
  }

  /** No element is above a greater one, as far as the places from k on are above it. */
  ghost predicate HeapFrom<T>(cmp: Compare<T>, s: seq<T>, first: nat, last: nat, k: nat)
    requires last <= |s|
  {
    forall i | first < i < last && Up(first, i) >= k :: cmp(s[Up(first, i)], s[i]) >= 0
  }

  ghost predicate IsHeap<T>(cmp: Compare<T>, s: seq<T>, first: nat, last: nat)
    requires last <= |s|
  {
    HeapFrom(cmp, s, first, last, first)
  }

  /** In a heap the first element is greatest. */
  lemma {:induction false} FirstGreatest<T(!new)>(cmp: Compare<T>, s: seq<T>, first: nat, last: nat, i: nat)
    requires TotalOrder(cmp) && first <= i < last <= |s| && IsHeap(cmp, s, first, last)
    ensures cmp(s[first], s[i]) >= 0
    decreases i
  {
    hide TotalOrder;
    AtLeast(cmp, s[first], s[first], s[first]);
    if i > first {
      FirstGreatest(cmp, s, first, last, Up(first, i));
      AtLeast(cmp, s[first], s[Up(first, i)], s[i]);
    }
  }

  /** Exchanging two elements keeps the multiset. */
  lemma Exchanged<T>(s: seq<T>, i: nat, j: nat)
    requires i < |s| && j < |s|
    ensures multiset(s[i := s[j]][j := s[i]]) == multiset(s)
  {
  }

  /** The hole moves from h to j: what was at j goes to h, and t, which belongs in the hole, to j. */
  lemma HoleMoves<T>(s: seq<T>, h: nat, j: nat, t: T)
    requires h < |s| && j < |s| && h != j
    ensures multiset(s[h := s[j]][j := t]) == multiset(s[h := t])
  {
    var w := s[h := t];
    Exchanged(w, h, j);
    assert w[h := w[j]][j := w[h]] == s[h := s[j]][j := t];
  }

  // ---------------------------------------------------------------- sifting up

  /** A heap but for the element at h, which may be greater than the one above it. */
  ghost predicate RisesAt<T>(cmp: Compare<T>, s: seq<T>, first: nat, last: nat, h: nat)
    requires first <= h < last <= |s|
  {
    && (forall i | first < i < last && i != h :: cmp(s[Up(first, i)], s[i]) >= 0)
    && (h > first ==> forall i | first < i < last && Up(first, i) == h :: cmp(s[Up(first, h)], s[i]) >= 0)
  }

  lemma RiseStep<T(!new)>(cmp: Compare<T>, s: seq<T>, first: nat, last: nat, h: nat)
    requires TotalOrder(cmp) && first < h < last <= |s| && RisesAt(cmp, s, first, last, h)
    requires cmp(s[Up(first, h)], s[h]) < 0
    ensures var p := Up(first, h); RisesAt(cmp, s[h := s[p]][p := s[h]], first, last, p)
  {
    hide TotalOrder;
    var p := Up(first, h);
    var s' := s[h := s[p]][p := s[h]];
    AtLeast(cmp, s[p], s[h], s[h]);
    forall i | first < i < last && i != p ensures cmp(s'[Up(first, i)], s'[i]) >= 0 {
      if Up(first, i) == p && i != h { AtLeast(cmp, s[h], s[p], s[i]); }
    }
    if p > first {
      forall i | first < i < last && Up(first, i) == p ensures cmp(s'[Up(first, p)], s'[i]) >= 0 {
        if i != h { AtLeast(cmp, s[Up(first, p)], s[p], s[i]); }
      }
    }
  }

  /** One move of the hole up: what was above t comes down. */
  lemma RiseMove<T(!new)>(cmp: Compare<T>, s: seq<T>, first: nat, last: nat, h: nat, t: T)
    requires TotalOrder(cmp) && first < h < last <= |s| && RisesAt(cmp, s[h := t], first, last, h)
    requires cmp(s[Up(first, h)], t) < 0
    ensures var p := Up(first, h);
            var s' := s[h := s[p]];
            RisesAt(cmp, s'[p := t], first, last, p) && multiset(s'[p := t]) == multiset(s[h := t])
    ensures var s' := s[h := s[Up(first, h)]]; s'[..first] == s[..first] && s'[last..] == s[last..]
  {
    hide TotalOrder, RisesAt;
    var p, w := Up(first, h), s[h := t];
    RiseStep(cmp, w, first, last, h);
    HoleMoves(s, h, p, t);
    assert w[h := w[p]][p := w[h]] == s[h := s[p]][p := t];
  }

  lemma RiseEnds<T(!new)>(cmp: Compare<T>, s: seq<T>, first: nat, last: nat, h: nat)
    requires first <= h < last <= |s| && RisesAt(cmp, s, first, last, h)
    requires h > first ==> cmp(s[Up(first, h)], s[h]) >= 0
    ensures IsHeap(cmp, s, first, last)
  {
  }

  /** __sift_up. */
  method SiftUp<T(!new)>(v: array<T>, first: nat, last: nat, cmp: Compare<T>)
    requires TotalOrder(cmp) && first <= last <= v.Length
    requires last > first ==> IsHeap(cmp, v[..], first, last - 1)
    modifies v
    ensures IsHeap(cmp, v[..], first, last) && multiset(v[..]) == multiset(old(v[..]))
    ensures v[..first] == old(v[..first]) && v[last..] == old(v[last..])
  {
    hide TotalOrder, RisesAt;
    var len := last - first;
    if len <= 1 {
      return;
    }
    var h := last - 1;
    var p := first + (len - 2) / 2;
    RiseStarts(cmp, v[..], first, last);
    if cmp(v[p], v[h]) < 0 {
      Rise(v, first, last, cmp, h, p);
    } else {
      RiseEnds(cmp, v[..], first, last, h);
    }
  }

  /** The loop of __sift_up, with the last element in hand. */
  method Rise<T(!new)>(v: array<T>, first: nat, last: nat, cmp: Compare<T>, from: nat, above: nat)
    requires TotalOrder(cmp) && first < from < last <= v.Length && above == Up(first, from)
    requires RisesAt(cmp, v[..], first, last, from) && cmp(v[above], v[from]) < 0
    modifies v
    ensures IsHeap(cmp, v[..], first, last) && multiset(v[..]) == multiset(old(v[..]))
    ensures v[..first] == old(v[..first]) && v[last..] == old(v[last..])
  {
    hide TotalOrder, RisesAt, IsHeap;
    ghost var was := v[..];
    var h, p, t := from, above, v[from];
    assert was[h := t] == was;
    while true
      invariant first < h < last && p == Up(first, h) && cmp(v[p], t) < 0
      invariant RisesAt(cmp, v[..][h := t], first, last, h) && multiset(v[..][h := t]) == multiset(was)
      invariant v[..first] == was[..first] && v[last..] == was[last..]
      decreases h
    {
      RiseMove(cmp, v[..], first, last, h, t);
      PutAt(v, h, v[p]);
      h := p;
      if h == first {
        break;
      }
      p := Up(first, h);
      if !(cmp(v[p], t) < 0) {
        break;
      }
    }
    RiseEnds(cmp, v[..][h := t], first, last, h);
    PutAt(v, h, t);
  }

  /** memcpy of one element. */
  method PutAt<T>(v: array<T>, i: nat, x: T)
    requires i < v.Length
    modifies v
    ensures v[..] == old(v[..])[i := x]
    ensures forall a, b | 0 <= a <= b <= v.Length && (i < a || b <= i) :: v[a..b] == old(v[a..b])
  {
    v[i] := x;
  }

  lemma RiseStarts<T(!new)>(cmp: Compare<T>, s: seq<T>, first: nat, last: nat)
    requires first + 1 < last <= |s| && IsHeap(cmp, s, first, last - 1)
    ensures RisesAt(cmp, s, first, last, last - 1)
  {
  }

  // ---------------------------------------------------------------- sifting down

  /** A heap from start on but for the element at h, which may be less than those below it. */
  ghost predicate SinksAt<T>(cmp: Compare<T>, s: seq<T>, first: nat, last: nat, start: nat, h: nat)
    requires first <= start <= h < last <= |s|
  {
    && (forall i | first < i < last && Up(first, i) >= start && Up(first, i) != h :: cmp(s[Up(first, i)], s[i]) >= 0)
    && (h > start ==>
          && h > first && Up(first, h) >= start
          && forall i | first < i < last && Up(first, i) == h :: cmp(s[Up(first, h)], s[i]) >= 0)
  }

  /** c is the greater of the places below h. */
  ghost predicate GreaterBelow<T>(cmp: Compare<T>, s: seq<T>, first: nat, last: nat, h: nat, c: nat)
    requires last <= |s|
  {
    && first < c < last && Up(first, c) == h
    && forall i | first < i < last && Up(first, i) == h :: cmp(s[c], s[i]) >= 0
  }

  lemma SinkStep<T(!new)>(cmp: Compare<T>, s: seq<T>, first: nat, last: nat, start: nat, h: nat, c: nat)
    requires TotalOrder(cmp) && first <= start <= h < last <= |s| && SinksAt(cmp, s, first, last, start, h)
    requires GreaterBelow(cmp, s, first, last, h, c) && cmp(s[c], s[h]) >= 0
    ensures SinksAt(cmp, s[h := s[c]][c := s[h]], first, last, start, c)
  {
    hide TotalOrder;
    var s' := s[h := s[c]][c := s[h]];
    forall i | first < i < last && Up(first, i) >= start && Up(first, i) != c
      ensures cmp(s'[Up(first, i)], s'[i]) >= 0 {
      AtLeast(cmp, s[c], s[h], s[h]);
    }
  }

  /** The hole is where it belongs: nothing is below it, or nothing that is not less. */
  lemma SinkEnds<T(!new)>(cmp: Compare<T>, s: seq<T>, first: nat, last: nat, start: nat, h: nat, c: nat)
    requires TotalOrder(cmp) && first <= start <= h < last <= |s| && SinksAt(cmp, s, first, last, start, h)
    requires 2 * (h - first) + 1 < last - first ==> GreaterBelow(cmp, s, first, last, h, c) && cmp(s[c], s[h]) < 0
    ensures HeapFrom(cmp, s, first, last, start)
  {
    hide TotalOrder;
    forall i | first < i < last && Up(first, i) >= start ensures cmp(s[Up(first, i)], s[i]) >= 0 {
      if Up(first, i) == h {
        AtLeast(cmp, s[c], s[h], s[h]);
        AtLeast(cmp, s[h], s[c], s[i]);
      }
    }
  }

  /** The greater of the places below h, if there are any. */
  method GreaterChild<T(!new)>(v: array<T>, first: nat, last: nat, cmp: Compare<T>, h: nat) returns (c: nat)
    requires TotalOrder(cmp) && first <= h < last <= v.Length && 2 * (h - first) + 1 < last - first
    ensures h < c < last && GreaterBelow(cmp, v[..], first, last, h, c)
  {
    hide TotalOrder;
    var child := 2 * (h - first) + 1;
    if child + 1 < last - first && cmp(v[first + child], v[first + child + 1]) < 0 {
      child := child + 1;
    }
    c := first + child;
    forall i | first < i < last && Up(first, i) == h ensures cmp(v[c], v[i]) >= 0 {
      AtLeast(cmp, v[c], v[i], v[i]);
      AtLeast(cmp, v[i], v[c], v[c]);
      assert i == first + 2 * (h - first) + 1 || i == first + 2 * (h - first) + 2;
    }
  }

  /** One move of the hole down: the greater one below t comes up. */
  lemma SinkMove<T(!new)>(cmp: Compare<T>, s: seq<T>, first: nat, last: nat, start: nat, h: nat, c: nat, t: T)
    requires TotalOrder(cmp) && first <= start <= h < last <= |s| && SinksAt(cmp, s[h := t], first, last, start, h)
    requires GreaterBelow(cmp, s, first, last, h, c) && cmp(s[c], t) >= 0
    ensures var s' := s[h := s[c]];
            SinksAt(cmp, s'[c := t], first, last, start, c) && multiset(s'[c := t]) == multiset(s[h := t])
  {
    hide TotalOrder, SinksAt;
    var w := s[h := t];
    SinkStep(cmp, w, first, last, start, h, c);
    HoleMoves(s, h, c, t);
    assert w[h := w[c]][c := w[h]] == s[h := s[c]][c := t];
  }

  lemma SinkStarts<T(!new)>(cmp: Compare<T>, s: seq<T>, first: nat, last: nat, start: nat)
    requires first <= start < last <= |s| && HeapFrom(cmp, s, first, last, start + 1)
    ensures SinksAt(cmp, s, first, last, start, start) && s[start := s[start]] == s
  {
  }

  /** __sift_down. */
  method SiftDown<T(!new)>(v: array<T>, first: nat, last: nat, cmp: Compare<T>, start: nat)
    requires TotalOrder(cmp) && first <= start < last <= v.Length
    requires HeapFrom(cmp, v[..], first, last, start + 1)
    modifies v
    ensures HeapFrom(cmp, v[..], first, last, start) && multiset(v[..]) == multiset(old(v[..]))
    ensures v[..first] == old(v[..first]) && v[last..] == old(v[last..])
  {
    hide TotalOrder, SinksAt, HeapFrom, GreaterBelow;
    var len := last - first;
    SinkStarts(cmp, v[..], first, last, start);
    if len < 2 || (len - 2) / 2 < start - first {
      SinkEnds(cmp, v[..], first, last, start, start, start);
      return;
    }
    var c := GreaterChild(v, first, last, cmp, start);
    if cmp(v[c], v[start]) < 0 {
      SinkEnds(cmp, v[..], first, last, start, start, c);
      return;
    }
    Sink(v, first, last, cmp, start, c);
  }

  /** The loop of __sift_down, with the element at start in hand. */
  method Sink<T(!new)>(v: array<T>, first: nat, last: nat, cmp: Compare<T>, start: nat, child: nat)
    requires TotalOrder(cmp) && first <= start < last <= v.Length && SinksAt(cmp, v[..], first, last, start, start)
    requires v[..][start := v[start]] == v[..] && start < child < last
    requires GreaterBelow(cmp, v[..], first, last, start, child) && cmp(v[child], v[start]) >= 0
    modifies v
    ensures HeapFrom(cmp, v[..], first, last, start) && multiset(v[..]) == multiset(old(v[..]))
    ensures v[..first] == old(v[..first]) && v[last..] == old(v[last..])
  {
    hide TotalOrder, SinksAt, HeapFrom, GreaterBelow;
    ghost var was := v[..];
    var h, c, top := start, child, v[start];
    while true
      invariant start <= h < c < last && SinksAt(cmp, v[..][h := top], first, last, start, h)
      invariant GreaterBelow(cmp, v[..], first, last, h, c) && cmp(v[c], top) >= 0
      invariant multiset(v[..][h := top]) == multiset(was)
      invariant v[..first] == was[..first] && v[last..] == was[last..]
      decreases last - h
    {
      SinkMove(cmp, v[..], first, last, start, h, c, top);
      PutAt(v, h, v[c]);
      h := c;
      if (last - first - 2) / 2 < h - first {
        break;
      }
      c := GreaterChild(v, first, last, cmp, h);
      GreaterIs(cmp, v[..], first, last, h, c, top);
      if !(cmp(v[c], top) >= 0) {
        break;
      }
    }
    SinkEnds(cmp, v[..][h := top], first, last, start, h, c);
    PutAt(v, h, top);
  }

  /** What is below the hole does not depend on what is in it. */
  lemma GreaterIs<T(!new)>(cmp: Compare<T>, s: seq<T>, first: nat, last: nat, h: nat, c: nat, t: T)
    requires h < last <= |s| && GreaterBelow(cmp, s, first, last, h, c)
    ensures h < c < last && GreaterBelow(cmp, s[h := t], first, last, h, c)
  {
  }

  // ---------------------------------------------------------------- heaps

  /** Make_Heap. */
  method MakeHeap<T(!new)>(v: array<T>, first: nat, last: nat, cmp: Compare<T>)
    requires TotalOrder(cmp) && first <= last <= v.Length
    modifies v
    ensures IsHeap(cmp, v[..], first, last) && multiset(v[..]) == multiset(old(v[..]))
    ensures v[..first] == old(v[..first]) && v[last..] == old(v[last..])
  {
    hide TotalOrder;
    if last - first > 1 {
      var start := (last - first - 2) / 2;
      while start >= 0
        invariant -1 <= start < last - first && HeapFrom(cmp, v[..], first, last, first + start + 1)
        invariant multiset(v[..]) == multiset(old(v[..])) && v[..first] == old(v[..first]) &&
                  v[last..] == old(v[last..])
      {
        SiftDown(v, first, last, cmp, first + start);
        start := start - 1;
      }
    }
  }

  /** Heap_Pop: the greatest element goes to the end, the others stay a heap. */
  method HeapPop<T(!new)>(v: array<T>, first: nat, last: nat, cmp: Compare<T>)
    requires TotalOrder(cmp) && first <= last <= v.Length && IsHeap(cmp, v[..], first, last)
    modifies v
    ensures last > first ==> IsHeap(cmp, v[..], first, last - 1) && v[last - 1] == old(v[first])
    ensures multiset(v[..]) == multiset(old(v[..])) && v[..first] == old(v[..first]) && v[last..] == old(v[last..])
  {
    hide TotalOrder;
    if last - first > 1 {
      ghost var was := v[..];
      Exchanged(was, first, last - 1);
      v[first], v[last - 1] := v[last - 1], v[first];
      assert v[..] == was[first := was[last - 1]][last - 1 := was[first]];
      ghost var tail := v[last - 1..];
      assert tail[0] == was[first] && tail[1..] == was[last..];
      SiftDown(v, first, last - 1, cmp, first);
      assert v[last - 1] == v[last - 1..][0] && v[last..] == v[last - 1..][1..];
    }
  }
}
