/** The priority queue over a growing vector (src/rmutil/priority_queue.c, src/rmutil/vector.c). */
module PriorityQueues {
  import opened Orders
  import opened Heaps

  class PriorityQueue<T(0, !new)> {
    const cmp: Compare<T>
    var data: array<T>
    var top: nat

    ghost predicate Valid()
      reads this, data
    {
      TotalOrder(cmp) && top <= data.Length && IsHeap(cmp, data[..], 0, top)
    }

    ghost function Contents(): multiset<T>
      requires top <= data.Length
      reads this, data
    {
      multiset(data[..top])
    }

    constructor (cmp: Compare<T>, cap: nat)
      requires TotalOrder(cmp)
      ensures this.cmp == cmp && Valid() && fresh(data) && Contents() == multiset{}
    {
      this.cmp, top := cmp, 0;
      data := new T[cap];
    }

    /** Priority_Queue_Size. */
    method Size() returns (n: nat)
      requires Valid()
      ensures n == |Contents()|
    {
      n := top;
    }

    /** Vector_Resize to a larger capacity. */
    method Grow(cap: nat)
      requires top <= data.Length <= cap
      modifies `data
      ensures fresh(data) && data.Length == cap && data[..top] == old(data[..top])
    {
      var bigger := new T[cap];
      for i := 0 to top
        invariant top == old(top)
        invariant data == old(data) && i <= data.Length && bigger[..i] == data[..i]
      {
        bigger[i] := data[i];
      }
      data := bigger;
    }

    /** Priority_Queue_Top: a greatest element. */
    method Top() returns (x: Option<T>)
      requires Valid()
      ensures if top == 0 then x == None else x.Some? && Greatest(cmp, x.value, Contents()) && x.value == data[0]
    {
      if top == 0 {
        return None;
      }
      x := Some(data[0]);
      forall y | y in Contents() ensures cmp(data[0], y) >= 0 {
        var i: nat :| i < top && data[..top][i] == y;
        FirstGreatest(cmp, data[..], 0, top, i);
      }
      assert data[..top][0] in data[..top];
    }

    /** Priority_Queue_Push. */
    method Push(elem: T)
      requires Valid()
      modifies this, data
      ensures Valid() && Contents() == old(Contents()) + multiset{elem} && (data == old(data) || fresh(data))
    {
      hide TotalOrder;
      ghost var was := data[..top];
      if top == data.Length {
        Grow(if data.Length > 0 then data.Length * 2 else 1);
      }
      HeapPrefix(cmp, old(data[..]), data[..], top);
      data[top] := elem;
      top := top + 1;
      assert data[..top] == was + [elem];
      HeapPrefix(cmp, old(data[..]), data[..], top - 1);
      Sift();
    }

    /** Heap_Push on the vector's elements. */
    method Sift()
      requires TotalOrder(cmp) && 0 < top <= data.Length && IsHeap(cmp, data[..], 0, top - 1)
      modifies data
      ensures Valid() && Contents() == old(Contents())
    {
      hide TotalOrder;
      ghost var was := data[..];
      SiftUp(data, 0, top, cmp);
      SameFront(was, data[..], top);
    }

    /** Priority_Queue_Pop. */
    method Pop()
      requires Valid()
      modifies `top, data
      ensures Valid()
      ensures old(top) == 0 ==> top == 0
      ensures old(top) > 0 ==> top == old(top) - 1 && Contents() == old(Contents()) - multiset{old(data[0])}
    {
      hide TotalOrder;
      if top == 0 {
        return;
      }
      ghost var was := data[..];
      HeapPop(data, 0, top, cmp);
      SameFront(was, data[..], top);
      assert data[..top] == data[..top - 1] + [data[top - 1]];
      top := top - 1;
    }

    /** Popping until the queue is empty. */
    method Drain() returns (out: seq<T>)
      requires Valid()
      modifies `top, data
      ensures Valid() && top == 0 && multiset(out) == old(Contents())
      ensures forall i, j | 0 <= i < j < |out| :: cmp(out[i], out[j]) >= 0
    {
      hide TotalOrder, IsHeap, Greatest;
      out := [];
      while top > 0
        invariant Valid() && multiset(out) + Contents() == old(Contents())
        invariant forall i, j | 0 <= i < j < |out| :: cmp(out[i], out[j]) >= 0
        invariant forall x | x in out :: Greatest(cmp, x, Contents())
        decreases top
      {
        var x := Top();
        ghost var left := Contents();
        assert data[..top][0] in left;
        Pop();
        DrainStep(cmp, out, x.value, left, Contents());
        out := out + [x.value];
      }
    }
  }

  /** A greatest element taken out goes to the end of those taken out before. */
  lemma DrainStep<T(!new)>(cmp: Compare<T>, out: seq<T>, x: T, left: multiset<T>, left': multiset<T>)
    requires forall i, j | 0 <= i < j < |out| :: cmp(out[i], out[j]) >= 0
    requires forall y | y in out :: Greatest(cmp, y, left)
    requires Greatest(cmp, x, left) && x in left && left' == left - multiset{x}
    ensures forall i, j | 0 <= i < j < |out + [x]| :: cmp((out + [x])[i], (out + [x])[j]) >= 0
    ensures forall y | y in out + [x] :: Greatest(cmp, y, left')
    ensures multiset(out + [x]) + left' == multiset(out) + left
  {
    var out' := out + [x];
    forall y | y in out' ensures Greatest(cmp, y, left') {
      assert y in out || y == x;
      forall z | z in left' ensures cmp(y, z) >= 0 { assert z in left; }
    }
    forall i, j | 0 <= i < j < |out'| ensures cmp(out'[i], out'[j]) >= 0 {
      if j == |out| { assert out[i] in out; }
    }
  }

  /** No element is greater than x. */
  ghost predicate Greatest<T>(cmp: Compare<T>, x: T, s: multiset<T>) {
    forall y | y in s :: cmp(x, y) >= 0
  }

  lemma HeapPrefix<T(!new)>(cmp: Compare<T>, s: seq<T>, s': seq<T>, n: nat)
    requires n <= |s| && n <= |s'| && s'[..n] == s[..n] && IsHeap(cmp, s, 0, n)
    ensures IsHeap(cmp, s', 0, n)
  {
    forall i | 0 < i < n ensures cmp(s'[Up(0, i)], s'[i]) >= 0 {
      assert s'[..n][i] == s[..n][i] && s'[..n][Up(0, i)] == s[..n][Up(0, i)];
    }
  }

  /** Rearranging the whole while leaving its end alone rearranges its front. */
  lemma SameFront<T>(s: seq<T>, s': seq<T>, n: nat)
    requires n <= |s| == |s'| && multiset(s') == multiset(s) && s'[n..] == s[n..]
    ensures multiset(s'[..n]) == multiset(s[..n])
  {
    assert s == s[..n] + s[n..] && s' == s'[..n] + s'[n..];
    var a, b, c := multiset(s[..n]), multiset(s'[..n]), multiset(s[n..]);
    assert a + c == b + c;
    assert a == (a + c) - c && b == (b + c) - c;
  }
}
