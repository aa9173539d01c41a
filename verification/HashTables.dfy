/** The abstract state of an open-addressing table and what its steps do to it (src/util/khash.h). */
module HashTables {
  import opened Orders
  import opened Probing

  /** A bucket: never used, deleted, or holding an entry. */
  datatype Slot<+K, +V> = Free | Dead | Live(key: K, val: V)

  function LiveCount<K, V>(slots: seq<Slot<K, V>>): (c: nat)
    ensures c <= |slots|
  {
    if slots == [] then 0 else LiveCount(slots[1..]) + if slots[0].Live? then 1 else 0
  }

  /** Buckets that are not free: the entries and the tombstones. */
  function UsedCount<K, V>(slots: seq<Slot<K, V>>): (c: nat)
    ensures LiveCount(slots) <= c <= |slots|
  {
    if slots == [] then 0 else UsedCount(slots[1..]) + if slots[0].Free? then 0 else 1
  }

  lemma {:induction false} CountsUpdate<K, V>(slots: seq<Slot<K, V>>, i: nat, x: Slot<K, V>)
    requires i < |slots|
    ensures LiveCount(slots[i := x]) ==
            LiveCount(slots) - (if slots[i].Live? then 1 else 0) + (if x.Live? then 1 else 0)
    ensures UsedCount(slots[i := x]) ==
            UsedCount(slots) - (if slots[i].Free? then 0 else 1) + (if x.Free? then 0 else 1)
  {
    if i > 0 {
      CountsUpdate(slots[1..], i - 1, x);
      assert slots[i := x][1..] == slots[1..][i - 1 := x];
    }
  }

  /** As long as not every bucket is used, some bucket is free. */
  lemma {:induction false} SomeFree<K, V>(slots: seq<Slot<K, V>>) returns (i: nat)
    requires UsedCount(slots) < |slots|
    ensures i < |slots| && slots[i].Free?
  {
    if slots[0].Free? {
      i := 0;
    } else {
      var j := SomeFree(slots[1..]);
      i := j + 1;
    }
  }

  lemma {:induction false} AllFree<K, V>(slots: seq<Slot<K, V>>)
    requires forall i | 0 <= i < |slots| :: slots[i].Free?
    ensures LiveCount(slots) == UsedCount(slots) == 0
  {
    if slots != [] { AllFree(slots[1..]); }
  }

  lemma {:induction false} NoneLive<K, V>(slots: seq<Slot<K, V>>)
    requires forall i | 0 <= i < |slots| :: !slots[i].Live?
    ensures LiveCount(slots) == 0
  {
    if slots != [] { NoneLive(slots[1..]); }
  }

  /**
   * A table's buckets, and for each key the bucket that holds it, the number of probe steps
   * that lead there, and its value.
   */
  datatype Table<!K, V> = Table(
    hash: K -> nat, slots: seq<Slot<K, V>>, at: map<K, nat>, dist: map<K, nat>, m: map<K, V>)

  /** Every key is held by exactly one bucket, and every live bucket holds a key of the map. */
  ghost predicate Indexed<K, V>(t: Table<K, V>) {
    match t
    case Table(hash, slots, at, dist, m) =>
      && |slots| > 1 && at.Keys == m.Keys
      && (forall k | k in m :: at[k] < |slots| && slots[at[k]] == Live(k, m[k]))
      && (forall i | 0 <= i < |slots| && slots[i].Live? :: slots[i].key in m && at[slots[i].key] == i)
      && |m| == LiveCount(slots)
  }

  /** The probe path of every key reaches its bucket before any free one. */
  ghost predicate Reachable<K, V>(t: Table<K, V>) {
    match t
    case Table(hash, slots, at, dist, m) =>
      && |slots| > 1 && at.Keys == dist.Keys
      && (forall k | k in at :: dist[k] < |slots| && Probe(hash(k), |slots|, dist[k]) == at[k])
      && (forall k, s | k in at && 0 <= s < dist[k] :: !slots[Probe(hash(k), |slots|, s)].Free?)
  }

  ghost predicate Good<K, V>(t: Table<K, V>) {
    Indexed(t) && Reachable(t)
  }

  lemma GoodKey<K, V>(t: Table<K, V>, k: K)
    requires Good(t) && k in t.m
    ensures |t.slots| > 1 && k in t.at && k in t.dist
    ensures t.at[k] < |t.slots| && t.slots[t.at[k]] == Live(k, t.m[k])
    ensures t.dist[k] < |t.slots| && Probe(t.hash(k), |t.slots|, t.dist[k]) == t.at[k]
    ensures forall s | 0 <= s < t.dist[k] :: !t.slots[Probe(t.hash(k), |t.slots|, s)].Free?
  {
  }

  lemma GoodSlot<K, V>(t: Table<K, V>, i: nat)
    requires Good(t) && i < |t.slots| && t.slots[i].Live?
    ensures t.slots[i].key in t.m && t.slots[i].key in t.at && t.at[t.slots[i].key] == i
    ensures t.m[t.slots[i].key] == t.slots[i].val
  {
  }

  lemma GoodCounts<K, V>(t: Table<K, V>)
    requires Good(t)
    ensures |t.slots| > 1 && |t.m| == LiveCount(t.slots) <= UsedCount(t.slots) <= |t.slots|
  {
  }

  lemma EmptyGood<K, V>(hash: K -> nat, slots: seq<Slot<K, V>>)
    requires |slots| > 1 && forall i | 0 <= i < |slots| :: slots[i].Free?
    ensures Good(Table(hash, slots, map[], map[], map[]))
  {
    AllFree(slots);
  }

  /** The first steps of the probe path of k meet neither a free bucket nor k itself. */
  ghost predicate Passed<K, V>(t: Table<K, V>, k: K, steps: nat) {
    match t
    case Table(hash, slots, at, dist, m) =>
      && |slots| > 1
      && forall s | 0 <= s < steps ::
        var x := slots[Probe(hash(k), |slots|, s)];
        !x.Free? && !(x.Live? && x.key == k)
  }

  lemma PassedStep<K, V>(t: Table<K, V>, k: K, steps: nat)
    requires |t.slots| > 1
    ensures Passed(t, k, 0)
    ensures Passed(t, k, steps) ==>
              var x := t.slots[Probe(t.hash(k), |t.slots|, steps)];
              (!x.Free? && !(x.Live? && x.key == k) <==> Passed(t, k, steps + 1))
  {
  }

  lemma PassedAt<K, V>(t: Table<K, V>, k: K, steps: nat, s: nat)
    requires Passed(t, k, steps) && s < steps
    ensures |t.slots| > 1
    ensures var x := t.slots[Probe(t.hash(k), |t.slots|, s)]; !x.Free? && !(x.Live? && x.key == k)
  {
  }

  /** A probe that passes to a free bucket, or round the whole table, shows the key absent. */
  lemma Absent<K, V>(t: Table<K, V>, k: K, steps: nat)
    requires Good(t) && Passed(t, k, steps) && |t.slots| > 1
    requires steps == |t.slots| || t.slots[Probe(t.hash(k), |t.slots|, steps)].Free?
    ensures k !in t.m
  {
    hide Indexed, Reachable, Passed;
    if k in t.m {
      GoodKey(t, k);
      if t.dist[k] < steps { PassedAt(t, k, steps, t.dist[k]); }
    }
  }

  /** With a free bucket left, no probe path passes all the way round. */
  lemma NotAround<K, V>(t: Table<K, V>, k: K)
    requires Passed(t, k, |t.slots|) && IsPrime(|t.slots|)
    ensures UsedCount(t.slots) == |t.slots|
  {
    hide Passed, IsPrime;
    if UsedCount(t.slots) < |t.slots| {
      var i := SomeFree(t.slots);
      var s := FullCycle(t.hash(k), |t.slots|, i);
      PassedAt(t, k, |t.slots|, s);
    }
  }

  /** The table with a new entry in bucket i, reached in d steps. */
  ghost function Placed<K, V>(t: Table<K, V>, k: K, v: V, i: nat, d: nat): Table<K, V>
    requires i < |t.slots|
  {
    Table(t.hash, t.slots[i := Live(k, v)], t.at[k := i], t.dist[k := d], t.m[k := v])
  }

  lemma PlaceGood<K, V>(t: Table<K, V>, k: K, v: V, i: nat, d: nat)
    requires Good(t) && k !in t.m && i < |t.slots| && !t.slots[i].Live?
    requires Passed(t, k, d) && d < |t.slots| && Probe(t.hash(k), |t.slots|, d) == i
    ensures Good(Placed(t, k, v, i, d))
    ensures UsedCount(Placed(t, k, v, i, d).slots) == UsedCount(t.slots) + if t.slots[i].Free? then 1 else 0
  {
    hide Indexed, Reachable, Passed, Probe;
    CountsUpdate(t.slots, i, Live(k, v));
    PlaceIndexed(t, k, v, i, d);
    PlaceReachable(t, k, v, i, d);
  }

  lemma PlaceIndexed<K, V>(t: Table<K, V>, k: K, v: V, i: nat, d: nat)
    requires Indexed(t) && k !in t.m && i < |t.slots| && !t.slots[i].Live?
    requires LiveCount(t.slots[i := Live(k, v)]) == LiveCount(t.slots) + 1
    ensures Indexed(Placed(t, k, v, i, d))
  {
    hide LiveCount;
    var t' := Placed(t, k, v, i, d);
    MapGrows(t.m, k, v);
    forall x | x in t'.m ensures t'.at[x] < |t'.slots| && t'.slots[t'.at[x]] == Live(x, t'.m[x]) {
      assert x != k ==> x in t.m && t.at[x] != i;
    }
    forall j | 0 <= j < |t'.slots| && t'.slots[j].Live? ensures t'.slots[j].key in t'.m && t'.at[t'.slots[j].key] == j {
      assert j != i ==> t.slots[j].key in t.m;
    }
  }

  lemma MapGrows<K, V>(m: map<K, V>, k: K, v: V)
    requires k !in m
    ensures |m[k := v]| == |m| + 1
  {
    assert m[k := v].Keys == m.Keys + {k};
    assert |m[k := v]| == |m[k := v].Keys| && |m| == |m.Keys|;
  }

  lemma MapShrinks<K, V>(m: map<K, V>, k: K)
    requires k in m
    ensures |m - {k}| == |m| - 1
  {
    assert (m - {k}).Keys == m.Keys - {k};
    assert |m - {k}| == |(m - {k}).Keys| && |m| == |m.Keys|;
  }

  lemma PlaceReachable<K, V>(t: Table<K, V>, k: K, v: V, i: nat, d: nat)
    requires Reachable(t) && i < |t.slots|
    requires Passed(t, k, d) && d < |t.slots| && Probe(t.hash(k), |t.slots|, d) == i
    ensures Reachable(Placed(t, k, v, i, d))
  {
    hide Probe;
  }

  /** The table with the entry of k deleted. */
  ghost function Killed<K, V>(t: Table<K, V>, k: K): Table<K, V>
    requires k in t.at && t.at[k] < |t.slots|
  {
    Table(t.hash, t.slots[t.at[k] := Dead], t.at - {k}, t.dist - {k}, t.m - {k})
  }

  lemma KillGood<K, V>(t: Table<K, V>, k: K)
    requires Good(t) && k in t.m
    ensures k in t.at && t.at[k] < |t.slots| && Good(Killed(t, k))
    ensures UsedCount(Killed(t, k).slots) == UsedCount(t.slots)
  {
    hide Indexed, Reachable;
    GoodKey(t, k);
    CountsUpdate(t.slots, t.at[k], Dead);
    KillIndexed(t, k);
    KillReachable(t, k);
  }

  lemma KillIndexed<K, V>(t: Table<K, V>, k: K)
    requires Indexed(t) && k in t.m && k in t.at && t.at[k] < |t.slots|
    requires LiveCount(t.slots[t.at[k] := Dead]) == LiveCount(t.slots) - 1
    ensures Indexed(Killed(t, k))
  {
    hide LiveCount;
    var t', i := Killed(t, k), t.at[k];
    MapShrinks(t.m, k);
    forall x | x in t'.m ensures t'.at[x] < |t'.slots| && t'.slots[t'.at[x]] == Live(x, t'.m[x]) {
      assert x in t.m && t.at[x] != i;
    }
    forall j | 0 <= j < |t'.slots| && t'.slots[j].Live? ensures t'.slots[j].key in t'.m && t'.at[t'.slots[j].key] == j {
      assert t.slots[j].key in t.m && t.slots[j].key != k;
    }
  }

  lemma KillReachable<K, V>(t: Table<K, V>, k: K)
    requires Reachable(t) && k in t.at && t.at[k] < |t.slots|
    ensures Reachable(Killed(t, k))
  {
    hide Probe;
  }

  /** The table with another value for k. */
  ghost function Revalued<K, V>(t: Table<K, V>, k: K, v: V): Table<K, V>
    requires k in t.at && t.at[k] < |t.slots|
  {
    Table(t.hash, t.slots[t.at[k] := Live(k, v)], t.at, t.dist, t.m[k := v])
  }

  lemma RevalueGood<K, V>(t: Table<K, V>, k: K, v: V)
    requires Good(t) && k in t.m
    ensures k in t.at && t.at[k] < |t.slots| && Good(Revalued(t, k, v))
    ensures UsedCount(Revalued(t, k, v).slots) == UsedCount(t.slots)
  {
    hide Reachable, LiveCount, UsedCount;
    CountsUpdate(t.slots, t.at[k], Live(k, v));
    SameKeysSize(t.m, t.m[k := v]);
    RevalueReachable(t, k, v);
  }

  lemma RevalueReachable<K, V>(t: Table<K, V>, k: K, v: V)
    requires Reachable(t) && k in t.at && t.at[k] < |t.slots|
    ensures Reachable(Revalued(t, k, v))
  {
    hide Probe;
  }

  lemma SameKeysSize<K, V>(a: map<K, V>, b: map<K, V>)
    requires a.Keys == b.Keys
    ensures |a| == |b|
  {
    assert |a| == |a.Keys| && |b| == |b.Keys|;
  }

  // ---------------------------------------------------------------- rehashing in place

  /**
   * Midway through a rehash: the table it began with, what is left of the old buckets,
   * the new table so far, and the evicted entry still in hand.
   */
  datatype Move<!K, V> = Move(src: Table<K, V>, left: seq<Slot<K, V>>, dst: Table<K, V>, hand: Option<(K, V)>)

  ghost function HandSize<K, V>(s: Move<K, V>): nat { if s.hand.Some? then 1 else 0 }

  /** Every entry of the source is in exactly one place: its old bucket, the new table, or the hand. */
  ghost predicate Conserved<K, V>(s: Move<K, V>) {
    match s
    case Move(src, left, dst, hand) =>
      && |left| == |src.slots| && dst.hash == src.hash
      && (forall i | 0 <= i < |left| :: left[i] == src.slots[i] || (src.slots[i].Live? && left[i].Dead?))
      && (forall k | k in dst.m :: k in src.m && k in src.at && src.at[k] < |left|
                                   && dst.m[k] == src.m[k] && left[src.at[k]].Dead?)
      && (hand.Some? ==> var k := hand.value.0;
            && k in src.m && k in src.at && src.at[k] < |left| && k !in dst.m
            && hand.value.1 == src.m[k] && left[src.at[k]].Dead?)
      && (forall k | k in src.m :: k in src.at && src.at[k] < |left|
            && (k in dst.m || left[src.at[k]].Live? || (hand.Some? && hand.value.0 == k)))
  }

  /** The new table has no tombstones, and no bucket holds an old and a new entry at once. */
  ghost predicate Apart<K, V>(s: Move<K, V>) {
    match s
    case Move(src, left, dst, hand) =>
      && UsedCount(dst.slots) == |dst.m|
      && LiveCount(left) + |dst.m| + HandSize(s) == |src.m|
      && forall i | 0 <= i < |left| && i < |dst.slots| :: !(left[i].Live? && dst.slots[i].Live?)
  }

  lemma MoveStart<K, V>(src: Table<K, V>, dst: Table<K, V>)
    requires (Good(src) || (src.slots == [] && src.m == map[])) && Good(dst) && dst.m == map[] && dst.hash == src.hash
    requires forall i | 0 <= i < |dst.slots| :: dst.slots[i].Free?
    ensures Conserved(Move(src, src.slots, dst, None)) && Apart(Move(src, src.slots, dst, None))
  {
    hide Reachable;
    AllFree(dst.slots);
  }

  /** Taking up an old entry. */
  ghost function PickedUp<K, V>(s: Move<K, V>, j: nat): Move<K, V>
    requires j < |s.left| && s.left[j].Live?
  {
    Move(s.src, s.left[j := Dead], s.dst, Some((s.left[j].key, s.left[j].val)))
  }

  lemma PickUp<K, V>(s: Move<K, V>, j: nat)
    requires Good(s.src) && Conserved(s) && Apart(s) && s.hand == None
    requires j < |s.left| && s.left[j].Live?
    ensures Conserved(PickedUp(s, j)) && Apart(PickedUp(s, j))
    ensures LiveCount(PickedUp(s, j).left) == LiveCount(s.left) - 1
  {
    hide Good, Conserved, Apart, PickedUp, UsedCount, LiveCount;
    PickUpApart(s, j);
    PickUpConserved(s, j);
  }

  lemma PickUpApart<K, V>(s: Move<K, V>, j: nat)
    requires Apart(s) && s.hand == None && j < |s.left| && s.left[j].Live?
    ensures Apart(PickedUp(s, j)) && LiveCount(PickedUp(s, j).left) == LiveCount(s.left) - 1
  {
    hide UsedCount, LiveCount;
    CountsUpdate(s.left, j, Dead);
  }

  lemma PickUpConserved<K, V>(s: Move<K, V>, j: nat)
    requires Good(s.src) && Conserved(s) && s.hand == None
    requires j < |s.left| && s.left[j].Live?
    ensures Conserved(PickedUp(s, j))
  {
    hide Indexed, Reachable;
    var src, k := s.src, s.left[j].key;
    assert s.left[j] == src.slots[j];
    GoodSlot(src, j);
    forall x | x in src.m && x != k ensures src.at[x] != j {
      GoodKey(src, x);
    }
  }

  /** Putting the entry in hand into a free new bucket whose old bucket holds nothing. */
  ghost function PutDown<K, V>(s: Move<K, V>, i: nat, d: nat): Move<K, V>
    requires s.hand.Some? && i < |s.dst.slots|
  {
    Move(s.src, s.left, Placed(s.dst, s.hand.value.0, s.hand.value.1, i, d), None)
  }

  lemma PutDownKeeps<K, V>(s: Move<K, V>, i: nat, d: nat)
    requires Good(s.dst) && Conserved(s) && Apart(s) && s.hand.Some?
    requires i < |s.dst.slots| && s.dst.slots[i].Free? && (i < |s.left| ==> !s.left[i].Live?)
    requires UsedCount(Placed(s.dst, s.hand.value.0, s.hand.value.1, i, d).slots) == UsedCount(s.dst.slots) + 1
    ensures Conserved(PutDown(s, i, d)) && Apart(PutDown(s, i, d))
  {
    hide Indexed, Reachable, LiveCount, UsedCount;
    MapGrows(s.dst.m, s.hand.value.0, s.hand.value.1);
  }

  /** Putting it into a free new bucket whose old bucket is still live: that entry is evicted into the hand. */
  ghost function Swapped<K, V>(s: Move<K, V>, i: nat, d: nat): Move<K, V>
    requires s.hand.Some? && i < |s.dst.slots| && i < |s.left| && s.left[i].Live?
  {
    PutDown(s, i, d).(left := s.left[i := Dead], hand := Some((s.left[i].key, s.left[i].val)))
  }

  lemma SwapKeeps<K, V>(s: Move<K, V>, i: nat, d: nat)
    requires Good(s.src) && Good(s.dst) && Conserved(s) && Apart(s) && s.hand.Some?
    requires i < |s.dst.slots| && s.dst.slots[i].Free? && i < |s.left| && s.left[i].Live?
    requires UsedCount(Placed(s.dst, s.hand.value.0, s.hand.value.1, i, d).slots) == UsedCount(s.dst.slots) + 1
    ensures Conserved(Swapped(s, i, d)) && Apart(Swapped(s, i, d))
    ensures LiveCount(Swapped(s, i, d).left) == LiveCount(s.left) - 1
  {
    hide Good, Conserved, Apart, Swapped, Placed, LiveCount, UsedCount;
    SwapApart(s, i, d);
    SwapConserved(s, i, d);
  }

  lemma SwapApart<K, V>(s: Move<K, V>, i: nat, d: nat)
    requires Good(s.dst) && Conserved(s) && Apart(s) && s.hand.Some?
    requires i < |s.dst.slots| && s.dst.slots[i].Free? && i < |s.left| && s.left[i].Live?
    requires UsedCount(Placed(s.dst, s.hand.value.0, s.hand.value.1, i, d).slots) == UsedCount(s.dst.slots) + 1
    ensures Apart(Swapped(s, i, d))
    ensures LiveCount(Swapped(s, i, d).left) == LiveCount(s.left) - 1
  {
    hide Good, Indexed, Reachable, LiveCount, UsedCount;
    CountsUpdate(s.left, i, Dead);
    MapGrows(s.dst.m, s.hand.value.0, s.hand.value.1);
  }

  lemma SwapConserved<K, V>(s: Move<K, V>, i: nat, d: nat)
    requires Good(s.src) && Conserved(s) && s.hand.Some?
    requires i < |s.dst.slots| && i < |s.left| && s.left[i].Live?
    ensures Conserved(Swapped(s, i, d))
  {
    hide Indexed, Reachable;
    var src := s.src;
    assert s.left[i] == src.slots[i];
    GoodSlot(src, i);
    forall x | x in src.m && x != s.left[i].key ensures src.at[x] != i {
      GoodKey(src, x);
    }
  }

  /** When nothing is left in the old buckets or the hand, the new table holds the whole map. */
  lemma MoveEnd<K, V>(s: Move<K, V>)
    requires Conserved(s) && s.hand == None
    requires forall i | 0 <= i < |s.left| :: !s.left[i].Live?
    ensures s.dst.m == s.src.m
  {
    forall k | k in s.src.m ensures k in s.dst.m {}
  }

  /** The new table always has a free bucket for the entry in hand. */
  lemma RoomInNew<K, V>(s: Move<K, V>)
    requires Apart(s) && |s.src.m| < |s.dst.slots|
    ensures UsedCount(s.dst.slots) < |s.dst.slots|
  {
  }
}
