/** The hash table itself: flag, key and value arrays (src/util/khash.h). */
module KHashes {
  import opened Orders
  import opened Flags
  import opened Probing
  import opened PrimeTable
  import opened HashTables

  // ---------------------------------------------------------------- arrays that show slots

  /** Flag words, keys and values as they lie in the arrays. */
  datatype Raw<K, V> = Raw(words: seq<bv32>, keys: seq<K>, vals: seq<V>)

  function Code<K, V>(x: Slot<K, V>): bv32 {
    match x case Free => 2 case Dead => 1 case Live(_, _) => 0
  }

  /** The arrays show these buckets. */
  ghost predicate Shows<K, V>(raw: Raw<K, V>, slots: seq<Slot<K, V>>) {
    match raw
    case Raw(words, keys, vals) =>
      && |keys| == |vals| >= |slots|
      && |words| >= WordCount(|slots|)
      && (forall i | 0 <= i < |slots| :: Bits(words, i) == Code(slots[i]))
      && (forall i | 0 <= i < |slots| && slots[i].Live? :: slots[i] == Live(keys[i], vals[i]))
  }

  lemma ShownAt<K, V>(raw: Raw<K, V>, slots: seq<Slot<K, V>>, i: nat)
    requires Shows(raw, slots) && i < |slots|
    ensures |raw.keys| == |raw.vals| >= |slots| && i / 16 < |raw.words|
    ensures IsEmpty(raw.words, i) <==> slots[i].Free?
    ensures IsDel(raw.words, i) <==> slots[i].Dead?
    ensures !IsEither(raw.words, i) <==> slots[i].Live?
    ensures slots[i].Live? ==> slots[i] == Live(raw.keys[i], raw.vals[i])
  {
    hide Field;
  }

  lemma ShowKill<K, V>(raw: Raw<K, V>, slots: seq<Slot<K, V>>, i: nat)
    requires Shows(raw, slots) && i < |slots| && slots[i].Live?
    ensures i / 16 < |raw.words|
    ensures var words := raw.words[i / 16 := SetDel(raw.words[i / 16], Shift(i))];
            Shows(raw.(words := words), slots[i := Dead])
  {
    hide Field, SetDel, Bits;
    forall j | 0 <= j < |slots| ensures j / 16 < |raw.words| { }
    var words := raw.words[i / 16 := SetDel(raw.words[i / 16], Shift(i))];
    forall j | 0 <= j < |slots| ensures Bits(words, j) == Code(slots[i := Dead][j]) {
      DelMarked(raw.words, i, j);
    }
  }

  lemma ShowFill<K, V>(raw: Raw<K, V>, slots: seq<Slot<K, V>>, i: nat, k: K, v: V)
    requires Shows(raw, slots) && i < |slots| && slots[i].Free?
    ensures i / 16 < |raw.words| && i < |raw.keys| == |raw.vals|
    ensures var words := raw.words[i / 16 := ClearEmpty(raw.words[i / 16], Shift(i))];
            Shows(Raw(words, raw.keys[i := k], raw.vals[i := v]), slots[i := Live(k, v)])
  {
    hide Field, ClearEmpty, Bits;
    forall j | 0 <= j < |slots| ensures j / 16 < |raw.words| { }
    var words := raw.words[i / 16 := ClearEmpty(raw.words[i / 16], Shift(i))];
    forall j | 0 <= j < |slots| ensures Bits(words, j) == Code(slots[i := Live(k, v)][j]) {
      EmptyCleared(raw.words, i, j);
    }
  }

  lemma ShowFillBoth<K, V>(raw: Raw<K, V>, slots: seq<Slot<K, V>>, i: nat, k: K, v: V)
    requires Shows(raw, slots) && i < |slots|
    ensures i / 16 < |raw.words| && i < |raw.keys| == |raw.vals|
    ensures var words := raw.words[i / 16 := ClearBoth(raw.words[i / 16], Shift(i))];
            Shows(Raw(words, raw.keys[i := k], raw.vals[i := v]), slots[i := Live(k, v)])
  {
    hide Field, ClearBoth, Bits;
    forall j | 0 <= j < |slots| ensures j / 16 < |raw.words| { }
    var words := raw.words[i / 16 := ClearBoth(raw.words[i / 16], Shift(i))];
    forall j | 0 <= j < |slots| ensures Bits(words, j) == Code(slots[i := Live(k, v)][j]) {
      BothCleared(raw.words, i, j);
    }
  }

  /** Writing a key and a value where no live bucket is does not show. */
  lemma ShowOther<K, V>(raw: Raw<K, V>, slots: seq<Slot<K, V>>, i: nat, k: K, v: V)
    requires Shows(raw, slots) && i < |raw.keys| == |raw.vals| && (i < |slots| ==> !slots[i].Live?)
    ensures Shows(raw.(keys := raw.keys[i := k], vals := raw.vals[i := v]), slots)
  {
    hide Bits;
  }

  /** Arrays of another length show the same buckets when the entries agree. */
  lemma ShowMoved<K, V>(raw: Raw<K, V>, keys: seq<K>, vals: seq<V>, slots: seq<Slot<K, V>>)
    requires Shows(raw, slots) && |keys| == |vals| >= |slots|
    requires keys[..|slots|] == raw.keys[..|slots|] && vals[..|slots|] == raw.vals[..|slots|]
    ensures Shows(raw.(keys := keys, vals := vals), slots)
  {
    hide Bits;
    forall i | 0 <= i < |slots| ensures keys[i] == raw.keys[i] && vals[i] == raw.vals[i] {
      assert keys[..|slots|][i] == raw.keys[..|slots|][i];
      assert vals[..|slots|][i] == raw.vals[..|slots|][i];
    }
  }

  lemma ShowFresh<K, V>(raw: Raw<K, V>, slots: seq<Slot<K, V>>)
    requires |raw.keys| == |raw.vals| >= |slots| && |raw.words| >= WordCount(|slots|)
    requires forall w | w in raw.words :: w == ALL_EMPTY
    requires forall i | 0 <= i < |slots| :: slots[i].Free?
    ensures Shows(raw, slots)
  {
    hide Field;
    forall i | 0 <= i < |slots| ensures Bits(raw.words, i) == Code(slots[i]) {
      assert raw.words[i / 16] in raw.words;
      EmptyField(Shift(i));
    }
  }

  /** The load bound: 0.77 of the buckets, rounded. */
  function Upper(n: nat): nat { (77 * n + 50) / 100 }

  // ---------------------------------------------------------------- the table

  class KHash<K(==, 0, !new), V(0)> {
    const hash: K -> nat
    var buckets: nat
    var size: nat
    var occupied: nat
    var upperBound: nat
    var flags: array<bv32>
    var keys: array<K>
    var vals: array<V>
    ghost var table: Table<K, V>   // the abstract state
    ghost var rank: nat            // the place of the bucket count among the primes

    ghost function Repr(): set<object>
      reads this
    {
      {this, flags, keys, vals}
    }

    /** The entries of the table. */
    ghost function Contents(): map<K, V>
      reads this
    {
      table.m
    }

    ghost predicate Shown()
      reads this, flags, keys, vals
    {
      && flags as object != keys && flags as object != vals && keys as object != vals
      && table.hash == hash && |table.slots| == buckets
      && Shows(Raw(flags[..], keys[..], vals[..]), table.slots)
    }

    /** The counters are exact, and the load bound leaves a free bucket. */
    ghost predicate Counted()
      reads this
    {
      && rank < PRIME_COUNT - 2 && buckets == SizeAt(rank)
      && size == |table.m| && occupied == UsedCount(table.slots)
      && (if buckets == 0 then table.m == map[] && upperBound == 0
          else upperBound == Upper(buckets) && occupied <= upperBound)
    }

    ghost predicate Valid()
      reads this, flags, keys, vals
    {
      Shown() && Counted() && (buckets > 0 ==> Good(table))
    }

    constructor (hash: K -> nat)
      ensures this.hash == hash && Valid() && Contents() == map[] && rank == 0 && fresh(Repr())
    {
      this.hash := hash;
      buckets, size, occupied, upperBound := 0, 0, 0, 0;
      var noFlags, noKeys, noVals := new bv32[1], new K[0], new V[0];
      flags, keys, vals := noFlags, noKeys, noVals;
      table, rank := Table(hash, [], map[], map[], map[]), 0;
    }

    lemma BucketsPrime()
      requires Counted() && buckets > 0
      ensures IsPrime(buckets) && buckets >= 3 && upperBound < buckets
    {
      hide IsPrime, SizeAt;
      SizesStart(0);
      SizesArePrime(rank);
      SizesStart(rank);
    }

    /** The flag macros, as read at one bucket. */
    lemma FlagsAt(i: nat)
      requires Shown() && i < buckets
      ensures i / 16 < flags.Length && i < keys.Length == vals.Length
      ensures IsEmpty(flags[..], i) <==> table.slots[i].Free?
      ensures IsDel(flags[..], i) <==> table.slots[i].Dead?
      ensures !IsEither(flags[..], i) <==> table.slots[i].Live?
      ensures table.slots[i].Live? ==> table.slots[i] == Live(keys[i], vals[i])
    {
      hide Shows, IsEmpty, IsDel, IsEither;
      ShownAt(Raw(flags[..], keys[..], vals[..]), table.slots, i);
    }

    /** A probe that is back where it began has gone round without meeting the key. */
    lemma GoneRound(key: K, steps: nat)
      requires Valid() && buckets > 0 && 0 < steps <= buckets && Passed(table, key, steps)
      ensures var i, inc := Probe(hash(key), buckets, steps - 1), Increment(hash(key), buckets);
              Probe(hash(key), buckets, steps) == if i + inc >= buckets then i + inc - buckets else i + inc
      ensures Probe(hash(key), buckets, steps) == Probe(hash(key), buckets, 0) <==> steps == buckets
      ensures steps == buckets ==> key !in Contents()
    {
      hide Shows, Indexed, Reachable, Passed, IsPrime, Increment, NextSlot, Probe, LiveCount, UsedCount, SizeAt, Upper;
      BucketsPrime();
      ProbeStep(hash(key), buckets, steps);
      if steps < buckets {
        ProbesDiffer(hash(key), buckets, 0, steps);
      } else {
        ProbeReturns(hash(key), buckets);
        Absent(table, key, buckets);
      }
    }

    /** kh_get: the bucket of the key, or the bucket count when it is absent. */
    method Get(key: K) returns (x: nat)
      requires Valid()
      ensures if key in Contents() then key in table.at && x == table.at[key] < buckets else x == buckets
      ensures x < buckets ==> x < keys.Length == vals.Length && keys[x] == key && vals[x] == Contents()[key]
    {
      hide Shows, IsEmpty, IsDel, IsEither, Good, Passed, IsPrime, Increment, NextSlot, SizeAt, LiveCount, UsedCount,
           Upper;
      if buckets == 0 {
        return 0;
      }
      BucketsPrime();
      var k := hash(key);
      var i, inc := k % buckets, Increment(k, buckets);
      var last := i;
      ghost var steps: nat := 0;
      PassedStep(table, key, 0);
      FlagsAt(i);
      while !IsEmpty(flags[..], i) && (IsDel(flags[..], i) || keys[i] != key)
        invariant Valid()
        invariant i < buckets && steps < buckets && i == Probe(k, buckets, steps) && last == Probe(k, buckets, 0)
        invariant Passed(table, key, steps)
        invariant i / 16 < flags.Length && i < keys.Length
        decreases buckets - steps
      {
        FlagsAt(i);
        PassedStep(table, key, steps);
        i := if i + inc >= buckets then i + inc - buckets else i + inc;
        steps := steps + 1;
        GoneRound(key, steps);
        if i == last {
          return buckets;
        }
        FlagsAt(i);
      }
      FlagsAt(i);
      if IsEither(flags[..], i) {
        Absent(table, key, steps);
        return buckets;
      }
      GoodSlot(table, i);
      return i;
    }

    /** kh_del: a live bucket becomes a tombstone; any other position is ignored. */
    method Del(x: nat)
      requires Valid() && x <= buckets
      modifies this, flags
      ensures Valid() && Repr() == old(Repr()) && buckets == old(buckets) && rank == old(rank)
      ensures if x < buckets && old(table.slots[x].Live?) then Contents() == old(Contents()) - {old(table.slots[x].key)}
              else Contents() == old(Contents())
    {
      hide Shows, IsEmpty, IsDel, IsEither, Indexed, Reachable, Upper, IsPrime, SizeAt;
      if x != buckets {
        FlagsAt(x);
        if !IsEither(flags[..], x) {
          GoodSlot(table, x);
          KillGood(table, table.slots[x].key);
          MapShrinks(table.m, table.slots[x].key);
          ShowKill(Raw(flags[..], keys[..], vals[..]), table.slots, x);
          ghost var words := flags[..];
          flags[x / 16] := SetDel(flags[x / 16], Shift(x));
          assert flags[..] == words[x / 16 := SetDel(words[x / 16], Shift(x))];
          table := Killed(table, table.slots[x].key);
          size := size - 1;
        }
      }
    }

    /** kh_value(h, x) = v. */
    method SetValue(x: nat, v: V)
      requires Valid() && x < buckets && table.slots[x].Live?
      modifies this`table, vals
      ensures Valid() && Repr() == old(Repr()) && buckets == old(buckets)
      ensures Contents() == old(Contents())[old(table.slots[x].key) := v]
    {
      hide Shows, Bits, Indexed, Reachable, Upper, IsPrime;
      FlagsAt(x);
      GoodSlot(table, x);
      RevalueGood(table, table.slots[x].key, v);
      SameKeysSize(table.m, table.m[table.slots[x].key := v]);
      ShowValue(Raw(flags[..], keys[..], vals[..]), table.slots, x, v);
      ghost var before := vals[..];
      vals[x] := v;
      assert vals[..] == before[x := v];
      table := Revalued(table, table.slots[x].key, v);
    }

    // ------------------------------------------------------------ rehashing

    /** The arrays midway through a rehash: both the old and the new flags show what is where. */
    ghost predicate Midway(nf: array<bv32>, s: Move<K, V>)
      reads this, flags, keys, vals, nf
    {
      && flags as object != keys && flags as object != vals && keys as object != vals
      && nf != flags && nf as object != keys && nf as object != vals
      && s.src == table && (buckets > 0 ==> Good(table)) && |s.left| == buckets
      && Good(s.dst) && Conserved(s) && Apart(s)
      && Shows(Raw(flags[..], keys[..], vals[..]), s.left)
      && Shows(Raw(nf[..], keys[..], vals[..]), s.dst.slots)
      && IsPrime(|s.dst.slots|) && size == |table.m| < |s.dst.slots|
    }

    /** The old buckets only ever lose entries. */
    static ghost predicate Shrinks(before: seq<Slot<K, V>>, after: seq<Slot<K, V>>) {
      |before| == |after| && forall i | 0 <= i < |before| && after[i].Live? :: before[i].Live?
    }

    /** The probe for a free new bucket. */
    method FindFree(nf: array<bv32>, n: nat, key: K, ghost s: Move<K, V>) returns (i: nat, ghost d: nat)
      requires Midway(nf, s) && n == |s.dst.slots| && s.dst.hash == hash && key !in s.dst.m
      ensures i < n && d < n && s.dst.slots[i].Free? && i == Probe(hash(key), n, d) && Passed(s.dst, key, d)
    {
      hide Shows, IsEmpty, IsDel, IsEither, Good, Passed, IsPrime, Increment, Conserved, Apart, LiveCount, UsedCount;
      RoomInNew(s);
      GoodCounts(s.dst);
      var k := hash(key);
      i := k % n;
      var inc := Increment(k, n);
      d := 0;
      PassedStep(s.dst, key, 0);
      ShownAt(Raw(nf[..], keys[..], vals[..]), s.dst.slots, i);
      while !IsEmpty(nf[..], i)
        invariant Midway(nf, s)
        invariant i < n && d < n && i == Probe(k, n, d) && Passed(s.dst, key, d)
        invariant i / 16 < nf.Length
        decreases n - d
      {
        ShownAt(Raw(nf[..], keys[..], vals[..]), s.dst.slots, i);
        if s.dst.slots[i].Live? { GoodSlot(s.dst, i); }
        PassedStep(s.dst, key, d);
        i := if i + inc >= n then i + inc - n else i + inc;
        d := d + 1;
        ProbeStep(k, n, d);
        if d == n { NotAround(s.dst, key); }
        ShownAt(Raw(nf[..], keys[..], vals[..]), s.dst.slots, i);
      }
      ShownAt(Raw(nf[..], keys[..], vals[..]), s.dst.slots, i);
    }

    /** Marking an old bucket as moved and taking its entry up. */
    method Take(nf: array<bv32>, j: nat, ghost s: Move<K, V>) returns (key: K, val: V, ghost s': Move<K, V>)
      requires Midway(nf, s) && s.hand == None && s.dst.hash == hash
      requires j < buckets && s.left[j].Live?
      modifies flags
      ensures Midway(nf, s') && s'.hand == Some((key, val)) && s'.dst == s.dst
      ensures s'.left == s.left[j := Dead]
    {
      hide Shows, Bits, SetDel, Indexed, Reachable, IsPrime, Conserved, Apart, LiveCount;
      var raw := Raw(flags[..], keys[..], vals[..]);
      ShownAt(raw, s.left, j);
      ShowKill(raw, s.left, j);
      PickUp(s, j);
      key, val := keys[j], vals[j];
      flags[j / 16] := SetDel(flags[j / 16], Shift(j));
      assert flags[..] == raw.words[j / 16 := SetDel(raw.words[j / 16], Shift(j))];
      s' := PickedUp(s, j);
    }

    /** Writing the entry in hand into a free new bucket where no old entry lies. */
    method Put1(nf: array<bv32>, i: nat, key: K, val: V, ghost d: nat, ghost s: Move<K, V>)
      returns (ghost s': Move<K, V>)
      requires Midway(nf, s) && s.hand == Some((key, val)) && s.dst.hash == hash && key !in s.dst.m
      requires i < |s.dst.slots| && s.dst.slots[i].Free? && (i < buckets ==> !s.left[i].Live?)
      requires d < |s.dst.slots| && i == Probe(hash(key), |s.dst.slots|, d) && Passed(s.dst, key, d)
      modifies nf, keys, vals
      ensures Midway(nf, s') && s' == PutDown(s, i, d)
    {
      hide Shows, Bits, ClearEmpty, Indexed, Reachable, IsPrime, Conserved, Apart, Passed, Probe, LiveCount;
      var words, ks, vs := nf[..], keys[..], vals[..];
      ShownAt(Raw(words, ks, vs), s.dst.slots, i);
      ShowFill(Raw(words, ks, vs), s.dst.slots, i, key, val);
      ShowOther(Raw(flags[..], ks, vs), s.left, i, key, val);
      PlaceGood(s.dst, key, val, i, d);
      PutDownKeeps(s, i, d);
      nf[i / 16] := ClearEmpty(nf[i / 16], Shift(i));
      keys[i] := key;
      vals[i] := val;
      assert nf[..] == words[i / 16 := ClearEmpty(words[i / 16], Shift(i))];
      assert keys[..] == ks[i := key] && vals[..] == vs[i := val];
      s' := PutDown(s, i, d);
    }

    /** Writing it where an old entry still lies: that entry is swapped into the hand. */
    method Swap1(nf: array<bv32>, i: nat, key: K, val: V, ghost d: nat, ghost s: Move<K, V>)
      returns (key': K, val': V, ghost s': Move<K, V>)
      requires Midway(nf, s) && s.hand == Some((key, val)) && s.dst.hash == hash && key !in s.dst.m
      requires i < |s.dst.slots| && s.dst.slots[i].Free? && i < buckets && s.left[i].Live?
      requires d < |s.dst.slots| && i == Probe(hash(key), |s.dst.slots|, d) && Passed(s.dst, key, d)
      modifies nf, keys, vals, flags
      ensures Midway(nf, s') && s' == Swapped(s, i, d) && s'.hand == Some((key', val'))
      ensures LiveCount(s'.left) < LiveCount(s.left)
    {
      hide Shows, Bits, ClearEmpty, SetDel, Indexed, Reachable, IsPrime, Conserved, Apart, Passed, Probe, LiveCount;
      var words, ks, vs, fs := nf[..], keys[..], vals[..], flags[..];
      ShownAt(Raw(words, ks, vs), s.dst.slots, i);
      ShownAt(Raw(fs, ks, vs), s.left, i);
      ShowFill(Raw(words, ks, vs), s.dst.slots, i, key, val);
      ShowKill(Raw(fs, ks, vs), s.left, i);
      ShowOther(Raw(fs[i / 16 := SetDel(fs[i / 16], Shift(i))], ks, vs), s.left[i := Dead], i, key, val);
      PlaceGood(s.dst, key, val, i, d);
      SwapKeeps(s, i, d);
      nf[i / 16] := ClearEmpty(nf[i / 16], Shift(i));
      key', val' := keys[i], vals[i];
      keys[i] := key;
      vals[i] := val;
      flags[i / 16] := SetDel(flags[i / 16], Shift(i));
      assert nf[..] == words[i / 16 := ClearEmpty(words[i / 16], Shift(i))];
      assert keys[..] == ks[i := key] && vals[..] == vs[i := val];
      assert flags[..] == fs[i / 16 := SetDel(fs[i / 16], Shift(i))];
      s' := Swapped(s, i, d);
    }

    /** The inner loop of kh_resize: an entry is placed, evicting the old entry in its way, until one finds room. */
    method Resettle(nf: array<bv32>, n: nat, j: nat, ghost s0: Move<K, V>) returns (ghost s: Move<K, V>)
      requires Midway(nf, s0) && s0.hand == None && s0.dst.hash == hash && n == |s0.dst.slots|
      requires j < buckets && s0.left[j].Live?
      modifies flags, nf, keys, vals
      ensures Midway(nf, s) && s.hand == None && s.dst.hash == hash && n == |s.dst.slots|
      ensures Shrinks(s0.left, s.left) && !s.left[j].Live?
    {
      hide Shows, IsEither, Indexed, Reachable, IsPrime, Conserved, Apart, Passed, Probe, LiveCount;
      var key, val;
      key, val, s := Take(nf, j, s0);
      while true
        invariant Midway(nf, s) && s.hand == Some((key, val)) && s.dst.hash == hash && n == |s.dst.slots|
        invariant Shrinks(s0.left, s.left) && !s.left[j].Live?
        decreases LiveCount(s.left)
      {
        HandAbsent(s);
        var i, d := FindFree(nf, n, key, s);
        if i < buckets { ShownAt(Raw(flags[..], keys[..], vals[..]), s.left, i); }
        if i < buckets && !IsEither(flags[..], i) {
          key, val, s := Swap1(nf, i, key, val, d, s);
        } else {
          s := Put1(nf, i, key, val, d, s);
          break;
        }
      }
    }

    /** realloc of the key and value arrays to n entries. */
    method Reallocate(n: nat)
      requires keys.Length == vals.Length >= buckets && n > 0
      modifies this`keys, this`vals
      ensures fresh(keys) && fresh(vals) && keys as object != vals
      ensures keys.Length == vals.Length == n
      ensures var m := if buckets < n then buckets else n;
              m <= old(keys.Length) == old(vals.Length) && keys[..m] == old(keys[..m]) && vals[..m] == old(vals[..m])
    {
      var m := if buckets < n then buckets else n;
      var ks, vs := new K[n], new V[n];
      forall i | 0 <= i < m {
        ks[i] := keys[i];
      }
      forall i | 0 <= i < m {
        vs[i] := vals[i];
      }
      keys, vals := ks, vs;
    }

    /** The loop of kh_resize over the old buckets. */
    method MoveAll(nf: array<bv32>, n: nat, ghost s0: Move<K, V>) returns (ghost s: Move<K, V>)
      requires Midway(nf, s0) && s0.hand == None && s0.dst.hash == hash && n == |s0.dst.slots|
      modifies flags, nf, keys, vals
      ensures Midway(nf, s) && s.hand == None && s.dst.hash == hash && n == |s.dst.slots|
      ensures s.dst.m == table.m
    {
      hide Shows, IsEither, Indexed, Reachable, IsPrime, Conserved, Apart, Passed, LiveCount;
      s := s0;
      for j := 0 to buckets
        invariant Midway(nf, s) && s.hand == None && s.dst.hash == hash && n == |s.dst.slots|
        invariant forall i | 0 <= i < j :: !s.left[i].Live?
      {
        ShownAt(Raw(flags[..], keys[..], vals[..]), s.left, j);
        if !IsEither(flags[..], j) {
          s := Resettle(nf, n, j, s);
        }
      }
      MoveEnd(s);
    }

    /** The size kh_resize picks: the first one in the table above the request, and its place there. */
    method NextSize(request: nat) returns (n: nat, t: nat)
      requires request < SizeAt(PRIME_COUNT - 3)
      ensures 0 < t < PRIME_COUNT - 2 && n == SizeAt(t) && SizeAt(t - 1) <= request < n
    {
      hide SizeAt;
      SizesGrow(PRIME_COUNT - 3, PRIME_COUNT - 1);
      SizesStart(0);
      t := PRIME_COUNT - 1;
      while SizeAt(t) > request
        invariant t < PRIME_COUNT && (t + 1 < PRIME_COUNT ==> request < SizeAt(t + 1))
        decreases t
      {
        t := t - 1;
      }
      if t >= PRIME_COUNT - 3 { SizesGrow(PRIME_COUNT - 3, t); }
      t := t + 1;
      n := SizeAt(t);
    }

    /** kh_resize: rehash in place to the next size above the request, unless the entries would overload it. */
    method Resize(request: nat) returns (ghost t: nat)
      requires Valid() && request < SizeAt(PRIME_COUNT - 3)
      modifies this, flags, keys, vals
      ensures Valid() && Contents() == old(Contents()) && fresh(Repr() - old(Repr()))
      ensures 0 < t < PRIME_COUNT - 2 && SizeAt(t - 1) <= request < SizeAt(t)
      ensures if old(size) < Upper(SizeAt(t)) then rank == t && occupied == size
              else rank == old(rank) && table == old(table)
    {
      hide Shows, Indexed, Reachable, IsPrime, Conserved, Apart, LiveCount, UsedCount, SizeAt;
      var n, place := NextSize(request);
      t := place;
      if size >= Upper(n) {
        return;
      }
      SizesArePrime(t);
      SizesStart(t);
      Rehash(n, t);
    }

    /** The body of kh_resize once a new size is chosen. */
    method Rehash(n: nat, ghost t: nat)
      requires Valid() && 0 < t < PRIME_COUNT - 2 && n == SizeAt(t) && 2 < n && IsPrime(n) && size < Upper(n) < n
      modifies this, flags, keys, vals
      ensures Valid() && Contents() == old(Contents()) && fresh(Repr() - old(Repr()))
      ensures rank == t && occupied == size == old(size)
    {
      hide Shows, Bits, Indexed, Reachable, IsPrime, Conserved, Apart, LiveCount, UsedCount, Upper;
      var nf, s := StartMove(n);
      s := MoveAll(nf, n, s);
      if buckets > n {
        ShrinkTo(nf, n, s);
      }
      Settled(s);
      Adopt(nf, n, t, s.dst);
    }

    /** The new flags and counters replace the old ones. */
    method Adopt(nf: array<bv32>, n: nat, ghost t: nat, ghost dst: Table<K, V>)
      requires 0 < t < PRIME_COUNT - 2 && n == SizeAt(t) == |dst.slots|
      requires nf as object != keys && nf as object != vals && keys as object != vals
      requires Good(dst) && dst.hash == hash && Shows(Raw(nf[..], keys[..], vals[..]), dst.slots)
      requires size == |dst.m| == UsedCount(dst.slots) < Upper(n)
      modifies this`flags, this`buckets, this`table, this`rank, this`occupied, this`upperBound
      ensures Valid() && table == dst && rank == t && occupied == size && flags == nf
    {
      hide Shows, Indexed, Reachable, UsedCount, Upper;
      flags := nf;
      buckets := n;
      table, rank := dst, t;
      occupied := size;
      upperBound := Upper(buckets);
    }

    /** The arrays are cut down to a smaller size once everything has moved. */
    method ShrinkTo(nf: array<bv32>, n: nat, ghost s: Move<K, V>)
      requires Midway(nf, s) && 0 < n == |s.dst.slots| && n <= buckets
      modifies this`keys, this`vals
      ensures fresh(keys) && fresh(vals) && keys as object != vals
      ensures Shows(Raw(nf[..], keys[..], vals[..]), s.dst.slots)
    {
      hide Shows, Bits, Indexed, Reachable, IsPrime, Conserved, Apart, LiveCount, UsedCount;
      ghost var raw := Raw(nf[..], keys[..], vals[..]);
      ShowsLengths(raw, s.dst.slots);
      ShowsLengths(Raw(flags[..], keys[..], vals[..]), s.left);
      Reallocate(n);
      ShowMoved(raw, keys[..], vals[..], s.dst.slots);
    }

    /** The new flags, and room in the arrays for the larger of the two sizes. */
    method StartMove(n: nat) returns (nf: array<bv32>, ghost s: Move<K, V>)
      requires Valid() && IsPrime(n) && size < n && n > 2
      modifies this`keys, this`vals
      ensures fresh(nf) && keys as object in {old(keys), keys} && (keys == old(keys) || fresh(keys)) &&
              (vals == old(vals) || fresh(vals))
      ensures Midway(nf, s) && s.hand == None && s.dst.hash == hash && n == |s.dst.slots|
    {
      hide Shows, Bits, Indexed, Reachable, IsPrime, Conserved, Apart, LiveCount, UsedCount;
      nf := new bv32[WordCount(n)](_ => ALL_EMPTY);
      ghost var raw := Raw(flags[..], keys[..], vals[..]);
      ShowsLengths(raw, table.slots);
      if buckets < n {
        Reallocate(n);
        ShowMoved(raw, keys[..], vals[..], table.slots);
      }
      ghost var slots: seq<Slot<K, V>> := seq(n, _ => Free);
      EmptyGood(hash, slots);
      ghost var dst := Table(hash, slots, map[], map[], map[]);
      ShowFresh(Raw(nf[..], keys[..], vals[..]), slots);
      MoveStart(table, dst);
      s := Move(table, table.slots, dst, None);
    }

    // ------------------------------------------------------------ kh_put

    /** A put does not make the table grow beyond the sizes up to 2^31. */
    ghost predicate Spacious()
      reads this
    {
      rank == PRIME_COUNT - 3 ==> occupied < upperBound || buckets > size * 2
    }

    /** The first part of kh_put: at the load bound, rehash to the same size or to the next. */
    method MakeRoom()
      requires Valid() && Spacious()
      modifies this, flags, keys, vals
      ensures Valid() && Contents() == old(Contents()) && fresh(Repr() - old(Repr()))
      ensures occupied < upperBound && buckets > 0
      ensures old(occupied < upperBound) ==> occupied == old(occupied)
      ensures rank == old(rank) || (rank == old(rank) + 1 && SizeAt(old(rank)) <= 2 * |old(Contents())|)
    {
      hide Shows, Indexed, Reachable, LiveCount, UsedCount, SizeAt;
      SizesStart(rank);
      if occupied >= upperBound {
        ghost var was, t := rank, 0;
        if buckets > size * 2 {
          SizesGrow(was, PRIME_COUNT - 3);
          t := Resize(buckets - 1);
          SamePlace(was, t);
        } else {
          if buckets > 0 { GoodCounts(table); }
          SizesIncrease(was);
          SizesGrow(was + 1, PRIME_COUNT - 3);
          t := Resize(buckets + 1);
          NextPlace(was, t);
        }
      }
    }

    /** A bucket where an absent key may be put: not live, and met on its probe path before any free one. */
    ghost predicate Site(key: K, x: nat, d: nat)
      reads this
    {
      && x < buckets == |table.slots| && !table.slots[x].Live?
      && 1 < buckets && d < buckets && Probe(hash(key), buckets, d) == x && Passed(table, key, d)
    }

    /** With a free bucket left, a probe that has met none yet is not back where it began. */
    lemma NotBack(key: K, steps: nat)
      requires Valid() && occupied < upperBound && buckets > 0
      requires 0 < steps <= buckets && Passed(table, key, steps)
      ensures steps < buckets && buckets > 1
      ensures Probe(hash(key), buckets, steps) != Probe(hash(key), buckets, 0)
      ensures var i, inc := Probe(hash(key), buckets, steps - 1), Increment(hash(key), buckets);
              Probe(hash(key), buckets, steps) == if i + inc >= buckets then i + inc - buckets else i + inc
    {
      hide Shows, Indexed, Reachable, Passed, IsPrime, Increment, NextSlot, Probe, LiveCount, UsedCount, SizeAt;
      BucketsPrime();
      ProbeStep(hash(key), buckets, steps);
      if steps == buckets { NotAround(table, key); }
      ProbesDiffer(hash(key), buckets, 0, steps);
    }

    /** The probe loop of kh_put. It stops on the key or on a free bucket i; site is the last tombstone passed. */
    method ProbeOn(key: K) returns (i: nat, site: nat, x: nat, ghost steps: nat, ghost d: nat)
      requires Valid() && occupied < upperBound && buckets > 0
      ensures x == buckets && i < buckets && site <= buckets
      ensures steps < buckets && i == Probe(hash(key), buckets, steps) && Passed(table, key, steps)
      ensures table.slots[i].Free? || (table.slots[i].Live? && table.slots[i].key == key)
      ensures site < buckets ==> Site(key, site, d)
    {
      hide Shows, IsEmpty, IsDel, IsEither, Good, Passed, IsPrime, Increment, NextSlot, LiveCount, UsedCount, SizeAt,
           Upper;
      BucketsPrime();
      var k := hash(key);
      i, x, site := k % buckets, buckets, buckets;
      var inc, last := Increment(k, buckets), i;
      steps, d := 0, 0;
      PassedStep(table, key, 0);
      FlagsAt(i);
      while !IsEmpty(flags[..], i) && (IsDel(flags[..], i) || keys[i] != key)
        invariant Valid() && occupied < upperBound && x == buckets
        invariant i < buckets && steps < buckets && i == Probe(k, buckets, steps) && last == Probe(k, buckets, 0)
        invariant Passed(table, key, steps)
        invariant site <= buckets && (site < buckets ==> Site(key, site, d))
        invariant i / 16 < flags.Length && i < keys.Length
        decreases buckets - steps
      {
        FlagsAt(i);
        PassedStep(table, key, steps);
        if IsDel(flags[..], i) {
          site, d := i, steps;
        }
        i := if i + inc >= buckets then i + inc - buckets else i + inc;
        steps := steps + 1;
        NotBack(key, steps);
        if i == last {
          x := site;
          break;
        }
        FlagsAt(i);
      }
      FlagsAt(i);
    }

    /** The bucket kh_put settles on: the key's own, or else the last tombstone passed, or else the free one. */
    method FindSite(key: K) returns (x: nat, ghost d: nat)
      requires Valid() && occupied < upperBound && buckets > 0
      ensures key in Contents() ==>
                x < buckets == |table.slots| && key in table.at && x == table.at[key] &&
                  table.slots[x] == Live(key, Contents()[key])
      ensures key !in Contents() ==> Site(key, x, d)
    {
      hide Shows, IsEmpty, Indexed, Reachable, Passed, IsPrime, Probe, LiveCount, UsedCount;
      var i, site;
      ghost var steps;
      i, site, x, steps, d := ProbeOn(key);
      if x == buckets {
        FlagsAt(i);
        if table.slots[i].Free? { Absent(table, key, steps); } else { GoodSlot(table, i); }
        if IsEmpty(flags[..], i) && site != buckets {
          x := site;
        } else {
          x, d := i, steps;
        }
      }
    }

    /**
     * kh_put: the bucket of the key, made live if it was not; ret says whether it was free (1), deleted (2) or live
     * (0).
     */
    method Put(key: K) returns (x: nat, ret: nat)
      requires Valid() && Spacious()
      modifies this, flags, keys, vals
      ensures Valid() && fresh(Repr() - old(Repr()))
      ensures x < buckets && key in Contents() && table.slots[x].Live? && table.slots[x].key == key
      ensures Contents() - {key} == old(Contents()) - {key}
      ensures ret == 0 <==> key in old(Contents())
      ensures ret == 0 ==> Contents() == old(Contents())
      ensures ret <= 2 && (old(occupied < upperBound) ==> occupied == old(occupied) + if ret == 1 then 1 else 0)
      ensures rank == old(rank) || (rank == old(rank) + 1 && SizeAt(old(rank)) <= 2 * |old(Contents())|)
    {
      hide Shows, Indexed, Reachable, LiveCount, UsedCount, Upper, IsPrime, Passed, Probe, SizeAt;
      MakeRoom();
      ghost var d;
      x, d := FindSite(key);
      ret := Claim(x, key, d);
    }

    /** The last part of kh_put, on the bucket it settled on. */
    method Claim(x: nat, key: K, ghost d: nat) returns (ret: nat)
      requires Valid() && occupied < upperBound && buckets > 0
      requires if key in Contents() then x < buckets == |table.slots| && table.slots[x] == Live(key, Contents()[key])
               else Site(key, x, d)
      modifies this`table, this`size, this`occupied, flags, keys
      ensures Valid() && Repr() == old(Repr())
      ensures table.slots[x].Live? && table.slots[x].key == key && key in Contents()
      ensures Contents() - {key} == old(Contents()) - {key}
      ensures ret == 0 <==> key in old(Contents())
      ensures ret == 0 ==> Contents() == old(Contents())
      ensures ret <= 2 && occupied == old(occupied) + if ret == 1 then 1 else 0
    {
      hide Shows, IsEmpty, IsDel, Indexed, Reachable, LiveCount, UsedCount, Upper, IsPrime, Passed, Probe;
      FlagsAt(x);
      if IsEmpty(flags[..], x) {
        Occupy(x, key, d);
        occupied := occupied + 1;
        ret := 1;
      } else if IsDel(flags[..], x) {
        Occupy(x, key, d);
        ret := 2;
      } else {
        ret := 0;
      }
    }

    /** Writing a key into a bucket that is not live; its value is whatever lies there. */
    method Occupy(x: nat, key: K, ghost d: nat)
      requires Valid() && key !in Contents() && Site(key, x, d)
      modifies this`table, this`size, flags, keys
      ensures Shown() && Good(table) && Repr() == old(Repr())
      ensures x < vals.Length && Contents() == old(Contents())[key := vals[x]]
      ensures size == |table.m| == old(size) + 1
      ensures table.slots == old(table.slots)[x := Live(key, vals[x])]
      ensures UsedCount(table.slots) == old(UsedCount(table.slots)) + if old(table.slots[x].Free?) then 1 else 0
    {
      hide Shows, Bits, ClearBoth, Indexed, Reachable, LiveCount, UsedCount, Upper, IsPrime, Passed, Probe;
      FlagsAt(x);
      ghost var words, ks, vs := flags[..], keys[..], vals[..];
      ShowFillBoth(Raw(words, ks, vs), table.slots, x, key, vals[x]);
      PlaceGood(table, key, vals[x], x, d);
      MapGrows(table.m, key, vals[x]);
      keys[x] := key;
      flags[x / 16] := ClearBoth(flags[x / 16], Shift(x));
      assert flags[..] == words[x / 16 := ClearBoth(words[x / 16], Shift(x))];
      assert keys[..] == ks[x := key] && vals[..] == vs[x := vs[x]];
      table := Placed(table, key, vals[x], x, d);
      size := size + 1;
    }
  }

  /** A request just below a size picks that size again, and a table at most half live fits it. */
  lemma SamePlace(was: nat, t: nat)
    requires 0 < was < PRIME_COUNT && 0 < t < PRIME_COUNT
    requires SizeAt(t - 1) <= SizeAt(was) - 1 < SizeAt(t)
    ensures t == was
    ensures forall size: nat | size * 2 < SizeAt(was) :: size < Upper(SizeAt(was))
  {
    hide SizeAt;
    if t < was { SizesGrow(t, was); }
    if was < t { SizesGrow(was, t - 1); }
    SizesStart(was);
  }

  /** A request just above a size picks the next one, with a larger load bound. */
  lemma NextPlace(was: nat, t: nat)
    requires was + 1 < PRIME_COUNT && 0 < t < PRIME_COUNT
    requires SizeAt(t - 1) <= SizeAt(was) + 1 < SizeAt(t)
    ensures t == was + 1 && Upper(SizeAt(was)) < Upper(SizeAt(t))
  {
    hide SizeAt;
    SizesIncrease(was);
    if t < was + 1 { SizesGrow(t, was); }
    if was + 1 < t { SizesGrow(was + 1, t - 1); }
  }

  lemma ShowsLengths<K, V>(raw: Raw<K, V>, slots: seq<Slot<K, V>>)
    requires Shows(raw, slots)
    ensures |raw.keys| == |raw.vals| >= |slots| && |raw.words| >= WordCount(|slots|)
  {
  }

  /** The counters of a table no entry of which is left behind. */
  lemma Settled<K, V>(s: Move<K, V>)
    requires Apart(s) && Good(s.dst) && s.dst.m == s.src.m
    ensures UsedCount(s.dst.slots) == |s.src.m|
  {
    hide Indexed, Reachable;
  }

  lemma HandAbsent<K, V>(s: Move<K, V>)
    requires Conserved(s) && s.hand.Some?
    ensures s.hand.value.0 !in s.dst.m
  {
  }

  lemma ShowValue<K, V>(raw: Raw<K, V>, slots: seq<Slot<K, V>>, i: nat, v: V)
    requires Shows(raw, slots) && i < |slots| && slots[i].Live?
    ensures i < |raw.vals|
    ensures Shows(raw.(vals := raw.vals[i := v]), slots[i := Live(slots[i].key, v)])
  {
    hide Bits;
  }

  lemma ProbeStep(h: nat, n: nat, t: nat)
    requires n > 1 && t > 0
    ensures var i, inc := Probe(h, n, t - 1), Increment(h, n);
            Probe(h, n, t) == if i + inc >= n then i + inc - n else i + inc
  {
  }
}
