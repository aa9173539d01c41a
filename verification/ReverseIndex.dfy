/** The reverse index: a hash table from ids to the keys they are indexed under (src/reverse_index.c). */
module ReverseIndexes {
  import opened Values
  import opened Keys
  import opened Orders
  import opened PrimeTable
  import opened HashTables
  import opened KHashes

  /** An id: a C string, of bytes other than NUL. */
  type Id = seq<Byte>
  type ReverseIndex = KHash<Id, MultiKey>

  /** With up to this many entries, an insertion does not make the table grow beyond 2^31 buckets. */
  const MAX_ENTRIES := 805306370

  lemma StillSpacious(ri: ReverseIndex)
    requires ri.Valid() && |ri.Contents()| <= MAX_ENTRIES
    ensures ri.Spacious()
  {
    hide Indexed, Reachable, Shows, LiveCount, UsedCount, Upper;
    assert SizeAt(PRIME_COUNT - 3) == 1610612741;
  }

  /** SIReverseIndex_Exists. */
  method Exists(ri: ReverseIndex, id: Id) returns (v: Option<MultiKey>)
    requires ri.Valid()
    ensures v == if id in ri.Contents() then Some(ri.Contents()[id]) else None
  {
    hide Indexed, Reachable, Shows, SizeAt;
    var k := ri.Get(id);
    if k == ri.buckets {
      return None;
    }
    v := Some(ri.vals[k]);
  }

  /** SIReverseIndex_Insert: put the id and set its key, whatever was there before. */
  method Insert(ri: ReverseIndex, id: Id, key: MultiKey) returns (rc: nat)
    requires ri.Valid() && |ri.Contents()| <= MAX_ENTRIES
    modifies ri.Repr()
    ensures ri.Valid() && fresh(ri.Repr() - old(ri.Repr()))
    ensures ri.Contents() == old(ri.Contents())[id := key]
    ensures rc == 0 <==> id in old(ri.Contents())
  {
    hide Indexed, Reachable, Shows, SizeAt;
    StillSpacious(ri);
    ghost var was := ri.Contents();
    var k;
    k, rc := ri.Put(id);
    ghost var put := ri.Contents();
    ri.SetValue(k, key);
    assert put - {id} == was - {id};
    assert put[id := key] == was[id := key] by { SameBut(put, was, id, key); }
  }

  lemma SameBut<K, V>(a: map<K, V>, b: map<K, V>, k: K, v: V)
    requires a - {k} == b - {k}
    ensures a[k := v] == b[k := v]
  {
    var a', b' := a[k := v], b[k := v];
    forall x | x in a' ensures x in b' && a'[x] == b'[x] {
      assert x != k ==> x in a - {k};
    }
    forall x | x in b' ensures x in a' {
      assert x != k ==> x in b - {k};
    }
  }

  /** Overwriting is adding to the others. */
  lemma Overwritten<K, V>(m: map<K, V>, k: K, v: V)
    ensures k !in m - {k} && (m - {k})[k := v] == m[k := v] && |m[k := v]| == |m - {k}| + 1
  {
    SameBut(m - {k}, m, k, v);
    MapGrows(m - {k}, k, v);
  }

  /** SIReverseIndex_Delete. */
  method Delete(ri: ReverseIndex, id: Id) returns (found: bool)
    requires ri.Valid()
    modifies ri.Repr()
    ensures ri.Valid() && ri.Repr() == old(ri.Repr())
    ensures ri.Contents() == old(ri.Contents()) - {id}
    ensures found <==> id in old(ri.Contents())
    ensures ri.rank == old(ri.rank)
  {
    hide Indexed, Reachable, Shows, SizeAt;
    var k := ri.Get(id);
    if k != ri.buckets {
      LiveAt(ri, id);
      ri.Del(k);
      return true;
    }
    assert ri.Contents() - {id} == ri.Contents();
    found := false;
  }

  lemma LiveAt(ri: ReverseIndex, id: Id)
    requires ri.Valid() && id in ri.Contents()
    ensures id in ri.table.at && ri.table.at[id] < |ri.table.slots|
    ensures ri.table.slots[ri.table.at[id]] == Live(id, ri.Contents()[id])
  {
    hide Indexed, Reachable, Shows, SizeAt;
    if ri.buckets > 0 {
      GoodKey(ri.table, id);
    }
  }
}
