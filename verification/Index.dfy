/** The compound index: applying changes to the skiplist and the reverse index together (src/index.c). */
module Indexes {
  import opened Values
  import opened Keys
  import opened Orders
  import opened SkiplistShape
  import opened Skiplists
  import opened PrimeTable
  import opened KHashes
  import opened ReverseIndexes
  import opened IndexStates

  datatype Status = Ok | Error | DuplicateKey | NotFound

  datatype Change = AddChange(id: Id, v: MultiKey) | DelChange(id: Id)

  /** Infinities occur in queries only, never in a stored record. */
  predicate StorableChange(ch: Change) {
    ch.AddChange? ==> forall i | 0 <= i < |ch.v| :: Storable(ch.v[i])
  }

  // ---------------------------------------------------------------- what a run of changes means

  type Records = map<Id, MultiKey>

  /** The effect of one change on the records: a unique index refuses an equal key of another id. */
  ghost function Step(fv: Schema, unique: bool, m: Records, ch: Change): (r: (Status, Records)) {
    match ch
    case AddChange(id, v) =>
      if |v| != |fv| then (Error, m)
      else if unique && Taken(fv, m, v) then
        if id in m && CmpKey(fv, m[id], v) == 0 then (Ok, m) else (DuplicateKey, m)
      else (Ok, m[id := v])
    case DelChange(id) =>
      if id in m then (Ok, m - {id}) else (NotFound, m)
  }

  /** A run: the changes in order, up to the first that fails. Deleting an unknown id is no failure. */
  ghost function Run(fv: Schema, unique: bool, m: Records, cs: seq<Change>): (r: (Status, Records))
    decreases |cs|
  {
    if cs == [] then (Ok, m)
    else
      var (rc, m') := Step(fv, unique, m, cs[0]);
      if rc != Ok && rc != NotFound then (rc, m') else Run(fv, unique, m', cs[1..])
  }

  /** Every id is recorded under a full key. */
  ghost predicate FullRecords(fv: Schema, m: Records) {
    forall id | id in m :: FullKey(fv, m[id])
  }

  /** A unique index stays unique through every run. */
  lemma {:induction false} RunKeepsUnique(fv: Schema, m: Records, cs: seq<Change>)
    requires Unique(fv, m) && FullRecords(fv, m)
    requires forall ch | ch in cs :: StorableChange(ch)
    ensures Unique(fv, Run(fv, true, m, cs).1) && FullRecords(fv, Run(fv, true, m, cs).1)
    decreases |cs|
  {
    if cs != [] {
      var (rc, m') := Step(fv, true, m, cs[0]);
      assert StorableChange(cs[0]);
      StepKeepsUnique(fv, m, cs[0]);
      if rc == Ok || rc == NotFound {
        RunKeepsUnique(fv, m', cs[1..]);
      }
    }
  }

  lemma StepKeepsUnique(fv: Schema, m: Records, ch: Change)
    requires Unique(fv, m) && FullRecords(fv, m) && StorableChange(ch)
    ensures Unique(fv, Step(fv, true, m, ch).1) && FullRecords(fv, Step(fv, true, m, ch).1)
  {
    hide CmpKey;
    var m' := Step(fv, true, m, ch).1;
    if ch.AddChange? && m' != m {
      forall id, id' | id in m' && id' in m' && id != id' ensures CmpKey(fv, m'[id], m'[id']) != 0 {
        CmpKeyAntisymmetric(fv, m'[id], m'[id']);
        CmpKeyAntisymmetric(fv, m'[id'], m'[id]);
      }
    }
  }

  /** Another id is recorded under a key equal to v. */
  ghost predicate HeldByOther(fv: Schema, m: Records, id: Id, v: MultiKey) {
    exists other | other in m && other != id :: CmpKey(fv, m[other], v) == 0
  }

  /** When a change fails, and that it then changes nothing. */
  lemma FailureExact(fv: Schema, unique: bool, m: Records, ch: Change)
    requires (unique ==> Unique(fv, m)) && FullRecords(fv, m) && StorableChange(ch)
    ensures var (rc, m') := Step(fv, unique, m, ch);
            && (rc != Ok ==> m' == m)
            && (rc == Ok <==> match ch
                              case AddChange(id, v) => |v| == |fv| && !(unique && HeldByOther(fv, m, id, v))
                              case DelChange(id) => id in m)
  {
    hide CmpKey;
    if ch.AddChange? && |ch.v| == |fv| && unique && Taken(fv, m, ch.v) && ch.id in m &&
       CmpKey(fv, m[ch.id], ch.v) == 0 {
      forall other | other in m && other != ch.id ensures CmpKey(fv, m[other], ch.v) != 0 {
        if CmpKey(fv, m[other], ch.v) == 0 {
          CmpKeyAntisymmetric(fv, m[ch.id], ch.v);
          CmpKeyAntisymmetric(fv, ch.v, m[ch.id]);
          EqualKeys(fv, m[other], ch.v, m[ch.id]);
        }
      }
    }
  }

  lemma StepGrowsByOne(fv: Schema, unique: bool, m: Records, ch: Change)
    ensures |Step(fv, unique, m, ch).1| <= |m| + 1
  {
    if ch.AddChange? { assert m[ch.id := ch.v].Keys == m.Keys + {ch.id}; }
    if ch.DelChange? { assert (m - {ch.id}).Keys == m.Keys - {ch.id}; }
  }

  /** One batch after another is one long batch, as long as the first does not fail. */
  lemma {:induction false} RunConcat(fv: Schema, unique: bool, m: Records, cs: seq<Change>, ds: seq<Change>)
    ensures var (rc, m') := Run(fv, unique, m, cs);
            Run(fv, unique, m, cs + ds) == if rc == Ok then Run(fv, unique, m', ds) else (rc, m')
    decreases |cs|
  {
    if cs == [] {
      assert cs + ds == ds;
    } else {
      assert (cs + ds)[1..] == cs[1..] + ds;
      RunConcat(fv, unique, Step(fv, unique, m, cs[0]).1, cs[1..], ds);
    }
  }

  /** A run that fails has applied exactly the changes before the failing one. */
  lemma {:induction false} RunStops(fv: Schema, unique: bool, m: Records, cs: seq<Change>) returns (n: nat)
    requires Run(fv, unique, m, cs).0 != Ok
    ensures n < |cs| && Run(fv, unique, m, cs[..n]) == (Ok, Run(fv, unique, m, cs).1)
    ensures var (rc, m') := Run(fv, unique, m, cs); Step(fv, unique, m', cs[n]) == (rc, m') && rc != NotFound
    decreases |cs|
  {
    var (rc, m') := Step(fv, unique, m, cs[0]);
    if rc != Ok && rc != NotFound {
      n := 0;
    } else {
      var k := RunStops(fv, unique, m', cs[1..]);
      n := k + 1;
      assert cs[..n][1..] == cs[1..][..k];
    }
  }

  /** An id that no change mentions keeps its key. */
  lemma {:induction false} RunLeavesOthers(fv: Schema, unique: bool, m: Records, cs: seq<Change>, id: Id)
    requires forall ch | ch in cs :: ch.id != id
    ensures var m' := Run(fv, unique, m, cs).1; (id in m' <==> id in m) && (id in m ==> m'[id] == m[id])
    decreases |cs|
  {
    if cs != [] {
      assert cs[0] in cs;
      RunLeavesOthers(fv, unique, Step(fv, unique, m, cs[0]).1, cs[1..], id);
    }
  }

  // ---------------------------------------------------------------- what a run does to each id

  /** What a change leaves of the id it names. In a unique index an equal key of the id may stay in place of the new. */
  ghost predicate Done(fv: Schema, unique: bool, m: Records, ch: Change) {
    match ch
    case AddChange(id, v) => id in m && |v| == |fv| && CmpKey(fv, m[id], v) == 0 && (unique || m[id] == v)
    case DelChange(id) => id !in m
  }

  /** Why a change is refused: a key of the wrong width, or one that a unique index has under another id. */
  ghost predicate Refused(fv: Schema, unique: bool, m: Records, ch: Change, rc: Status) {
    && ch.AddChange?
    && if |ch.v| != |fv| then rc == Error else rc == DuplicateKey && unique && HeldByOther(fv, m, ch.id, ch.v)
  }

  /** A change is refused, which changes nothing, or done, which changes nothing about any other id. */
  lemma StepDone(fv: Schema, unique: bool, m: Records, ch: Change)
    requires FullRecords(fv, m) && StorableChange(ch)
    ensures var (rc, m') := Step(fv, unique, m, ch);
            && FullRecords(fv, m')
            && m' - {ch.id} == m - {ch.id}
            && if rc == Ok || rc == NotFound then Done(fv, unique, m', ch)
               else Refused(fv, unique, m, ch, rc) && m' == m
  {
    hide CmpKey;
    if ch.AddChange? && |ch.v| == |fv| { CmpKeyAntisymmetric(fv, ch.v, ch.v); }
  }

  /** When an add of a full key is refused. */
  lemma AddExact(fv: Schema, unique: bool, m: Records, id: Id, v: MultiKey)
    requires (unique ==> Unique(fv, m)) && FullRecords(fv, m) && FullKey(fv, v)
    ensures var (rc, m') := Step(fv, unique, m, AddChange(id, v));
            && rc == (if unique && HeldByOther(fv, m, id, v) then DuplicateKey else Ok)
            && (if rc == Ok then Done(fv, unique, m', AddChange(id, v)) else m' == m)
            && m' - {id} == m - {id}
  {
    hide CmpKey, HeldByOther, Unique, Done, FullRecords;
    FailureExact(fv, unique, m, AddChange(id, v));
    StepDone(fv, unique, m, AddChange(id, v));
  }

  ghost predicate Mentions(cs: seq<Change>, id: Id) {
    exists ch | ch in cs :: ch.id == id
  }

  /** No later change names the same id. */
  ghost predicate LastOf(cs: seq<Change>, n: nat) {
    n < |cs| && !Mentions(cs[n + 1..], cs[n].id)
  }

  /** Every id is as the last change about it says, and as before if there is none. */
  ghost predicate Applied(fv: Schema, unique: bool, m: Records, m': Records, cs: seq<Change>) {
    && (forall n: nat | LastOf(cs, n) :: Done(fv, unique, m', cs[n]))
    && (forall id | !Mentions(cs, id) :: (id in m' <==> id in m) && (id in m ==> m'[id] == m[id]))
  }

  lemma LastOfRest(cs: seq<Change>, n: nat)
    requires LastOf(cs, n) && n > 0
    ensures LastOf(cs[1..], n - 1)
  {
    assert cs[1..][n..] == cs[n + 1..];
  }

  lemma {:induction false} RunDone(fv: Schema, unique: bool, m: Records, cs: seq<Change>)
    requires FullRecords(fv, m) && forall ch | ch in cs :: StorableChange(ch)
    requires Run(fv, unique, m, cs).0 == Ok
    ensures Applied(fv, unique, m, Run(fv, unique, m, cs).1, cs)
    decreases |cs|
  {
    hide CmpKey, Step, FullRecords, StorableChange;
    if cs != [] {
      var (rc, m1) := Step(fv, unique, m, cs[0]);
      var rest, m' := cs[1..], Run(fv, unique, m, cs).1;
      StepDone(fv, unique, m, cs[0]);
      RunDone(fv, unique, m1, rest);
      forall n: nat | LastOf(cs, n) ensures Done(fv, unique, m', cs[n]) {
        if n > 0 { LastOfRest(cs, n); }
      }
      forall id | !Mentions(cs, id) ensures (id in m' <==> id in m) && (id in m ==> m'[id] == m[id]) {
        assert cs[0] in cs;
        assert !Mentions(rest, id);
        assert id in m - {cs[0].id} <==> id in m1 - {cs[0].id};
      }
    }
  }

  /** The first n changes of a batch are applied; the next, if there is one, is refused. */
  ghost predicate Outcome(fv: Schema, unique: bool, m: Records, m': Records, cs: seq<Change>, rc: Status, n: nat) {
    && n <= |cs|
    && Applied(fv, unique, m, m', cs[..n])
    && if n == |cs| then rc == Ok else Refused(fv, unique, m', cs[n], rc)
  }

  lemma RunOutcome(fv: Schema, unique: bool, m: Records, cs: seq<Change>) returns (n: nat)
    requires FullRecords(fv, m) && forall ch | ch in cs :: StorableChange(ch)
    ensures var (rc, m') := Run(fv, unique, m, cs); Outcome(fv, unique, m, m', cs, rc, n)
  {
    hide CmpKey, Step, Run, StorableChange, Applied, Refused;
    n := |cs|;
    if Run(fv, unique, m, cs).0 != Ok {
      n := RunStops(fv, unique, m, cs);
      RunFull(fv, unique, m, cs);
      StepDone(fv, unique, Run(fv, unique, m, cs).1, cs[n]);
    }
    assert cs[..|cs|] == cs;
    RunDone(fv, unique, m, cs[..n]);
  }

  lemma {:induction false} RunFull(fv: Schema, unique: bool, m: Records, cs: seq<Change>)
    requires FullRecords(fv, m) && forall ch | ch in cs :: StorableChange(ch)
    ensures FullRecords(fv, Run(fv, unique, m, cs).1)
    decreases |cs|
  {
    hide Step, FullRecords, StorableChange;
    if cs != [] {
      StepDone(fv, unique, m, cs[0]);
      RunFull(fv, unique, Step(fv, unique, m, cs[0]).1, cs[1..]);
    }
  }

  lemma AgreeFull(b: Both)
    requires Agree(b)
    ensures FullRecords(b.fv, b.m)
  {
    hide Agree;
    forall id | id in b.m ensures FullKey(b.fv, b.m[id]) { AgreeHome(b, id); }
  }

  // ---------------------------------------------------------------- the index

  class CompoundIndex {
    const unique: bool
    const cmpFuncs: Schema
    const sl: Skiplist<MultiKey, Id>
    const ri: ReverseIndex
    var length: nat
    ghost var Repr: set<object>

    /** The ids of the index with their keys. */
    ghost function Records(): Records
      reads ri
    {
      ri.Contents()
    }

    ghost predicate Parts()
      reads sl, sl.Nodes(), ri, ri.flags, ri.keys, ri.vals
    {
      sl.Valid() && ri.Valid() && sl.Ord() == KeyOrder(cmpFuncs)
    }

    /** The list and the table agree, and length counts the ids. */
    ghost predicate Agrees()
      reads `length, sl, sl.Nodes(), ri, ri.flags, ri.keys, ri.vals
    {
      Parts() && Agree(Both(cmpFuncs, sl.entries, Records())) && length == |Records()|
    }

    /** What the index may change when changes are applied. */
    ghost predicate Owned()
      reads this, sl, ri
    {
      sl in Repr && sl.Nodes() <= Repr && ri.Repr() <= Repr
    }

    /** In a unique index no two ids have equal keys besides. */
    ghost predicate Consistent()
      reads `length, sl, sl.Nodes(), ri, ri.flags, ri.keys, ri.vals
    {
      Agrees() && (unique ==> Unique(cmpFuncs, Records()))
    }

    ghost predicate Valid()
      reads this, sl, sl.Nodes(), ri, ri.flags, ri.keys, ri.vals
    {
      Consistent() && Owned()
    }

    /** SI_NewCompoundIndex. The columns are counted in a byte. The hash function of the reverse index is arbitrary. */
    constructor (unique: bool, cmpFuncs: Schema, hash: Id -> nat)
      requires |cmpFuncs| <= 255
      ensures this.unique == unique && this.cmpFuncs == cmpFuncs
      ensures Valid() && Records() == map[]
      ensures fresh(Repr)
    {
      hide Skiplist.Valid, KHash.Valid, Lawful, Sorted, Agree, SizeAt;
      this.unique, this.cmpFuncs := unique, cmpFuncs;
      KeyOrderLawful(cmpFuncs);
      EmptyAgree(cmpFuncs);
      var table := new KHash<Id, MultiKey>(hash);
      var list := new Skiplist<MultiKey, Id>(KeyOrder(cmpFuncs).cmp, KeyOrder(cmpFuncs).stored);
      sl, ri, length := list, table, 0;
      Repr := {list} + list.Nodes() + table.Repr();
      assert list.Valid();
      new;
      assert sl.header as object != this;
      assert sl.Nodes() == {sl.header};
      assert Agree(Both(cmpFuncs, sl.entries, Records()));
    }

    /** As Agrees, but the list does not have id, whether or not the table has it. */
    ghost predicate AgreesBut(id: Id)
      reads `length, sl, sl.Nodes(), ri, ri.flags, ri.keys, ri.vals
    {
      Parts() && Agree(Both(cmpFuncs, sl.entries, Records() - {id})) && length == |Records() - {id}|
    }

    /** Take an id that is recorded under oldkey out of the list. */
    method Unlist(id: Id, oldkey: MultiKey)
      requires Agrees()
      requires id in Records() && oldkey == Records()[id]
      modifies `length, sl, sl.Nodes()
      ensures AgreesBut(id) && Records() == old(Records()) && sl.Nodes() <= old(sl.Nodes())
    {
      hide Skiplist.Valid, KHash.Valid, Lawful, Sorted, Agree, Removed, Unique;
      RemoveAgree(Both(cmpFuncs, sl.entries, Records()), id);
      var found := sl.Delete(oldkey, Some(id));
      length := length - 1;
    }

    /** Take an id that is recorded under oldkey out of both structures. */
    method Remove(id: Id, oldkey: MultiKey)
      requires Agrees()
      requires id in Records() && oldkey == Records()[id]
      modifies `length, sl, sl.Nodes(), ri.Repr()
      ensures Agrees()
      ensures Records() == old(Records()) - {id} && sl.Nodes() <= old(sl.Nodes()) && ri.Repr() == old(ri.Repr())
      ensures ri.rank == old(ri.rank)
    {
      hide Skiplist.Valid, KHash.Valid, KHash.Contents, CompoundIndex.Agrees, CompoundIndex.AgreesBut, Agree, Unique;
      Unlist(id, oldkey);
      AgreesButParts(id);
      var gone := ReverseIndexes.Delete(ri, id);
      MakeAgrees();
    }

    /** Where the list's search for a key stops, in terms of the entries. */
    lemma StopIsHome(k: MultiKey)
      requires Parts()
      ensures |sl.row| == |sl.entries| + 1 && sl.Stop(k, false) == 1 + Home(cmpFuncs, sl.entries, k)
      ensures var p := Home(cmpFuncs, sl.entries, k);
              p < |sl.entries| ==> sl.entries[p] == Entry(sl.row[p + 1].obj, sl.row[p + 1].vals)
    {
      hide Shaped, Linked, Chained, Lawful, Sorted, Split, Reached, KHash.Valid;
      var p := Home(cmpFuncs, sl.entries, k);
      assert p < |sl.entries| ==> sl.row[p + 1].vals == sl.row[p + 1].vals;
    }

    /** The duplicate check of a unique index: a status if the add ends here. */
    method CheckDuplicate(id: Id, v: MultiKey) returns (rc: Option<Status>)
      requires Consistent() && unique && FullKey(cmpFuncs, v)
      ensures rc == if !Taken(cmpFuncs, Records(), v) then None
                    else if id in Records() && CmpKey(cmpFuncs, Records()[id], v) == 0 then Some(Ok)
                    else Some(DuplicateKey)
    {
      hide Skiplist.Valid, KHash.Valid, Lawful, Sorted, Split, Agree, FullKey, CmpKey, Unique, Taken;
      StopIsHome(v);
      HitIsTaken(Both(cmpFuncs, sl.entries, Records()), v);
      var n := sl.Find(v);
      if n == null {
        return None;
      }
      OnlyValue(Both(cmpFuncs, sl.entries, Records()), v, id);
      if n.vals[0] == id {
        return Some(Ok);
      }
      rc := Some(DuplicateKey);
    }

    /** Record an id that is not in the list; in the table its key is overwritten. */
    method Record(id: Id, key: MultiKey)
      requires AgreesBut(id)
      requires FullKey(cmpFuncs, key) && |Records()| <= MAX_ENTRIES
      modifies `length, sl, sl.Nodes(), ri.Repr()
      ensures Agrees()
      ensures Records() == old(Records())[id := key]
      ensures fresh(sl.Nodes() - old(sl.Nodes())) && fresh(ri.Repr() - old(ri.Repr()))
    {
      hide CompoundIndex.Parts, CompoundIndex.Agrees, CompoundIndex.AgreesBut, CompoundIndex.Records, Agree, Added,
           FullKey;
      AgreesButParts(id);
      RecordAgree(cmpFuncs, sl.entries, Records(), id, key);
      InsertBoth(id, key);
      MakeAgrees();
    }

    lemma AgreesButParts(id: Id)
      requires AgreesBut(id)
      ensures Parts() && Agree(Both(cmpFuncs, sl.entries, Records() - {id})) && length == |Records() - {id}|
    {
      hide CompoundIndex.Parts, Agree;
    }

    lemma MakeAgrees()
      requires Parts() && Agree(Both(cmpFuncs, sl.entries, Records())) && length == |Records()|
      ensures Agrees()
    {
      hide CompoundIndex.Parts, Agree;
    }

    /** The two insertions, and the count. */
    method InsertBoth(id: Id, key: MultiKey)
      requires Parts() && FullKey(cmpFuncs, key) && |Records()| <= MAX_ENTRIES
      modifies `length, sl, sl.Nodes(), ri.Repr()
      ensures Parts() && Records() == old(Records())[id := key] && length == old(length) + 1
      ensures sl.entries == Added(KeyOrder(cmpFuncs).cmp, old(sl.entries), key, id)
      ensures fresh(sl.Nodes() - old(sl.Nodes())) && fresh(ri.Repr() - old(ri.Repr()))
    {
      hide Skiplist.Valid, KHash.Valid, KHash.Contents, Lawful, Sorted, Added, FullKey;
      var rc := ReverseIndexes.Insert(ri, id, key);
      Enlist(id, key);
    }

    /** The insertion into the list, at a level drawn at random. */
    method Enlist(id: Id, key: MultiKey)
      requires sl.Valid() && sl.Ord() == KeyOrder(cmpFuncs) && FullKey(cmpFuncs, key)
      modifies `length, sl, sl.Nodes()
      ensures sl.Valid() && sl.entries == Added(KeyOrder(cmpFuncs).cmp, old(sl.entries), key, id)
      ensures length == old(length) + 1 && fresh(sl.Nodes() - old(sl.Nodes()))
    {
      hide Skiplist.Valid, Added, FullKey;
      var top :| 1 <= top <= MAX_LEVEL;
      assert sl.stored(key);
      sl.InsertValue(key, id, top);
      length := length + 1;
    }

    static lemma RecordAgree(fv: Schema, es: Entries, m: Records, id: Id, key: MultiKey)
      requires Agree(Both(fv, es, m - {id})) && FullKey(fv, key)
      ensures Agree(Both(fv, Added(KeyOrder(fv).cmp, es, key, id), m[id := key])) && |m[id := key]| == |m - {id}| + 1
    {
      hide *;
      Overwritten(m, id, key);
      AddAgree(Both(fv, es, m - {id}), id, key);
    }

    lemma AgreesParts()
      requires Agrees()
      ensures Parts()
    {
    }

    lemma AgreesFull()
      requires Agrees()
      ensures FullRecords(cmpFuncs, Records())
    {
      hide Agree, Parts;
      AgreeFull(Both(cmpFuncs, sl.entries, Records()));
    }

    lemma ConsistentFull()
      requires Consistent()
      ensures FullRecords(cmpFuncs, Records())
    {
      hide Agrees;
      AgreesFull();
    }

    /** Record an id, giving up the key it had before. */
    method Replace(id: Id, v: MultiKey)
      requires Agrees()
      requires |Records()| <= MAX_ENTRIES && FullKey(cmpFuncs, v)
      modifies `length, sl, sl.Nodes(), ri.Repr()
      ensures Agrees()
      ensures Records() == old(Records())[id := v]
      ensures fresh(sl.Nodes() - old(sl.Nodes())) && fresh(ri.Repr() - old(ri.Repr()))
    {
      hide Skiplist.Valid, KHash.Valid, Agrees, AgreesBut, FullKey;
      AgreesParts();
      var oldkey := Exists(ri, id);
      if oldkey.Some? {
        Unlist(id, oldkey.value);
      } else {
        AgreesWithout(id);
      }
      Record(id, v);
    }

    lemma AgreesWithout(id: Id)
      requires Agrees() && id !in Records()
      ensures AgreesBut(id)
    {
      hide Skiplist.Valid, KHash.Valid, Agree;
      assert Records() - {id} == Records();
    }

    /** compoundIndex_applyAdd. */
    method ApplyAdd(id: Id, v: MultiKey) returns (rc: Status)
      requires Consistent() && |Records()| <= MAX_ENTRIES && FullKey(cmpFuncs, v)
      modifies `length, sl, sl.Nodes(), ri.Repr()
      ensures Consistent() && (rc, Records()) == Step(cmpFuncs, unique, old(Records()), AddChange(id, v))
      ensures rc == if unique && HeldByOther(cmpFuncs, old(Records()), id, v) then DuplicateKey else Ok
      ensures rc == Ok ==> Done(cmpFuncs, unique, Records(), AddChange(id, v))
      ensures Records() - {id} == old(Records()) - {id} && (rc != Ok ==> Records() == old(Records()))
      ensures fresh(sl.Nodes() - old(sl.Nodes())) && fresh(ri.Repr() - old(ri.Repr()))
    {
      hide Agrees, CmpKey, Taken, Unique, FullRecords, HeldByOther, Done;
      AgreesFull();
      AddExact(cmpFuncs, unique, Records(), id, v);
      if unique {
        StepKeepsUnique(cmpFuncs, Records(), AddChange(id, v));
        var dup := CheckDuplicate(id, v);
        if dup.Some? {
          return dup.value;
        }
      }
      Replace(id, v);
      rc := Ok;
    }

    /** compoundIndex_applyDel. */
    method ApplyDel(id: Id) returns (rc: Status)
      requires Consistent()
      modifies `length, sl, sl.Nodes(), ri.Repr()
      ensures Consistent() && (rc, Records()) == Step(cmpFuncs, unique, old(Records()), DelChange(id))
      ensures rc == if id in old(Records()) then Ok else NotFound
      ensures Records() == old(Records()) - {id}
      ensures sl.Nodes() <= old(sl.Nodes()) && ri.Repr() == old(ri.Repr()) && ri.rank == old(ri.rank)
    {
      hide Skiplist.Valid, KHash.Valid, Agrees, CmpKey;
      AgreesParts();
      var oldkey := Exists(ri, id);
      if oldkey.Some? {
        Remove(id, oldkey.value);
        return Ok;
      }
      assert Records() == Records() - {id};
      rc := NotFound;
    }

    /** An add of a full key, after which the index owns what the list and the table have allocated. */
    method AddOwned(id: Id, v: MultiKey) returns (rc: Status)
      requires Valid() && |Records()| <= MAX_ENTRIES && FullKey(cmpFuncs, v)
      modifies this, Repr
      ensures Valid() && (rc, Records()) == Step(cmpFuncs, unique, old(Records()), AddChange(id, v))
      ensures fresh(Repr - old(Repr))
    {
      hide Consistent, Step, HeldByOther, Done, FullKey, KHash.Contents;
      rc := ApplyAdd(id, v);
      Repr := Repr + sl.Nodes() + ri.Repr();
    }

    /** One change of a batch; an add of the wrong width is an error. */
    method ApplyOne(ch: Change) returns (rc: Status)
      requires Valid() && |Records()| <= MAX_ENTRIES && StorableChange(ch)
      modifies this, Repr
      ensures Valid() && (rc, Records()) == Step(cmpFuncs, unique, old(Records()), ch)
      ensures fresh(Repr - old(Repr))
    {
      hide Consistent, CmpKey, Taken, KHash.Contents;
      match ch
      case AddChange(id, v) =>
        if |v| != |cmpFuncs| {
          return Error;
        }
        rc := AddOwned(id, v);
      case DelChange(id) =>
        rc := ApplyDel(id);
    }

    /** compoundIndex_Apply. */
    method Apply(cs: seq<Change>) returns (rc: Status)
      requires Valid() && |Records()| + |cs| <= MAX_ENTRIES + 1
      requires forall ch | ch in cs :: StorableChange(ch)
      modifies this, Repr
      ensures Valid() && (rc, Records()) == Run(cmpFuncs, unique, old(Records()), cs)
      ensures exists n :: Outcome(cmpFuncs, unique, old(Records()), Records(), cs, rc, n)
      ensures fresh(Repr - old(Repr))
    {
      hide Consistent, Owned, Step, StorableChange, Outcome, FullRecords;
      ConsistentFull();
      ghost var n := RunOutcome(cmpFuncs, unique, Records(), cs);
      rc := Ok;
      for i := 0 to |cs|
        invariant Valid() && |Records()| + |cs| - i <= MAX_ENTRIES + 1
        invariant Run(cmpFuncs, unique, old(Records()), cs) == Run(cmpFuncs, unique, Records(), cs[i..])
        invariant fresh(Repr - old(Repr))
      {
        StepGrowsByOne(cmpFuncs, unique, Records(), cs[i]);
        rc := ApplyOne(cs[i]);
        assert cs[i..][1..] == cs[i + 1..];
        if rc != Ok && rc != NotFound {
          return;
        }
      }
      rc := Ok;
    }

    /** compoundIndex_Len. */
    method Len() returns (n: nat)
      requires Valid()
      ensures Valid() && n == |Records()|
    {
      n := length;
    }
  }
}
