/** In which order a scan returns the ids (src/index.c, src/skiplist/skiplist.c). */
module AnswerOrders {
  import opened Values
  import opened Orders
  import opened Keys
  import opened Skiplists
  import opened SkiplistIterators
  import opened ReverseIndexes
  import opened IndexStates
  import opened Queries
  import opened Ranges
  import opened Answers

  /** The range, the entry and the place among the entry's values that an id of an answer comes from. */
  datatype Origin = Origin(range: nat, entry: nat, value: nat)

  /** One range after the other; within a range by key; under one key as its entry lists the ids. */
  predicate Earlier(x: Origin, y: Origin) {
    || x.range < y.range
    || (x.range == y.range && (x.entry < y.entry || (x.entry == y.entry && x.value < y.value)))
  }

  predicate ComesFrom(fv: Schema, es: Entries, rs: seq<Range>, id: Id, o: Origin) {
    && o.range < |rs| && o.entry < |es| && o.value < |es[o.entry].vals|
    && es[o.entry].vals[o.value] == id && InRange(fv, rs[o.range], es[o.entry].key)
  }

  ghost predicate Ordered(fv: Schema, es: Entries, rs: seq<Range>, ids: seq<Id>, from: seq<Origin>) {
    && |from| == |ids|
    && (forall x | 0 <= x < |ids| :: ComesFrom(fv, es, rs, ids[x], from[x]))
    && forall x, y | 0 <= x < y < |from| :: Earlier(from[x], from[y])
  }

  lemma OrderedConcat(fv: Schema, es: Entries, rs: seq<Range>, ids: seq<Id>, from: seq<Origin>, ids': seq<Id>,
                      from': seq<Origin>)
    requires Ordered(fv, es, rs, ids, from) && Ordered(fv, es, rs, ids', from')
    requires forall x, y | x in from && y in from' :: Earlier(x, y)
    ensures Ordered(fv, es, rs, ids + ids', from + from')
  {
    hide ComesFrom, Earlier;
    var all := from + from';
    forall x, y | 0 <= x < y < |all| ensures Earlier(all[x], all[y]) {
      if x < |from| <= y { assert all[x] in from && all[y] in from'; }
    }
  }

  lemma ValuesOrder(fv: Schema, es: Entries, rs: seq<Range>, r: nat, e: nat) returns (from: seq<Origin>)
    requires e < |es| && r < |rs| && InRange(fv, rs[r], es[e].key)
    ensures Ordered(fv, es, rs, es[e].vals, from)
    ensures forall o | o in from :: o.range == r && o.entry == e
  {
    hide InRange;
    from := seq(|es[e].vals|, v requires 0 <= v < |es[e].vals| => Origin(r, e, v));
  }

  /** The part of an answer that comes from entries lo to hi of one range. */
  lemma {:induction false} SliceOrder(fv: Schema, es: Entries, filter: Option<Tree>, rs: seq<Range>, r: nat, lo: nat,
                                      hi: nat)
    returns (from: seq<Origin>)
    requires lo <= hi <= |es| && r < |rs| && forall i | lo <= i < hi :: InRange(fv, rs[r], es[i].key)
    ensures Ordered(fv, es, rs, Sift(fv, filter, Pairs(es[lo..hi])), from)
    ensures forall o | o in from :: o.range == r && lo <= o.entry < hi
    decreases hi - lo
  {
    hide Accepts, InRange, Ordered, Sift, Tagged;
    from := [];
    SiftNothing(fv, filter);
    NothingOrdered(fv, es, rs);
    if lo < hi {
      var e := es[lo];
      var later := SliceOrder(fv, es, filter, rs, r, lo + 1, hi);
      var here := ValuesOrder(fv, es, rs, r, lo);
      assert es[lo..hi][1..] == es[lo + 1..hi];
      SiftConcat(fv, filter, Tagged(e.key, e.vals), Pairs(es[lo + 1..hi]));
      SiftTagged(fv, filter, e.key, e.vals);
      from := if Accepts(fv, filter, e.key) then here else [];
      OrderedConcat(fv, es, rs, Sift(fv, filter, Tagged(e.key, e.vals)), from,
                    Sift(fv, filter, Pairs(es[lo + 1..hi])), later);
      from := from + later;
    }
  }

  /** The part of an answer that comes from range r and those after it. */
  lemma {:induction false} AnswerOrder(fv: Schema, es: Entries, filter: Option<Tree>, rs: seq<Range>, r: nat)
    returns (from: seq<Origin>)
    requires Sorted(KeyOrder(fv), Skiplists.Keys(es)) && r <= |rs|
    ensures Ordered(fv, es, rs, Answer(fv, es, filter, rs[r..]), from)
    ensures forall o | o in from :: o.range >= r
    decreases |rs| - r
  {
    hide InRange, Sorted, Split, Sift, Ordered;
    from := [];
    if r == |rs| {
      assert Ordered(fv, es, rs, [], []) by { NothingOrdered(fv, es, rs); }
    } else {
      var keys, cmp := Skiplists.Keys(es), KeyOrder(fv).cmp;
      var lo, hi := Split(cmp, keys, rs[r].min, rs[r].minExclusive), Split(cmp, keys, rs[r].max, !rs[r].maxExclusive);
      forall i | 0 <= i < |es| ensures InRange(fv, rs[r], es[i].key) <==> lo <= i < hi {
        SliceExact(fv, es, rs[r], i);
      }
      if lo < hi {
        from := SliceOrder(fv, es, filter, rs, r, lo, hi);
      } else {
        SiftNothing(fv, filter);
        NothingOrdered(fv, es, rs);
      }
      var later := AnswerOrder(fv, es, filter, rs, r + 1);
      assert rs[r..][0] == rs[r] && rs[r..][1..] == rs[r + 1..];
      OrderedConcat(fv, es, rs, Sift(fv, filter, Pairs(Slice(fv, es, rs[r]))), from,
                    Answer(fv, es, filter, rs[r + 1..]), later);
      from := from + later;
    }
  }

  lemma NothingOrdered(fv: Schema, es: Entries, rs: seq<Range>)
    ensures Ordered(fv, es, rs, [], [])
  {
  }

  /** Ids come range by range, and within a range in the order of the keys they are recorded under. */
  lemma AnswerInOrder(b: Both, t: Tree) returns (from: seq<Origin>)
    requires Agree(b) && Searchable(b.fv, t)
    ensures var ids, ps := PlanAnswer(b, t), Extracted(t, 0, |b.fv|).1;
            && ps != [] && Ordered(b.fv, b.es, ScanRanges(ps), ids, from)
            && forall x, y | 0 <= x < y < |ids| && from[x].range == from[y].range ::
                 ids[x] in b.m && ids[y] in b.m && CmpKey(b.fv, b.m[ids[x]], b.m[ids[y]]) <= 0
  {
    hide Agree, Answer, Extracted, ScanRanges, CmpKey, InRange;
    SearchableExact(t, |b.fv|);
    AgreeSorted(b);
    var (t', ps) := Extracted(t, 0, |b.fv|);
    var ids, rs := PlanAnswer(b, t), ScanRanges(ps);
    assert rs[0..] == rs;
    from := AnswerOrder(b.fv, b.es, PlanFilter(t'), rs, 0);
    forall x, y | 0 <= x < y < |ids| && from[x].range == from[y].range
      ensures ids[x] in b.m && ids[y] in b.m && CmpKey(b.fv, b.m[ids[x]], b.m[ids[y]]) <= 0
    {
      assert Earlier(from[x], from[y]);
      EntriesInOrder(b, from[x].entry, from[y].entry, ids[x], ids[y]);
    }
  }

  /** Ids of one entry, or of an earlier and a later one, are recorded under keys in order. */
  lemma EntriesInOrder(b: Both, i: nat, j: nat, id: Id, id': Id)
    requires Agree(b) && i <= j < |b.es| && id in b.es[i].vals && id' in b.es[j].vals
    ensures id in b.m && id' in b.m && CmpKey(b.fv, b.m[id], b.m[id']) <= 0
  {
    hide Agree, CmpKey, FullKey, Sorted, Home;
    AgreeEntry(b, i, id);
    AgreeEntry(b, j, id');
    AgreeKeys(b, i);
    AgreeKeys(b, j);
    AgreeSorted(b);
    var a, c, e, f := b.m[id], b.m[id'], b.es[i].key, b.es[j].key;
    if i < j { SortedAt(KeyOrder(b.fv), Skiplists.Keys(b.es), i, j); }
    CmpKeyAntisymmetric(b.fv, e, e);
    CmpKeyAntisymmetric(b.fv, a, e);
    CmpKeyAntisymmetric(b.fv, e, a);
    CmpKeyMonotone(b.fv, e, f, c);
    CmpKeyMonotone(b.fv, a, e, c);
  }
}
