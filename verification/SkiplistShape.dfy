/** Nodes of the skiplist and the geometry of their links (src/skiplist/skiplist.h, skiplist.c). */
module SkiplistShape {

  const MAX_LEVEL := 32

  datatype Level<!K, !V> = Level(forward: Node?<K, V>, span: nat)

  class Node<K, V> {
    const obj: K              // never read in the header
    ghost const height: nat   // the number of levels, fixed at creation
    var vals: seq<V>
    var backward: Node?<K, V>
    var level: seq<Level<K, V>>

    constructor (height: nat, obj: K, vals: seq<V>)
      ensures this.obj == obj && this.height == height
      ensures this.vals == vals && backward == null
      ensures level == seq(height, _ => Level(null, 0))
    {
      this.obj, this.height, this.vals, this.backward := obj, height, vals, null;
      this.level := seq(height, _ => Level(null, 0));
    }
  }

  // ---------------------------------------------------------------- geometry

  /** The header at rank 0 followed by the nodes in level-0 order. */
  type Row<!K, !V> = seq<Node<K, V>>

  ghost predicate Distinct<K, V>(row: Row<K, V>) {
    forall i, j | 0 <= i < j < |row| :: row[i] != row[j]
  }

  /** The rank of the node that follows rank i on level l; |row| when there is none. */
  ghost function Next<K, V>(row: Row<K, V>, i: nat, l: nat): (j: nat)
    requires i < |row|
    ensures i < j <= |row|
    ensures forall m | i < m < j :: row[m].height <= l
    ensures j < |row| ==> row[j].height > l
    decreases |row| - i
  {
    if i + 1 == |row| || row[i + 1].height > l then i + 1 else Next(row, i + 1, l)
  }

  /** The rank of the last node before rank p that reaches level l. */
  ghost function Prev<K, V>(row: Row<K, V>, p: nat, l: nat): (u: nat)
    requires 0 < p <= |row| && row[0].height > l
    ensures u < p && row[u].height > l
    ensures forall m | u < m < p :: row[m].height <= l
  {
    if row[p - 1].height > l then p - 1 else Prev(row, p - 1, l)
  }

  /** The predecessors' ranks on levels lo to hi. */
  ghost function Ranks<K, V>(row: Row<K, V>, p: nat, lo: nat, hi: nat): (r: seq<nat>)
    requires 0 < p <= |row| && row[0].height >= hi >= lo
    ensures |r| == hi - lo
    decreases hi - lo
  {
    if lo == hi then [] else [Prev(row, p, lo)] + Ranks(row, p, lo + 1, hi)
  }

  /** The predecessors themselves. */
  ghost function Preds<K, V>(row: Row<K, V>, p: nat, lo: nat, hi: nat): (r: seq<Node<K, V>>)
    requires 0 < p <= |row| && row[0].height >= hi >= lo
    ensures |r| == hi - lo
    decreases hi - lo
  {
    if lo == hi then [] else [row[Prev(row, p, lo)]] + Preds(row, p, lo + 1, hi)
  }

  lemma {:induction false} PredsAt<K, V>(row: Row<K, V>, p: nat, lo: nat, hi: nat, l: nat)
    requires 0 < p <= |row| && row[0].height >= hi > l >= lo
    ensures Ranks(row, p, lo, hi)[l - lo] == Prev(row, p, l)
    ensures Preds(row, p, lo, hi)[l - lo] == row[Prev(row, p, l)]
    decreases l - lo
  {
    if lo < l { PredsAt(row, p, lo + 1, hi, l); }
  }

  /** Above the height of every node the predecessor is the header. */
  lemma {:induction false} PredsAbove<K, V>(row: Row<K, V>, p: nat, lo: nat, hi: nat, top: nat)
    requires 0 < p <= |row| && row[0].height >= top >= hi >= lo
    requires forall i | 1 <= i < |row| :: row[i].height <= hi
    ensures Preds(row, p, lo, top) == Preds(row, p, lo, hi) + seq(top - hi, _ => row[0])
    decreases top - lo
  {
    if lo < top {
      if lo == hi {
        PrevIs(row, p, lo, 0);
        PredsAbove(row, p, lo + 1, lo + 1, top);
      } else {
        PredsAbove(row, p, lo + 1, hi, top);
      }
    }
  }

  lemma {:induction false} RanksAbove<K, V>(row: Row<K, V>, p: nat, lo: nat, hi: nat, top: nat)
    requires 0 < p <= |row| && row[0].height >= top >= hi >= lo
    requires forall i | 1 <= i < |row| :: row[i].height <= hi
    ensures Ranks(row, p, lo, top) == Ranks(row, p, lo, hi) + seq(top - hi, _ => 0)
    decreases top - lo
  {
    if lo < top {
      if lo == hi {
        PrevIs(row, p, lo, 0);
        RanksAbove(row, p, lo + 1, lo + 1, top);
      } else {
        RanksAbove(row, p, lo + 1, hi, top);
      }
    }
  }

  ghost function At<K, V>(row: Row<K, V>, j: nat): Node?<K, V> {
    if j < |row| then row[j] else null
  }

  /** What level l of the node at rank i must hold: its successor there, and the level-0 steps to it or to the end. */
  ghost function Link<K, V>(row: Row<K, V>, i: nat, l: nat): Level<K, V>
    requires i < |row|
  {
    var j := Next(row, i, l);
    Level(At(row, j), if j < |row| then j - i else |row| - 1 - i)
  }

  lemma NextIs<K, V>(row: Row<K, V>, i: nat, l: nat, j: nat)
    requires i < j <= |row|
    requires forall m | i < m < j :: row[m].height <= l
    requires j < |row| ==> row[j].height > l
    ensures Next(row, i, l) == j
  {
    var n := Next(row, i, l);
  }

  lemma PrevIs<K, V>(row: Row<K, V>, p: nat, l: nat, u: nat)
    requires 0 < p <= |row| && row[0].height > l
    requires u < p && row[u].height > l
    requires forall m | u < m < p :: row[m].height <= l
    ensures Prev(row, p, l) == u
  {
    var n := Prev(row, p, l);
  }

  ghost function Insert<K, V>(row: Row<K, V>, p: nat, x: Node<K, V>): Row<K, V>
    requires p <= |row|
  {
    seq(|row| + 1, m requires 0 <= m <= |row| => if m < p then row[m] else if m == p then x else row[m - 1])
  }

  ghost function Remove<K, V>(row: Row<K, V>, p: nat): Row<K, V>
    requires p < |row|
  {
    seq(|row| - 1, m requires 0 <= m < |row| - 1 => if m < p then row[m] else row[m + 1])
  }

  /** How inserting x at rank p changes the link of rank i before p. */
  lemma InsertBefore<K, V>(row: Row<K, V>, p: nat, x: Node<K, V>, i: nat, l: nat)
    requires 0 < p <= |row| && i < p && row[0].height > l && row[i].height > l
    ensures Link(Insert(row, p, x), i, l) ==
            if i != Prev(row, p, l) then Link(row, i, l)
            else if x.height > l then Level(x, p - i)
            else Link(row, i, l).(span := Link(row, i, l).span + 1)
  {
    var row', u, j := Insert(row, p, x), Prev(row, p, l), Next(row, i, l);
    if i != u {
      NextIs(row', i, l, j);
    } else {
      assert p <= j;
      if x.height > l {
        NextIs(row', i, l, p);
      } else {
        NextIs(row', i, l, j + 1);
      }
    }
  }

  /** Linkage at or after rank p keep their target and span, one rank later. */
  lemma InsertAfter<K, V>(row: Row<K, V>, p: nat, x: Node<K, V>, i: nat, l: nat)
    requires p <= i < |row|
    ensures Link(Insert(row, p, x), i + 1, l) == Link(row, i, l)
  {
    var row', j := Insert(row, p, x), Next(row, i, l);
    NextIs(row', i + 1, l, j + 1);
  }

  /** The new node takes over the link of its predecessor, shortened by the steps up to rank p. */
  lemma InsertAt<K, V>(row: Row<K, V>, p: nat, x: Node<K, V>, l: nat)
    requires 0 < p <= |row| && row[0].height > l
    ensures var u := Prev(row, p, l);
            && Link(row, u, l).span >= p - 1 - u
            && Link(Insert(row, p, x), p, l) == Link(row, u, l).(span := Link(row, u, l).span - (p - 1 - u))
  {
    var row', u := Insert(row, p, x), Prev(row, p, l);
    var j := Next(row, u, l);
    assert p <= j;
    NextIs(row', p, l, j + 1);
  }

  /** Removing rank p does not touch the links that do not pass over it. */
  lemma RemoveBeforeOther<K, V>(row: Row<K, V>, p: nat, i: nat, l: nat)
    requires 0 < p < |row| && i < p && row[0].height > l && row[i].height > l
    requires i != Prev(row, p, l)
    ensures Link(Remove(row, p), i, l) == Link(row, i, l)
  {
    var row', u, j := Remove(row, p), Prev(row, p, l), Next(row, i, l);
    NextIs(row', i, l, j);
  }

  /** On level l the predecessor of rank p points at p exactly when p reaches that level. */
  lemma PrevPoints<K, V>(row: Row<K, V>, p: nat, l: nat)
    requires 0 < p < |row| && row[0].height > l && Distinct(row)
    ensures var k := Link(row, Prev(row, p, l), l);
            k.span >= 1 && (k.forward == row[p] <==> row[p].height > l)
  {
    var u := Prev(row, p, l);
    assert p <= Next(row, u, l);
    if row[p].height > l { NextIs(row, u, l, p); }
  }

  lemma RemoveReaching<K, V>(row: Row<K, V>, p: nat, l: nat)
    requires 0 < p < |row| && row[0].height > l && row[p].height > l
    ensures Next(Remove(row, p), Prev(row, p, l), l) == Next(row, p, l) - 1
    ensures Next(row, Prev(row, p, l), l) == p
  {
    NextIs(row, Prev(row, p, l), l, p);
    NextIs(Remove(row, p), Prev(row, p, l), l, Next(row, p, l) - 1);
  }

  lemma RemovePassing<K, V>(row: Row<K, V>, p: nat, l: nat)
    requires 0 < p < |row| && row[0].height > l && row[p].height <= l
    ensures p < Next(row, Prev(row, p, l), l)
    ensures Next(Remove(row, p), Prev(row, p, l), l) == Next(row, Prev(row, p, l), l) - 1
  {
    assert p < Next(row, Prev(row, p, l), l);
    NextIs(Remove(row, p), Prev(row, p, l), l, Next(row, Prev(row, p, l), l) - 1);
  }

  /** The link that reaches rank p takes over the removed node's link; one that jumps over p loses one step. */
  lemma RemoveBefore<K, V>(row: Row<K, V>, p: nat, l: nat)
    requires 0 < p < |row| && row[0].height > l
    ensures var u := Prev(row, p, l);
            var old', new' := Link(row, u, l), Link(Remove(row, p), u, l);
            && (row[p].height > l ==>
                  new'.forward == Link(row, p, l).forward && new'.span == old'.span + Link(row, p, l).span - 1)
            && (row[p].height <= l ==>
                  new'.forward == old'.forward && new'.span == old'.span - 1)
  {
    if row[p].height > l {
      RemoveReaching(row, p, l);
    } else {
      RemovePassing(row, p, l);
    }
  }

  lemma RemoveAfter<K, V>(row: Row<K, V>, p: nat, i: nat, l: nat)
    requires p < i < |row|
    ensures Link(Remove(row, p), i - 1, l) == Link(row, i, l)
  {
    var row', j := Remove(row, p), Next(row, i, l);
    NextIs(row', i - 1, l, j - 1);
  }

  /** Some node past the header reaches level l. */
  ghost predicate Reached<K, V>(row: Row<K, V>, l: nat)
    requires |row| > 0
  {
    Next(row, 0, l) < |row|
  }

  lemma InsertReached<K, V>(row: Row<K, V>, p: nat, x: Node<K, V>, l: nat)
    requires 1 <= p <= |row| && (Reached(row, l) || x.height > l)
    ensures Reached(Insert(row, p, x), l)
  {
    var row' := Insert(row, p, x);
    if x.height > l { assert row'[p] == x; }
    else if Next(row, 0, l) < p { assert row'[Next(row, 0, l)].height > l; }
    else { assert row'[Next(row, 0, l) + 1].height > l; }
  }

  // ---------------------------------------------------------------- linked rows

  /** A row with its level arrays, by rank, and the number of levels in use. */
  datatype Linkage<!K, !V> = Linkage(row: Row<K, V>, lv: seq<seq<Level<K, V>>>, level: nat)

  /** The header leads, no node occurs twice, and heights fit the levels in use. */
  ghost predicate Shaped<K, V>(s: Linkage<K, V>) {
    match s
    case Linkage(row, lv, level) =>
      && |lv| == |row| > 0 && Distinct(row)
      && row[0].height == MAX_LEVEL && 1 <= level <= MAX_LEVEL
      && (forall i | 1 <= i < |row| :: 1 <= row[i].height <= level)
      && (forall i | 0 <= i < |row| :: |lv[i]| == row[i].height)
      && (forall l | level <= l < MAX_LEVEL :: lv[0][l].forward == null)
  }

  /** Every level in use holds, at every node, the right successor and span. */
  ghost predicate Linked<K, V>(s: Linkage<K, V>) {
    match s
    case Linkage(row, lv, level) =>
      forall i, l | 0 <= i < |row| && 0 <= l < level && l < row[i].height ::
        i < |lv| && l < |lv[i]| && lv[i][l] == Link(row, i, l)
  }

  /** Midway from row to after: before rank p, the levels below k are already linked as in after. */
  ghost predicate Relinked<K, V>(s: Linkage<K, V>, after: Row<K, V>, p: nat, k: nat) {
    match s
    case Linkage(row, lv, level) =>
      p <= |row| && p <= |after| && forall i: nat, l: nat :: RightLink(s, after, p, k, i, l)
  }

  /** One link of Relinked. */
  ghost predicate RightLink<K, V>(s: Linkage<K, V>, after: Row<K, V>, p: nat, k: nat, i: nat, l: nat)
  {
    p <= |s.row| && p <= |after| && i < |s.row| && l < s.level && l < s.row[i].height ==>
      i < |s.lv| && l < |s.lv[i]| && s.lv[i][l] == Link(if i < p && l < k then after else s.row, i, l)
  }

  lemma ShapedNode<K, V>(s: Linkage<K, V>, i: nat)
    requires Shaped(s) && i < |s.row|
    ensures |s.lv| == |s.row| && |s.lv[i]| == s.row[i].height >= 1
    ensures i > 0 ==> s.row[i].height <= s.level
    ensures s.row[0].height == MAX_LEVEL && 1 <= s.level <= MAX_LEVEL
  {
  }

  lemma ShapedRow<K, V>(s: Linkage<K, V>)
    requires Shaped(s)
    ensures Distinct(s.row)
    ensures forall i | 1 <= i < |s.row| :: s.row[i].height <= s.level
  {
  }

  lemma DistinctFrom<K, V>(s: Linkage<K, V>, u: nat)
    requires Shaped(s) && u < |s.row|
    ensures forall i | 0 <= i < |s.row| && i != u :: s.row[i] != s.row[u]
  {
  }

  lemma LinkedAt<K, V>(s: Linkage<K, V>, i: nat, l: nat)
    requires Shaped(s) && Linked(s) && i < |s.row| && l < s.level && l < s.row[i].height
    ensures |s.lv| == |s.row| && |s.lv[i]| == s.row[i].height
    ensures s.lv[i][l] == Link(s.row, i, l)
  {
  }

  lemma RelinkedAt<K, V>(s: Linkage<K, V>, after: Row<K, V>, p: nat, k: nat, i: nat, l: nat)
    requires Shaped(s) && Relinked(s, after, p, k) && i < |s.row| && l < s.level && l < s.row[i].height
    ensures |s.lv| == |s.row| && |s.lv[i]| == s.row[i].height && (i < p ==> i < |after|)
    ensures s.lv[i][l] == Link(if i < p && l < k then after else s.row, i, l)
  {
    assert RightLink(s, after, p, k, i, l);
  }

  lemma RelinkStart<K, V>(s: Linkage<K, V>, after: Row<K, V>, p: nat)
    requires Shaped(s) && Linked(s) && p <= |s.row| && p <= |after|
    ensures Relinked(s, after, p, 0)
  {
  }

  /** The links with one level of one node overwritten. */
  ghost function WithLink<K, V>(s: Linkage<K, V>, u: nat, k: nat, link: Level<K, V>): Linkage<K, V>
    requires u < |s.lv| && k < |s.lv[u]|
  {
    s.(lv := s.lv[u := s.lv[u][k := link]])
  }

  /** Relinking one level: only the predecessor's link on it changes. */
  lemma RelinkStep<K, V>(s: Linkage<K, V>, after: Row<K, V>, p: nat, k: nat)
    requires Shaped(s) && Relinked(s, after, p, k)
    requires 1 <= p <= |s.row| && p <= |after| && k < s.level && s.row[0].height > k
    requires forall i | 0 <= i < p && i != Prev(s.row, p, k) && s.row[i].height > k ::
               Link(after, i, k) == Link(s.row, i, k)
    ensures var u := Prev(s.row, p, k);
            && u < |s.lv| && k < |s.lv[u]|
            && Relinked(WithLink(s, u, k, Link(after, u, k)), after, p, k + 1)
  {
    hide Shaped, Relinked, RightLink;
    var row, u, next := s.row, Prev(s.row, p, k), k + 1;
    ShapedNode(s, u);
    var s' := WithLink(s, u, k, Link(after, u, k));
    forall i: nat, l: nat ensures RightLink(s', after, p, next, i, l) {
      if i < |row| && l < s.level && l < row[i].height {
        assert l == k && i < p && i != u ==> Link(after, i, k) == Link(row, i, k);
        RelinkPoint(s, after, p, k, u, i, l);
      } else {
        NoLink(s', after, p, next, i, l);
      }
    }
    Relink(s', after, p, next);
  }

  lemma Relink<K, V>(s: Linkage<K, V>, after: Row<K, V>, p: nat, k: nat)
    requires p <= |s.row| && p <= |after|
    requires forall i: nat, l: nat :: RightLink(s, after, p, k, i, l)
    ensures Relinked(s, after, p, k)
  {
    hide RightLink;
  }

  lemma NoLink<K, V>(s: Linkage<K, V>, after: Row<K, V>, p: nat, k: nat, i: nat, l: nat)
    requires i >= |s.row| || l >= s.level || l >= s.row[i].height
    ensures RightLink(s, after, p, k, i, l)
  {
  }

  lemma RelinkPoint<K, V>(s: Linkage<K, V>, after: Row<K, V>, p: nat, k: nat, u: nat, i: nat, l: nat)
    requires Shaped(s) && Relinked(s, after, p, k) && p <= |after| && i < |s.row| && l < s.level && l < s.row[i].height
    requires u < p <= |s.row| && k < s.row[u].height && u < |s.lv| && k < |s.lv[u]|
    requires l == k && i < p && i != u ==> Link(after, i, k) == Link(s.row, i, k)
    ensures RightLink(WithLink(s, u, k, Link(after, u, k)), after, p, k + 1, i, l)
  {
    hide Shaped, Relinked, Link;
    RelinkedAt(s, after, p, k, i, l);
  }

  /** Overwriting a used level keeps the shape. */
  lemma ShapeStep<K, V>(s: Linkage<K, V>, u: nat, k: nat, link: Level<K, V>)
    requires Shaped(s) && u < |s.row| && k < s.row[u].height && k < s.level
    ensures u < |s.lv| && k < |s.lv[u]| && Shaped(WithLink(s, u, k, link))
  {
    var s' := WithLink(s, u, k, link);
    forall l | s.level <= l < MAX_LEVEL ensures s'.lv[0][l].forward == null {
      assert s.lv[0][l].forward == null;
    }
  }

  lemma InsertOthers<K, V>(row: Row<K, V>, p: nat, x: Node<K, V>, k: nat)
    requires 1 <= p <= |row| && row[0].height > k
    ensures forall i | 0 <= i < p && i != Prev(row, p, k) && row[i].height > k ::
              Link(Insert(row, p, x), i, k) == Link(row, i, k)
  {
    forall i | 0 <= i < p && i != Prev(row, p, k) && row[i].height > k
      ensures Link(Insert(row, p, x), i, k) == Link(row, i, k)
    {
      InsertBefore(row, p, x, i, k);
    }
  }

  /** Relinked on all levels, with the new node in place, is linked again. */
  lemma InsertLinked<K, V>(s: Linkage<K, V>, p: nat, x: Node<K, V>, xl: seq<Level<K, V>>)
    requires Shaped(s) && 1 <= p <= |s.row| && x !in s.row && 1 <= x.height == |xl| <= s.level
    requires Relinked(s, Insert(s.row, p, x), p, s.level)
    requires forall l | 0 <= l < x.height :: xl[l] == Link(Insert(s.row, p, x), p, l)
    ensures var s' := Linkage(Insert(s.row, p, x), s.lv[..p] + [xl] + s.lv[p..], s.level);
            Shaped(s') && Linked(s')
  {
    var row, after := s.row, Insert(s.row, p, x);
    ShapedNode(s, 0);
    var s' := Linkage(after, s.lv[..p] + [xl] + s.lv[p..], s.level);
    forall i, l | 0 <= i < |after| && 0 <= l < s.level && l < after[i].height
      ensures i < |s'.lv| && l < |s'.lv[i]| && s'.lv[i][l] == Link(after, i, l)
    {
      if i < p {
        RelinkedAt(s, after, p, s.level, i, l);
      } else if i > p {
        RelinkedAt(s, after, p, s.level, i - 1, l);
        InsertAfter(row, p, x, i - 1, l);
      }
    }
    InsertShaped(s, p, x, xl);
  }

  lemma InsertShaped<K, V>(s: Linkage<K, V>, p: nat, x: Node<K, V>, xl: seq<Level<K, V>>)
    requires Shaped(s) && 1 <= p <= |s.row| && x !in s.row && 1 <= x.height == |xl| <= s.level
    ensures |s.lv| == |s.row|
    ensures Shaped(Linkage(Insert(s.row, p, x), s.lv[..p] + [xl] + s.lv[p..], s.level))
  {
    assert s.lv[..p][0] == s.lv[0];
  }

  lemma RemoveOthers<K, V>(row: Row<K, V>, p: nat, k: nat)
    requires 1 <= p < |row| && row[0].height > k
    ensures forall i | 0 <= i < p && i != Prev(row, p, k) && row[i].height > k ::
              Link(Remove(row, p), i, k) == Link(row, i, k)
  {
    forall i | 0 <= i < p && i != Prev(row, p, k) && row[i].height > k
      ensures Link(Remove(row, p), i, k) == Link(row, i, k)
    {
      RemoveBeforeOther(row, p, i, k);
    }
  }

  /** Relinked on all levels, with rank p taken out, is linked again. */
  lemma RemoveLinked<K, V>(s: Linkage<K, V>, p: nat)
    requires Shaped(s) && 1 <= p < |s.row|
    requires Relinked(s, Remove(s.row, p), p, s.level)
    ensures |s.lv| == |s.row|
    ensures var s' := Linkage(Remove(s.row, p), s.lv[..p] + s.lv[p + 1..], s.level);
            Shaped(s') && Linked(s')
  {
    var row, after := s.row, Remove(s.row, p);
    ShapedNode(s, 0);
    var s' := Linkage(after, s.lv[..p] + s.lv[p + 1..], s.level);
    forall i, l | 0 <= i < |after| && 0 <= l < s.level && l < after[i].height
      ensures i < |s'.lv| && l < |s'.lv[i]| && s'.lv[i][l] == Link(after, i, l)
    {
      if i < p {
        RelinkedAt(s, after, p, s.level, i, l);
      } else {
        RelinkedAt(s, after, p, s.level, i + 1, l);
        RemoveAfter(row, p, i + 1, l);
      }
    }
    RemoveShaped(s, p);
  }

  lemma RemoveShaped<K, V>(s: Linkage<K, V>, p: nat)
    requires Shaped(s) && 1 <= p < |s.row|
    ensures |s.lv| == |s.row|
    ensures Shaped(Linkage(Remove(s.row, p), s.lv[..p] + s.lv[p + 1..], s.level))
  {
    assert s.lv[..p][0] == s.lv[0];
  }

  /** Taking one more header level into use. */
  lemma RaiseStep<K, V>(s: Linkage<K, V>)
    requires Shaped(s) && Linked(s) && s.level < MAX_LEVEL
    ensures |s.lv| > 0 && |s.lv[0]| == MAX_LEVEL && s.lv[0][s.level].forward == null
    ensures var s' := WithLink(s, 0, s.level, Level(null, |s.row| - 1)).(level := s.level + 1);
            Shaped(s') && Linked(s')
  {
    ShapedNode(s, 0);
    var s' := WithLink(s, 0, s.level, Level(null, |s.row| - 1)).(level := s.level + 1);
    NextIs(s.row, 0, s.level, |s.row|);
    forall l | s'.level <= l < MAX_LEVEL ensures s'.lv[0][l].forward == null {
      assert s.lv[0][l].forward == null;
    }
    forall i, l | 0 <= i < |s.row| && 0 <= l < s'.level && l < s.row[i].height
      ensures i < |s'.lv| && l < |s'.lv[i]| && s'.lv[i][l] == Link(s.row, i, l)
    {
      ShapedNode(s, i);
      if l < s.level { LinkedAt(s, i, l); }
    }
  }

  /** Giving up a header level that points nowhere. */
  lemma ShrinkStep<K, V>(s: Linkage<K, V>)
    requires Shaped(s) && Linked(s) && s.level > 1
    ensures |s.lv| > 0 && |s.lv[0]| == MAX_LEVEL
    ensures s.lv[0][s.level - 1].forward == null ==>
              Shaped(s.(level := s.level - 1)) && Linked(s.(level := s.level - 1))
    ensures s.lv[0][s.level - 1].forward == null <==> Next(s.row, 0, s.level - 1) == |s.row|
  {
    ShapedNode(s, 0);
    LinkedAt(s, 0, s.level - 1);
    if s.lv[0][s.level - 1].forward == null {
      forall i | 1 <= i < |s.row| ensures s.row[i].height <= s.level - 1 {}
    }
  }

  /** Level-0 neighbours: the backward pointers, the tail and the length. */
  datatype Chain<!K, !V> = Chain(row: Row<K, V>, back: seq<Node?<K, V>>, tail: Node?<K, V>, length: nat)

  ghost predicate Chained<K, V>(c: Chain<K, V>) {
    match c
    case Chain(row, back, tail, length) =>
      && |back| == |row| > 0
      && length == |row| - 1
      && tail == (if length == 0 then null else row[length])
      && forall i {:trigger back[i]} | 0 <= i < |row| :: back[i] == if i <= 1 then null else row[i - 1]
  }

  /** The backward pointers once x is at rank p. */
  ghost function BackInserted<K, V>(row: Row<K, V>, back: seq<Node?<K, V>>, p: nat, x: Node<K, V>): seq<Node?<K, V>>
    requires 1 <= p <= |row| == |back|
  {
    seq(|back| + 1, i requires 0 <= i <= |back| =>
      if i < p then back[i] else if i == p then (if p == 1 then null else row[p - 1])
      else if i == p + 1 then x else back[i - 1])
  }

  lemma InsertChained<K, V>(c: Chain<K, V>, p: nat, x: Node<K, V>)
    requires Chained(c) && 1 <= p <= |c.row|
    ensures |c.back| == |c.row|
    ensures Chained(Chain(Insert(c.row, p, x), BackInserted(c.row, c.back, p, x),
                          if p == |c.row| then x else c.tail, c.length + 1))
  {
  }

  /** The backward pointers once rank p is gone. */
  ghost function BackRemoved<K, V>(back: seq<Node?<K, V>>, p: nat): seq<Node?<K, V>>
    requires 1 <= p < |back|
  {
    seq(|back| - 1, i requires 0 <= i < |back| - 1 => if i <= p then back[i] else back[i + 1])
  }

  lemma RemoveChained<K, V>(c: Chain<K, V>, p: nat)
    requires Chained(c) && 1 <= p < |c.row|
    ensures |c.back| == |c.row|
    ensures Chained(Chain(Remove(c.row, p), BackRemoved(c.back, p),
                          if p + 1 == |c.row| then c.back[p] else c.tail, c.length - 1))
  {
  }
}
