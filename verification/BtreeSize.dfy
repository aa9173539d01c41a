/** How full the nodes of a B+ tree are (src/btree/btree.c). */
module BtreeSizes {
  import opened Orders
  import opened BtreeShape
  import opened BtreeCuts
  import opened BtreeJoins

  /** btree_cut. */
  function CutAt(length: nat): (c: nat)
    ensures 2 * c - 1 <= length <= 2 * c
  {
    if length % 2 == 0 then length / 2 else length / 2 + 1
  }

  /** The fewest keys a node other than the root may have. */
  function MinKeys(order: nat, height: nat): (m: nat)
    requires order >= 3
    ensures 1 <= m < order
  {
    if height == 0 then CutAt(order - 1) else CutAt(order) - 1
  }

  /** A leaf is at least half full of keys, an inner node of children, and no more is asked than two halves can meet. */
  lemma MinKeysHalf(order: nat, height: nat)
    requires order >= 3
    ensures height == 0 ==> order - 1 <= 2 * MinKeys(order, height) <= order
    ensures height > 0 ==> order <= 2 * (MinKeys(order, height) + 1) <= order + 1
  {
  }

  /** A node is neither too full nor too empty; a root need only not be empty. */
  predicate SizeOk(order: nat, root: bool, height: nat, n: nat)
    requires order >= 3
  {
    n < order && if root then n >= 1 else n >= MinKeys(order, height)
  }

  /** Every node but those in slack has a size within the limits. */
  ghost predicate Sized<N, R>(order: nat, t: Shape<N, R>, slack: set<N>)
    requires order >= 3
  {
    match t
    case Shape(root, nodes, m, home) =>
      forall n | n in nodes && n !in slack :: SizeOk(order, n == root, nodes[n].height, |nodes[n].keys|)
  }

  lemma SizedAt<N, R>(order: nat, t: Shape<N, R>, slack: set<N>, n: N)
    requires order >= 3 && Sized(order, t, slack) && n in t.nodes && n !in slack
    ensures SizeOk(order, n == t.root, t.nodes[n].height, |t.nodes[n].keys|)
  {
  }

  lemma Resized<N, R>(order: nat, t: Shape<N, R>, slack: set<N>, slack': set<N>)
    requires order >= 3 && Sized(order, t, slack)
    requires forall n | n in t.nodes && n in slack && n !in slack' ::
               SizeOk(order, n == t.root, t.nodes[n].height, |t.nodes[n].keys|)
    ensures Sized(order, t, slack')
  {
  }

  /** Splitting an overfull node gives two nodes within the limits; only its parent may be overfull now. */
  lemma SplitSized<N, R>(order: nat, t: Shape<N, R>, n: N, r: N, p: N, j: nat)
    requires order >= 3 && n in t.nodes && CutReady(t, n, r, MinKeys(order, t.nodes[n].height), p, j)
    requires Sized(order, t, {n, p}) && |t.nodes[n].keys| == order
    ensures var t' := Cut(t, n, r, MinKeys(order, t.nodes[n].height), p, j);
            && Sized(order, t', {p}) && p in t'.nodes && |t'.nodes[p].keys| == |t.nodes[p].keys| + 1
            && t'.nodes[p].height == t.nodes[p].height
  {
    hide Formed, Cut;
    var at := MinKeys(order, t.nodes[n].height);
    var t' := Cut(t, n, r, at, p, j);
    CutPlaces(t, n, r, at, p, j);
    CutNodes(t, n, r, at, p, j);
    forall x | x in t'.nodes && x != p ensures SizeOk(order, x == t'.root, t'.nodes[x].height, |t'.nodes[x].keys|) {
      if x != n && x != r { CutOther(t, n, r, at, p, j, x); }
    }
  }

  /** Two neighbours that fit in one node, one of them just too small: only their parent may be too small afterwards. */
  lemma MergeSized<N, R>(order: nat, t: Shape<N, R>, p: N, j: nat)
    requires order >= 3 && JoinReady(t, p, j)
    requires var l, r := t.nodes[p].kids[j], t.nodes[p].kids[j + 1];
             && Sized(order, t, {l, r}) && l in t.nodes && r in t.nodes
             && |t.nodes[l].keys| + |t.nodes[r].keys| < (if t.nodes[l].height == 0 then order else order - 1)
             && |t.nodes[l].keys| + |t.nodes[r].keys| >= 2 * MinKeys(order, t.nodes[l].height) - 1
    ensures var t' := Join(t, p, j);
            && Sized(order, t', {p}) && p in t'.nodes && |t'.nodes[p].keys| == |t.nodes[p].keys| - 1
            && t'.nodes[p].height == t.nodes[p].height
  {
    hide Formed, Join;
    var t' := Join(t, p, j);
    JoinPlaces(t, p, j);
    JoinNodes(t, p, j);
    forall x | x in t'.nodes && x != p ensures SizeOk(order, x == t'.root, t'.nodes[x].height, |t'.nodes[x].keys|) {
      if x != t.nodes[p].kids[j] { JoinOther(t, p, j, x); }
    }
  }

  // ---------------------------------------------------------------- moving one entry to a neighbour

  /** Joining two neighbours and cutting them elsewhere: the left one keeps the first at keys. */
  ghost function Shifted<N, R>(t: Shape<N, R>, p: N, j: nat, at: nat): Shape<N, R>
    requires ShiftReady(t, p, j, at)
  {
    Cut(Join(t, p, j), t.nodes[p].kids[j], t.nodes[p].kids[j + 1], at, p, j)
  }

  ghost predicate ShiftReady<N, R>(t: Shape<N, R>, p: N, j: nat, at: nat) {
    && JoinReady(t, p, j) && Cuttable(Join(t, p, j).nodes, t.nodes[p].kids[j], at)
    && KidAt(Join(t, p, j).nodes, p, j, t.nodes[p].kids[j])
  }

  lemma ShiftIsReady<N, R>(t: Shape<N, R>, p: N, j: nat, at: nat)
    requires JoinReady(t, p, j)
    requires var l, r := t.nodes[t.nodes[p].kids[j]], t.nodes[t.nodes[p].kids[j + 1]];
             (l.height == 0 ==> at > 0) && at < |l.keys| + |r.keys| + (if l.height == 0 then 0 else 1)
    ensures ShiftReady(t, p, j, at)
    ensures CutReady(Join(t, p, j), t.nodes[p].kids[j], t.nodes[p].kids[j + 1], at, p, j)
  {
    hide Formed, Join, LocalOk;
    JoinPlaces(t, p, j);
    JoinNodes(t, p, j);
    JoinFormed(t, p, j);
    FormedNode(t, p);
    FormedNode(Join(t, p, j), t.nodes[p].kids[j]);
    LocalOf(Join(t, p, j).nodes[t.nodes[p].kids[j]]);
  }

  lemma ShiftFormed<N, R>(t: Shape<N, R>, p: N, j: nat, at: nat)
    requires JoinReady(t, p, j)
    requires var l, r := t.nodes[t.nodes[p].kids[j]], t.nodes[t.nodes[p].kids[j + 1]];
             (l.height == 0 ==> at > 0) && at < |l.keys| + |r.keys| + (if l.height == 0 then 0 else 1)
    ensures ShiftReady(t, p, j, at) && Formed(Shifted(t, p, j, at)) && Shifted(t, p, j, at).m == t.m
    ensures Shifted(t, p, j, at).root == t.root
  {
    hide Formed, Join, Cut, CutReady, Cuttable;
    ShiftIsReady(t, p, j, at);
    JoinNodes(t, p, j);
    CutNodes(Join(t, p, j), t.nodes[p].kids[j], t.nodes[p].kids[j + 1], at, p, j);
    CutFormed(Join(t, p, j), t.nodes[p].kids[j], t.nodes[p].kids[j + 1], at, p, j);
  }

  /** What shifting does to each node. */
  lemma ShiftNodes<N, R>(t: Shape<N, R>, p: N, j: nat, at: nat)
    requires ShiftReady(t, p, j, at)
    ensures var l, r, sep, t' := t.nodes[p].kids[j], t.nodes[p].kids[j + 1], t.nodes[p].keys[j], Shifted(t, p, j, at);
            var both := Joined(t.nodes[l], t.nodes[r], sep);
            && t'.nodes.Keys == t.nodes.Keys && t'.root == t.root
            && at < |both.keys| && |both.recs| == (if both.height == 0 then |both.keys| else 0)
            && |both.kids| == (if both.height == 0 then 0 else |both.keys| + 1)
            && t'.nodes[l] == LeftPart(both, r, at) && t'.nodes[r] == RightPart(both, at)
            && t'.nodes[p] == t.nodes[p].(keys := t.nodes[p].keys[j := both.keys[at]])
  {
    hide Formed;
    var l, r := t.nodes[p].kids[j], t.nodes[p].kids[j + 1];
    JoinPlaces(t, p, j);
    JoinNodes(t, p, j);
    var u := Join(t, p, j);
    assert u.nodes.Keys + {r} == t.nodes.Keys;
    var a, b := WithKid(u.nodes[p], j, u.nodes[l].keys[at], r),
        t.nodes[p].(keys := t.nodes[p].keys[j := u.nodes[l].keys[at]]);
    assert a.keys == b.keys;
    assert a.kids == b.kids;
  }

  lemma ShiftOther<N, R>(t: Shape<N, R>, p: N, j: nat, at: nat, x: N)
    requires ShiftReady(t, p, j, at) && x in t.nodes
    requires x != p && x != t.nodes[p].kids[j] && x != t.nodes[p].kids[j + 1]
    ensures var l, r, sep, t' := t.nodes[p].kids[j], t.nodes[p].kids[j + 1], t.nodes[p].keys[j], Shifted(t, p, j, at);
            var both := Joined(t.nodes[l], t.nodes[r], sep);
            && x in t'.nodes && at < |both.keys| && |both.recs| == (if both.height == 0 then |both.keys| else 0)
            && |both.kids| == (if both.height == 0 then 0 else |both.keys| + 1)
            && t'.nodes[x] == (if x in RightPart(both, at).kids then t.nodes[x].(parent := Some(r))
                               else if x in t.nodes[r].kids then t.nodes[x].(parent := Some(l))
                               else t.nodes[x])
  {
    hide Formed;
    JoinPlaces(t, p, j);
    JoinNodes(t, p, j);
  }

  /** Shifting leaves the parent's size alone. */
  lemma ShiftSized<N, R>(order: nat, t: Shape<N, R>, p: N, j: nat, at: nat)
    requires order >= 3 && ShiftReady(t, p, j, at)
    requires var l, r := t.nodes[p].kids[j], t.nodes[p].kids[j + 1];
             && Sized(order, t, {l, r})
             && var h, n := t.nodes[l].height, |t.nodes[l].keys| + |t.nodes[r].keys|;
                SizeOk(order, false, h, at) && n >= at && SizeOk(order, false, h, n - at)
    ensures Sized(order, Shifted(t, p, j, at), {})
  {
    hide Formed, Shifted, Cuttable, Join;
    var l, r, t' := t.nodes[p].kids[j], t.nodes[p].kids[j + 1], Shifted(t, p, j, at);
    JoinPlaces(t, p, j);
    ShiftNodes(t, p, j, at);
    forall x | x in t'.nodes ensures SizeOk(order, x == t'.root, t'.nodes[x].height, |t'.nodes[x].keys|) {
      if x != l && x != r {
        SizedAt(order, t, {l, r}, x);
        if x != p { ShiftOther(t, p, j, at, x); }
      }
    }
  }
}
