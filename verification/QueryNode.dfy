/** Query nodes as objects, marked and rewired in place (src/query.c, src/query_plan.c, src/index.c). */
module QueryNodes {
  import opened Orders
  import opened Keys
  import opened Queries

  class QueryNode {
    const logic: bool            // a logic node, otherwise a predicate node
    const op: Operator
    var pred: Predicate
    var left: QueryNode?
    var right: QueryNode?
    var passthru: bool
    ghost var Repr: set<QueryNode>
    ghost var tree: Tree

    ghost predicate Valid()
      reads this, Repr
      decreases Repr
    {
      && this in Repr
      && if logic then
           && left != null && right != null && {left, right} <= Repr
           && left.Repr + right.Repr <= Repr - {this} && left.Repr !! right.Repr
           && left.Valid() && right.Valid()
           && tree == Logic(op, left.tree, right.tree, passthru)
         else
           tree == Leaf(pred, passthru)
    }

    constructor Predicate(p: Predicate)
      ensures Valid() && fresh(Repr) && tree == Leaf(p, false)
      ensures !logic && Repr == {this}
    {
      logic, op, pred, left, right, passthru := false, OpAnd, p, null, null, false;
      Repr, tree := {this}, Leaf(p, false);
    }

    /** SIQuery_NewLogicNode. */
    constructor Logical(l: QueryNode, o: Operator, r: QueryNode)
      requires l.Valid() && r.Valid() && l.Repr !! r.Repr
      ensures Valid() && Repr == {this} + l.Repr + r.Repr && tree == Logic(o, l.tree, r.tree, false)
    {
      logic, op, pred, left, right, passthru := true, o, PredIsNull(-1), l, r, false;
      Repr, tree := {this} + l.Repr + r.Repr, Logic(o, l.tree, r.tree, false);
    }

    /** getPredicate: find a predicate on the column along AND paths and turn its node into a pass-through. */
    method GetPredicate(propId: int) returns (p: Option<Predicate>)
      requires Valid()
      modifies Repr
      ensures Valid() && Repr == old(Repr)
      ensures (tree, p) == Marked(old(tree), propId)
      ensures (p.Some? <==> OnAndPath(old(tree), propId)) && (p.Some? ==> p.value.propId == propId)
      decreases Repr
    {
      MarkedFinds(tree, propId);
      p := None;
      if passthru {
        return;
      }
      if !logic {
        if pred.propId == propId {
          passthru := true;
          tree := Leaf(pred, true);
          return Some(pred);
        }
      } else if op == OpAnd {
        p := left.GetPredicate(propId);
        if p.None? {
          p := right.GetPredicate(propId);
        }
        tree := Logic(op, left.tree, right.tree, passthru);
      }
    }

    /** A logic node gives way to its one child that is not a pass-through, or becomes one itself. */
    method Collapse() returns (n: QueryNode)
      requires Valid() && logic && !passthru
      modifies this
      ensures n.Valid() && n.Repr <= old(Repr)
      ensures n.tree == var t := old(tree);
                        if t.left.passthru && t.right.passthru then Logic(t.op, t.left, t.right, true)
                        else if t.left.passthru then t.right
                        else if t.right.passthru then t.left
                        else t
    {
      n := this;
      if left.passthru && right.passthru {
        passthru := true;
        tree := Logic(op, left.tree, right.tree, true);
      } else if left.passthru {
        n := right;
        right := null;
      } else if right.passthru {
        n := left;
        left := null;
      }
    }

    /** cleanQueryNode: the returned node takes this node's place. */
    method Clean() returns (n: QueryNode)
      requires Valid()
      modifies Repr
      ensures n.Valid() && n.Repr <= old(Repr)
      ensures n.tree == Cleaned(old(tree))
      decreases Repr
    {
      if passthru || !logic {
        return this;
      }
      left := left.Clean();
      right := right.Clean();
      tree := Logic(op, left.tree, right.tree, passthru);
      n := Collapse();
    }

    /** evalKey. */
    method EvalKey(fv: Schema, mk: MultiKey) returns (ok: bool)
      requires Valid() && |mk| <= |fv|
      ensures ok == Eval(tree, Filtering(fv, mk))
      decreases Repr
    {
      if passthru {
        return true;
      }
      if !logic {
        ok := EvalPredicate(fv, pred, mk);
        return;
      }
      ok := left.EvalKey(fv, mk);
      if op == OpOr {
        if !ok { ok := right.EvalKey(fv, mk); }
      } else {
        if ok { ok := right.EvalKey(fv, mk); }
      }
    }
  }
}
