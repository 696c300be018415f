/** Building query trees in place: a union takes one input more instead of nesting
    (parser/transform_select.go:34-49, 107-147, 193-276). */
module SetOps {
  import opened Tokens
  import opened Relations
  import opened Queries
  import opened RecursiveCtes

  class QueryNode {
    // A select named by `id`, or a set operation over `inputs`.
    const isSetOp: bool
    const id: string
    const setOpType: SetOpType
    const setOpAll: bool
    var inputs: seq<QueryNode>
    var modifiers: seq<Modifier>
    var ctes: seq<Cte>
    ghost var repr: set<QueryNode>

    ghost predicate Valid()
      reads this, repr
      decreases repr
    {
      && this in repr
      && (forall i :: 0 <= i < |inputs| ==>
           inputs[i] in repr && inputs[i].repr <= repr && this !in inputs[i].repr && inputs[i].Valid())
      && (forall i, j :: 0 <= i < j < |inputs| ==> inputs[i].repr !! inputs[j].repr)
    }

    /** The query the node and everything under it stand for. */
    ghost function Tree(): (q: Query)
      requires Valid()
      ensures isSetOp <==> q.SetOp?
      reads this, repr
      decreases repr, |inputs| + 1
    {
      if isSetOp then SetOp(setOpType, setOpAll, Trees(|inputs|), modifiers, ctes) else Select(id, modifiers, ctes)
    }

    /** The first k inputs' queries. */
    ghost function Trees(k: nat): (qs: seq<Query>)
      requires Valid() && k <= |inputs|
      ensures |qs| == k && forall i :: 0 <= i < k ==> qs[i] == inputs[i].Tree()
      reads this, repr
      decreases repr, k
    {
      if k == 0 then [] else Trees(k - 1) + [inputs[k - 1].Tree()]
    }

    constructor Leaf(id: string)
      ensures Valid() && fresh(repr) && Tree() == Select(id, [], [])
    {
      this.isSetOp, this.id, this.setOpType, this.setOpAll := false, id, Union, false;
      inputs, modifiers, ctes, repr := [], [], [], {this};
    }

    constructor Pair(t: SetOpType, all: bool, left: QueryNode, right: QueryNode)
      requires left.Valid() && right.Valid() && left.repr !! right.repr
      ensures Valid() && fresh(repr - left.repr - right.repr)
      ensures Tree() == SetOp(t, all, [left.Tree(), right.Tree()], [], [])
    {
      this.isSetOp, this.id, this.setOpType, this.setOpAll := true, "", t, all;
      inputs, modifiers, ctes := [left, right], [], [];
      repr := {this} + left.repr + right.repr;
      new;
      assert this !in left.repr && this !in right.repr;
      assert Tree().inputs == [left.Tree(), right.Tree()];
    }

    /** ls.Inputs = append(ls.Inputs, right). */
    method AddInput(right: QueryNode)
      requires Valid() && isSetOp && right.Valid() && repr !! right.repr
      modifies this
      ensures Valid() && repr == old(repr) + right.repr
      ensures Tree() == Widened(old(Tree()), old(right.Tree()))
    {
      ghost var was, last := Tree().inputs, right.Tree();
      inputs := inputs + [right];
      repr := repr + right.repr;
      assert Valid();
      assert right.Tree() == last;
      assert forall i :: 0 <= i < |was| ==> inputs[i].Tree() == was[i];
      assert Tree().inputs == was + [last];
    }

    /** Outer CTEs in front of the node's own, outer modifiers behind them. */
    method Attach(outerCtes: seq<Cte>, outerModifiers: seq<Modifier>)
      requires Valid()
      modifies this
      ensures Valid() && repr == old(repr)
      ensures Tree()
        == old(Tree()).(modifiers := old(Tree()).modifiers + outerModifiers, ctes := outerCtes + old(Tree()).ctes)
    {
      ghost var was := Tree();
      modifiers := modifiers + outerModifiers;
      if |outerCtes| > 0 {
        ctes := outerCtes + ctes;
      } else {
        assert outerCtes + ctes == ctes;
      }
      assert isSetOp ==> Tree().inputs == was.inputs;
    }

    /** All but the last input, without the CTEs. */
    method DropLast()
      requires Valid() && isSetOp && |inputs| > 0
      modifies this
      ensures Valid() && repr == old(repr)
      ensures Tree() == Shortened(old(Tree()))
    {
      ghost var was := Tree().inputs;
      inputs := inputs[..|inputs| - 1];
      ctes := [];
      assert Valid();
      assert forall i :: 0 <= i < |inputs| ==> inputs[i].Tree() == was[i];
      assert Tree().inputs == was[..|was| - 1];
    }
  }

  /** buildSetOp. */
  method BuildSetOp(left: QueryNode, right: QueryNode, c: Clause) returns (r: QueryNode?)
    requires left.Valid() && right.Valid() && left.repr !! right.repr
    modifies left
    ensures r == null <==> Built(old(left.Tree()), old(right.Tree()), c).None?
    ensures r != null ==>
      && r.Valid() && fresh(r.repr - old(left.repr) - old(right.repr))
      && r.Tree() == Built(old(left.Tree()), old(right.Tree()), c).value
  {
    var t := if c.except then Except else Union;
    if c.byName {
      if t != Union {
        return null;
      }
      t := UnionByName;
    }
    assert t == TypeOf(c);
    r := Joined(left, right, t, c.all);
  }

  /** The left node with one input more where it is a union of that kind, else a new node. */
  method Joined(left: QueryNode, right: QueryNode, t: SetOpType, all: bool) returns (r: QueryNode)
    requires left.Valid() && right.Valid() && left.repr !! right.repr
    modifies left
    ensures r.Valid() && fresh(r.repr - old(left.repr) - old(right.repr))
    ensures
      var was, other := old(left.Tree()), old(right.Tree());
      r.Tree() == if Flattens(was, t, all) then Widened(was, other) else SetOp(t, all, [was, other], [], [])
  {
    if t == Union || t == UnionByName {
      if left.isSetOp && left.setOpType == t && left.setOpAll == all && |left.modifiers| == 0 && |left.ctes| == 0 {
        left.AddInput(right);
        return left;
      }
    }
    r := new QueryNode.Pair(t, all, left, right);
  }

  /** transformSelectInternal. */
  method TransformStatement(s: Statement) returns (r: QueryNode?)
    ensures r == null <==> FlatStatement(s).None?
    ensures r != null ==> r.Valid() && fresh(r.repr) && r.Tree() == FlatStatement(s).value
    decreases s, 0, 0
  {
    r := TransformChain(s.chain);
    if r != null {
      r.Attach(s.ctes, s.modifiers);
    }
  }

  /** transformSetOpChain. */
  method TransformChain(c: Chain) returns (r: QueryNode?)
    ensures r == null <==> FlatChain(c, |c.tails|).None?
    ensures r != null ==> r.Valid() && fresh(r.repr) && r.Tree() == FlatChain(c, |c.tails|).value
    decreases c, 0, 0
  {
    r := TransformIntersects(c.first);
    if r == null {
      NoneStays(c, 0);
      return;
    }
    for k := 0 to |c.tails|
      invariant r != null && r.Valid() && fresh(r.repr)
      invariant FlatChain(c, k) == Some(r.Tree())
    {
      NextTail(c, k, r.Tree());
      r := TakeTail(r, c.tails[k]);
      if r == null {
        NoneStays(c, k + 1);
        return;
      }
    }
  }

  method TakeTail(left: QueryNode, tail: ChainTail) returns (r: QueryNode?)
    requires left.Valid()
    modifies left
    ensures r == null <==> Taken(old(left.Tree()), tail).None?
    ensures r != null ==>
      && r.Valid() && fresh(r.repr - old(left.repr))
      && r.Tree() == Taken(old(left.Tree()), tail).value
    decreases tail, 0, 0
  {
    r := TransformIntersects(tail.operand);
    if r != null {
      r := BuildSetOp(left, r, tail.clause);
    }
  }

  lemma NextTail(c: Chain, k: nat, left: Query)
    requires k < |c.tails| && FlatChain(c, k) == Some(left)
    ensures FlatChain(c, k + 1) == Taken(left, c.tails[k])
  {
  }

  lemma {:induction false} NoneStays(c: Chain, k: nat)
    requires k <= |c.tails| && FlatChain(c, k).None?
    ensures FlatChain(c, |c.tails|).None?
    decreases |c.tails| - k
  {
    if k < |c.tails| {
      NoneStays(c, k + 1);
    }
  }

  /** transformIntersectChain. */
  method TransformIntersects(c: Intersects) returns (r: QueryNode?)
    ensures r == null <==> FlatIntersects(c, |c.tails|).None?
    ensures r != null ==> r.Valid() && fresh(r.repr) && r.Tree() == FlatIntersects(c, |c.tails|).value
    decreases c, 0, 0
  {
    r := TransformAtom(c.first);
    if r == null {
      NoneStaysIntersected(c, 0);
      return;
    }
    for k := 0 to |c.tails|
      invariant r != null && r.Valid() && fresh(r.repr)
      invariant FlatIntersects(c, k) == Some(r.Tree())
    {
      NextIntersect(c, k, r.Tree());
      r := TakeIntersect(r, c.tails[k]);
      if r == null {
        NoneStaysIntersected(c, k + 1);
        return;
      }
    }
  }

  method TakeIntersect(left: QueryNode, tail: IntersectTail) returns (r: QueryNode?)
    requires left.Valid()
    ensures r == null <==> Intersected(left.Tree(), tail).None?
    ensures r != null ==>
      && r.Valid() && fresh(r.repr - left.repr)
      && r.Tree() == Intersected(old(left.Tree()), tail).value
    decreases tail, 0, 0
  {
    r := TransformAtom(tail.operand);
    if r != null {
      r := new QueryNode.Pair(Intersect, tail.all, left, r);
    }
  }

  lemma NextIntersect(c: Intersects, k: nat, left: Query)
    requires k < |c.tails| && FlatIntersects(c, k) == Some(left)
    ensures FlatIntersects(c, k + 1) == Intersected(left, c.tails[k])
  {
  }

  lemma {:induction false} NoneStaysIntersected(c: Intersects, k: nat)
    requires k <= |c.tails| && FlatIntersects(c, k).None?
    ensures FlatIntersects(c, |c.tails|).None?
    decreases |c.tails| - k
  {
    if k < |c.tails| {
      NoneStaysIntersected(c, k + 1);
    }
  }

  /** transformSelectAtom. */
  method TransformAtom(a: Atom) returns (r: QueryNode?)
    ensures r == null <==> FlatAtom(a).None?
    ensures r != null ==> r.Valid() && fresh(r.repr) && r.Tree() == FlatAtom(a).value
    decreases a, 0, 0
  {
    if a.Parens? {
      r := TransformStatement(a.stmt);
    } else {
      r := new QueryNode.Leaf(a.id);
    }
  }

  datatype RecursiveCte =
    | NoUnion
    | RefusedFor(reason: string)
    | Parts(name: string, unionAll: bool, left: QueryNode, right: QueryNode, ctes: seq<Cte>)

  /** transformWithStatement's recursive form: the union node itself becomes the left part. */
  method ToRecursive(name: string, node: QueryNode) returns (r: RecursiveCte)
    requires node.Valid()
    modifies node
    ensures
      match SplitOf(name, old(node.Tree()))
      case NotUnion => r == NoUnion
      case Refused(reason) => r == RefusedFor(reason)
      case Recursive(_, all, left, right, ctes) =>
        && r.Parts? && r.name == name && r.unionAll == all && r.ctes == ctes
        && r.left.Valid() && r.left.Tree() == left && r.right.Valid() && r.right.Tree() == right
  {
    if !node.isSetOp || node.setOpType != Union || |node.inputs| < 2 {
      return NoUnion;
    }
    var objection := FirstObjection(node.modifiers);
    if objection.Some? {
      return RefusedFor(objection.value);
    }
    r := TakeApart(name, node);
  }

  /** The check of the modifiers, in order. */
  method FirstObjection(modifiers: seq<Modifier>) returns (o: Option<string>)
    ensures o == Objection(modifiers)
  {
    for i := 0 to |modifiers|
      invariant Objection(modifiers[i..]) == Objection(modifiers)
    {
      assert modifiers[i..][0] == modifiers[i] && modifiers[i..][1..] == modifiers[i + 1..];
      match modifiers[i]
      case Limit(_, percentage) =>
        if !percentage {
          return Some("LIMIT or OFFSET in a recursive query is not allowed");
        }
      case Order(_) => return Some("ORDER BY in a recursive query is not allowed");
    }
    return None;
  }

  method TakeApart(name: string, node: QueryNode) returns (r: RecursiveCte)
    requires node.Valid() && IsUnionNode(node.Tree()) && Objection(node.modifiers).None?
    modifies node
    ensures r.Parts? && r.left.Valid() && r.right.Valid()
    ensures SplitOf(name, old(node.Tree())) == Recursive(r.name, r.unionAll, r.left.Tree(), r.right.Tree(), r.ctes)
  {
    ghost var was := node.Tree();
    var all, ctes, last := node.setOpAll, node.ctes, node.inputs[|node.inputs| - 1];
    assert node !in last.repr && last.Tree() == was.inputs[|was.inputs| - 1];
    if |node.inputs| == 2 {
      var first := node.inputs[0];
      assert node !in first.repr && first.Tree() == was.inputs[0];
      assert SplitOf(name, was) == Recursive(name, all, first.Tree(), last.Tree(), ctes);
      node.ctes := [];
      StaysAsItWas(first);
      StaysAsItWas(last);
      r := Parts(name, all, first, last, ctes);
    } else {
      assert SplitOf(name, was) == Recursive(name, all, Shortened(was), last.Tree(), ctes);
      node.DropLast();
      StaysAsItWas(last);
      r := Parts(name, all, node, last, ctes);
    }
  }

  /** A node under which nothing changed. */
  twostate lemma StaysAsItWas(node: QueryNode)
    requires old(node.Valid()) && unchanged(old(node.repr))
    ensures node.Valid() && node.Tree() == old(node.Tree())
  {
  }
}
