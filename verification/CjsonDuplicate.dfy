/** `cJSON_Duplicate` on nodes linked by child, next and prev. */
module CjsonDuplicate {
  import opened Options
  import opened CjsonTree
  import C = CjsonCompare

  datatype Kind = KFalse | KTrue | KNull | KNumber | KString | KArray | KObject

  /** What a node and all below it hold. */
  datatype Tree = Tree(kind: Kind, reference: bool, value: real, text: Option<string>, key: Option<string>,
                       children: seq<Tree>)

  class Node {
    var kind: Kind
    var reference: bool
    var value: real
    var text: Option<string>
    var key: Option<string>
    var child: Node?
    var next: Node?
    var prev: Node?
    /** The children in order, and all nodes of the tree under this one with itself. */
    ghost var Kids: seq<Node>
    ghost var Repr: set<Node>

    /** `cJSON_New_Item`: all zero. */
    constructor ()
      ensures child == null && next == null && prev == null && Kids == [] && Repr == {this}
    {
      kind, reference, value, text, key := KNull, false, 0.0, None, None;
      child, next, prev := null, null, null;
      Kids, Repr := [], {this};
    }

    ghost predicate Holds(t: Tree) reads `kind, `reference, `value, `text, `key {
      kind == t.kind && reference == t.reference && value == t.value && text == t.text && key == t.key
    }

    /** The trees of the children lie inside this one, apart from each other. */
    ghost predicate Owns() reads `Kids, `Repr, Repr`Repr {
      && this in Repr
      && (forall k :: 0 <= k < |Kids| ==> Kids[k] in Repr && Kids[k] != this && Kids[k] in Kids[k].Repr)
      && (forall k :: 0 <= k < |Kids| ==> Kids[k].Repr <= Repr && this !in Kids[k].Repr)
      && (forall i, k :: 0 <= i < k < |Kids| ==> Kids[i].Repr !! Kids[k].Repr)
    }

    /** The children are chained in order; with `linked` they also point back. */
    ghost predicate Links(linked: bool)
      requires Owns()
      reads `child, `Kids, `Repr, Repr`Repr, (Repr - {this})`next, (Repr - {this})`prev
    {
      && child == NodeAt(Kids, 0)
      && (forall k :: 0 <= k < |Kids| ==> Kids[k].next == NodeAt(Kids, k + 1))
      && (linked ==> forall k :: 0 <= k < |Kids| ==> Kids[k].prev == NodeAt(Kids, k - 1))
    }

    ghost predicate Chain(linked: bool)
      reads `child, `Kids, `Repr, Repr`Repr, (Repr - {this})`next, (Repr - {this})`prev
    {
      Owns() && Links(linked)
    }

    /** The node holds `t`. */
    ghost predicate IsTree(t: Tree, linked: bool)
      reads `kind, `reference, `value, `text, `key, `child, `Kids, `Repr, Repr - {this}
      decreases t, 1
    {
      Holds(t) && Chain(linked) && |Kids| == |t.children| && KidsHold(t.children, linked)
    }

    ghost predicate KidsHold(ts: seq<Tree>, linked: bool)
      requires Chain(linked) && |Kids| == |ts|
      reads `child, `Kids, `Repr, Repr - {this}
      decreases ts, 0
    {
      forall k :: 0 <= k < |Kids| ==> Kids[k].IsTree(ts[k], linked)
    }

    lemma Unfold(t: Tree, linked: bool)
      requires IsTree(t, linked)
      ensures Holds(t) && Chain(linked) && |Kids| == |t.children| && KidsHold(t.children, linked)
      ensures this in Repr && forall k :: 0 <= k < |Kids| ==> Kids[k] in Repr && Kids[k].Repr <= Repr
      ensures child == NodeAt(Kids, 0)
      ensures forall k :: 0 <= k < |Kids| ==> Kids[k].next == NodeAt(Kids, k + 1)
      ensures forall k :: 0 <= k < |Kids| ==> Kids[k].IsTree(t.children[k], linked)
    {
    }

    lemma Fold(t: Tree, linked: bool)
      requires Holds(t) && Chain(linked) && |Kids| == |t.children| && KidsHold(t.children, linked)
      ensures IsTree(t, linked)
    {
    }

    lemma Empty()
      requires Repr == {this} && Kids == [] && child == null
      ensures Chain(true) && KidsHold([], true)
    {
    }

    /** The tree of a new child, apart from all that is there. */
    ghost predicate Detached(newchild: Node) reads `Repr, newchild {
      newchild in newchild.Repr && newchild.Repr !! Repr && newchild.next == null && newchild.prev == null
    }

    /** The first copied child. */
    method AttachFirst(newchild: Node, ghost t: Tree)
      requires Chain(true) && Kids == [] && Detached(newchild) && newchild.IsTree(t, true)
      modifies `child, `Kids, `Repr
      ensures Kids == [newchild] && Repr == old(Repr) + newchild.Repr && Chain(true) && KidsHold([t], true)
    {
      hide IsTree;
      child := newchild;
      Kids, Repr := [newchild], Repr + newchild.Repr;
    }

    /** Neither the last child nor a new one lies below another child. */
    lemma Outside(newchild: Node)
      requires Owns() && Detached(newchild)
      ensures forall i, k :: 0 <= i < k < |Kids| ==> Kids[i] != Kids[k]
      ensures |Kids| > 0 ==> forall k :: 0 <= k < |Kids| ==> Kids[|Kids| - 1] !in Kids[k].Repr - {Kids[k]}
      ensures forall k :: 0 <= k < |Kids| ==> newchild !in Kids[k].Repr && newchild != Kids[k]
      ensures |Kids| > 0 ==> Kids[|Kids| - 1] !in newchild.Repr
      ensures forall k :: 0 <= k < |Kids| ==> this !in Kids[k].Repr && this != Kids[k]
      ensures this !in newchild.Repr && this != newchild
    {
    }

    /** The last child and the new one are crosswired; this concerns no tree below any of them. */
    method Crosswire(last: Node, newchild: Node, ghost ts: seq<Tree>, ghost t: Tree)
      requires Chain(true) && |Kids| == |ts| > 0 && KidsHold(ts, true) && last == Kids[|Kids| - 1]
      requires Detached(newchild) && newchild.IsTree(t, true)
      modifies last`next, newchild`prev
      ensures forall k :: 0 <= k < |Kids| ==> Kids[k].IsTree(ts[k], true)
      ensures newchild.IsTree(t, true) && newchild.next == null && newchild.prev == last && last.next == newchild
      ensures forall k :: 0 <= k < |Kids| - 1 ==> Kids[k].next == Kids[k + 1]
      ensures forall k :: 0 <= k < |Kids| ==> Kids[k].prev == NodeAt(Kids, k - 1)
    {
      hide IsTree, Owns;
      Outside(newchild);
      last.next := newchild;
      newchild.prev := last;
    }

    /** The next copied child, behind the last one. */
    method AttachNext(last: Node, newchild: Node, ghost ts: seq<Tree>, ghost t: Tree)
      requires Chain(true) && |Kids| == |ts| > 0 && KidsHold(ts, true) && last == Kids[|Kids| - 1]
      requires Detached(newchild) && newchild.IsTree(t, true)
      modifies `Kids, `Repr, last`next, newchild`prev
      ensures Kids == old(Kids) + [newchild] && Repr == old(Repr) + newchild.Repr
      ensures Chain(true) && KidsHold(ts + [t], true)
    {
      hide IsTree, Owns, KidsHold;
      Crosswire(last, newchild, ts, t);
      Record(last, newchild, ts, t);
    }

    /** One more child whose tree lies apart from all the others. */
    lemma Attached(newchild: Node)
      requires this in Repr && |Kids| > 0 && Kids[|Kids| - 1] == newchild && newchild in newchild.Repr
      requires newchild.Repr <= Repr && this !in newchild.Repr && this != newchild
      requires forall k :: 0 <= k < |Kids| - 1 ==> Kids[k] in Repr && Kids[k] != this && Kids[k] in Kids[k].Repr
      requires forall k :: 0 <= k < |Kids| - 1 ==> Kids[k].Repr <= Repr && this !in Kids[k].Repr
      requires forall i, k :: 0 <= i < k < |Kids| - 1 ==> Kids[i].Repr !! Kids[k].Repr
      requires forall k :: 0 <= k < |Kids| - 1 ==> Kids[k].Repr !! newchild.Repr
      ensures Owns()
    {
    }

    lemma Linked(last: Node)
      requires Owns() && |Kids| > 0 && child == Kids[0] && last == Kids[|Kids| - 1] && last.next == null
      requires forall k :: 0 <= k < |Kids| - 1 ==> Kids[k].next == Kids[k + 1]
      requires forall k :: 0 <= k < |Kids| ==> Kids[k].prev == NodeAt(Kids, k - 1)
      ensures Links(true)
    {
    }

    /** The new child is crosswired; it only remains to count it among the children. */
    ghost method Record(last: Node, newchild: Node, ts: seq<Tree>, t: Tree)
      requires Owns() && newchild in newchild.Repr && newchild.Repr !! Repr && |Kids| == |ts| > 0
      requires child == Kids[0] && last == Kids[|Kids| - 1]
      requires forall k :: 0 <= k < |Kids| ==> Kids[k].IsTree(ts[k], true)
      requires newchild.IsTree(t, true) && newchild.next == null && newchild.prev == last && last.next == newchild
      requires forall k :: 0 <= k < |Kids| - 1 ==> Kids[k].next == Kids[k + 1]
      requires forall k :: 0 <= k < |Kids| ==> Kids[k].prev == NodeAt(Kids, k - 1)
      modifies `Kids, `Repr
      ensures Kids == old(Kids) + [newchild] && Repr == old(Repr) + newchild.Repr
      ensures Chain(true) && KidsHold(ts + [t], true)
    {
      hide IsTree;
      assert forall k :: 0 <= k < |Kids| ==> this !in Kids[k].Repr && this != Kids[k];
      Kids, Repr := Kids + [newchild], Repr + newchild.Repr;
      Attached(newchild);
      hide Owns, Links;
      Linked(newchild);
      assert forall k :: 0 <= k < |ts| ==> Kids[k].IsTree(ts[k], true);
    }
  }

  function NodeAt(nodes: seq<Node>, k: int): Node? { if 0 <= k < |nodes| then nodes[k] else null }

  /** A copy is never a reference to the children of another node. */
  function Unreferenced(t: Tree): Tree {
    t.(reference := false,
       children := seq(|t.children|, k requires 0 <= k < |t.children| => Unreferenced(t.children[k])))
  }

  lemma CopiedChildren(t: Tree)
    ensures var u := Unreferenced(t);
      && u == t.(reference := false, children := u.children) && |u.children| == |t.children|
      && forall k :: 0 <= k < |t.children| ==> u.children[k] == Unreferenced(t.children[k])
  {
  }

  /** `cJSON_Duplicate`: new nodes only, holding what the old ones hold. */
  method Duplicate(item: Node, recurse: bool, ghost t: Tree) returns (copy: Node)
    requires item.IsTree(t, false)
    ensures fresh(copy.Repr) && copy in copy.Repr && copy.next == null && copy.prev == null
    ensures copy.IsTree(if recurse then Unreferenced(t) else t.(reference := false, children := []), true)
    decreases t, 2
  {
    hide Node.IsTree, Node.Chain, Node.Owns, Node.Links, Node.KidsHold, Unreferenced;
    item.Unfold(t, false);
    copy := new Node();
    copy.kind, copy.reference := item.kind, false;
    copy.value, copy.text, copy.key := item.value, item.text, item.key;
    if recurse {
      CopyChildren(item, copy, t);
      copy.Unfold(Unreferenced(t), true);
    } else {
      copy.Empty();
      copy.Fold(t.(reference := false, children := []), true);
    }
  }

  /** One child is copied and attached. */
  method CopyChild(child: Node, copy: Node, last: Node?, ghost ts: seq<Tree>, ghost t: Tree) returns (newchild: Node)
    requires child.IsTree(t, false) && copy !in child.Repr && child != copy
    requires |copy.Kids| == |ts| && copy.Chain(true) && copy.KidsHold(ts, true) && last == NodeAt(copy.Kids, |ts| - 1)
    modifies copy`child, copy`Kids, copy`Repr, (if last == null then {} else {last})`next
    ensures fresh(newchild) && fresh(newchild.Repr) && copy.Kids == old(copy.Kids) + [newchild]
    ensures copy.Repr == old(copy.Repr) + newchild.Repr
    ensures copy.Chain(true) && copy.KidsHold(ts + [Unreferenced(t)], true)
    decreases t, 3
  {
    hide Node.IsTree, Node.Owns;
    newchild := Duplicate(child, true, t);
    if last != null {
      copy.AttachNext(last, newchild, ts, Unreferenced(t));
    } else {
      copy.AttachFirst(newchild, Unreferenced(t));
      assert [Unreferenced(t)] == ts + [Unreferenced(t)];
    }
  }

  /** The first `n` children of `item` have been copied, and the walk stands at `child`. */
  ghost predicate Walked(item: Node, t: Tree, n: nat, child: Node?, copy: Node, last: Node?)
    reads item, item.Repr, copy, copy.Repr
  {
    && item.IsTree(t, false) && |item.Kids| == |t.children| && n <= |t.children| && child == NodeAt(item.Kids, n)
    && copy !in item.Repr && last !in item.Repr && last == NodeAt(copy.Kids, n - 1)
    && copy.Holds(t.(reference := false)) && copy.Chain(true) && |copy.Kids| == n
    && copy.KidsHold(Unreferenced(t).children[..n], true)
  }

  /** One round of the walk along the children of `item`. */
  method CopyNext(item: Node, child: Node, copy: Node, last: Node?, ghost n: nat, ghost t: Tree)
    returns (newchild: Node, next: Node?)
    requires Walked(item, t, n, child, copy, last)
    modifies copy`child, copy`Kids, copy`Repr, (if last == null then {} else {last})`next
    ensures Walked(item, t, n + 1, next, copy, newchild) && n < |t.children|
    ensures fresh(newchild) && fresh(newchild.Repr) && copy.Repr == old(copy.Repr) + newchild.Repr
    decreases t, 0
  {
    hide Walked, Node.Holds, Node.IsTree, Node.Chain, Node.Owns, Node.Links, Node.KidsHold, Unreferenced;
    ghost var copies := Unreferenced(t).children;
    CopiedChildren(t);
    Walking(item, t, n, child, copy, last);
    newchild := CopyChild(child, copy, last, copies[..n], t.children[n]);
    next := child.next;
    assert copies[..n] + [copies[n]] == copies[..n + 1];
    assert Walked(item, t, n + 1, next, copy, newchild) by { WalkedOn(item, t, n + 1, next, copy, newchild); }
  }

  lemma Walking(item: Node, t: Tree, n: nat, child: Node, copy: Node, last: Node?)
    requires Walked(item, t, n, child, copy, last)
    ensures item.IsTree(t, false) && n < |t.children| == |item.Kids| && copy !in item.Repr && last !in item.Repr
    ensures child in item.Repr && child.Repr <= item.Repr && child.IsTree(t.children[n], false) && item in item.Repr
    ensures child.next == NodeAt(item.Kids, n + 1)
    ensures copy.Holds(t.(reference := false)) && copy.Chain(true) && |copy.Kids| == n
    ensures copy.KidsHold(Unreferenced(t).children[..n], true) && last == NodeAt(copy.Kids, n - 1)
  {
    hide Node.IsTree, Node.Chain, Node.Owns, Node.Links, Node.KidsHold, Unreferenced;
    item.Unfold(t, false);
  }

  lemma WalkedOn(item: Node, t: Tree, n: nat, child: Node?, copy: Node, last: Node)
    requires item.IsTree(t, false) && n <= |t.children| == |item.Kids| && copy !in item.Repr && last !in item.Repr
    requires child == NodeAt(item.Kids, n) && n > 0
    requires copy.Holds(t.(reference := false)) && copy.Chain(true) && |copy.Kids| == n
    requires copy.KidsHold(Unreferenced(t).children[..n], true) && last == NodeAt(copy.Kids, n - 1)
    ensures Walked(item, t, n, child, copy, last)
  {
  }

  lemma WalkStarts(item: Node, t: Tree, copy: Node)
    requires item.IsTree(t, false) && copy.Holds(t.(reference := false))
    requires copy.Kids == [] && copy.Repr == {copy} && copy.child == null && copy !in item.Repr
    ensures Walked(item, t, 0, item.child, copy, null)
  {
    hide Node.IsTree, Node.Chain, Node.Owns, Node.Links, Node.KidsHold, Unreferenced;
    item.Unfold(t, false);
    copy.Empty();
    assert Unreferenced(t).children[..0] == [];
  }

  lemma WalkEnds(item: Node, t: Tree, n: nat, copy: Node, last: Node?)
    requires Walked(item, t, n, null, copy, last)
    ensures copy.IsTree(Unreferenced(t), true)
  {
    hide Node.IsTree, Node.Chain, Node.Owns, Node.Links, Node.KidsHold, Unreferenced;
    CopiedChildren(t);
    assert Unreferenced(t).children[..n] == Unreferenced(t).children;
    copy.Fold(Unreferenced(t), true);
  }

  /** The children of `item` become those of the new node. */
  method CopyChildren(item: Node, copy: Node, ghost t: Tree)
    requires item.IsTree(t, false) && copy.Holds(t.(reference := false))
    requires copy.Kids == [] && copy.Repr == {copy} && copy.child == null && copy !in item.Repr
    modifies copy`child, copy`Kids, copy`Repr
    ensures fresh(copy.Repr - {copy}) && copy.IsTree(Unreferenced(t), true)
    decreases t, 1
  {
    hide Walked, Node.IsTree, Node.Holds;
    WalkStarts(item, t, copy);
    var child, last: Node? := item.child, null;
    ghost var n := 0;
    while child != null
      invariant Walked(item, t, n, child, copy, last) && n <= |t.children|
      invariant fresh(copy.Repr - {copy}) && (last != null ==> fresh(last))
      decreases |t.children| - n
    {
      last, child := CopyNext(item, child, copy, last, n, t);
      n := n + 1;
    }
    WalkEnds(item, t, n, copy, last);
  }

  // ----- What the copy means

  /** The JSON value that a node stands for. */
  function JsonOf(t: Tree): Json {
    match t.kind
    case KNull => Null
    case KFalse => False
    case KTrue => True
    case KNumber => Number(t.value)
    case KString => Json.Text(TextOr(t.text))
    case KArray => Array(seq(|t.children|, k requires 0 <= k < |t.children| => JsonOf(t.children[k])))
    case KObject =>
      Object(seq(|t.children|, k requires 0 <= k < |t.children| =>
                   Member(TextOr(t.children[k].key), JsonOf(t.children[k]))))
  }

  function TextOr(s: Option<string>): string { match s case Some(v) => v case None => [] }

  lemma {:induction false} CopyMeansTheSame(t: Tree)
    ensures JsonOf(Unreferenced(t)) == JsonOf(t)
  {
    var u := Unreferenced(t);
    forall k | 0 <= k < |t.children| ensures JsonOf(u.children[k]) == JsonOf(t.children[k]) {
      CopyMeansTheSame(t.children[k]);
    }
    if t.kind.KArray? {
      assert JsonOf(u).items == JsonOf(t).items;
    } else if t.kind.KObject? {
      var ms, ns := JsonOf(u).members, JsonOf(t).members;
      forall k | 0 <= k < |ns| ensures ms[k] == ns[k] {
        assert u.children[k] == Unreferenced(t.children[k]);
      }
      assert ms == ns;
    }
  }

  /** A recursive copy compares equal to the original exactly when no object of it gives one key two different
      values, and so whenever keys are distinct. */
  lemma CopyCompares(t: Tree, cs: bool)
    requires C.WholeNumbers(JsonOf(t))
    ensures C.Compare(JsonOf(t), JsonOf(Unreferenced(t)), cs) <==> C.Consistent(JsonOf(t), cs)
    ensures C.DistinctKeys(JsonOf(t), cs) ==> C.Compare(JsonOf(t), JsonOf(Unreferenced(t)), cs)
  {
    hide C.Compare, C.Consistent, C.DistinctKeys, C.WholeNumbers, JsonOf, Unreferenced;
    CopyMeansTheSame(t);
    C.CompareDecides(JsonOf(t), JsonOf(t), cs);
    if C.DistinctKeys(JsonOf(t), cs) { C.DistinctIsConsistent(JsonOf(t), cs); }
  }
}
