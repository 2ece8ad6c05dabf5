/**
 * `ParsedNode` of src/ParsedNode.js: a node with a fixed id, a `parent` link and a list of
 * children that its methods rebuild in place.
 */
module Nodes {
  import opened Wrappers
  import opened ChildLists

  /** The argument forms `removeChild` and `replaceChild` accept: one node, an array, anything else. */
  datatype NodeArg = Single(node: ParsedNode) | Many(nodes: seq<ParsedNode>) | Neither

  /** The nodes an argument stands for: a single node is wrapped, anything but a node or an array is empty. */
  function Listed(arg: NodeArg): (r: seq<ParsedNode>)
    ensures arg.Single? ==> r == [arg.node]
    ensures arg.Many? ==> r == arg.nodes
    ensures arg.Neither? ==> r == []
  {
    match arg
    case Single(n) => [n]
    case Many(ns) => ns
    case Neither => []
  }

  /** The `TypeError` thrown for an argument that is not a `ParsedNode`. */
  datatype TypeError = NotANode

  class ParsedNode {
    /** `_id`: set by the constructor, not writable. */
    const id: string
    var parent: ParsedNode?
    var children: seq<ParsedNode>

    constructor(id: string)
      ensures this.id == id && parent == null && children == []
    {
      this.id := id;
      parent := null;
      children := [];
    }

    /** `appendChild`: a non-node throws before any change; otherwise the node is adopted and added last. */
    method AppendChild(node: ParsedNode?) returns (r: Outcome<TypeError>)
      modifies this, node
      ensures node == null ==> r == Fail(NotANode) && unchanged(this)
      ensures node != null ==> r == Pass && children == old(children) + [node] && node.parent == this
      ensures node != null && node != this ==> parent == old(parent) && node.children == old(node.children)
    {
      if node != null {
        var list := children;
        node.parent := this;
        var n: ParsedNode := node;
        list := list + [n];
        children := list;
        r := Pass;
      } else {
        r := Fail(NotANode);
      }
    }

    /** `prependChild`: as `appendChild`, but the node goes first. */
    method PrependChild(node: ParsedNode?) returns (r: Outcome<TypeError>)
      modifies this, node
      ensures node == null ==> r == Fail(NotANode) && unchanged(this)
      ensures node != null ==> r == Pass && children == [node] + old(children) && node.parent == this
      ensures node != null ==> FirstChild() == Some(node)
      ensures node != null && node != this ==> parent == old(parent) && node.children == old(node.children)
    {
      if node != null {
        var list := children;
        node.parent := this;
        var n: ParsedNode := node;
        list := [n] + list;
        children := list;
        r := Pass;
      } else {
        r := Fail(NotANode);
      }
    }

    /** `hasChild`: some direct child carries the node's id. */
    method HasChild(node: ParsedNode) returns (b: bool)
      ensures b <==> node.id in Keys(children, Id)
    {
      b := false;
      if |children| > 0 {
        for i := 0 to |children|
          invariant node.id !in Keys(children[..i], Id)
        {
          if node.id == children[i].id {
            assert Keys(children, Id)[i] == node.id;
            return true;
          }
          assert Keys(children[..i + 1], Id) == Keys(children[..i], Id) + [children[i].id];
        }
      }
      assert children[..|children|] == children;
    }

    /**
     * `replaceChild`: nothing happens unless `child` is a direct child by id. Otherwise every entry
     * carrying the child's id or a replacement's id gives way to all the replacements, which are
     * adopted, and the child's `parent` is cleared last. A replacement that is neither a node nor
     * an array is wrapped in an array, and the loop throws on it before any change.
     */
    method ReplaceChild(child: ParsedNode, arg: NodeArg) returns (r: Outcome<TypeError>)
      modifies this`children, child`parent, Listed(arg)`parent
      ensures child.id !in Keys(old(children), Id) ==> r == Pass && unchanged(this, child) && unchanged(Listed(arg))
      ensures child.id in Keys(old(children), Id) && arg.Neither? ==> r == Fail(NotANode) && unchanged(this, child)
      ensures child.id in Keys(old(children), Id) && !arg.Neither? ==>
        r == Pass &&
        children == Replaced(old(children), Id, child.id, Listed(arg)) &&
        child.parent == null &&
        (forall n :: n in Listed(arg) && n != child ==> n.parent == this) &&
        (this != child && this !in Listed(arg) ==> parent == old(parent))
    {
      var has := HasChild(child);
      r := Pass;
      if has {
        if arg.Neither? {
          return Fail(NotANode);
        }
        var nodes := Listed(arg);
        var ids := IdsOf(nodes);
        var list := Rebuild(children, child, nodes, ids);
        children := list;
      }
    }

    /**
     * The outer loop of `replaceChild` over the children `cs`, which hold the child: the list it
     * builds, the adopted replacements and the cleared `parent` of the child.
     */
    method Rebuild(cs: seq<ParsedNode>, child: ParsedNode, nodes: seq<ParsedNode>, ids: seq<string>)
      returns (list: seq<ParsedNode>)
      requires child.id in Keys(cs, Id) && ids == Keys(nodes, Id)
      modifies child`parent, nodes`parent
      ensures list == Replaced(cs, Id, child.id, nodes)
      ensures child.parent == null && forall n :: n in nodes && n != child ==> n.parent == this
    {
      list := [];
      ghost var matched := false;
      for i := 0 to |cs|
        invariant list + Replaced(cs[i..], Id, child.id, nodes) == Replaced(cs, Id, child.id, nodes)
        invariant matched ==> child.parent == null && forall n :: n in nodes && n != child ==> n.parent == this
        invariant !matched ==> forall k :: 0 <= k < i ==> cs[k].id != child.id
      {
        var current := cs[i];
        ReplacedStep(cs, i, Id, child.id, nodes);
        ghost var rest := Replaced(cs[i + 1..], Id, child.id, nodes);
        ghost var prev := list;
        if current.id != child.id && current.id !in ids {
          list := list + [current];
          Associative(prev, [current], rest);
        } else {
          Associative(list, nodes, rest);
          list := AdoptInto(list, nodes);
          child.parent := null;
          matched := true;
        }
      }
      assert cs[|cs|..] == [];
    }

    /** The inner loop of `replaceChild`: each replacement is adopted and pushed onto `list`. */
    method AdoptInto(list: seq<ParsedNode>, nodes: seq<ParsedNode>) returns (list': seq<ParsedNode>)
      modifies nodes`parent
      ensures list' == list + nodes
      ensures forall n :: n in nodes ==> n.parent == this
    {
      list' := list;
      for j := 0 to |nodes|
        invariant list' == list + nodes[..j]
        invariant forall k :: 0 <= k < j ==> nodes[k].parent == this
      {
        var node := nodes[j];
        node.parent := this;
        list' := list' + [node];
        assert nodes[..j + 1] == nodes[..j] + [node];
      }
      assert nodes[..|nodes|] == nodes;
    }

    /**
     * `removeChild`: keeps exactly the children whose id is not among the given nodes' ids, in
     * order; the removed nodes keep their `parent`. Anything but a node or an array, or an empty
     * array, changes nothing.
     */
    method RemoveChild(arg: NodeArg)
      modifies this`children
      ensures children == Kept(old(children), Id, Keys(Listed(arg), Id))
      ensures parent == old(parent)
    {
      var nodes := Listed(arg);
      if !arg.Neither? {
        var ids := IdsOf(nodes);
        if |ids| > 0 {
          var list: seq<ParsedNode> := [];
          for i := 0 to |children|
            invariant children == old(children) && parent == old(parent)
            invariant list == Kept(children[..i], Id, ids)
          {
            assert children[..i + 1] == children[..i] + [children[i]];
            KeptAppend(children[..i], [children[i]], Id, ids);
            if children[i].id !in ids {
              list := list + [children[i]];
            }
          }
          assert children[..|children|] == children;
          children := list;
          return;
        }
      }
      KeptNothing(children, Id);
    }

    /** `remove`: without a parent nothing happens; otherwise the parent drops every child with this id. */
    method Remove()
      modifies (if parent == null then {} else {parent})`children
      ensures parent == old(parent)
      ensures old(parent) != null ==> old(parent).children == Kept(old(parent.children), Id, [id])
    {
      if parent != null {
        var p := parent;
        assert Keys(Listed(Many([this])), Id) == [id];
        p.RemoveChild(Many([this]));
      }
    }

    /** `getChildrenRefIds`: the children's ids in order. */
    method GetChildrenRefIds() returns (list: seq<string>)
      ensures list == Keys(children, Id)
    {
      list := [];
      for i := 0 to |children|
        invariant list == Keys(children[..i], Id)
      {
        KeysNext(children, i);
        list := list + [children[i].id];
      }
      assert children[..|children|] == children;
    }

    /** The `firstChild` getter: the first child, `undefined` (`None`) when there is none. */
    function FirstChild(): (r: Option<ParsedNode>)
      reads this
      ensures r.None? <==> children == []
      ensures r.Some? ==> r.value in children && Id(r.value) == Keys(children, Id)[0]
    {
      if children == [] then None else Some(children[0])
    }

    /** `getDescendants`: the subtree below this node in pre-order, for a graph without cycles. */
    method GetDescendants(ghost nodes: set<ParsedNode>, ghost rank: map<ParsedNode, nat>) returns (list: seq<ParsedNode>)
      requires Ranked(nodes, rank) && this in nodes
      ensures list == Below(this, nodes, rank)
      decreases rank[this]
    {
      list := [];
      for i := 0 to |children|
        invariant list + BelowAll(children[i..], nodes, rank, rank[this]) == Below(this, nodes, rank)
      {
        var child := children[i];
        BelowAllStep(this, nodes, rank, i);
        ghost var rest := BelowAll(children[i + 1..], nodes, rank, rank[this]);
        Associative(list, [child], Below(child, nodes, rank) + rest);
        list := list + [child];
        if |child.children| > 0 {
          var a := child.GetDescendants(nodes, rank);
          Associative(list, a, rest);
          list := list + a;
        } else {
          assert Below(child, nodes, rank) == [];
          assert [] + rest == rest;
        }
      }
    }
  }

  /** The loop collecting the ids of the given nodes, in order. */
  method IdsOf(nodes: seq<ParsedNode>) returns (ids: seq<string>)
    ensures ids == Keys(nodes, Id)
  {
    ids := [];
    for i := 0 to |nodes|
      invariant ids == Keys(nodes[..i], Id)
    {
      KeysNext(nodes, i);
      ids := ids + [nodes[i].id];
    }
    assert nodes[..|nodes|] == nodes;
  }

  /** The id of a node, as the list functions read it. */
  function Id(n: ParsedNode): string {
    n.id
  }

  /** The ids of a prefix grow by one entry per element taken. */
  lemma KeysNext(s: seq<ParsedNode>, i: nat)
    requires i < |s|
    ensures Keys(s[..i + 1], Id) == Keys(s[..i], Id) + [s[i].id]
  {
    assert s[..i + 1] == s[..i] + [s[i]];
    KeysAppend(s[..i], [s[i]]);
  }

  lemma {:induction false} KeysAppend(a: seq<ParsedNode>, b: seq<ParsedNode>)
    ensures Keys(a + b, Id) == Keys(a, Id) + Keys(b, Id)
  {
    if a == [] {
      assert a + b == b;
    } else {
      assert (a + b)[1..] == a[1..] + b;
      KeysAppend(a[1..], b);
    }
  }

  // ---------------------------------------------------------------------------------------------
  // Descendants over a graph without cycles

  /**
   * `nodes` is closed under taking children and `rank` strictly decreases from a node to each of
   * its children: no node is its own ancestor.
   */
  ghost predicate Ranked(nodes: set<ParsedNode>, rank: map<ParsedNode, nat>)
    reads nodes`children
  {
    forall n :: n in nodes ==> n in rank && forall c :: c in n.children ==> c in nodes && c in rank && rank[c] < rank[n]
  }

  /** The pre-order listing of everything below `n`. */
  ghost function Below(n: ParsedNode, nodes: set<ParsedNode>, rank: map<ParsedNode, nat>): seq<ParsedNode>
    requires Ranked(nodes, rank) && n in nodes
    reads nodes`children
    decreases rank[n], 1, 0
  {
    BelowAll(n.children, nodes, rank, rank[n])
  }

  /** Each node of `cs` followed by everything below it, in order. */
  ghost function BelowAll(cs: seq<ParsedNode>, nodes: set<ParsedNode>, rank: map<ParsedNode, nat>, bound: nat): seq<ParsedNode>
    requires Ranked(nodes, rank)
    requires forall c :: c in cs ==> c in nodes && rank[c] < bound
    reads nodes`children
    decreases bound, 0, |cs|
  {
    if cs == [] then [] else [cs[0]] + Below(cs[0], nodes, rank) + BelowAll(cs[1..], nodes, rank, bound)
  }

  /** The listing below `n` from its `i`-th child on starts with that child and its own descendants. */
  lemma BelowAllStep(n: ParsedNode, nodes: set<ParsedNode>, rank: map<ParsedNode, nat>, i: nat)
    requires Ranked(nodes, rank) && n in nodes && i < |n.children|
    ensures n.children[i] in nodes && rank[n.children[i]] < rank[n]
    ensures BelowAll(n.children[i..], nodes, rank, rank[n]) ==
      [n.children[i]] + (Below(n.children[i], nodes, rank) + BelowAll(n.children[i + 1..], nodes, rank, rank[n]))
  {
    var cs := n.children[i..];
    assert cs[0] == n.children[i] && cs[1..] == n.children[i + 1..];
    Associative([n.children[i]], Below(n.children[i], nodes, rank), BelowAll(n.children[i + 1..], nodes, rank, rank[n]));
  }

  /** Everything below a node ranks lower, so a node is never among its own descendants. */
  lemma {:induction false} BelowRanksLower(n: ParsedNode, nodes: set<ParsedNode>, rank: map<ParsedNode, nat>)
    requires Ranked(nodes, rank) && n in nodes
    ensures forall d :: d in Below(n, nodes, rank) ==> d in nodes && rank[d] < rank[n]
    ensures n !in Below(n, nodes, rank)
    decreases rank[n], 1, 0
  {
    BelowAllRanksLower(n.children, nodes, rank, rank[n]);
  }

  lemma {:induction false} BelowAllRanksLower(cs: seq<ParsedNode>, nodes: set<ParsedNode>, rank: map<ParsedNode, nat>, bound: nat)
    requires Ranked(nodes, rank)
    requires forall c :: c in cs ==> c in nodes && rank[c] < bound
    ensures forall d :: d in BelowAll(cs, nodes, rank, bound) ==> d in nodes && rank[d] < bound
    decreases bound, 0, |cs|
  {
    if cs != [] {
      BelowRanksLower(cs[0], nodes, rank);
      BelowAllRanksLower(cs[1..], nodes, rank, bound);
    }
  }

  /** Every child is listed among the descendants. */
  lemma ChildrenBelow(n: ParsedNode, nodes: set<ParsedNode>, rank: map<ParsedNode, nat>)
    requires Ranked(nodes, rank) && n in nodes
    ensures forall c :: c in n.children ==> c in Below(n, nodes, rank)
  {
    BelowAllHeads(n.children, nodes, rank, rank[n]);
  }

  lemma {:induction false} BelowAllHeads(cs: seq<ParsedNode>, nodes: set<ParsedNode>, rank: map<ParsedNode, nat>, bound: nat)
    requires Ranked(nodes, rank)
    requires forall c :: c in cs ==> c in nodes && rank[c] < bound
    ensures forall c :: c in cs ==> c in BelowAll(cs, nodes, rank, bound)
    decreases |cs|
  {
    if cs != [] {
      BelowAllHeads(cs[1..], nodes, rank, bound);
    }
  }

  /** A parent with one child that has one childless child has exactly those two descendants. */
  lemma GrandchildExample(p: ParsedNode, c: ParsedNode, g: ParsedNode, nodes: set<ParsedNode>, rank: map<ParsedNode, nat>)
    requires Ranked(nodes, rank) && p in nodes
    requires p.children == [c] && c.children == [g] && g.children == []
    ensures Below(p, nodes, rank) == [c, g]
  {
    assert Below(g, nodes, rank) == [];
    assert Below(c, nodes, rank) == [g] + Below(g, nodes, rank) + BelowAll([], nodes, rank, rank[c]) by {
      assert [g][1..] == [];
    }
    assert Below(p, nodes, rank) == [c] + Below(c, nodes, rank) + BelowAll([], nodes, rank, rank[p]) by {
      assert [c][1..] == [];
    }
  }
}
