/**
 * The child-list rewrites shared by the node classes: removal of every entry whose id is listed
 * (`removeChild`, `removeChildren`) and the replacement rule of `replaceChild`, over a list of
 * children and the function that reads a child's id.
 */
module ChildLists {

  /** The id of every entry, in order (`getChildrenRefIds`, and the `ids` arrays the loops build). */
  function Keys<T, K>(cs: seq<T>, key: T -> K): (r: seq<K>)
    ensures |r| == |cs|
    ensures forall i :: 0 <= i < |cs| ==> r[i] == key(cs[i])
  {
    if cs == [] then [] else [key(cs[0])] + Keys(cs[1..], key)
  }

  /** The entries whose id is not listed, in their original order. */
  function Kept<T(==), K(==)>(cs: seq<T>, key: T -> K, ids: seq<K>): (r: seq<T>)
    ensures |r| <= |cs|
    ensures forall i :: 0 <= i < |r| ==> r[i] in cs && key(r[i]) !in ids
    ensures forall i :: 0 <= i < |cs| && key(cs[i]) !in ids ==> cs[i] in r
  {
    if cs == [] then []
    else (if key(cs[0]) in ids then [] else [cs[0]]) + Kept(cs[1..], key, ids)
  }

  /**
   * `replaceChild`'s list: every entry whose id is the target's or one of the replacements' ids is
   * replaced by the whole replacement list; the other entries stay, in order.
   */
  function Replaced<T(==), K(==)>(cs: seq<T>, key: T -> K, target: K, nodes: seq<T>): seq<T> {
    if cs == [] then []
    else (if key(cs[0]) == target || key(cs[0]) in Keys(nodes, key) then nodes else [cs[0]])
         + Replaced(cs[1..], key, target, nodes)
  }

  // ---------------------------------------------------------------------------------------------
  // Properties

  lemma Associative<T>(a: seq<T>, b: seq<T>, c: seq<T>)
    ensures (a + b) + c == a + (b + c)
  {
  }

  /** An empty id list removes nothing. */
  lemma {:induction false} KeptNothing<T, K>(cs: seq<T>, key: T -> K)
    ensures Kept(cs, key, []) == cs
  {
    if cs != [] {
      KeptNothing(cs[1..], key);
    }
  }

  /** Removing the same ids twice removes nothing more. */
  lemma {:induction false} KeptIdempotent<T, K>(cs: seq<T>, key: T -> K, ids: seq<K>)
    ensures Kept(Kept(cs, key, ids), key, ids) == Kept(cs, key, ids)
  {
    if cs != [] {
      KeptIdempotent(cs[1..], key, ids);
      var t := Kept(cs[1..], key, ids);
      if key(cs[0]) in ids {
        assert Kept(cs, key, ids) == t;
      } else {
        assert Kept(cs, key, ids) == [cs[0]] + t;
        assert ([cs[0]] + t)[0] == cs[0];
        assert ([cs[0]] + t)[1..] == t;
      }
    }
  }

  lemma {:induction false} KeptAppend<T, K>(a: seq<T>, b: seq<T>, key: T -> K, ids: seq<K>)
    ensures Kept(a + b, key, ids) == Kept(a, key, ids) + Kept(b, key, ids)
  {
    if a == [] {
      assert a + b == b;
    } else {
      assert (a + b)[0] == a[0];
      assert (a + b)[1..] == a[1..] + b;
      KeptAppend(a[1..], b, key, ids);
    }
  }

  /** An entry that a replacement may leave: a replacement, or an old entry that matched nothing. */
  predicate Survivor<T(==), K(==)>(x: T, cs: seq<T>, key: T -> K, target: K, nodes: seq<T>) {
    x in nodes || (x in cs && key(x) != target && key(x) !in Keys(nodes, key))
  }

  /**
   * After a replacement every entry is a replacement or an untouched entry of the old list, and
   * every entry that matched neither the target nor a replacement is still there.
   */
  lemma {:induction false} ReplacedMembers<T, K>(cs: seq<T>, key: T -> K, target: K, nodes: seq<T>)
    ensures forall i :: 0 <= i < |Replaced(cs, key, target, nodes)| ==>
      Survivor(Replaced(cs, key, target, nodes)[i], cs, key, target, nodes)
    ensures forall i :: 0 <= i < |cs| && key(cs[i]) != target && key(cs[i]) !in Keys(nodes, key) ==>
      cs[i] in Replaced(cs, key, target, nodes)
  {
    if cs != [] {
      ReplacedMembers(cs[1..], key, target, nodes);
      var r := Replaced(cs, key, target, nodes);
      var head := if key(cs[0]) == target || key(cs[0]) in Keys(nodes, key) then nodes else [cs[0]];
      var tail := Replaced(cs[1..], key, target, nodes);
      assert r == head + tail;
      forall i | 0 <= i < |r|
        ensures Survivor(r[i], cs, key, target, nodes)
      {
        if i >= |head| {
          var x := tail[i - |head|];
          assert r[i] == x;
          assert Survivor(x, cs[1..], key, target, nodes);
          if x in cs[1..] {
            var k :| 0 <= k < |cs[1..]| && cs[1..][k] == x;
            assert cs[k + 1] == x;
          }
        } else if key(cs[0]) == target || key(cs[0]) in Keys(nodes, key) {
          assert r[i] == nodes[i];
        } else {
          assert r[i] == cs[0];
        }
      }
      forall i | 0 <= i < |cs| && key(cs[i]) != target && key(cs[i]) !in Keys(nodes, key)
        ensures cs[i] in r
      {
        if i > 0 {
          assert cs[i] == cs[1..][i - 1];
        }
      }
    }
  }

  /** The entry at `i` and the entries after it, one step of the replacement rule. */
  lemma ReplacedStep<T, K>(cs: seq<T>, i: nat, key: T -> K, target: K, nodes: seq<T>)
    requires i < |cs|
    ensures Replaced(cs[i..], key, target, nodes) ==
      (if key(cs[i]) == target || key(cs[i]) in Keys(nodes, key) then nodes else [cs[i]]) + Replaced(cs[i + 1..], key, target, nodes)
  {
    assert cs[i..][0] == cs[i] && cs[i..][1..] == cs[i + 1..];
  }

  /** A list none of whose entries match is left as it is. */
  lemma {:induction false} ReplacedUntouched<T, K>(cs: seq<T>, key: T -> K, target: K, nodes: seq<T>)
    requires forall i :: 0 <= i < |cs| ==> key(cs[i]) != target && key(cs[i]) !in Keys(nodes, key)
    ensures Replaced(cs, key, target, nodes) == cs
  {
    if cs != [] {
      ReplacedUntouched(cs[1..], key, target, nodes);
    }
  }

  lemma {:induction false} ReplacedAppend<T, K>(a: seq<T>, b: seq<T>, key: T -> K, target: K, nodes: seq<T>)
    ensures Replaced(a + b, key, target, nodes) == Replaced(a, key, target, nodes) + Replaced(b, key, target, nodes)
  {
    if a == [] {
      assert a + b == b;
    } else {
      assert (a + b)[0] == a[0];
      assert (a + b)[1..] == a[1..] + b;
      ReplacedAppend(a[1..], b, key, target, nodes);
    }
  }

  /**
   * With replacements whose ids occur nowhere in the list, replacing the one entry `c` of
   * `pre + [c] + post` splices the replacements in its place.
   */
  lemma ReplaceOne<T, K>(pre: seq<T>, c: T, post: seq<T>, key: T -> K, nodes: seq<T>)
    requires forall i :: 0 <= i < |pre| ==> key(pre[i]) != key(c) && key(pre[i]) !in Keys(nodes, key)
    requires forall i :: 0 <= i < |post| ==> key(post[i]) != key(c) && key(post[i]) !in Keys(nodes, key)
    ensures Replaced(pre + [c] + post, key, key(c), nodes) == pre + nodes + post
  {
    var t := key(c);
    ReplacedUntouched(pre, key, t, nodes);
    ReplacedUntouched(post, key, t, nodes);
    assert [c][1..] == [];
    assert Replaced([c], key, t, nodes) == nodes + [];
    ReplacedAppend(pre, [c], key, t, nodes);
    assert Replaced(pre + [c], key, t, nodes) == pre + nodes;
    ReplacedAppend(pre + [c], post, key, t, nodes);
    assert Replaced(pre + [c] + post, key, t, nodes) == (pre + nodes) + post;
  }
}
