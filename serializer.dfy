/**
 * The mode-dependent serialisers of src/element/: `ParsedClosedElement.stringify` (with its
 * de-duplicating child cache), `ParsedVoidElement.stringify`, `ParsedTextElement.stringify`,
 * `ParsedFragmentElement.stringify`, and the generic `ParsedHTMLElement.stringify` /
 * `stringifyChildren` that the fragment inherits, all over `Tree` values.
 */
module Serializer {
  import opened Wrappers
  import opened Attributes
  import opened Dom

  /** ` name="value"`: one attribute as `ParsedClosedElement` writes it. */
  function QuotedAttr(p: (string, Value)): string {
    " " + p.0 + "=\"" + Render(p.1) + "\""
  }

  /** ` name="value"` for every attribute, in key order (`ParsedClosedElement`). */
  function QuotedAttrs(a: Attrs): string {
    if a == [] then [] else QuotedAttr(a[0]) + QuotedAttrs(a[1..])
  }

  /** `name="value" `: one attribute as `ParsedVoidElement` writes it. */
  function VoidAttr(p: (string, Value)): string {
    p.0 + "=\"" + Render(p.1) + "\" "
  }

  /** `name="value" ` for every attribute, in key order (`ParsedVoidElement`). */
  function VoidAttrs(a: Attrs): string {
    if a == [] then [] else VoidAttr(a[0]) + VoidAttrs(a[1..])
  }

  /** ` name` for a `null` value, ` name="value"` otherwise (`ParsedHTMLElement`). */
  function HtmlAttrs(a: Attrs): string {
    if a == [] then []
    else (if a[0].1 == Null then " " + a[0].0 else " " + a[0].0 + "=\"" + Render(a[0].1) + "\"") + HtmlAttrs(a[1..])
  }

  /** `element.stringify()` for each class. */
  function Stringify(t: Tree): string
    decreases t, 2
  {
    match t.kind
    case ClosedKind => "<" + TagText(t.tagName) + QuotedAttrs(t.attributes) + ">" + ClosedChildren(t.children, {})
                       + "</" + TagText(t.tagName) + ">"
    case VoidKind => "<" + TagText(t.tagName) + " " + VoidAttrs(t.attributes) + "/>"
    case TextKind => t.text
    case FragmentKind => HtmlChildren(t.mode, t.children)
  }

  /**
   * `ParsedClosedElement.stringifyChildren`: children in order, each skipped when its id is already
   * in the cache; a rendered child puts its own id and all its descendants' ids into the cache.
   */
  function ClosedChildren(cs: seq<Tree>, seen: set<RefId>): string
    decreases cs, 1
  {
    if cs == [] then []
    else if cs[0].id in seen then ClosedChildren(cs[1..], seen)
    else Stringify(cs[0]) + ClosedChildren(cs[1..], seen + Ids(cs[0]))
  }

  /** The cache after `ClosedChildren` has walked `cs`. */
  function SeenAfter(cs: seq<Tree>, seen: set<RefId>): (r: set<RefId>)
    ensures seen <= r
    ensures forall c :: c in cs ==> c.id in r
  {
    if cs == [] then seen
    else if cs[0].id in seen then SeenAfter(cs[1..], seen)
    else SeenAfter(cs[1..], seen + Ids(cs[0]))
  }

  /** Every child's `stringify`, concatenated in order. */
  function ConcatAll(cs: seq<Tree>): string
    decreases cs, 1
  {
    if cs == [] then [] else Stringify(cs[0]) + ConcatAll(cs[1..])
  }

  /** `ParsedHTMLElement.stringifyChildren` with trimming off: children only in mode `'closed'`. */
  function HtmlChildren(mode: string, cs: seq<Tree>): string
    decreases cs, 2
  {
    if mode == "closed" then ConcatAll(cs) else []
  }

  /** `ParsedHTMLElement.stringify` with trimming off, for an element of that class itself. */
  function HtmlStringify(t: Tree, content: string): string {
    if t.mode == "closed" then
      "<" + TagText(t.tagName) + HtmlAttrs(t.attributes) + ">" + HtmlChildren(t.mode, t.children) + "</" + TagText(t.tagName) + ">"
    else if t.mode == "void" then "<" + TagText(t.tagName) + HtmlAttrs(t.attributes) + " />"
    else content
  }

  // ---------------------------------------------------------------------------------------------
  // Properties

  /** Appending a child whose id an earlier sibling already had changes nothing: each id renders once. */
  lemma {:induction false} RepeatedIdSkipped(cs: seq<Tree>, c: Tree, seen: set<RefId>)
    requires c.id in SeenAfter(cs, seen)
    ensures ClosedChildren(cs + [c], seen) == ClosedChildren(cs, seen)
    decreases |cs|
  {
    if cs == [] {
      assert cs + [c] == [c];
    } else {
      assert (cs + [c])[0] == cs[0];
      assert (cs + [c])[1..] == cs[1..] + [c];
      if cs[0].id in seen {
        RepeatedIdSkipped(cs[1..], c, seen);
      } else {
        RepeatedIdSkipped(cs[1..], c, seen + Ids(cs[0]));
      }
    }
  }

  /** A child listed twice in a row is rendered once. */
  lemma DuplicateChildOnce(c: Tree)
    ensures ClosedChildren([c, c], {}) == Stringify(c)
  {
    assert [c, c] == [c] + [c];
    RepeatedIdSkipped([c], c, {});
    assert ClosedChildren([c], {}) == Stringify(c) + ClosedChildren([], Ids(c));
  }

  /** Siblings whose subtrees share no ids: the subtrees' id sets are pairwise disjoint and avoid `seen`. */
  predicate DisjointIds(cs: seq<Tree>, seen: set<RefId>) {
    (forall i :: 0 <= i < |cs| ==> Ids(cs[i]) !! seen) &&
    (forall i, j :: 0 <= i < j < |cs| ==> Ids(cs[i]) !! Ids(cs[j]))
  }

  /** Without shared ids the cache never skips anything: the children are simply concatenated. */
  lemma {:induction false} UniqueIdsConcatenate(cs: seq<Tree>, seen: set<RefId>)
    requires DisjointIds(cs, seen)
    ensures ClosedChildren(cs, seen) == ConcatAll(cs)
    decreases |cs|
  {
    if cs != [] {
      assert cs[0].id in Ids(cs[0]);
      assert DisjointIds(cs[1..], seen + Ids(cs[0])) by {
        forall i | 0 <= i < |cs[1..]| ensures Ids(cs[1..][i]) !! (seen + Ids(cs[0])) {
          assert cs[1..][i] == cs[i + 1];
        }
        forall i, j | 0 <= i < j < |cs[1..]| ensures Ids(cs[1..][i]) !! Ids(cs[1..][j]) {
          assert cs[1..][i] == cs[i + 1] && cs[1..][j] == cs[j + 1];
        }
      }
      UniqueIdsConcatenate(cs[1..], seen + Ids(cs[0]));
    }
  }

  /** A void element ignores its children, whatever they are. */
  lemma VoidIgnoresChildren(t: Tree, cs: seq<Tree>)
    requires t.kind == VoidKind
    ensures Stringify(t.(children := cs)) == Stringify(t)
  {
  }
}
