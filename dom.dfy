/**
 * Vocabulary shared by the element classes of src/element/ and src/ParsedHTMLDocument.js:
 * reference ids, the element classes `createElement` chooses between, and a value snapshot
 * of an element subtree that the serialiser works on.
 */
module Dom {
  import opened Wrappers
  import opened Attributes

  /**
   * The `_counter` of a fragment document: a number, or `NaN` before the constructor has set it
   * (`++undefined`).
   */
  datatype Count = NaN | Num(n: nat)

  /**
   * A reference id with its `Date.now()` prefix dropped: the registry length at creation
   * (src/ParsedHTMLDocument.js) or the counter after increment (src/element/ParsedHTMLDocument.js).
   */
  datatype RefId = Registry(index: nat) | Counter(count: Count) | DocumentId

  /** The concrete class of an element of the element generation. */
  datatype Kind = ClosedKind | VoidKind | TextKind | FragmentKind

  /** `tagName` in a template literal: `undefined` when the element never received one. */
  function TagText(tagName: Option<string>): string {
    match tagName
    case Some(t) => t
    case None => "undefined"
  }

  /** The `voidTags` of a fresh registry document, which its `createElement` consults. */
  const DocumentVoidTags: seq<string> := ["doctype", "area", "base", "br", "col", "embed", "hr", "img",
                                          "input", "link", "meta", "param", "source", "track", "wbr"]

  /**
   * The class `createElement` instantiates: a truthy tag name listed (case-sensitively) in the
   * document's `voidTags` forces a void element; otherwise `mode` decides.
   */
  function ElementClass(tagName: Option<string>, mode: Option<string>, voidTags: seq<string>): (k: Kind)
    ensures k != FragmentKind
    ensures (tagName.Some? && tagName.value != [] && tagName.value in voidTags) ==> k == VoidKind
    ensures !(tagName.Some? && tagName.value != [] && tagName.value in voidTags) ==>
      (k == TextKind <==> mode == Some("text")) && (k == VoidKind <==> mode == Some("void"))
  {
    var forcedVoid := tagName.Some? && tagName.value != [] && tagName.value in voidTags;
    var m := if forcedVoid then Some("void") else mode;
    if m == Some("text") then TextKind
    else if m == Some("void") then VoidKind
    else ClosedKind
  }

  /** The `mode` stored on the element: `options.mode || 'closed'`, taken before the void override. */
  function StoredMode(mode: Option<string>): (r: string)
    ensures r != []
    ensures mode.Some? && mode.value != [] ==> r == mode.value
  {
    if mode.Some? && mode.value != [] then mode.value else "closed"
  }

  /** The stored tag name: set only when the option is truthy. */
  function StoredTagName(tagName: Option<string>): (r: Option<string>)
    ensures r.Some? ==> r.value != [] && r == tagName
    ensures tagName.Some? && tagName.value != [] ==> r == tagName
  {
    if tagName.Some? && tagName.value != [] then tagName else None
  }

  /**
   * An element subtree as a value: what the serialisers read. `text` is the `textContent`
   * payload of a text element and is empty for the other classes.
   */
  datatype Tree = Tree(id: RefId, kind: Kind, tagName: Option<string>, mode: string, attributes: Attrs,
                       text: string, children: seq<Tree>)

  /** The ids of a subtree: its root and every descendant. */
  function Ids(t: Tree): set<RefId>
    decreases t, 1
  {
    {t.id} + ForestIds(t.children)
  }

  function ForestIds(ts: seq<Tree>): set<RefId>
    decreases ts, 0
  {
    if ts == [] then {} else Ids(ts[0]) + ForestIds(ts[1..])
  }

}
