/**
 * The element classes of src/element/: `ParsedElement`, `ParsedHTMLElement` and its subclasses
 * `ParsedClosedElement`, `ParsedVoidElement`, `ParsedTextElement` and `ParsedFragmentElement`, as
 * one class whose constant `kind` records which subclass an element was built as.
 *
 * A property held in the element's map is a field here. The map key `textContent` plays two
 * parts: it is the payload of a text element (`textContent`) and a value `update` caches on a
 * closed or void element (`updatedText`, next to `updatedInner` and `updatedOuter`).
 *
 * Everything recursive is stated over a graph without cycles: `nodes` holds the elements
 * involved and `rank` strictly decreases from an element to each of its children.
 */
module Elements {
  import opened Wrappers
  import opened Attributes
  import opened JsString
  import opened Scanner
  import opened Dom
  import opened Serializer
  import opened ContentText
  import ChildLists
  import Config

  class Element {
    /** `referenceId`: set by the constructor, not writable. */
    const referenceId: RefId
    /** The class the element was constructed as. */
    const kind: Kind
    /** `nodeType`; `null` is `None`. */
    var nodeType: Option<string>
    var tagName: Option<string>
    var mode: string
    var attributes: Attrs
    /** The `content` property: `stringify()` as last recomputed. */
    var content: string
    /** The payload of a text element. */
    var textContent: string
    /** What `update` stored under `textContent`, `innerHTML` and `outerHTML`. */
    var updatedText: string
    var updatedInner: string
    var updatedOuter: string
    var parent: Element?
    var children: seq<Element>

    /**
     * An element with no children, as `createElement` builds it: `content` is its `stringify()`,
     * and a closed or void element has run `update(false)`.
     */
    constructor(id: RefId, kind: Kind, nodeType: Option<string>, tagName: Option<string>, mode: string, attributes: Attrs,
                textContent: string, parent: Element?)
      ensures referenceId == id && this.kind == kind && this.nodeType == nodeType && this.tagName == tagName
      ensures this.mode == mode && this.attributes == attributes && this.textContent == textContent
      ensures this.parent == parent && children == []
      ensures content == Serializer.Stringify(Tree(id, kind, tagName, mode, attributes, TextOf(kind, textContent), []))
      ensures kind == ClosedKind ==> updatedOuter == content && updatedInner == [] && updatedText == []
      ensures kind == VoidKind ==> updatedOuter == content && updatedInner == content && updatedText == content
    {
      referenceId := id;
      this.kind := kind;
      this.nodeType := nodeType;
      this.tagName := tagName;
      this.mode := mode;
      this.attributes := attributes;
      this.textContent := textContent;
      this.parent := parent;
      children := [];
      var t := Tree(id, kind, tagName, mode, attributes, TextOf(kind, textContent), []);
      content := Serializer.Stringify(t);
      updatedText, updatedInner, updatedOuter := [], [], [];
      new;
      if kind == ClosedKind {
        updatedOuter := content;
      } else if kind == VoidKind {
        updatedText, updatedInner, updatedOuter := content, content, content;
      }
    }

    // -------------------------------------------------------------------------------------------
    // Serialisation

    /** `stringify()` of the element's class, over the element's current subtree. */
    method Stringify(ghost nodes: set<Element>, ghost rank: map<Element, nat>) returns (s: string)
      requires Ranked(nodes, rank) && this in nodes
      ensures s == Serializer.Stringify(Snap(this, nodes, rank))
      decreases rank[this], 2
    {
      var tag := TagText(tagName);
      if kind == ClosedKind {
        var attrs := QuotedLoop(attributes);
        var inner := StringifyClosedChildren(nodes, rank);
        s := "<" + tag + attrs + ">" + inner + "</" + tag + ">";
      } else if kind == VoidKind {
        var attrs := VoidLoop(attributes);
        s := "<" + tag + " " + attrs + "/>";
      } else if kind == TextKind {
        s := textContent;
      } else {
        s := StringifyChildren(nodes, rank);
      }
    }

    /**
     * `ParsedClosedElement.stringifyChildren`: each child in order unless its id is already cached;
     * a rendered child caches its own id and its whole subtree's.
     */
    method StringifyClosedChildren(ghost nodes: set<Element>, ghost rank: map<Element, nat>) returns (s: string)
      requires Ranked(nodes, rank) && this in nodes
      ensures s == ClosedChildren(SnapAll(children, nodes, rank, rank[this]), {})
      decreases rank[this], 1
    {
      var cs := children;
      ghost var ts := SnapChildren(this, nodes, rank);
      var cache: set<RefId> := {};
      s := [];
      for i := 0 to |cs|
        invariant unchanged(nodes)
        invariant s + ClosedChildren(ts[i..], cache) == ClosedChildren(ts, {})
      {
        var child := cs[i];
        assert child in nodes && child in rank && ts[i] == Snap(child, nodes, rank);
        SnapId(child, nodes, rank);
        if child.referenceId in cache {
          ClosedSkip(ts, i, cache, s);
        } else {
          var t := child.Stringify(nodes, rank);
          ClosedAdvance(ts, i, cache, s, t);
          s := s + t;
          ghost var seen := cache;
          cache := child.Index(cache, nodes, rank);
          assert cache == seen + Ids(ts[i]);
        }
      }
      assert ts[|cs|..] == [];
    }

    /** The `index` helper of `stringifyChildren`: caches this element's id and every descendant's. */
    method Index(cache: set<RefId>, ghost nodes: set<Element>, ghost rank: map<Element, nat>) returns (cache': set<RefId>)
      requires Ranked(nodes, rank) && this in nodes
      ensures cache' == cache + Ids(Snap(this, nodes, rank))
      decreases rank[this], 0
    {
      var cs := children;
      ghost var ts := SnapChildren(this, nodes, rank);
      SnapIds(this, nodes, rank);
      cache' := cache;
      if referenceId !in cache' {
        cache' := cache' + {referenceId};
      }
      for j := 0 to |cs|
        invariant unchanged(nodes)
        invariant cache' + ForestIds(ts[j..]) == cache + Ids(Snap(this, nodes, rank))
      {
        var child := cs[j];
        assert ts[j] == Snap(child, nodes, rank);
        var next := cache';
        if child.referenceId !in next {
          next := next + {child.referenceId};
        }
        ghost var added := next;
        assert added == cache' + {child.referenceId} || added == cache';
        if |child.children| > 0 {
          next := child.Index(next, nodes, rank);
        } else {
          LeafIds(child, nodes, rank);
          assert next == added + Ids(ts[j]);
        }
        IndexAdvance(ts, j, child, nodes, rank, cache', added, next);
        cache' := next;
      }
      assert ts[|cs|..] == [];
    }

    /** `ParsedHTMLElement.stringifyChildren` with trimming off: the children in order, in mode `'closed'` only. */
    method StringifyChildren(ghost nodes: set<Element>, ghost rank: map<Element, nat>) returns (s: string)
      requires Ranked(nodes, rank) && this in nodes
      ensures s == HtmlChildren(mode, SnapAll(children, nodes, rank, rank[this]))
      decreases rank[this], 1
    {
      s := [];
      if mode == "closed" {
        var cs := children;
        ghost var ts := SnapChildren(this, nodes, rank);
        for i := 0 to |cs|
          invariant unchanged(nodes)
          invariant s + ConcatAll(ts[i..]) == ConcatAll(ts)
        {
          var t := cs[i].Stringify(nodes, rank);
          ConcatAdvance(ts, i, s, t);
          s := s + t;
        }
        assert ts[|cs|..] == [];
      }
    }

    // -------------------------------------------------------------------------------------------
    // Change propagation

    /**
     * The `propagate-update` handler: the element stores its fresh `stringify()` in `content` and
     * passes the update to its parent, and so on up to the root. `chain` is the element followed
     * by its ancestors.
     */
    method Propagate(ghost chain: seq<Element>, ghost nodes: set<Element>, ghost rank: map<Element, nat>)
      requires Ancestry(this, chain) && Ranked(nodes, rank) && forall e :: e in chain ==> e in nodes
      modifies chain`content
      ensures forall k :: 0 <= k < |chain| ==> chain[k].content == Renders(chain, nodes, rank)[k]
    {
      AncestryDistinct(this, chain);
      var strs := RenderAncestry(chain, nodes, rank);
      StoreAncestry(chain, strs);
    }

    /** Renders this element and each of its ancestors (rendering never reads `content`). */
    method RenderAncestry(ghost chain: seq<Element>, ghost nodes: set<Element>, ghost rank: map<Element, nat>)
        returns (strs: seq<string>)
      requires Ancestry(this, chain) && Ranked(nodes, rank) && forall e :: e in chain ==> e in nodes
      ensures strs == Renders(chain, nodes, rank)
    {
      ghost var rendered := Renders(chain, nodes, rank);
      strs := [];
      var e: Element? := this;
      ghost var k := 0;
      while e != null
        invariant 0 <= k <= |chain| && (k < |chain| ==> e == chain[k]) && (k == |chain| ==> e == null)
        invariant unchanged(nodes)
        invariant strs == rendered[..k] && Renders(chain, nodes, rank) == rendered
        decreases |chain| - k
      {
        ghost var t := Snap(e, nodes, rank);
        RendersHere(chain, k, nodes, rank);
        PrefixGrows(rendered, k);
        var p := e.parent;
        var s := e.Stringify(nodes, rank);
        assert s == Serializer.Stringify(t) == rendered[k];
        strs := strs + [s];
        e := p;
        k := k + 1;
      }
    }

    /** Stores `strs[k]` as the rendering of the `k`-th element of the ancestry. */
    method StoreAncestry(ghost chain: seq<Element>, strs: seq<string>)
      requires Ancestry(this, chain) && |strs| == |chain|
      requires forall i, j :: 0 <= i < j < |chain| ==> chain[i] != chain[j]
      modifies chain`content
      ensures forall k :: 0 <= k < |chain| ==> chain[k].content == strs[k]
    {
      var e: Element? := this;
      ghost var k := 0;
      var rest := strs;
      while e != null
        invariant 0 <= k <= |chain| && (k < |chain| ==> e == chain[k]) && (k == |chain| ==> e == null)
        invariant rest == strs[k..]
        invariant forall j :: 0 <= j < k ==> chain[j].content == strs[j]
        decreases |chain| - k
      {
        e.content := rest[0];
        e := e.parent;
        rest := rest[1..];
        k := k + 1;
      }
    }

    // -------------------------------------------------------------------------------------------
    // Cached views and the textContent, innerHTML and outerHTML accessors

    /**
     * `update`, which only the closed and void classes have: a closed element caches its own
     * serialisation as `outerHTML` and its children's as `innerHTML` and `textContent`; a void
     * element caches its serialisation under all three. The `update` event has no listener.
     */
    method Update(ghost nodes: set<Element>, ghost rank: map<Element, nat>)
      requires Ranked(nodes, rank) && this in nodes
      requires kind == ClosedKind || kind == VoidKind
      modifies this`updatedText, this`updatedInner, this`updatedOuter
      ensures updatedOuter == Serializer.Stringify(old(Snap(this, nodes, rank)))
      ensures kind == ClosedKind ==>
        updatedInner == ClosedChildren(old(Snap(this, nodes, rank)).children, {}) && updatedText == updatedInner &&
        updatedOuter == "<" + TagText(tagName) + QuotedAttrs(attributes) + ">" + updatedInner + "</" + TagText(tagName) + ">"
      ensures kind == VoidKind ==> updatedInner == updatedOuter && updatedText == updatedOuter
    {
      ghost var t := Snap(this, nodes, rank);
      var outer := Stringify(nodes, rank);
      assert outer == Serializer.Stringify(t);
      var inner := outer;
      if kind == ClosedKind {
        inner := StringifyClosedChildren(nodes, rank);
        assert inner == ClosedChildren(t.children, {});
      }
      updatedOuter, updatedInner, updatedText := outer, inner, inner;
    }

    /**
     * True of the fragment element in mode `'closed'`: its document, the fragment document, has no
     * `findTagPosition`, `createTextElement` or `parse`, so a generic getter or setter that reaches
     * one of them throws a `TypeError`. (Only the fragment document builds a fragment element.)
     */
    predicate LacksDocument()
      reads this`mode
    {
      kind == FragmentKind && mode == "closed"
    }

    /**
     * The `textContent` getter: a closed element reads its cache, a text element its payload, and
     * the void and fragment classes use the generic getter that cuts `content` between its first
     * and last tag, which throws for the fragment element.
     */
    method GetTextContent() returns (r: Result<string, ElementError>)
      ensures r.Failure? <==> LacksDocument()
      ensures kind == ClosedKind ==> r == Success(updatedText)
      ensures kind == TextKind ==> r == Success(textContent)
      ensures (kind == VoidKind || kind == FragmentKind) && !LacksDocument() ==> r == Success(TextContentOf(mode, content))
    {
      if kind == ClosedKind {
        r := Success(updatedText);
      } else if kind == TextKind {
        r := Success(textContent);
      } else if LacksDocument() {
        r := Failure(MissingMethod);
      } else {
        var s := ReadTextContent(mode, content);
        r := Success(s);
      }
    }

    /** The `innerHTML` getter: the closed cache, the text payload, or the generic `textContent`. */
    method GetInnerHTML() returns (r: Result<string, ElementError>)
      ensures r.Failure? <==> LacksDocument()
      ensures kind == ClosedKind ==> r == Success(updatedInner)
      ensures kind == TextKind ==> r == Success(textContent)
      ensures (kind == VoidKind || kind == FragmentKind) && !LacksDocument() ==> r == Success(TextContentOf(mode, content))
    {
      if kind == ClosedKind {
        r := Success(updatedInner);
      } else {
        r := GetTextContent();
      }
    }

    /** The `outerHTML` getter: the closed cache, the text payload, or the generic `content`. */
    method GetOuterHTML() returns (s: string)
      ensures kind == ClosedKind ==> s == updatedOuter
      ensures kind == TextKind ==> s == textContent
      ensures kind == VoidKind || kind == FragmentKind ==> s == content
    {
      if kind == ClosedKind {
        s := updatedOuter;
      } else if kind == TextKind {
        s := textContent;
      } else {
        s := content;
      }
    }

    /**
     * The `textContent` setter. A closed element gets a new text element of `doc` holding the
     * string, unparsed, as its only child, and becomes that child's parent; the generic setter
     * does the same in mode `'closed'` without linking the parent (and throws for the fragment
     * element, whose document has no `createTextElement`), stores the string as `content` in mode
     * `'text'` and does nothing otherwise; a text element stores it as its payload. Assigning
     * `children` emits only a `children` event, so nothing is re-rendered.
     */
    method SetTextContent(text: string, doc: RegistryDocument) returns (r: Outcome<ElementError>)
      requires doc.Valid()
      modifies this`children, this`content, this`textContent, doc`children
      ensures doc.Valid()
      ensures r.Fail? <==> LacksDocument()
      ensures r.Fail? ==> children == old(children) && content == old(content) && doc.children == old(doc.children)
      ensures kind == TextKind ==>
        textContent == text && children == old(children) && content == old(content) && doc.children == old(doc.children)
      ensures kind != TextKind ==> textContent == old(textContent)
      ensures kind == ClosedKind || (kind == VoidKind && mode == "closed") ==>
        doc.children == old(doc.children) + children && |children| == 1 && fresh(children[0]) &&
        children[0].kind == TextKind && children[0].textContent == text && children[0].children == [] &&
        children[0].parent == (if kind == ClosedKind then this else null) && content == old(content)
      ensures kind != TextKind && kind != ClosedKind && mode == "text" ==>
        content == text && children == old(children) && doc.children == old(doc.children)
      ensures kind != TextKind && kind != ClosedKind && mode != "closed" && mode != "text" ==>
        content == old(content) && children == old(children) && doc.children == old(doc.children)
    {
      r := Pass;
      if kind == TextKind {
        textContent := text;
      } else if LacksDocument() {
        r := Fail(MissingMethod);
      } else if kind == ClosedKind || mode == "closed" {
        var t := doc.CreateTextElement(text);
        if kind == ClosedKind {
          t.parent := this;
        }
        children := [t];
      } else if mode == "text" {
        content := text;
      }
    }

    /**
     * The `innerHTML` setter, given `parsed`, the top-level elements the document's `parse` makes
     * of `markup`. A closed element takes them as its children; the generic setter does so in
     * mode `'closed'` (and throws for the fragment element, whose document has no `parse`) and
     * stores `markup` as `content` in mode `'text'`; a text element stores `markup` as its payload.
     */
    method SetInnerHTML(markup: string, parsed: seq<Element>) returns (r: Outcome<ElementError>)
      modifies this`children, this`content, this`textContent
      ensures r.Fail? <==> LacksDocument()
      ensures r.Fail? ==> children == old(children) && content == old(content)
      ensures kind == TextKind ==> textContent == markup && children == old(children) && content == old(content)
      ensures kind != TextKind ==> textContent == old(textContent)
      ensures kind == ClosedKind || (kind == VoidKind && mode == "closed") ==> children == parsed && content == old(content)
      ensures kind != TextKind && kind != ClosedKind && mode == "text" ==> content == markup && children == old(children)
      ensures kind != TextKind && kind != ClosedKind && mode != "closed" && mode != "text" ==>
        content == old(content) && children == old(children)
    {
      r := Pass;
      if kind == TextKind {
        textContent := markup;
      } else if LacksDocument() {
        r := Fail(MissingMethod);
      } else if kind == ClosedKind || mode == "closed" {
        children := parsed;
      } else if mode == "text" {
        content := markup;
      }
    }

    /**
     * The element's property map as the closed `outerHTML` setter copies it, `None` marking a key
     * the map lacks: `tagName` when none was given, the cached views of a text or fragment
     * element, whose payload is its `textContent`.
     */
    function Map(): PropertyMap
      reads this
    {
      PropertyMap(nodeType, tagName, mode, attributes, content, parent, children,
                  if kind == TextKind then Some(textContent) else if kind == FragmentKind then None else Some(updatedText),
                  if kind == ClosedKind || kind == VoidKind then Some(updatedInner) else None,
                  if kind == ClosedKind || kind == VoidKind then Some(updatedOuter) else None)
    }

    /**
     * This element's properties are those of `before` after `setAll(m)`: every key `m` holds has
     * its value from `m`, every key it lacks keeps its value from `before`.
     */
    ghost predicate Took(before: PropertyMap, m: PropertyMap)
      reads this
    {
      nodeType == m.nodeType && mode == m.mode && attributes == m.attributes && content == m.content &&
      parent == m.parent && children == m.children &&
      tagName == (if m.tagName.Some? then m.tagName else before.tagName) &&
      Some(updatedText) == (if m.text.Some? then m.text else before.text) &&
      Some(updatedInner) == (if m.inner.Some? then m.inner else before.inner) &&
      Some(updatedOuter) == (if m.outer.Some? then m.outer else before.outer)
    }

    /** The keys of `setAll(m)` that `m` always holds. */
    method TakeFields(m: PropertyMap)
      modifies this`nodeType, this`mode, this`attributes, this`content, this`parent, this`children
      ensures nodeType == m.nodeType && mode == m.mode && attributes == m.attributes && content == m.content
      ensures parent == m.parent && children == m.children
    {
      nodeType, mode, attributes, content, parent, children := m.nodeType, m.mode, m.attributes, m.content, m.parent, m.children;
    }

    /** The keys of `setAll(m)` that `m` may leave out: those it holds overwrite the property. */
    method TakeOverrides(m: PropertyMap)
      modifies this`tagName, this`updatedText, this`updatedInner, this`updatedOuter
      ensures tagName == (if m.tagName.Some? then m.tagName else old(tagName))
      ensures updatedText == (if m.text.Some? then m.text.value else old(updatedText))
      ensures updatedInner == (if m.inner.Some? then m.inner.value else old(updatedInner))
      ensures updatedOuter == (if m.outer.Some? then m.outer.value else old(updatedOuter))
    {
      tagName := if m.tagName.Some? then m.tagName else tagName;
      updatedText := if m.text.Some? then m.text.value else updatedText;
      updatedInner := if m.inner.Some? then m.inner.value else updatedInner;
      updatedOuter := if m.outer.Some? then m.outer.value else updatedOuter;
    }

    /** `setAll(m)` on a closed element: every key `m` holds overwrites the property. */
    method TakeMap(m: PropertyMap)
      requires kind == ClosedKind
      modifies this`nodeType, this`mode, this`attributes, this`content, this`parent, this`children
      modifies this`tagName, this`updatedText, this`updatedInner, this`updatedOuter
      ensures Took(old(Map()), m)
    {
      TakeOverrides(m);
      TakeFields(m);
    }

    /**
     * The `outerHTML` setter, given the top-level elements `parsed` of `markup`. A closed element
     * takes over the property map of the first of them and fails when there is none; the generic
     * setter has a parent replace this element by all of them, and throws for the fragment
     * element with a parent, whose document has no `parse`; a text element stores `markup` as its
     * payload.
     */
    method SetOuterHTML(markup: string, parsed: seq<Element>) returns (r: Outcome<ElementError>)
      modifies this, (if parent == null then {} else {parent})`children, parsed`parent
      ensures r.Fail? <==> (kind == ClosedKind && parsed == []) || (kind == FragmentKind && old(parent) != null)
      ensures r == Fail(NoElement) <==> kind == ClosedKind && parsed == []
      ensures kind == TextKind ==>
        textContent == markup && children == old(children) && parent == old(parent) && unchanged(parsed`parent)
      ensures kind == ClosedKind && parsed == [] ==> unchanged(this)
      ensures kind == ClosedKind && parsed != [] ==>
        Took(old(Map()), old(parsed[0].Map())) && textContent == old(textContent)
      ensures (kind == VoidKind || kind == FragmentKind) && old(parent) == null ==> unchanged(this) && unchanged(parsed`parent)
      ensures kind == FragmentKind && old(parent) != null ==>
        unchanged(this) && old(parent).children == old(parent.children) && unchanged(parsed`parent)
      ensures kind == VoidKind && old(parent) != null &&
              referenceId in ChildLists.Keys(old(parent.children), RefIdOf) ==>
        old(parent).children == ChildLists.Replaced(old(parent.children), RefIdOf, referenceId, parsed) &&
        parent == null && forall n :: n in parsed && n != this ==> n.parent == old(parent)
      ensures kind == VoidKind && old(parent) != null &&
              referenceId !in ChildLists.Keys(old(parent.children), RefIdOf) ==>
        parent == old(parent) && old(parent).children == old(parent.children) && unchanged(parsed`parent)
      ensures (kind == ClosedKind || kind == TextKind) && old(parent) != null && old(parent) != this ==>
        old(parent).children == old(parent.children)
      ensures kind == ClosedKind ==> forall n :: n in parsed && n != this ==> n.parent == old(n.parent)
    {
      r := Pass;
      if kind == TextKind {
        textContent := markup;
      } else if kind == ClosedKind {
        if parsed == [] {
          r := Fail(NoElement);
        } else {
          var m := parsed[0].Map();
          TakeMap(m);
        }
      } else if parent != null {
        if kind == FragmentKind {
          r := Fail(MissingMethod);
        } else {
          parent.ReplaceChild(this, parsed);
        }
      }
    }

    // -------------------------------------------------------------------------------------------
    // Attributes

    /** `hasAttribute`. */
    function HasAttribute(attr: string): (b: bool)
      reads this`attributes
      ensures b <==> attr in Keys(attributes)
    {
      Has(attributes, attr)
    }

    /** `getAttribute`: the stored value, `None` for `undefined`. */
    function GetAttribute(attr: string): (r: Option<Value>)
      reads this`attributes
      ensures r.None? <==> !HasAttribute(attr)
      ensures r.Some? ==> (attr, r.value) in attributes
    {
      Get(attributes, attr)
    }

    /**
     * `setAttribute(attr, value, emit)`: nothing happens when the stored value is already `value`;
     * otherwise the value is stored and, when `emit` is set, the change propagates up `chain`.
     */
    method SetAttribute(attr: string, value: Value, emit: bool, ghost chain: seq<Element>,
                        ghost nodes: set<Element>, ghost rank: map<Element, nat>)
      requires Ancestry(this, chain) && Ranked(nodes, rank) && forall e :: e in chain ==> e in nodes
      modifies this`attributes, chain`content
      ensures GetAttribute(attr) == Some(value)
      ensures old(GetAttribute(attr)) == Some(value) ==> attributes == old(attributes) && unchanged(chain`content)
      ensures old(GetAttribute(attr)) != Some(value) ==> attributes == Put(old(attributes), attr, value)
      ensures old(GetAttribute(attr)) != Some(value) && emit ==>
        forall k :: 0 <= k < |chain| ==> chain[k].content == Renders(chain, nodes, rank)[k]
      ensures !emit ==> unchanged(chain`content)
    {
      if Get(attributes, attr) != Some(value) {
        attributes := Put(attributes, attr, value);
        ghost var updated := attributes;
        if emit {
          Propagate(chain, nodes, rank);
        }
        assert attributes == updated;
      }
    }

    /** The `id` getter: the `'id'` attribute. */
    function Id(): (r: Option<Value>)
      reads this`attributes
      ensures r.None? <==> !Has(attributes, "id")
      ensures r.Some? ==> ("id", r.value) in attributes
    {
      Get(attributes, "id")
    }

    /** The `className` getter: the `'class'` attribute. */
    function ClassName(): (r: Option<Value>)
      reads this`attributes
      ensures r.None? <==> !Has(attributes, "class")
      ensures r.Some? ==> ("class", r.value) in attributes
    {
      Get(attributes, "class")
    }

    /** The `id` setter: `setAttribute('id', value)` with its change propagated. */
    method SetId(value: Value, ghost chain: seq<Element>, ghost nodes: set<Element>, ghost rank: map<Element, nat>)
      requires Ancestry(this, chain) && Ranked(nodes, rank) && forall e :: e in chain ==> e in nodes
      modifies this`attributes, chain`content
      ensures Id() == Some(value)
      ensures forall other :: other != "id" ==> Get(attributes, other) == old(Get(attributes, other))
      ensures old(Id()) != Some(value) ==> forall k :: 0 <= k < |chain| ==> chain[k].content == Renders(chain, nodes, rank)[k]
    {
      SetAttribute("id", value, true, chain, nodes, rank);
    }

    /** The `className` setter: `setAttribute('class', value)` with its change propagated. */
    method SetClassName(value: Value, ghost chain: seq<Element>, ghost nodes: set<Element>, ghost rank: map<Element, nat>)
      requires Ancestry(this, chain) && Ranked(nodes, rank) && forall e :: e in chain ==> e in nodes
      modifies this`attributes, chain`content
      ensures ClassName() == Some(value)
      ensures forall other :: other != "class" ==> Get(attributes, other) == old(Get(attributes, other))
      ensures old(ClassName()) != Some(value) ==>
        forall k :: 0 <= k < |chain| ==> chain[k].content == Renders(chain, nodes, rank)[k]
    {
      SetAttribute("class", value, true, chain, nodes, rank);
    }

    // -------------------------------------------------------------------------------------------
    // The child list

    /**
     * `removeChildren`: a single element or an array keeps exactly the children whose reference id
     * is not among the given elements'; any other argument changes nothing.
     */
    method RemoveChildren(arg: ElementArg)
      modifies this`children
      ensures arg.NotElements? ==> children == old(children)
      ensures !arg.NotElements? ==>
        children == ChildLists.Kept(old(children), RefIdOf, ChildLists.Keys(Listed(arg), RefIdOf))
    {
      if !arg.NotElements? {
        var ids := RefIdsOf(Listed(arg));
        var cs := children;
        var list: seq<Element> := [];
        for i := 0 to |cs|
          invariant list == ChildLists.Kept(cs[..i], RefIdOf, ids)
        {
          assert cs[..i + 1] == cs[..i] + [cs[i]];
          ChildLists.KeptAppend(cs[..i], [cs[i]], RefIdOf, ids);
          if cs[i].referenceId !in ids {
            list := list + [cs[i]];
          }
        }
        assert cs[..|cs|] == cs;
        children := list;
      }
    }

    /** `remove`: without a parent nothing happens; otherwise the parent drops every child with this id. */
    method Remove()
      modifies (if parent == null then {} else {parent})`children
      ensures parent == old(parent)
      ensures old(parent) != null ==> old(parent).children == ChildLists.Kept(old(parent.children), RefIdOf, [referenceId])
    {
      if parent != null {
        var p := parent;
        assert ChildLists.Keys(Listed(One(this)), RefIdOf) == [referenceId];
        p.RemoveChildren(One(this));
      }
    }

    /** `getChildrenRefIds`: the children's reference ids, in order. */
    method GetChildrenRefIds() returns (list: seq<RefId>)
      ensures list == ChildLists.Keys(children, RefIdOf)
    {
      list := RefIdsOf(children);
    }

    /** `getDescendants`: everything below this element in pre-order, for a graph without cycles. */
    method GetDescendants(ghost nodes: set<Element>, ghost rank: map<Element, nat>) returns (list: seq<Element>)
      requires Ranked(nodes, rank) && this in nodes
      ensures list == Below(this, nodes, rank)
      decreases rank[this]
    {
      var cs := children;
      ghost var whole := Below(this, nodes, rank);
      list := [];
      for i := 0 to |cs|
        invariant unchanged(nodes)
        invariant list + BelowAll(cs[i..], nodes, rank, rank[this]) == whole
      {
        var child := cs[i];
        assert child in nodes && rank[child] < rank[this];
        BelowAllStep(cs, i, nodes, rank, rank[this]);
        ghost var before := list;
        list := list + [child];
        var a: seq<Element> := [];
        if |child.children| > 0 {
          a := child.GetDescendants(nodes, rank);
        } else {
          assert Below(child, nodes, rank) == [];
        }
        list := list + a;
        ConcatStep(before, child, a, BelowAll(cs[i + 1..], nodes, rank, rank[this]));
      }
      assert cs[|cs|..] == [] && list + [] == list;
    }

    /** `appendChild`, as a parent of the element generation is meant to have it: adopt, then add last. */
    method AppendChild(node: Element?) returns (r: Outcome<NotAnElement>)
      modifies this`children, (if node == null then {} else {node})`parent
      ensures node == null ==> r == Fail(NotAnElement) && children == old(children)
      ensures node != null ==> r == Pass && children == old(children) + [node] && node.parent == this
    {
      if node == null {
        return Fail(NotAnElement);
      }
      node.parent := this;
      children := children + [node];
      r := Pass;
    }

    /** `prependChild`: as `appendChild`, with the node put first. */
    method PrependChild(node: Element?) returns (r: Outcome<NotAnElement>)
      modifies this`children, (if node == null then {} else {node})`parent
      ensures node == null ==> r == Fail(NotAnElement) && children == old(children)
      ensures node != null ==> r == Pass && children == [node] + old(children) && node.parent == this
    {
      if node == null {
        return Fail(NotAnElement);
      }
      node.parent := this;
      children := [node] + children;
      r := Pass;
    }

    /** `hasChild`: some direct child carries the node's reference id. */
    method HasChild(node: Element) returns (b: bool)
      ensures b <==> node.referenceId in ChildLists.Keys(children, RefIdOf)
    {
      var ids := RefIdsOf(children);
      b := node.referenceId in ids;
    }

    /**
     * `replaceChild`: nothing happens unless `child` is a direct child by reference id. Otherwise
     * every child carrying the child's id or a replacement's gives way to all the replacements,
     * which adopt this element as parent, and `child` loses its parent.
     */
    method ReplaceChild(child: Element, nodes: seq<Element>)
      modifies this`children, child`parent, nodes`parent
      ensures child.referenceId !in ChildLists.Keys(old(children), RefIdOf) ==>
        children == old(children) && child.parent == old(child.parent) && unchanged(nodes`parent)
      ensures child.referenceId in ChildLists.Keys(old(children), RefIdOf) ==>
        children == ChildLists.Replaced(old(children), RefIdOf, child.referenceId, nodes) &&
        child.parent == null && forall n :: n in nodes && n != child ==> n.parent == this
    {
      var has := HasChild(child);
      if has {
        children := ReplacedList(children, child.referenceId, nodes);
        Adopt(nodes);
        child.parent := null;
      }
    }

    /** The loop that makes this element the parent of each of `nodes`. */
    method Adopt(nodes: seq<Element>)
      modifies nodes`parent
      ensures forall n :: n in nodes ==> n.parent == this
    {
      for j := 0 to |nodes|
        invariant forall k :: 0 <= k < j ==> nodes[k].parent == this
      {
        nodes[j].parent := this;
      }
    }

    // -------------------------------------------------------------------------------------------
    // Queries over the direct children

    /** `getElementById`: the first child whose `id` attribute is `id`, or `null` for none. */
    method GetElementById(id: Option<Value>) returns (r: Element?)
      ensures FirstWithId(children, id, r)
    {
      r := FindById(children, id);
    }

    /** `getElementsByClassName`: the children carrying the class token, once per matching token. */
    method GetElementsByClassName(className: string) returns (r: Result<seq<Element>, QueryError>)
      ensures r == ByClass(children, className)
    {
      r := FilterByClass(children, className);
    }

    /** `getElementsByTagName`: the children whose `tagName` is `tag`, in order. */
    method GetElementsByTagName(tag: Option<string>) returns (list: seq<Element>)
      ensures list == ByTag(children, tag)
    {
      list := FilterByTag(children, tag);
    }
  }

  /**
   * The `TypeError`s the element getters and setters throw: `NoElement` when the closed
   * `outerHTML` setter's `first` is `undefined`, `MissingMethod` when the fragment element calls
   * a method its document lacks.
   */
  datatype ElementError = NoElement | MissingMethod

  /** `appendChild` and `prependChild` reject anything but an element with a `TypeError`. */
  datatype NotAnElement = NotAnElement

  /** An element's property map: `None` marks a key the map does not hold. */
  datatype PropertyMap = PropertyMap(nodeType: Option<string>, tagName: Option<string>, mode: string, attributes: Attrs,
                                     content: string, parent: Element?, children: seq<Element>,
                                     text: Option<string>, inner: Option<string>, outer: Option<string>)

  /**
   * Two closed elements with the same tag name, attributes and children render alike, whatever
   * their ids: a closed element that took over another's map renders as that element.
   */
  lemma RendersAlike(a: Element, b: Element, nodes: set<Element>, rank: map<Element, nat>)
    requires Ranked(nodes, rank) && a in nodes && b in nodes
    requires a.kind == ClosedKind && b.kind == ClosedKind
    requires a.tagName == b.tagName && a.attributes == b.attributes && a.children == b.children
    ensures Serializer.Stringify(Snap(a, nodes, rank)) == Serializer.Stringify(Snap(b, nodes, rank))
  {
    SnapAllBounds(a.children, nodes, rank, rank[a], rank[b]);
  }

  /** Under `Ranked`, the bound on a list of children never drops one of them. */
  lemma {:induction false} SnapAllBounds(cs: seq<Element>, nodes: set<Element>, rank: map<Element, nat>, b1: nat, b2: nat)
    requires forall c :: c in cs ==> c in nodes && c in rank && rank[c] < b1 && rank[c] < b2
    ensures SnapAll(cs, nodes, rank, b1) == SnapAll(cs, nodes, rank, b2)
  {
    if cs != [] {
      SnapAllBounds(cs[1..], nodes, rank, b1, b2);
    }
  }

  // ---------------------------------------------------------------------------------------------
  // The registry document of src/ParsedHTMLDocument.js

  /**
   * The document that creates the elements: it owns the fragment, keeps every element it ever
   * created in `children` (its registry) and consults its `voidTags` when it creates one.
   */
  class RegistryDocument {
    /** `voidTags`: the document's fifteen tags, extended by `config`. */
    var voidTags: seq<string>
    /** `fragment`: a closed element named `fragment`, fixed at construction. */
    const fragment: Element
    /** `children`: every element `createElement` made, in creation order. */
    var children: seq<Element>

    /** The reference id of each created element is its position in the registry. */
    ghost predicate Valid()
      reads this
    {
      forall i :: 0 <= i < |children| ==> children[i].referenceId == Registry(i)
    }

    /**
     * A fresh document. The fragment takes the id `getNextId` gives for an empty registry, and has
     * no `mode`.
     */
    constructor()
      ensures Valid() && voidTags == DocumentVoidTags && children == []
      ensures fresh(fragment) && fragment.referenceId == Registry(0) && fragment.kind == ClosedKind
      ensures fragment.tagName == Some("fragment") && fragment.nodeType == Some("element") && fragment.mode == []
      ensures fragment.children == [] && fragment.parent == null && fragment.attributes == []
    {
      voidTags := DocumentVoidTags;
      children := [];
      fragment := new Element(Registry(0), ClosedKind, Some("element"), Some("fragment"), [], [], [], null);
    }

    /** `config`: with a `voidTags` option, each tag not yet listed is appended. */
    method Configure(tags: Option<seq<string>>)
      modifies this`voidTags
      ensures voidTags == Config.NewVoidTags(old(voidTags), tags)
    {
      if tags.Some? {
        var ts := tags.value;
        for i := 0 to |ts|
          invariant voidTags == Config.Merged(old(voidTags), ts[..i])
        {
          assert ts[..i + 1][..i] == ts[..i];
          if ts[i] !in voidTags {
            voidTags := voidTags + [ts[i]];
          }
        }
        assert ts[..|ts|] == ts;
      }
    }

    /**
     * `createElement`: the stored `mode` is `options.mode || 'closed'`, the class follows the mode
     * unless a listed tag name forces a void element, `nodeType` is `options.type || null`, and the
     * element, whose id is the registry length, is pushed onto the registry. It is not added to
     * `parent`'s children. A `textContent` of `[]` stands for a falsy option.
     */
    method CreateElement(tagName: Option<string>, nodeType: Option<string>, attributes: Attrs, parent: Element?,
                         mode: Option<string>, textContent: string) returns (e: Element)
      requires Valid()
      modifies this`children
      ensures Valid() && fresh(e) && children == old(children) + [e]
      ensures e.referenceId == Registry(|old(children)|)
      ensures e.kind == ElementClass(tagName, mode, voidTags)
      ensures e.tagName == StoredTagName(tagName) && e.mode == StoredMode(mode)
      ensures e.nodeType == (if nodeType.Some? && nodeType.value != [] then nodeType else None)
      ensures e.attributes == attributes && e.parent == parent && e.children == [] && e.textContent == textContent
      ensures e.content == Serializer.Stringify(Tree(e.referenceId, e.kind, e.tagName, e.mode, attributes,
                                                     TextOf(e.kind, textContent), []))
    {
      var kind := ElementClass(tagName, mode, voidTags);
      var storedType := if nodeType.Some? && nodeType.value != [] then nodeType else None;
      e := new Element(Registry(|children|), kind, storedType, StoredTagName(tagName), StoredMode(mode), attributes,
                       textContent, parent);
      children := children + [e];
    }

    /**
     * `createTextElement(text)`: `createElement` with mode `'text'` and the text as payload. The
     * `nodeType: 'text'` it passes is not the `type` option `createElement` reads, so the text
     * element's `nodeType` is `null`.
     */
    method CreateTextElement(text: string) returns (e: Element)
      requires Valid()
      modifies this`children
      ensures Valid() && fresh(e) && children == old(children) + [e]
      ensures e.referenceId == Registry(|old(children)|)
      ensures e.kind == TextKind && e.textContent == text && e.mode == "text"
      ensures e.tagName == None && e.nodeType == None && e.parent == null && e.children == [] && e.attributes == []
      ensures e.content == text
    {
      e := CreateElement(None, None, [], null, Some("text"), text);
    }

    /** `stringify`: the fragment's children's serialisations, concatenated in order. */
    method Stringify(ghost nodes: set<Element>, ghost rank: map<Element, nat>) returns (s: string)
      requires Ranked(nodes, rank) && fragment in nodes
      ensures s == ConcatAll(SnapAll(fragment.children, nodes, rank, rank[fragment]))
    {
      var cs := fragment.children;
      ghost var ts := SnapChildren(fragment, nodes, rank);
      s := [];
      for i := 0 to |cs|
        invariant unchanged(nodes)
        invariant s + ConcatAll(ts[i..]) == ConcatAll(ts)
      {
        var t := cs[i].Stringify(nodes, rank);
        ConcatAdvance(ts, i, s, t);
        s := s + t;
      }
      assert ts[|cs|..] == [];
    }

    /** The inherited `getElementById`, over the whole registry. */
    method GetElementById(id: Option<Value>) returns (r: Element?)
      ensures FirstWithId(children, id, r)
    {
      r := FindById(children, id);
    }

    /** The inherited `getElementsByClassName`, over the whole registry. */
    method GetElementsByClassName(className: string) returns (r: Result<seq<Element>, QueryError>)
      ensures r == ByClass(children, className)
    {
      r := FilterByClass(children, className);
    }

    /** The inherited `getElementsByTagName`, over the whole registry. */
    method GetElementsByTagName(tag: Option<string>) returns (list: seq<Element>)
      ensures list == ByTag(children, tag)
    {
      list := FilterByTag(children, tag);
    }
  }

  // ---------------------------------------------------------------------------------------------
  // The fragment document of src/element/ParsedHTMLDocument.js

  /** `++this._counter` on a counter that is a number or `NaN`. */
  function Increment(c: Count): (r: Count)
    ensures c.NaN? <==> r.NaN?
    ensures c.Num? ==> r.n == c.n + 1
  {
    match c
    case NaN => NaN
    case Num(n) => Num(n + 1)
  }

  /** A document that is only a fragment and a counter of the ids it hands out. */
  class FragmentDocument {
    /** `fragment`: fixed at construction. */
    const fragment: Element
    /** `_counter`. */
    var counter: Count

    /**
     * A fresh document. The fragment's id is taken while `_counter` is still undefined, so its
     * counter part is `NaN`; the counter is then set to 0.
     */
    constructor()
      ensures fresh(fragment) && fragment.referenceId == Counter(NaN) && fragment.kind == FragmentKind
      ensures fragment.tagName == Some("fragment") && fragment.nodeType == Some("fragment") && fragment.mode == "closed"
      ensures fragment.children == [] && fragment.parent == null && fragment.content == []
      ensures counter == Num(0)
    {
      fragment := new Element(Counter(Increment(NaN)), FragmentKind, Some("fragment"), Some("fragment"), "closed", [], [],
                              null);
      counter := Num(0);
    }

    /** `getNextId`: the counter is incremented first and the id carries the new value. */
    method GetNextId() returns (id: RefId)
      modifies this`counter
      ensures counter == Increment(old(counter)) && id == Counter(counter)
      ensures old(counter).Num? ==> counter.Num? && counter.n > old(counter).n
    {
      counter := Increment(counter);
      id := Counter(counter);
    }

    /** `getElementById`, answered by the fragment. */
    method GetElementById(id: Option<Value>) returns (r: Element?)
      ensures FirstWithId(fragment.children, id, r)
    {
      r := fragment.GetElementById(id);
    }

    /** `getElementsByTagName`, answered by the fragment. */
    method GetElementsByTagName(tag: Option<string>) returns (list: seq<Element>)
      ensures list == ByTag(fragment.children, tag)
    {
      list := fragment.GetElementsByTagName(tag);
    }

    /** `getElementsByClassName`, answered by the fragment. */
    method GetElementsByClassName(className: string) returns (r: Result<seq<Element>, QueryError>)
      ensures r == ByClass(fragment.children, className)
    {
      r := fragment.GetElementsByClassName(className);
    }

    /** `appendChild`, applied to the fragment. */
    method AppendChild(node: Element?) returns (r: Outcome<NotAnElement>)
      modifies fragment`children, (if node == null then {} else {node})`parent
      ensures node == null ==> r == Fail(NotAnElement) && fragment.children == old(fragment.children)
      ensures node != null ==> r == Pass && fragment.children == old(fragment.children) + [node] && node.parent == fragment
    {
      r := fragment.AppendChild(node);
    }

    /** `prependChild`, applied to the fragment. */
    method PrependChild(node: Element?) returns (r: Outcome<NotAnElement>)
      modifies fragment`children, (if node == null then {} else {node})`parent
      ensures node == null ==> r == Fail(NotAnElement) && fragment.children == old(fragment.children)
      ensures node != null ==> r == Pass && fragment.children == [node] + old(fragment.children) && node.parent == fragment
    {
      r := fragment.PrependChild(node);
    }

    /** `replaceChild`, applied to the fragment. */
    method ReplaceChild(child: Element, nodes: seq<Element>)
      modifies fragment`children, child`parent, nodes`parent
      ensures child.referenceId !in ChildLists.Keys(old(fragment.children), RefIdOf) ==>
        fragment.children == old(fragment.children) && child.parent == old(child.parent) && unchanged(nodes`parent)
      ensures child.referenceId in ChildLists.Keys(old(fragment.children), RefIdOf) ==>
        fragment.children == ChildLists.Replaced(old(fragment.children), RefIdOf, child.referenceId, nodes) &&
        child.parent == null && forall n :: n in nodes && n != child ==> n.parent == fragment
    {
      fragment.ReplaceChild(child, nodes);
    }

    /** `removeChild`, applied to the fragment: the listed elements' ids leave its children. */
    method RemoveChild(arg: ElementArg)
      modifies fragment`children
      ensures arg.NotElements? ==> fragment.children == old(fragment.children)
      ensures !arg.NotElements? ==>
        fragment.children == ChildLists.Kept(old(fragment.children), RefIdOf, ChildLists.Keys(Listed(arg), RefIdOf))
    {
      fragment.RemoveChildren(arg);
    }

    /** `hasChild`, answered by the fragment. */
    method HasChild(node: Element) returns (b: bool)
      ensures b <==> node.referenceId in ChildLists.Keys(fragment.children, RefIdOf)
    {
      b := fragment.HasChild(node);
    }

    /** `stringify`: the fragment's, which is its children's serialisations without enclosing tags. */
    method Stringify(ghost nodes: set<Element>, ghost rank: map<Element, nat>) returns (s: string)
      requires Ranked(nodes, rank) && fragment in nodes
      ensures s == Serializer.Stringify(Snap(fragment, nodes, rank))
      ensures fragment.kind == FragmentKind && fragment.mode == "closed" ==>
        s == ConcatAll(SnapAll(fragment.children, nodes, rank, rank[fragment]))
    {
      s := fragment.Stringify(nodes, rank);
    }

    /** `getDescendants`: the fragment's. */
    method GetDescendants(ghost nodes: set<Element>, ghost rank: map<Element, nat>) returns (list: seq<Element>)
      requires Ranked(nodes, rank) && fragment in nodes
      ensures list == Below(fragment, nodes, rank)
    {
      list := fragment.GetDescendants(nodes, rank);
    }
  }

  // ---------------------------------------------------------------------------------------------
  // Child lists

  /** The argument forms `removeChildren` accepts: one element, an array, anything else. */
  datatype ElementArg = One(element: Element) | Many(elements: seq<Element>) | NotElements

  /** The elements an argument stands for: one element is wrapped, anything else is empty. */
  function Listed(arg: ElementArg): (r: seq<Element>)
    ensures arg.One? ==> r == [arg.element]
    ensures arg.Many? ==> r == arg.elements
    ensures arg.NotElements? ==> r == []
  {
    match arg
    case One(e) => [e]
    case Many(es) => es
    case NotElements => []
  }

  /** The reference id of an element, as the list functions read it. */
  function RefIdOf(e: Element): RefId {
    e.referenceId
  }

  /** `replaceChild`'s loop building the new child list from `cs`. */
  method ReplacedList(cs: seq<Element>, target: RefId, nodes: seq<Element>) returns (list: seq<Element>)
    ensures list == ChildLists.Replaced(cs, RefIdOf, target, nodes)
  {
    var ids := RefIdsOf(nodes);
    list := [];
    for i := 0 to |cs|
      invariant list + ChildLists.Replaced(cs[i..], RefIdOf, target, nodes) ==
                ChildLists.Replaced(cs, RefIdOf, target, nodes)
    {
      ChildLists.ReplacedStep(cs, i, RefIdOf, target, nodes);
      ghost var rest := ChildLists.Replaced(cs[i + 1..], RefIdOf, target, nodes);
      if cs[i].referenceId != target && cs[i].referenceId !in ids {
        ChildLists.Associative(list, [cs[i]], rest);
        list := list + [cs[i]];
      } else {
        ChildLists.Associative(list, nodes, rest);
        list := list + nodes;
      }
    }
    assert cs[|cs|..] == [] && list + [] == list;
  }

  /** The loop collecting the reference ids of the given elements, in order. */
  method RefIdsOf(es: seq<Element>) returns (ids: seq<RefId>)
    ensures ids == ChildLists.Keys(es, RefIdOf)
  {
    ids := [];
    for i := 0 to |es|
      invariant ids == ChildLists.Keys(es[..i], RefIdOf)
    {
      KeysNext(es, i);
      ids := ids + [es[i].referenceId];
    }
    assert es[..|es|] == es;
  }

  /** The reference ids of a prefix grow by one entry per element taken. */
  lemma KeysNext(es: seq<Element>, i: nat)
    requires i < |es|
    ensures ChildLists.Keys(es[..i + 1], RefIdOf) == ChildLists.Keys(es[..i], RefIdOf) + [es[i].referenceId]
  {
    assert es[..i + 1] == es[..i] + [es[i]];
    KeysAppend(es[..i], [es[i]]);
  }

  lemma {:induction false} KeysAppend(a: seq<Element>, b: seq<Element>)
    ensures ChildLists.Keys(a + b, RefIdOf) == ChildLists.Keys(a, RefIdOf) + ChildLists.Keys(b, RefIdOf)
  {
    if a == [] {
      assert a + b == b;
    } else {
      assert (a + b)[1..] == a[1..] + b;
      KeysAppend(a[1..], b);
    }
  }

  /** The pre-order listing of everything below `n`. */
  ghost function Below(n: Element, nodes: set<Element>, rank: map<Element, nat>): seq<Element>
    requires n in nodes && n in rank
    reads nodes`children
    decreases rank[n], 1
  {
    BelowAll(n.children, nodes, rank, rank[n])
  }

  /** Each element of `cs` followed by everything below it, in order (elements outside the ranking dropped). */
  ghost function BelowAll(cs: seq<Element>, nodes: set<Element>, rank: map<Element, nat>, bound: nat): seq<Element>
    reads nodes`children
    decreases bound, 0, |cs|
  {
    if cs == [] then []
    else (if cs[0] in nodes && cs[0] in rank && rank[cs[0]] < bound then [cs[0]] + Below(cs[0], nodes, rank) else [])
         + BelowAll(cs[1..], nodes, rank, bound)
  }

  lemma BelowAllStep(cs: seq<Element>, i: nat, nodes: set<Element>, rank: map<Element, nat>, bound: nat)
    requires i < |cs| && cs[i] in nodes && cs[i] in rank && rank[cs[i]] < bound
    ensures BelowAll(cs[i..], nodes, rank, bound) == [cs[i]] + Below(cs[i], nodes, rank) + BelowAll(cs[i + 1..], nodes, rank, bound)
  {
    assert cs[i..][0] == cs[i] && cs[i..][1..] == cs[i + 1..];
  }

  /** One step of `getDescendants`: the child, then what is below it, then the rest. */
  lemma ConcatStep(list: seq<Element>, child: Element, below: seq<Element>, rest: seq<Element>)
    ensures list + [child] + below + rest == list + ([child] + below + rest)
  {
  }

  /** The reference ids of a list of elements. */
  function RefIds(es: seq<Element>): set<RefId> {
    if es == [] then {} else {es[0].referenceId} + RefIds(es[1..])
  }

  lemma {:induction false} RefIdsAppend(a: seq<Element>, b: seq<Element>)
    ensures RefIds(a + b) == RefIds(a) + RefIds(b)
  {
    if a == [] {
      assert a + b == b;
    } else {
      assert (a + b)[1..] == a[1..] + b;
      RefIdsAppend(a[1..], b);
    }
  }

  lemma {:induction false} ForestAppend(a: seq<Tree>, b: seq<Tree>)
    ensures ForestIds(a + b) == ForestIds(a) + ForestIds(b)
  {
    if a == [] {
      assert a + b == b;
    } else {
      assert (a + b)[1..] == a[1..] + b;
      ForestAppend(a[1..], b);
    }
  }

  /**
   * `getDescendants` and the `index` cache of `stringifyChildren` agree: the element's id together
   * with its descendants' ids are exactly the ids of its subtree.
   */
  lemma {:induction false} BelowIds(n: Element, nodes: set<Element>, rank: map<Element, nat>)
    requires n in nodes && n in rank
    ensures {n.referenceId} + RefIds(Below(n, nodes, rank)) == Ids(Snap(n, nodes, rank))
    decreases rank[n], 1
  {
    BelowAllIds(n.children, nodes, rank, rank[n]);
  }

  lemma {:induction false} BelowAllIds(cs: seq<Element>, nodes: set<Element>, rank: map<Element, nat>, bound: nat)
    ensures RefIds(BelowAll(cs, nodes, rank, bound)) == ForestIds(SnapAll(cs, nodes, rank, bound))
    decreases bound, 0, |cs|
  {
    if cs != [] {
      BelowAllIds(cs[1..], nodes, rank, bound);
      var rest := BelowAll(cs[1..], nodes, rank, bound);
      var trees := SnapAll(cs[1..], nodes, rank, bound);
      if cs[0] in nodes && cs[0] in rank && rank[cs[0]] < bound {
        BelowIds(cs[0], nodes, rank);
        SnapId(cs[0], nodes, rank);
        HeadIds(cs[0], Below(cs[0], nodes, rank), rest, Snap(cs[0], nodes, rank), trees);
      } else {
        assert BelowAll(cs, nodes, rank, bound) == [] + rest && [] + rest == rest;
        assert SnapAll(cs, nodes, rank, bound) == [] + trees && [] + trees == trees;
      }
    }
  }

  /** An element followed by its descendants, then more: the ids match when its subtree's ids do. */
  lemma HeadIds(c: Element, below: seq<Element>, rest: seq<Element>, t: Tree, trees: seq<Tree>)
    requires t.id == c.referenceId && Ids(t) == {c.referenceId} + RefIds(below)
    requires RefIds(rest) == ForestIds(trees)
    ensures RefIds([c] + below + rest) == ForestIds([t] + trees)
  {
    RefIdsAppend([c] + below, rest);
    RefIdsAppend([c], below);
    assert RefIds([c]) == {c.referenceId} by {
      assert [c][1..] == [];
    }
    ForestAppend([t], trees);
    assert ForestIds([t]) == Ids(t) by {
      assert [t][1..] == [];
    }
  }

  // ---------------------------------------------------------------------------------------------
  // Queries

  /** The element's `id` attribute is `id` (`===`, with `None` for `undefined`). */
  predicate HasId(e: Element, id: Option<Value>)
    reads e
  {
    Get(e.attributes, "id") == id
  }

  /** `r` is the first of `cs` whose `id` attribute is `id`, or `null` when there is none. */
  ghost predicate FirstWithId(cs: seq<Element>, id: Option<Value>, r: Element?)
    reads cs
  {
    if r == null then forall i :: 0 <= i < |cs| ==> !HasId(cs[i], id)
    else exists i :: 0 <= i < |cs| && cs[i] == r && HasId(cs[i], id) &&
                     forall j :: 0 <= j < i ==> !HasId(cs[j], id)
  }

  /** At most one element is the first match: the lookup has a single answer. */
  lemma FirstWithIdUnique(cs: seq<Element>, id: Option<Value>, a: Element?, b: Element?)
    requires FirstWithId(cs, id, a) && FirstWithId(cs, id, b)
    ensures a == b
  {
    if a != null && b != null {
      var i :| 0 <= i < |cs| && cs[i] == a && HasId(cs[i], id) &&
               forall j :: 0 <= j < i ==> !HasId(cs[j], id);
      var k :| 0 <= k < |cs| && cs[k] == b && HasId(cs[k], id) &&
               forall j :: 0 <= j < k ==> !HasId(cs[j], id);
      assert !(i < k) && !(k < i);
    }
  }

  /** The loop of `getElementById` over a list of elements. */
  method FindById(cs: seq<Element>, id: Option<Value>) returns (r: Element?)
    ensures FirstWithId(cs, id, r)
  {
    for i := 0 to |cs|
      invariant forall j :: 0 <= j < i ==> !HasId(cs[j], id)
    {
      var e := cs[i];
      if HasId(e, id) {
        return e;
      }
    }
    return null;
  }

  /** What `getElementsByClassName(className)` returns (or throws) on the children `cs`. */
  function ByClass(cs: seq<Element>, className: string): Result<seq<Element>, QueryError>
    reads cs
  {
    if cs == [] then Success([])
    else match ClassTokens(Get(cs[0].attributes, "class"))
      case Failure(err) => Failure(err)
      case Success(tokens) => Prepend(Hits(cs[0], tokens, className), ByClass(cs[1..], className))
  }

  /** Some child among `cs` has a `class` of `true` exactly when the first does or one of the rest does. */
  lemma TrueClassSplit(cs: seq<Element>)
    requires cs != []
    ensures (exists i :: 0 <= i < |cs| && Get(cs[i].attributes, "class") == Some(True)) <==>
      Get(cs[0].attributes, "class") == Some(True) ||
      exists i :: 0 <= i < |cs[1..]| && Get(cs[1..][i].attributes, "class") == Some(True)
  {
    var t := cs[1..];
    if exists i :: 0 <= i < |t| && Get(t[i].attributes, "class") == Some(True) {
      var i :| 0 <= i < |t| && Get(t[i].attributes, "class") == Some(True);
      assert t[i] == cs[i + 1];
    }
    if exists i :: 0 <= i < |cs| && Get(cs[i].attributes, "class") == Some(True) {
      var i :| 0 <= i < |cs| && Get(cs[i].attributes, "class") == Some(True);
      if i > 0 {
        assert t[i - 1] == cs[i];
      }
    }
  }

  /** The query fails exactly when some child's `class` is `true`. */
  lemma {:induction false} ByClassFails(cs: seq<Element>, className: string)
    ensures ByClass(cs, className).Failure? <==> exists i :: 0 <= i < |cs| && Get(cs[i].attributes, "class") == Some(True)
  {
    if cs != [] {
      ByClassFails(cs[1..], className);
      assert ByClass(cs, className).Failure? <==>
        Get(cs[0].attributes, "class") == Some(True) || ByClass(cs[1..], className).Failure?;
      TrueClassSplit(cs);
    }
  }

  /** The child carries `className` as one of its class tokens. */
  predicate HasClass(e: Element, className: string)
    reads e
  {
    var tokens := ClassTokens(Get(e.attributes, "class"));
    tokens.Success? && className in tokens.value
  }

  /**
   * Otherwise an element is listed exactly when it is a child whose `class`, split on single
   * spaces, contains `className` as a whole token.
   */
  lemma {:induction false} ByClassMembers(cs: seq<Element>, className: string)
    requires ByClass(cs, className).Success?
    ensures forall i :: 0 <= i < |cs| && HasClass(cs[i], className) ==> cs[i] in ByClass(cs, className).value
    ensures forall e :: e in ByClass(cs, className).value ==> e in cs && HasClass(e, className)
  {
    if cs != [] {
      ByClassMembers(cs[1..], className);
      var tokens := ClassTokens(Get(cs[0].attributes, "class")).value;
      var rest := ByClass(cs[1..], className).value;
      assert ByClass(cs, className).value == Hits(cs[0], tokens, className) + rest;
      var hits := Hits(cs[0], tokens, className);
      forall i | 0 <= i < |cs| && HasClass(cs[i], className)
        ensures cs[i] in ByClass(cs, className).value
      {
        if i == 0 {
          assert className in tokens;
          assert hits != [];
          assert hits[0] in hits;
          assert hits[0] == cs[0] && hits[0] in hits + rest;
        } else {
          assert cs[1..][i - 1] == cs[i];
        }
      }
      forall e | e in ByClass(cs, className).value
        ensures e in cs && HasClass(e, className)
      {
        if e in Hits(cs[0], tokens, className) {
          assert e == cs[0] && className in tokens;
        } else {
          assert e in rest;
        }
      }
    }
  }

  /** Class matching wants a whole token: `foobar` does not carry the class `foo`, `bar foo` does. */
  lemma WholeTokens()
    ensures "foo" !in Split("foobar", ' ')
    ensures "foo" in Split("bar foo", ' ')
  {
    assert IndexOf("foobar", ' ', 0) == -1;
    assert IndexOf("bar foo", ' ', 0) == 3;
    assert "bar foo"[4..] == "foo";
    assert IndexOf("foo", ' ', 0) == -1;
  }

  /** The loop of `getElementsByClassName` over a list of elements. */
  method FilterByClass(cs: seq<Element>, className: string) returns (r: Result<seq<Element>, QueryError>)
    ensures r == ByClass(cs, className)
  {
    var list: seq<Element> := [];
    PrependEmpty(ByClass(cs, className));
    for i := 0 to |cs|
      invariant ByClass(cs, className) == Prepend(list, ByClass(cs[i..], className))
    {
      var e := cs[i];
      ByClassStep(cs, i, className);
      var v := Get(e.attributes, "class");
      if v == Some(True) {
        assert ClassTokens(v).Failure?;
        assert ByClass(cs[i..], className) == Failure(NotAString);
        assert ByClass(cs, className) == Failure(NotAString);
        return Failure(NotAString);
      }
      ghost var rest := ByClass(cs[i + 1..], className);
      var classes := if v.Some? && v.value.Str? && v.value.s != [] then Split(v.value.s, ' ') else [];
      assert ClassTokens(v) == Success(classes);
      assert ByClass(cs[i..], className) == Prepend(Hits(e, classes, className), rest);
      ghost var before := list;
      PrependAppend(before, Hits(e, classes, className), rest);
      list := PushHits(list, e, classes, className);
      assert ByClass(cs[i + 1..], className) == rest;
    }
    assert cs[|cs|..] == [] && list + [] == list;
    r := Success(list);
  }

  /** One child of the class query: it either fails the query or contributes its hits. */
  lemma ByClassStep(cs: seq<Element>, i: nat, className: string)
    requires i < |cs|
    ensures ClassTokens(Get(cs[i].attributes, "class")).Failure? ==> ByClass(cs[i..], className) == Failure(NotAString)
    ensures ClassTokens(Get(cs[i].attributes, "class")).Success? ==>
      ByClass(cs[i..], className) ==
        Prepend(Hits(cs[i], ClassTokens(Get(cs[i].attributes, "class")).value, className), ByClass(cs[i + 1..], className))
  {
    assert cs[i..][0] == cs[i] && cs[i..][1..] == cs[i + 1..];
  }


  /** What `getElementsByTagName(tag)` returns on the children `cs`. */
  function ByTag(cs: seq<Element>, tag: Option<string>): (r: seq<Element>)
    reads cs
    ensures |r| <= |cs|
  {
    if cs == [] then []
    else (if cs[0].tagName == tag then [cs[0]] else []) + ByTag(cs[1..], tag)
  }

  /** Exactly the children whose tag name is `tag` are listed. */
  lemma {:induction false} ByTagMembers(cs: seq<Element>, tag: Option<string>)
    ensures forall e :: e in ByTag(cs, tag) ==> e in cs && e.tagName == tag
    ensures forall i :: 0 <= i < |cs| && cs[i].tagName == tag ==> cs[i] in ByTag(cs, tag)
  {
    if cs != [] {
      ByTagMembers(cs[1..], tag);
      var head := if cs[0].tagName == tag then [cs[0]] else [];
      assert ByTag(cs, tag) == head + ByTag(cs[1..], tag);
      forall i | 0 <= i < |cs| && cs[i].tagName == tag
        ensures cs[i] in ByTag(cs, tag)
      {
        if i > 0 {
          assert cs[i] == cs[1..][i - 1];
        }
      }
    }
  }

  /** The matches keep the children's order: the query distributes over concatenation. */
  lemma {:induction false} ByTagAppend(a: seq<Element>, b: seq<Element>, tag: Option<string>)
    ensures ByTag(a + b, tag) == ByTag(a, tag) + ByTag(b, tag)
  {
    if a == [] {
      assert a + b == b;
    } else {
      assert (a + b)[0] == a[0] && (a + b)[1..] == a[1..] + b;
      ByTagAppend(a[1..], b, tag);
      ChildLists.Associative(if a[0].tagName == tag then [a[0]] else [], ByTag(a[1..], tag), ByTag(b, tag));
    }
  }

  /** The loop of `getElementsByTagName` over a list of elements. */
  method FilterByTag(cs: seq<Element>, tag: Option<string>) returns (list: seq<Element>)
    ensures list == ByTag(cs, tag)
  {
    list := [];
    for i := 0 to |cs|
      invariant list + ByTag(cs[i..], tag) == ByTag(cs, tag)
    {
      var e := cs[i];
      var hit := if e.tagName == tag then [e] else [];
      ByTagStep(cs, i, tag);
      ChildLists.Associative(list, hit, ByTag(cs[i + 1..], tag));
      list := list + hit;
    }
    assert cs[|cs|..] == [];
  }

  lemma ByTagStep(cs: seq<Element>, i: nat, tag: Option<string>)
    requires i < |cs|
    ensures ByTag(cs[i..], tag) == (if cs[i].tagName == tag then [cs[i]] else []) + ByTag(cs[i + 1..], tag)
  {
    assert cs[i..][0] == cs[i] && cs[i..][1..] == cs[i + 1..];
  }

  /** The text payload a snapshot carries: a text element's `textContent`, nothing for the other classes. */
  function TextOf(kind: Kind, textContent: string): string {
    if kind == TextKind then textContent else []
  }

  // ---------------------------------------------------------------------------------------------
  // Snapshots

  /**
   * `nodes` is closed under taking children and `rank` strictly decreases from an element to each
   * of its children: no element is its own ancestor.
   */
  ghost predicate Ranked(nodes: set<Element>, rank: map<Element, nat>)
    reads nodes`children
  {
    (forall n :: n in nodes ==> n in rank) &&
    forall n, i {:trigger n.children[i]} :: n in nodes && 0 <= i < |n.children| ==>
      n in rank && n.children[i] in nodes && n.children[i] in rank && rank[n.children[i]] < rank[n]
  }

  /**
   * The subtree at `n` as a value. A child outside `nodes` or not ranked below its parent is
   * dropped, which never happens under `Ranked`.
   */
  ghost function Snap(n: Element, nodes: set<Element>, rank: map<Element, nat>): Tree
    requires n in nodes && n in rank
    reads nodes`children, nodes`tagName, nodes`mode, nodes`attributes, nodes`textContent
    decreases rank[n], 1, 0
  {
    Tree(n.referenceId, n.kind, n.tagName, n.mode, n.attributes, TextOf(n.kind, n.textContent),
         SnapAll(n.children, nodes, rank, rank[n]))
  }

  ghost function SnapAll(cs: seq<Element>, nodes: set<Element>, rank: map<Element, nat>, bound: nat): seq<Tree>
    reads nodes`children, nodes`tagName, nodes`mode, nodes`attributes, nodes`textContent
    decreases bound, 0, |cs|
  {
    if cs == [] then []
    else (if cs[0] in nodes && cs[0] in rank && rank[cs[0]] < bound then [Snap(cs[0], nodes, rank)] else [])
         + SnapAll(cs[1..], nodes, rank, bound)
  }

  lemma SnapAllStep(cs: seq<Element>, i: nat, nodes: set<Element>, rank: map<Element, nat>, bound: nat)
    requires i < |cs| && cs[i] in nodes && cs[i] in rank && rank[cs[i]] < bound
    ensures SnapAll(cs[i..], nodes, rank, bound) == [Snap(cs[i], nodes, rank)] + SnapAll(cs[i + 1..], nodes, rank, bound)
  {
    assert cs[i..][0] == cs[i] && cs[i..][1..] == cs[i + 1..];
  }

  /** An ancestor chain never repeats an element: it ends at an element without a parent. */
  lemma AncestryDistinct(e: Element, chain: seq<Element>)
    requires Ancestry(e, chain)
    ensures forall i, j :: 0 <= i < j < |chain| ==> chain[i] != chain[j]
  {
    forall i, j | 0 <= i < j < |chain|
      ensures chain[i] != chain[j]
    {
      AncestryApart(chain, i, j);
    }
  }

  lemma AncestryHead(e: Element, chain: seq<Element>)
    requires Ancestry(e, chain)
    ensures e !in chain[1..]
  {
    AncestryDistinct(e, chain);
    forall k | 0 <= k < |chain[1..]|
      ensures chain[1..][k] != e
    {
      assert chain[1..][k] == chain[k + 1];
    }
  }

  lemma AncestryApart(chain: seq<Element>, i: nat, j: nat)
    requires i < j < |chain| && Ancestry(chain[0], chain)
    ensures chain[i] != chain[j]
    decreases |chain| - j
  {
    assert chain[i].parent == chain[i + 1];
    if j + 1 < |chain| {
      AncestryApart(chain, i + 1, j + 1);
    }
  }

  /** The chain of an element without a parent is the element alone; otherwise it continues with the parent's chain. */
  lemma AncestryTail(e: Element, chain: seq<Element>)
    requires Ancestry(e, chain)
    ensures e.parent == null ==> chain == [e]
    ensures e.parent != null ==> |chain| > 1 && Ancestry(e.parent, chain[1..])
  {
    if |chain| > 1 {
      assert chain[0].parent == chain[1];
    }
  }

  lemma PrefixGrows<T>(r: seq<T>, k: nat)
    requires k < |r|
    ensures r[..k + 1] == r[..k] + [r[k]]
  {
  }

  /** What each element of `chain` renders to. */
  ghost function Renders(chain: seq<Element>, nodes: set<Element>, rank: map<Element, nat>): (r: seq<string>)
    requires forall e :: e in chain ==> e in nodes && e in rank
    reads nodes`children, nodes`tagName, nodes`mode, nodes`attributes, nodes`textContent
    ensures |r| == |chain|
  {
    if chain == [] then [] else [Serializer.Stringify(Snap(chain[0], nodes, rank))] + Renders(chain[1..], nodes, rank)
  }

  /** The first element's rendering heads the list, the rest of the chain's follow. */
  lemma RendersTail(chain: seq<Element>, nodes: set<Element>, rank: map<Element, nat>)
    requires |chain| > 0 && forall e :: e in chain ==> e in nodes && e in rank
    ensures Renders(chain, nodes, rank)[0] == Serializer.Stringify(Snap(chain[0], nodes, rank))
    ensures Renders(chain, nodes, rank)[1..] == Renders(chain[1..], nodes, rank)
  {
  }

  lemma RendersHere(chain: seq<Element>, k: nat, nodes: set<Element>, rank: map<Element, nat>)
    requires k < |chain| && forall e :: e in chain ==> e in nodes && e in rank
    ensures Renders(chain, nodes, rank)[k] == Serializer.Stringify(Snap(chain[k], nodes, rank))
  {
    RendersAt(chain, nodes, rank);
  }

  lemma {:induction false} RendersAt(chain: seq<Element>, nodes: set<Element>, rank: map<Element, nat>)
    requires forall e :: e in chain ==> e in nodes && e in rank
    ensures forall k :: 0 <= k < |chain| ==> Renders(chain, nodes, rank)[k] == Serializer.Stringify(Snap(chain[k], nodes, rank))
  {
    if chain != [] {
      RendersAt(chain[1..], nodes, rank);
      forall k | 1 <= k < |chain|
        ensures Renders(chain, nodes, rank)[k] == Serializer.Stringify(Snap(chain[k], nodes, rank))
      {
        assert chain[1..][k - 1] == chain[k];
      }
    }
  }

  /** `chain` is `e` followed by its ancestors, up to one without a parent. */
  ghost predicate Ancestry(e: Element, chain: seq<Element>)
    reads chain`parent
  {
    |chain| > 0 && chain[0] == e && chain[|chain| - 1].parent == null &&
    forall k :: 0 <= k < |chain| - 1 ==> chain[k].parent == chain[k + 1]
  }

  /** The attribute loop of `ParsedClosedElement.stringify`. */
  method QuotedLoop(a: Attrs) returns (s: string)
    ensures s == QuotedAttrs(a)
  {
    s := [];
    for i := 0 to |a|
      invariant s + QuotedAttrs(a[i..]) == QuotedAttrs(a)
    {
      assert a[i..][0] == a[i] && a[i..][1..] == a[i + 1..];
      ChildLists.Associative(s, QuotedAttr(a[i]), QuotedAttrs(a[i + 1..]));
      s := s + QuotedAttr(a[i]);
    }
    assert a[|a|..] == [];
  }

  /** The attribute loop of `ParsedVoidElement.stringify`. */
  method VoidLoop(a: Attrs) returns (s: string)
    ensures s == VoidAttrs(a)
  {
    s := [];
    for i := 0 to |a|
      invariant s + VoidAttrs(a[i..]) == VoidAttrs(a)
    {
      assert a[i..][0] == a[i] && a[i..][1..] == a[i + 1..];
      ChildLists.Associative(s, VoidAttr(a[i]), VoidAttrs(a[i + 1..]));
      s := s + VoidAttr(a[i]);
    }
    assert a[|a|..] == [];
  }

  /** The snapshots of `n`'s children, one per child. */
  ghost function SnapChildren(n: Element, nodes: set<Element>, rank: map<Element, nat>): (ts: seq<Tree>)
    requires Ranked(nodes, rank) && n in nodes
    reads nodes`children, nodes`tagName, nodes`mode, nodes`attributes, nodes`textContent
    ensures ts == SnapAll(n.children, nodes, rank, rank[n])
    ensures |ts| == |n.children| && forall i :: 0 <= i < |ts| ==> ts[i] == Snap(n.children[i], nodes, rank)
  {
    SnapAllIndex(n.children, nodes, rank, rank[n]);
    SnapAll(n.children, nodes, rank, rank[n])
  }

  lemma {:induction false} SnapAllIndex(cs: seq<Element>, nodes: set<Element>, rank: map<Element, nat>, bound: nat)
    requires forall i :: 0 <= i < |cs| ==> cs[i] in nodes && cs[i] in rank && rank[cs[i]] < bound
    ensures |SnapAll(cs, nodes, rank, bound)| == |cs|
    ensures forall i :: 0 <= i < |cs| ==> SnapAll(cs, nodes, rank, bound)[i] == Snap(cs[i], nodes, rank)
    decreases |cs|
  {
    if cs != [] {
      SnapAllIndex(cs[1..], nodes, rank, bound);
      forall i | 1 <= i < |cs|
        ensures SnapAll(cs, nodes, rank, bound)[i] == Snap(cs[i], nodes, rank)
      {
        assert cs[1..][i - 1] == cs[i];
      }
    }
  }

  /** A child whose id is cached is skipped. */
  lemma ClosedSkip(ts: seq<Tree>, i: nat, seen: set<RefId>, s: string)
    requires i < |ts| && ts[i].id in seen
    ensures s + ClosedChildren(ts[i..], seen) == s + ClosedChildren(ts[i + 1..], seen)
  {
    assert ts[i..][0] == ts[i] && ts[i..][1..] == ts[i + 1..];
  }

  /** A child whose id is not cached is rendered, and its subtree's ids are cached. */
  lemma ClosedAdvance(ts: seq<Tree>, i: nat, seen: set<RefId>, s: string, t: string)
    requires i < |ts| && ts[i].id !in seen && t == Serializer.Stringify(ts[i])
    ensures s + ClosedChildren(ts[i..], seen) == (s + t) + ClosedChildren(ts[i + 1..], seen + Ids(ts[i]))
  {
    assert ts[i..][0] == ts[i] && ts[i..][1..] == ts[i + 1..];
    ChildLists.Associative(s, t, ClosedChildren(ts[i + 1..], seen + Ids(ts[i])));
  }

  lemma ConcatAdvance(ts: seq<Tree>, i: nat, s: string, t: string)
    requires i < |ts| && t == Serializer.Stringify(ts[i])
    ensures s + ConcatAll(ts[i..]) == (s + t) + ConcatAll(ts[i + 1..])
  {
    assert ts[i..][0] == ts[i] && ts[i..][1..] == ts[i + 1..];
    ChildLists.Associative(s, t, ConcatAll(ts[i + 1..]));
  }

  lemma ForestAt(ts: seq<Tree>, i: nat)
    requires i < |ts|
    ensures ForestIds(ts[i..]) == Ids(ts[i]) + ForestIds(ts[i + 1..])
  {
    assert ts[i..][0] == ts[i] && ts[i..][1..] == ts[i + 1..];
  }

  lemma SnapId(n: Element, nodes: set<Element>, rank: map<Element, nat>)
    requires n in nodes && n in rank
    ensures Snap(n, nodes, rank).id == n.referenceId && n.referenceId in Ids(Snap(n, nodes, rank))
  {
  }

  /** The ids under `n`: its own and its children's subtrees'. */
  lemma SnapIds(n: Element, nodes: set<Element>, rank: map<Element, nat>)
    requires Ranked(nodes, rank) && n in nodes
    ensures Ids(Snap(n, nodes, rank)) == {n.referenceId} + ForestIds(SnapChildren(n, nodes, rank))
  {
  }

  /** One step of `index`'s loop: the cache gains the child's id and its whole subtree's. */
  lemma IndexAdvance(ts: seq<Tree>, j: nat, child: Element, nodes: set<Element>, rank: map<Element, nat>,
                     before: set<RefId>, added: set<RefId>, after: set<RefId>)
    requires j < |ts| && child in nodes && child in rank && ts[j] == Snap(child, nodes, rank)
    requires added == before + {child.referenceId} || added == before
    requires after == added + Ids(ts[j])
    ensures after + ForestIds(ts[j + 1..]) == before + ForestIds(ts[j..])
  {
    ForestAt(ts, j);
    SnapId(child, nodes, rank);
  }

  /** An element without children contributes its own id only. */
  lemma LeafIds(n: Element, nodes: set<Element>, rank: map<Element, nat>)
    requires n in nodes && n in rank && n.children == []
    ensures Ids(Snap(n, nodes, rank)) == {n.referenceId}
  {
    assert SnapAll(n.children, nodes, rank, rank[n]) == [];
  }
}
