/**
 * The oldest DOM classes, src/document/: `ParsedElement`, its subclasses `ParsedHTMLElement` and
 * `ParsedTextElement`, and the registry document `ParsedHTMLDocument`, as one class whose constant
 * `kind` records the class an object was built as. These classes emit no events: every property
 * is a plain field.
 *
 * A child slot can hold `undefined`, when `createElement` resolves a reference id the document
 * does not know; `null` stands for it in `children`, and a query that reaches it throws.
 */
module LegacyDom {
  import opened Wrappers
  import opened Attributes

  datatype Kind = DocumentKind | HtmlKind | TextKind

  /** The `TypeError`s these classes throw. */
  datatype TypeError =
    | NotAnElement       // `appendChild`/`prependChild` given something that is not a `ParsedElement`
    | ReadOfUndefined    // a query reading `attributes` or `tagName` of an `undefined` child
    | ClassNotAString         // `getElementsByClassName` calling `split` on a `class` of `true`

  /**
   * The object a `ParsedElement` constructor reads; `None` is a key the object lacks. The empty
   * string is falsy and counts as missing where the constructor uses `||`.
   */
  datatype Options = Options(tagName: Option<string>, nodeType: Option<string>, attributes: Option<Attrs>,
                             content: Option<string>, parent: Node?, children: Option<seq<Node?>>)

  /**
   * The object `createElement` is given. The field `nodeType` holds the object's `type` key, which
   * `createElement` reads as the node type (the object's own `nodeType` key is never read);
   * `0` is a falsy `parentRefId`.
   */
  datatype CreateOptions = CreateOptions(tagName: Option<string>, nodeType: Option<string>, attributes: Option<Attrs>,
                                         content: Option<string>, parent: Node?, children: Option<seq<Node?>>,
                                         childrenRefIds: Option<seq<int>>, parentRefId: Option<int>)

  /** `createElement('div')`: a string argument is the tag name. */
  function TagOptions(tag: string): (o: CreateOptions)
    ensures o.tagName == Some(tag)
    ensures o.nodeType.None? && o.attributes.None? && o.content.None? && o.parent == null
    ensures o.children.None? && o.childrenRefIds.None? && o.parentRefId.None?
  {
    CreateOptions(Some(tag), None, None, None, null, None, None, None)
  }

  /** `value || null` on a string-valued key. */
  function Truthy(v: Option<string>): (r: Option<string>)
    ensures r.Some? <==> v.Some? && v.value != ""
    ensures r.Some? ==> r == v
  {
    if v.Some? && v.value != "" then v else None
  }

  /** `value || d` on a string-valued key. */
  function OrDefault(v: Option<string>, d: string): (r: string)
    ensures v.Some? && v.value != "" ==> r == v.value
    ensures v.None? || v.value == "" ==> r == d
  {
    if v.Some? && v.value != "" then v.value else d
  }

  class Node {
    /** The class the object was constructed as. */
    const kind: Kind
    /** `referenceId`: only a `ParsedHTMLElement` is given one. */
    const referenceId: Option<nat>
    /** `tagName`; `null` is `None`. */
    var tagName: Option<string>
    var nodeType: string
    var attributes: Attrs
    var children: seq<Node?>
    var parent: Node?
    /** `content` of a `ParsedHTMLElement`. */
    var content: string
    /** `textContent` of a `ParsedTextElement`. */
    var textContent: string

    /** `new ParsedHTMLDocument()`: a `ParsedElement` named `#document` of type `document`. */
    constructor Document()
      ensures kind == DocumentKind && referenceId.None?
      ensures tagName == Some("#document") && nodeType == "document"
      ensures attributes == [] && children == [] && parent == null
      ensures Dense(children)
    {
      kind, referenceId := DocumentKind, None;
      tagName, nodeType := Some("#document"), "document";
      attributes, children, parent := [], [], null;
      content, textContent := "", "";
    }

    /**
     * `new ParsedHTMLElement(id, o)`: the `ParsedElement` defaults for every key `o` lacks, then
     * `referenceId` and `content`.
     */
    constructor Html(id: nat, o: Options)
      ensures kind == HtmlKind && referenceId == Some(id)
      ensures tagName == Truthy(o.tagName) && nodeType == OrDefault(o.nodeType, "element")
      ensures attributes == o.attributes.GetOr([]) && children == o.children.GetOr([])
      ensures parent == o.parent && content == OrDefault(o.content, "")
    {
      kind, referenceId := HtmlKind, Some(id);
      tagName, nodeType := Truthy(o.tagName), OrDefault(o.nodeType, "element");
      attributes, children, parent := o.attributes.GetOr([]), o.children.GetOr([]), o.parent;
      content, textContent := OrDefault(o.content, ""), "";
    }

    /**
     * `new ParsedTextElement(id, { textContent })`: `id` reaches the `ParsedElement` constructor
     * as its options object, so the element gets the defaults and no reference id.
     */
    constructor Text(id: nat, text: Option<string>)
      ensures kind == TextKind && referenceId.None?
      ensures tagName.None? && nodeType == "element" && attributes == [] && children == [] && parent == null
      ensures textContent == OrDefault(text, "")
    {
      kind, referenceId := TextKind, None;
      tagName, nodeType := None, "element";
      attributes, children, parent := [], [], null;
      content, textContent := "", OrDefault(text, "");
    }

    // -------------------------------------------------------------------------------------------
    // Queries over the direct children

    /** `getElementById`: the first child with a truthy `id` equal to `id`, `undefined` for none. */
    method GetElementById(id: Option<Value>) returns (r: Result<Node?, TypeError>)
      ensures r == ById(children, id)
    {
      r := FindById(children, id);
    }

    /** `getElementsByClassName`: the children carrying the class token, once per matching token. */
    method GetElementsByClassName(className: string) returns (r: Result<seq<Node>, TypeError>)
      ensures r == ByClass(children, className)
    {
      r := FilterByClass(children, className);
    }

    /** `getElementsByTagName`: the children whose `tagName` is `tag`, in order. */
    method GetElementsByTagName(tag: Option<string>) returns (r: Result<seq<Node>, TypeError>)
      ensures r == ByTag(children, tag)
    {
      r := FilterByTag(children, tag);
    }

    // -------------------------------------------------------------------------------------------
    // Attributes

    /** `hasAttribute`: `hasOwnProperty` on the attribute object. */
    predicate HasAttribute(attr: string): (b: bool)
      reads this`attributes
      ensures b <==> attr in Keys(attributes)
    {
      Has(attributes, attr)
    }

    /** `getAttribute`: the value bound to `attr`, `undefined` (`None`) for none. */
    function GetAttribute(attr: string): (r: Option<Value>)
      reads this`attributes
      ensures r.Some? <==> HasAttribute(attr)
      ensures r.Some? ==> (attr, r.value) in attributes
    {
      GetFound(attributes, attr);
      Get(attributes, attr)
    }

    /** `setAttribute`: the value is stored whatever was there; the other attributes stay. */
    method SetAttribute(attr: string, value: Value)
      modifies this`attributes
      ensures attributes == Put(old(attributes), attr, value)
      ensures GetAttribute(attr) == Some(value)
      ensures forall other :: other != attr ==> GetAttribute(other) == old(GetAttribute(other))
    {
      attributes := Put(attributes, attr, value);
    }

    /** The `id` getter reads the `id` attribute. */
    function Id(): (r: Option<Value>)
      reads this`attributes
      ensures r.Some? <==> HasAttribute("id")
      ensures r.Some? ==> ("id", r.value) in attributes
    {
      GetAttribute("id")
    }

    /** The `id` setter writes the `id` attribute. */
    method SetId(value: Value)
      modifies this`attributes
      ensures attributes == Put(old(attributes), "id", value)
      ensures Id() == Some(value)
    {
      attributes := Put(attributes, "id", value);
    }

    /** The `className` getter reads the `class` attribute. */
    function ClassName(): (r: Option<Value>)
      reads this`attributes
      ensures r.Some? <==> HasAttribute("class")
      ensures r.Some? ==> ("class", r.value) in attributes
    {
      GetAttribute("class")
    }

    /** The `className` setter writes the `class` attribute. */
    method SetClassName(value: Value)
      modifies this`attributes
      ensures attributes == Put(old(attributes), "class", value)
      ensures ClassName() == Some(value)
    {
      attributes := Put(attributes, "class", value);
    }

    // -------------------------------------------------------------------------------------------
    // ParsedHTMLElement

    /**
     * `appendChild`: anything but a `ParsedElement` (`null` here) throws before any change;
     * otherwise the element goes last and takes this element as parent.
     */
    method AppendChild(element: Node?) returns (r: Outcome<TypeError>)
      requires kind == HtmlKind
      modifies this`children, (if element == null then {} else {element})`parent
      ensures element == null ==> r == Fail(NotAnElement) && children == old(children)
      ensures element != null ==> r == Pass && children == old(children) + [element] && element.parent == this
    {
      if element == null {
        return Fail(NotAnElement);
      }
      children := children + [element];
      element.parent := this;
      r := Pass;
    }

    /** `prependChild`: as `appendChild`, with the element put first. */
    method PrependChild(element: Node?) returns (r: Outcome<TypeError>)
      requires kind == HtmlKind
      modifies this`children, (if element == null then {} else {element})`parent
      ensures element == null ==> r == Fail(NotAnElement) && children == old(children)
      ensures element != null ==> r == Pass && children == [element] + old(children) && element.parent == this
    {
      if element == null {
        return Fail(NotAnElement);
      }
      children := [element] + children;
      element.parent := this;
      r := Pass;
    }

    // -------------------------------------------------------------------------------------------
    // ParsedTextElement: every view of the element is its `textContent`

    function InnerHTML(): string
      requires kind == TextKind
      reads this`textContent
    {
      textContent
    }

    function OuterHTML(): string
      requires kind == TextKind
      reads this`textContent
    {
      textContent
    }

    function ToString(): string
      requires kind == TextKind
      reads this`textContent
    {
      textContent
    }

    /** The `innerHTML` setter: what is assigned is what every view then reads. */
    method SetInnerHTML(markup: string)
      requires kind == TextKind
      modifies this`textContent
      ensures InnerHTML() == markup && OuterHTML() == markup && ToString() == markup
    {
      textContent := markup;
    }

    /** The `outerHTML` setter, which also assigns `textContent`. */
    method SetOuterHTML(markup: string)
      requires kind == TextKind
      modifies this`textContent
      ensures InnerHTML() == markup && OuterHTML() == markup && ToString() == markup
    {
      textContent := markup;
    }

    // -------------------------------------------------------------------------------------------
    // ParsedHTMLDocument: `children` is the registry of every element created

    /** `getElementByReferenceId` for a number `id`. */
    method GetElementByReferenceId(id: int) returns (r: Node?)
      requires kind == DocumentKind
      ensures r == Lookup(children, id)
    {
      if id > -1 {
        if id < |children| {
          return children[id];
        }
        return null;
      }
      return null;
    }

    /** The loop of `createElement` resolving `childrenRefIds`, one lookup per id, in order. */
    method LookupAll(ids: seq<int>) returns (cs: seq<Node?>)
      requires kind == DocumentKind
      ensures cs == Lookups(children, ids)
    {
      cs := [];
      for i := 0 to |ids|
        invariant cs == Lookups(children, ids[..i])
      {
        assert ids[..i + 1] == ids[..i] + [ids[i]];
        var e := GetElementByReferenceId(ids[i]);
        cs := cs + [e];
      }
      assert ids[..|ids|] == ids;
    }

    /**
     * `createElement`: the options are resolved against the registry (explicit `children` and
     * `parent` win over `childrenRefIds` and `parentRefId`), the element gets the next reference
     * id and is registered under it.
     */
    method CreateElement(options: CreateOptions) returns (e: Node)
      requires kind == DocumentKind && Dense(children)
      modifies this`children
      ensures fresh(e) && children == old(children) + [e] && Dense(children)
      ensures e.referenceId == Some(|old(children)|) && Lookup(children, |old(children)|) == e
      ensures e.tagName == Truthy(options.tagName) && e.nodeType == OrDefault(options.nodeType, "element")
      ensures e.attributes == options.attributes.GetOr([]) && e.content == OrDefault(options.content, "")
      ensures e.children == ResolvedChildren(old(children), options)
      ensures e.parent == ResolvedParent(old(children), options)
    {
      var cs: seq<Node?> := [];
      if options.children.Some? {
        cs := options.children.value;
      } else if options.childrenRefIds.Some? {
        cs := LookupAll(options.childrenRefIds.value);
      }
      var p := options.parent;
      if p == null && options.parentRefId.Some? && options.parentRefId.value != 0 {
        p := GetElementByReferenceId(options.parentRefId.value);
      }
      var o := Options(Truthy(options.tagName), Truthy(options.nodeType), options.attributes,
                       options.content, p, Some(cs));
      e := new Node.Html(|children|, o);
      RegisterKeepsDense(children, e);
      children := children + [e];
    }
  }

  // ---------------------------------------------------------------------------------------------
  // The registry

  /** Every entry is a `ParsedHTMLElement` whose reference id is its index. */
  ghost predicate Dense(reg: seq<Node?>)
    reads reg
  {
    forall i :: 0 <= i < |reg| ==> reg[i] != null && reg[i].kind == HtmlKind && reg[i].referenceId == Some(i)
  }

  /** `getElementByReferenceId(id)`: the entry at `id`; `undefined` past the end and `null` below zero are both `null`. */
  function Lookup(reg: seq<Node?>, id: int): (r: Node?)
    ensures r != null ==> r in reg
  {
    if 0 <= id < |reg| then reg[id] else null
  }

  /** The lookups of `ids`, in order. */
  function Lookups(reg: seq<Node?>, ids: seq<int>): (r: seq<Node?>)
    ensures |r| == |ids|
  {
    if ids == [] then [] else Lookups(reg, ids[..|ids| - 1]) + [Lookup(reg, ids[|ids| - 1])]
  }

  /** The children `createElement` gives the new element. */
  function ResolvedChildren(reg: seq<Node?>, options: CreateOptions): seq<Node?> {
    if options.children.Some? then options.children.value
    else if options.childrenRefIds.Some? then Lookups(reg, options.childrenRefIds.value)
    else []
  }

  /** The parent `createElement` gives the new element: a `parentRefId` of `0` is falsy and ignored. */
  function ResolvedParent(reg: seq<Node?>, options: CreateOptions): Node? {
    if options.parent != null then options.parent
    else if options.parentRefId.Some? && options.parentRefId.value != 0 then Lookup(reg, options.parentRefId.value)
    else null
  }

  /** The reference ids of registered elements. */
  function RefIds(es: seq<Node>): seq<int>
    requires forall k :: 0 <= k < |es| ==> es[k].referenceId.Some?
  {
    if es == [] then [] else RefIds(es[..|es| - 1]) + [es[|es| - 1].referenceId.value]
  }

  /** A registered element is found under its reference id. */
  lemma LookupRegistered(reg: seq<Node?>, e: Node)
    requires Dense(reg) && e in reg
    ensures e.referenceId.Some? && Lookup(reg, e.referenceId.value) == e
  {
    var i :| 0 <= i < |reg| && reg[i] == e;
  }

  /** Resolving the reference ids of registered elements gives those elements back, in order. */
  lemma {:induction false} LookupsRoundTrip(reg: seq<Node?>, es: seq<Node>)
    requires Dense(reg) && forall k :: 0 <= k < |es| ==> es[k] in reg
    ensures forall k :: 0 <= k < |es| ==> es[k].referenceId.Some?
    ensures Lookups(reg, RefIds(es)) == es
  {
    forall k | 0 <= k < |es|
      ensures es[k].referenceId.Some?
    {
      LookupRegistered(reg, es[k]);
    }
    if es != [] {
      var init := es[..|es| - 1];
      LookupsRoundTrip(reg, init);
      LookupRegistered(reg, es[|es| - 1]);
      assert RefIds(es)[..|es| - 1] == RefIds(init);
      assert es == init + [es[|es| - 1]];
    }
  }

  /** The registry grows by one element per `createElement`, under the next id: it stays dense. */
  lemma RegisterKeepsDense(reg: seq<Node?>, e: Node)
    requires Dense(reg) && e.kind == HtmlKind && e.referenceId == Some(|reg|)
    ensures Dense(reg + [e])
    ensures Lookup(reg + [e], |reg|) == e
    ensures forall id :: 0 <= id < |reg| ==> Lookup(reg + [e], id) == Lookup(reg, id)
  {
  }

  // ---------------------------------------------------------------------------------------------
  // Queries

  /** A JavaScript truthiness test on an attribute value. */
  predicate TruthyValue(v: Value) {
    match v
    case Str(s) => s != ""
    case Null => false
    case True => true
  }

  /** `e.attributes.id && e.attributes.id === id`. */
  predicate IdMatches(e: Node, id: Option<Value>)
    reads e
  {
    var v := Get(e.attributes, "id");
    v.Some? && TruthyValue(v.value) && v == id
  }

  /** What `getElementById(id)` returns (or throws) on the children `cs`. */
  function ById(cs: seq<Node?>, id: Option<Value>): Result<Node?, TypeError>
    reads cs
  {
    if cs == [] then Success(null)
    else if cs[0] == null then Failure(ReadOfUndefined)
    else if IdMatches(cs[0], id) then Success(cs[0])
    else ById(cs[1..], id)
  }

  /** The children before position `i` are all elements whose `id` does not match. */
  ghost predicate PassedOver(cs: seq<Node?>, id: Option<Value>, i: int)
    reads cs
    requires i <= |cs|
  {
    forall j :: 0 <= j < i ==> cs[j] != null && !IdMatches(cs[j], id)
  }

  /**
   * Once every child before `i` is an element whose `id` does not match, the child at `i` decides:
   * the lookup returns it when it matches, throws when it is `undefined`, and returns `undefined`
   * when there is no child left.
   */
  lemma {:induction false} ByIdAt(cs: seq<Node?>, id: Option<Value>, i: nat)
    requires i <= |cs| && PassedOver(cs, id, i)
    ensures i == |cs| ==> ById(cs, id) == Success(null)
    ensures i < |cs| && cs[i] == null ==> ById(cs, id) == Failure(ReadOfUndefined)
    ensures i < |cs| && cs[i] != null && IdMatches(cs[i], id) ==> ById(cs, id) == Success(cs[i])
  {
    if i > 0 {
      var t := cs[1..];
      assert forall j :: 0 <= j < i - 1 ==> t[j] == cs[j + 1];
      ByIdAt(t, id, i - 1);
      assert i < |cs| ==> t[i - 1] == cs[i];
    }
  }

  /** The loop of `getElementById` over a list of children. */
  method FindById(cs: seq<Node?>, id: Option<Value>) returns (r: Result<Node?, TypeError>)
    ensures r == ById(cs, id)
  {
    for i := 0 to |cs|
      invariant ById(cs, id) == ById(cs[i..], id)
    {
      assert cs[i..][0] == cs[i] && cs[i..][1..] == cs[i + 1..];
      var e := cs[i];
      if e == null {
        return Failure(ReadOfUndefined);
      }
      if IdMatches(e, id) {
        return Success(e);
      }
    }
    r := Success(null);
  }

  /** What `getElementsByClassName(className)` returns (or throws) on the children `cs`. */
  function ByClass(cs: seq<Node?>, className: string): Result<seq<Node>, TypeError>
    reads cs
  {
    if cs == [] then Success([])
    else if cs[0] == null then Failure(ReadOfUndefined)
    else
      var e: Node := cs[0];
      match ClassTokens(Get(e.attributes, "class"))
      case Failure(_) => Failure(ClassNotAString)
      case Success(tokens) => Prepend(Hits(e, tokens, className), ByClass(cs[1..], className))
  }

  /** The class query throws exactly when some child is `undefined` or has a `class` of `true`. */
  lemma {:induction false} ByClassFails(cs: seq<Node?>, className: string)
    ensures ByClass(cs, className).Failure? <==>
      exists i :: 0 <= i < |cs| && (cs[i] == null || Get(cs[i].attributes, "class") == Some(True))
  {
    if cs != [] {
      ByClassFails(cs[1..], className);
      var t := cs[1..];
      if exists i :: 0 <= i < |t| && (t[i] == null || Get(t[i].attributes, "class") == Some(True)) {
        var i :| 0 <= i < |t| && (t[i] == null || Get(t[i].attributes, "class") == Some(True));
        assert t[i] == cs[i + 1];
      }
      if exists i :: 0 <= i < |cs| && (cs[i] == null || Get(cs[i].attributes, "class") == Some(True)) {
        var i :| 0 <= i < |cs| && (cs[i] == null || Get(cs[i].attributes, "class") == Some(True));
        if i > 0 {
          assert t[i - 1] == cs[i];
        }
      }
    }
  }

  /** The child is an element carrying `className` as one of its class tokens. */
  predicate HasClass(e: Node?, className: string)
    reads e
  {
    e != null &&
    var tokens := ClassTokens(Get(e.attributes, "class"));
    tokens.Success? && className in tokens.value
  }

  /** When the query does not throw, an element is listed exactly when it is a child carrying the class. */
  lemma {:induction false} ByClassMembers(cs: seq<Node?>, className: string)
    requires ByClass(cs, className).Success?
    ensures forall e: Node :: e in ByClass(cs, className).value <==> e in cs && HasClass(e, className)
  {
    if cs != [] {
      var e: Node := cs[0];
      var tokens := ClassTokens(Get(e.attributes, "class")).value;
      var hits := Hits(e, tokens, className);
      var rest := ByClass(cs[1..], className).value;
      ByClassMembers(cs[1..], className);
      assert ByClass(cs, className).value == hits + rest;
      assert cs == [e] + cs[1..];
      if className in tokens {
        assert hits[0] in hits;
      }
    }
  }

  /** The query on a suffix fails at once when its first child is `undefined` or has a `class` of `true`. */
  lemma ByClassAt(cs: seq<Node?>, i: nat, className: string)
    requires i < |cs|
    requires cs[i] == null || Get(cs[i].attributes, "class") == Some(True)
    ensures ByClass(cs[i..], className).Failure?
    ensures cs[i] == null ==> ByClass(cs[i..], className) == Failure(ReadOfUndefined)
    ensures cs[i] != null ==> ByClass(cs[i..], className) == Failure(ClassNotAString)
  {
    assert cs[i..][0] == cs[i];
  }

  /** One step of the query on a suffix: the first child's hits, then the rest. */
  lemma ByClassStep(cs: seq<Node?>, i: nat, e: Node, className: string, classes: seq<string>)
    requires i < |cs| && cs[i] == e
    requires ClassTokens(Get(e.attributes, "class")) == Success(classes)
    ensures ByClass(cs[i..], className) == Prepend(Hits(e, classes, className), ByClass(cs[i + 1..], className))
  {
    assert cs[i..][0] == e && cs[i..][1..] == cs[i + 1..];
  }

  /** The loop of `getElementsByClassName` over a list of children. */
  method FilterByClass(cs: seq<Node?>, className: string) returns (r: Result<seq<Node>, TypeError>)
    ensures r == ByClass(cs, className)
  {
    var list: seq<Node> := [];
    PrependEmpty(ByClass(cs, className));
    for i := 0 to |cs|
      invariant ByClass(cs, className) == Prepend(list, ByClass(cs[i..], className))
    {
      if cs[i] == null {
        ByClassAt(cs, i, className);
        return Failure(ReadOfUndefined);
      }
      var e: Node := cs[i];
      var v := Get(e.attributes, "class");
      if v == Some(True) {
        ByClassAt(cs, i, className);
        return Failure(ClassNotAString);
      }
      var classes := if v.Some? && v.value.Str? && v.value.s != [] then JsString.Split(v.value.s, ' ') else [];
      assert ClassTokens(v) == Success(classes);
      ByClassStep(cs, i, e, className, classes);
      PrependAppend(list, Hits(e, classes, className), ByClass(cs[i + 1..], className));
      list := PushHits(list, e, classes, className);
    }
    assert cs[|cs|..] == [] && list + [] == list;
    r := Success(list);
  }


  /** What `getElementsByTagName(tag)` returns (or throws) on the children `cs`. */
  function ByTag(cs: seq<Node?>, tag: Option<string>): (r: Result<seq<Node>, TypeError>)
    reads cs
    ensures r.Failure? <==> null in cs
    ensures r.Success? ==> |r.value| <= |cs|
  {
    if cs == [] then Success([])
    else if cs[0] == null then Failure(ReadOfUndefined)
    else
      var e: Node := cs[0];
      var rest := ByTag(cs[1..], tag);
      assert cs == [e] + cs[1..];
      Prepend(if e.tagName == tag then [e] else [], rest)
  }

  /** When no child is `undefined`, the matches are exactly the children with that tag name. */
  lemma {:induction false} ByTagMembers(cs: seq<Node?>, tag: Option<string>)
    requires null !in cs
    ensures forall e: Node :: e in ByTag(cs, tag).value <==> e in cs && e.tagName == tag
  {
    if cs != [] {
      ByTagMembers(cs[1..], tag);
      assert cs == [cs[0]] + cs[1..];
    }
  }

  /** The matches keep the children's order: the query distributes over concatenation. */
  lemma {:induction false} ByTagAppend(a: seq<Node?>, b: seq<Node?>, tag: Option<string>)
    ensures ByTag(a + b, tag) == Prepend(if ByTag(a, tag).Success? then ByTag(a, tag).value else [],
                                         if ByTag(a, tag).Success? then ByTag(b, tag) else ByTag(a, tag))
  {
    if a == [] {
      assert a + b == b;
      PrependEmpty(ByTag(b, tag));
    } else {
      assert (a + b)[0] == a[0] && (a + b)[1..] == a[1..] + b;
      ByTagAppend(a[1..], b, tag);
      if a[0] != null {
        PrependAppend(if a[0].tagName == tag then [a[0]] else [], if ByTag(a[1..], tag).Success? then ByTag(a[1..], tag).value else [], ByTag(b, tag));
      }
    }
  }

  /** The loop of `getElementsByTagName` over a list of children. */
  method FilterByTag(cs: seq<Node?>, tag: Option<string>) returns (r: Result<seq<Node>, TypeError>)
    ensures r == ByTag(cs, tag)
  {
    var list: seq<Node> := [];
    PrependEmpty(ByTag(cs, tag));
    for i := 0 to |cs|
      invariant ByTag(cs, tag) == Prepend(list, ByTag(cs[i..], tag))
    {
      assert cs[i..][0] == cs[i] && cs[i..][1..] == cs[i + 1..];
      var e := cs[i];
      if e == null {
        return Failure(ReadOfUndefined);
      }
      var hit := if tag == e.tagName then [e] else [];
      PrependAppend(list, hit, ByTag(cs[i + 1..], tag));
      list := list + hit;
    }
    assert cs[|cs|..] == [] && list + [] == list;
    r := Success(list);
  }
}
