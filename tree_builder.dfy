/**
 * The tree builders `parse` of src/Parser.js and `ParsedHTMLDocument.parse` of
 * src/ParsedHTMLDocument.js. Both walk the input with a cursor, emit the untagged text before
 * each tag as a text element, open elements on an explicit stack and fail on a stray or
 * mismatched closing tag. The document they build is a value here: the fragment plus the flat
 * registry of every created element, whose index is the element's reference id; a child list
 * holds registry indices.
 */
module TreeBuilder {
  import opened Wrappers
  import opened Attributes
  import opened Scanner
  import opened Tags
  import opened Dom

  /** An element of the document being built: the fragment, or the registry entry at `index`. */
  datatype Ref = FragmentRef | Created(index: nat)

  /** One element: its class, the stored `tagName`, `mode`, `attributes`, text payload, parent and children. */
  datatype Node = Node(kind: Kind, tagName: Option<string>, mode: Option<string>, attributes: Attrs,
                       text: string, parent: Option<Ref>, children: seq<nat>)

  datatype Doc = Doc(fragment: Node, registry: seq<Node>)

  /** A tag analyser: the tag information of a `<…>` span, or `None` when the analyser never returns. */
  type Analysis = string -> Option<TagInfo>

  /** `parseTag` with the configured void list, as src/Parser.js calls it. */
  function TagParser(configVoidTags: seq<string>): Analysis {
    span => ParseTagSpec(span, configVoidTags)
  }

  /** The calling document's `parseTagAttributes` with that document's void list (src/ParsedHTMLDocument.js). */
  function AttributeParser(documentVoidTags: seq<string>): Analysis {
    span => ParseTagAttributesSpec(span, documentVoidTags)
  }

  /** The two errors `parse` throws. */
  datatype ParseError = NoOpenTag(closing: string) | Mismatch(expected: Option<string>, received: string)

  /** The loop's variables besides the cursor: the document, `currentElement` and `stack`. */
  datatype State = State(doc: Doc, current: Option<Ref>, stack: seq<Ref>)

  /** Where the loop ends: still running (or done), thrown, or spinning in the attribute loop. */
  datatype Outcome = Running(state: State) | Failed(error: ParseError) | Hangs

  /** The fragment of a fresh registry document: a closed element named `fragment` without a mode. */
  const FragmentNode: Node := Node(ClosedKind, Some("fragment"), None, [], [], None, [])

  const Start: State := State(Doc(FragmentNode, []), Some(FragmentRef), [])

  /** `createTextElement`'s payload for an options object of string entries: `options.textContent || ''`. */
  function TextPayload(options: seq<(string, string)>): string {
    if options == [] then []
    else if options[0].0 == "textContent" then options[0].1
    else TextPayload(options[1..])
  }

  /** The options src/Parser.js passes for a text run: the text under the key `content`. */
  function ParserJsTextOptions(text: string): seq<(string, string)> {
    [("content", text)]
  }

  /** The options the text run is meant to travel in, as src/ParsedHTMLDocument.js passes them. */
  function TextOptions(text: string): seq<(string, string)> {
    [("textContent", text)]
  }

  /** The text run is lost on the way from src/Parser.js to `createTextElement`. */
  lemma ParserJsLosesText(text: string)
    ensures TextPayload(ParserJsTextOptions(text)) == []
  {
  }

  /** Passed under `textContent`, the text run arrives verbatim. */
  lemma TextOptionsKeepText(text: string)
    ensures TextPayload(TextOptions(text)) == text
  {
  }

  /**
   * The element `createElement` builds from `tagName`, `mode`, `attributes` and a text payload,
   * with the fresh document's void list: its class, the truthy tag name, `mode || 'closed'`.
   */
  function CreatedNode(tagName: Option<string>, mode: string, attributes: Attrs, text: string, parent: Option<Ref>): Node {
    Node(ElementClass(tagName, Some(mode), DocumentVoidTags), StoredTagName(tagName), Some(StoredMode(Some(mode))),
         attributes, text, parent, [])
  }

  /** The element `createTextElement` builds for a text run. */
  function TextNode(text: string, parent: Option<Ref>): Node {
    CreatedNode(None, "text", [], TextPayload(TextOptions(text)), parent)
  }

  /** The element built for an open or void tag. */
  function ElementNode(info: TagInfo, parent: Option<Ref>): Node {
    CreatedNode(Some(info.tagName), if info.mode == VoidTag then "void" else "closed", info.attributes, [], parent)
  }

  /** `parent.appendChild(child)` when there is a parent; nothing otherwise. */
  function AppendChild(doc: Doc, parent: Option<Ref>, child: nat): Doc {
    match parent
    case None => doc
    case Some(FragmentRef) => doc.(fragment := doc.fragment.(children := doc.fragment.children + [child]))
    case Some(Created(p)) =>
      if p < |doc.registry| then
        doc.(registry := doc.registry[p := doc.registry[p].(children := doc.registry[p].children + [child])])
      else doc
  }

  /** `createElement` pushes `node` onto the registry; the loop then appends it to its parent. */
  function Create(doc: Doc, node: Node): Doc {
    AppendChild(doc.(registry := doc.registry + [node]), node.parent, |doc.registry|)
  }

  function TagNameAt(doc: Doc, r: Ref): Option<string> {
    match r
    case FragmentRef => doc.fragment.tagName
    case Created(i) => if i < |doc.registry| then doc.registry[i].tagName else None
  }

  /** `stack.pop() || null` as the new current element, and the stack without its top. */
  function Pop(stack: seq<Ref>): (Option<Ref>, seq<Ref>) {
    if stack == [] then (None, []) else (Some(stack[|stack| - 1]), stack[..|stack| - 1])
  }

  /** A closing tag: throw without a current element or on a name mismatch, pop otherwise. */
  function Close(st: State, tagName: string): Outcome {
    if st.current.None? then Failed(NoOpenTag(tagName))
    else if Some(tagName) != TagNameAt(st.doc, st.current.value) then
      Failed(Mismatch(TagNameAt(st.doc, st.current.value), tagName))
    else
      var (cur, rest) := Pop(st.stack);
      Running(State(st.doc, cur, rest))
  }

  /** An open or void tag: create and append the element; an open one becomes current. */
  function OpenTag(st: State, info: TagInfo): State {
    var doc := Create(st.doc, ElementNode(info, st.current));
    if info.mode == Open then
      State(doc, Some(Created(|st.doc.registry|)), if st.current.Some? then st.stack + [st.current.value] else st.stack)
    else st.(doc := doc)
  }

  /** One token of the input. */
  function Step(analyse: Analysis, st: State, tok: Token): Outcome {
    match tok
    case Text(t) => Running(st.(doc := Create(st.doc, TextNode(t, st.current))))
    case Tag(span) =>
      match analyse(span)
      case None => Hangs
      case Some(info) => if info.mode == Closing then Close(st, info.tagName) else Running(OpenTag(st, info))
  }

  function Run(analyse: Analysis, st: State, toks: seq<Token>): Outcome
    decreases |toks|
  {
    if toks == [] then Running(st)
    else
      var o := Step(analyse, st, toks[0]);
      if o.Running? then Run(analyse, o.state, toks[1..]) else o
  }

  /** What `parse(content)` does: the document, the error it throws, or `Hangs` when it never returns. */
  function ParseSpec(analyse: Analysis, content: string): Outcome {
    Run(analyse, Start, Tokens(content, 0))
  }

  lemma RunCons(analyse: Analysis, st: State, t: Token, rest: seq<Token>)
    ensures Run(analyse, st, [t] + rest) ==
      if Step(analyse, st, t).Running? then Run(analyse, Step(analyse, st, t).state, rest) else Step(analyse, st, t)
  {
    assert ([t] + rest)[0] == t;
    assert ([t] + rest)[1..] == rest;
  }

  /** `createTextElement` for a text run, appended to the current element. */
  function AddText(st: State, text: string): State {
    st.(doc := Create(st.doc, TextNode(text, st.current)))
  }

  /**
   * The same run described by the loop's cursor: the text before the next tag, then the tag, then
   * the rest from the end of the tag; the text up to the end when no complete tag remains.
   */
  function ParseFrom(analyse: Analysis, st: State, content: string, i: nat): Outcome
    decreases |content| - i
  {
    if i >= |content| then Running(st)
    else
      var pos := FindTagPosition(content, i);
      if pos.None? then Running(AddText(st, content[i..]))
      else
        var (s, e) := pos.value;
        var o := Step(analyse, if i != s then AddText(st, content[i..s]) else st, Tag(content[s..e]));
        if o.Running? then ParseFrom(analyse, o.state, content, e) else o
  }

  /** At a complete tag, the text before it (if any) is the first step of the token run. */
  lemma RunBeforeTag(analyse: Analysis, st: State, content: string, i: nat, s: nat, e: nat)
    requires i < |content| && FindTagPosition(content, i) == Some((s, e))
    ensures Run(analyse, st, Tokens(content, i)) ==
      Run(analyse, if i != s then AddText(st, content[i..s]) else st, [Tag(content[s..e])] + Tokens(content, e))
  {
    TokensStep(content, i);
    var tail := [Tag(content[s..e])] + Tokens(content, e);
    if i != s {
      ConcatAssociative([Text(content[i..s])], [Tag(content[s..e])], Tokens(content, e));
      RunCons(analyse, st, Text(content[i..s]), tail);
    } else {
      assert [] + [Tag(content[s..e])] == [Tag(content[s..e])];
    }
  }

  lemma ConcatAssociative<T>(a: seq<T>, b: seq<T>, c: seq<T>)
    ensures (a + b) + c == a + (b + c)
  {
  }

  /** At a complete tag, the token run takes the text before it (if any), then the tag, then the rest. */
  lemma RunAtTag(analyse: Analysis, st: State, content: string, i: nat, s: nat, e: nat)
    requires i < |content| && FindTagPosition(content, i) == Some((s, e))
    ensures var st1 := if i != s then AddText(st, content[i..s]) else st;
            var o := Step(analyse, st1, Tag(content[s..e]));
            Run(analyse, st, Tokens(content, i)) == if o.Running? then Run(analyse, o.state, Tokens(content, e)) else o
  {
    RunBeforeTag(analyse, st, content, i, s, e);
    RunCons(analyse, if i != s then AddText(st, content[i..s]) else st, Tag(content[s..e]), Tokens(content, e));
  }

  /** The cursor description agrees with the token description. */
  lemma {:induction false} ParseFromTokens(analyse: Analysis, st: State, content: string, i: nat)
    ensures ParseFrom(analyse, st, content, i) == Run(analyse, st, Tokens(content, i))
    decreases |content| - i
  {
    if i < |content| {
      var pos := FindTagPosition(content, i);
      if pos.None? {
        TokensStep(content, i);
        RunCons(analyse, st, Text(content[i..]), []);
      } else {
        var (s, e) := pos.value;
        RunAtTag(analyse, st, content, i, s, e);
        var o := Step(analyse, if i != s then AddText(st, content[i..s]) else st, Tag(content[s..e]));
        if o.Running? {
          ParseFromTokens(analyse, o.state, content, e);
        }
      }
    }
  }

  // ---------------------------------------------------------------------------------------------
  // The shape of the built document

  /**
   * The children of `owner` are registry entries whose `parent` is `owner`, listed in creation
   * order and created after `owner`.
   */
  predicate ChildrenOK(reg: seq<Node>, owner: Ref, cs: seq<nat>) {
    (forall k :: 0 <= k < |cs| ==> cs[k] < |reg| && reg[cs[k]].parent == Some(owner)) &&
    (forall j, k :: 0 <= j < k < |cs| ==> cs[j] < cs[k]) &&
    (owner.Created? ==> forall k :: 0 <= k < |cs| ==> owner.index < cs[k])
  }

  /** Parent and child links agree, and text elements and elements of mode `void` have no children. */
  predicate WellFormed(doc: Doc) {
    ChildrenOK(doc.registry, FragmentRef, doc.fragment.children) &&
    (forall i :: 0 <= i < |doc.registry| ==> ChildrenOK(doc.registry, Created(i), doc.registry[i].children)) &&
    (forall i :: 0 <= i < |doc.registry| && (doc.registry[i].kind == TextKind || doc.registry[i].mode == Some("void")) ==>
       doc.registry[i].children == [])
  }

  /** An element that may hold children: the fragment, or a created element that is neither text nor void. */
  predicate Opened(doc: Doc, r: Ref) {
    r.Created? ==>
      r.index < |doc.registry| && doc.registry[r.index].kind != TextKind && doc.registry[r.index].mode != Some("void")
  }

  predicate StateOK(st: State) {
    WellFormed(st.doc) &&
    (st.current.Some? ==> Opened(st.doc, st.current.value)) &&
    (forall k :: 0 <= k < |st.stack| ==> Opened(st.doc, st.stack[k]))
  }

  /** Creating a node keeps every existing entry but its parent's child list, and adds the node at the end. */
  lemma CreateKeeps(doc: Doc, node: Node)
    requires node.parent.Some? ==> Opened(doc, node.parent.value)
    ensures var reg' := Create(doc, node).registry;
      |reg'| == |doc.registry| + 1 && reg'[|doc.registry|] == node &&
      (forall j :: 0 <= j < |doc.registry| ==> reg'[j] == doc.registry[j].(children := reg'[j].children)) &&
      (forall j :: 0 <= j < |doc.registry| && Some(Created(j)) != node.parent ==> reg'[j].children == doc.registry[j].children)
    ensures node.parent.Some? && node.parent.value.Created? ==>
      Create(doc, node).registry[node.parent.value.index].children ==
      doc.registry[node.parent.value.index].children + [|doc.registry|]
    ensures Create(doc, node).fragment.children ==
      doc.fragment.children + (if node.parent == Some(FragmentRef) then [|doc.registry|] else [])
  {
  }

  /** Creating a childless node under an element that may hold children keeps the document well formed. */
  lemma CreateWellFormed(doc: Doc, node: Node)
    requires WellFormed(doc) && node.children == []
    requires node.parent.Some? ==> Opened(doc, node.parent.value)
    ensures WellFormed(Create(doc, node))
    ensures forall r :: Opened(doc, r) ==> Opened(Create(doc, node), r)
  {
    CreateKeeps(doc, node);
    var doc' := Create(doc, node);
    var n := |doc.registry|;
    var reg, reg' := doc.registry, doc'.registry;
    forall owner: Ref, cs: seq<nat> | ChildrenOK(reg, owner, cs)
      ensures ChildrenOK(reg', owner, cs)
    {
      forall k | 0 <= k < |cs| ensures cs[k] < |reg'| && reg'[cs[k]].parent == Some(owner) {
        assert reg'[cs[k]].parent == reg[cs[k]].parent;
      }
    }
    forall owner: Ref, cs: seq<nat> | ChildrenOK(reg, owner, cs) && node.parent == Some(owner)
      ensures ChildrenOK(reg', owner, cs + [n])
    {
      assert forall k :: 0 <= k < |cs| ==> (cs + [n])[k] == cs[k];
    }
    forall i | 0 <= i < |reg'|
      ensures ChildrenOK(reg', Created(i), reg'[i].children)
      ensures (reg'[i].kind == TextKind || reg'[i].mode == Some("void")) ==> reg'[i].children == []
    {
      if i < n {
        assert ChildrenOK(reg, Created(i), reg[i].children);
      }
    }
    assert ChildrenOK(reg, FragmentRef, doc.fragment.children);
  }

  /** Every step keeps the document well formed, and only elements that may hold children become current. */
  lemma StepOK(analyse: Analysis, st: State, tok: Token)
    requires StateOK(st)
    ensures Step(analyse, st, tok).Running? ==> StateOK(Step(analyse, st, tok).state)
  {
    match tok
    case Text(t) =>
      CreateWellFormed(st.doc, TextNode(t, st.current));
    case Tag(span) =>
      match analyse(span)
      case None =>
      case Some(info) =>
        if info.mode == Closing {
          CloseOK(st, info.tagName);
        } else {
          OpenTagOK(st, info);
        }
  }

  lemma CloseOK(st: State, tagName: string)
    requires StateOK(st)
    ensures Close(st, tagName).Running? ==> StateOK(Close(st, tagName).state)
  {
  }

  lemma OpenTagOK(st: State, info: TagInfo)
    requires StateOK(st) && info.mode != Closing
    ensures StateOK(OpenTag(st, info))
  {
    CreateWellFormed(st.doc, ElementNode(info, st.current));
    CreateKeeps(st.doc, ElementNode(info, st.current));
  }

  lemma {:induction false} RunOK(analyse: Analysis, st: State, toks: seq<Token>)
    requires StateOK(st)
    ensures Run(analyse, st, toks).Running? ==> StateOK(Run(analyse, st, toks).state)
    decreases |toks|
  {
    if toks != [] {
      StepOK(analyse, st, toks[0]);
      var o := Step(analyse, st, toks[0]);
      if o.Running? {
        RunOK(analyse, o.state, toks[1..]);
      }
    }
  }

  /**
   * A parsed document is well formed: child lists and parent links agree, children come in source
   * order, and no text element or void-mode element has children.
   */
  lemma ParseWellFormed(analyse: Analysis, content: string)
    ensures ParseSpec(analyse, content).Running? ==> WellFormed(ParseSpec(analyse, content).state.doc)
  {
    RunOK(analyse, Start, Tokens(content, 0));
  }

  /** The payloads of the text elements of a registry, in creation order. */
  function TextsOf(reg: seq<Node>): seq<string> {
    if reg == [] then []
    else TextsOf(reg[..|reg| - 1]) + (if reg[|reg| - 1].kind == TextKind then [reg[|reg| - 1].text] else [])
  }

  /** The text runs of a token stream, in order. */
  function TokenTexts(toks: seq<Token>): seq<string> {
    if toks == [] then [] else (if toks[0].Text? then [toks[0].text] else []) + TokenTexts(toks[1..])
  }

  /** Registries that agree on every entry's class and payload have the same texts. */
  lemma {:induction false} TextsOfPointwise(a: seq<Node>, b: seq<Node>)
    requires |a| == |b|
    requires forall k :: 0 <= k < |a| ==> a[k].kind == b[k].kind && a[k].text == b[k].text
    ensures TextsOf(a) == TextsOf(b)
    decreases |a|
  {
    if a != [] {
      TextsOfPointwise(a[..|a| - 1], b[..|b| - 1]);
    }
  }

  /** Creating an element adds its payload to the texts exactly when it is a text element. */
  lemma CreateTexts(doc: Doc, node: Node)
    ensures TextsOf(Create(doc, node).registry) ==
            TextsOf(doc.registry) + (if node.kind == TextKind then [node.text] else [])
  {
    var reg := doc.registry + [node];
    assert reg[..|reg| - 1] == doc.registry;
    TextsOfPointwise(Create(doc, node).registry, reg);
  }

  /** A step adds the text of a text token and nothing for a tag. */
  lemma StepTexts(analyse: Analysis, st: State, tok: Token)
    ensures Step(analyse, st, tok).Running? ==>
      TextsOf(Step(analyse, st, tok).state.doc.registry) ==
      TextsOf(st.doc.registry) + (if tok.Text? then [tok.text] else [])
  {
    match tok
    case Text(t) =>
      CreateTexts(st.doc, TextNode(t, st.current));
    case Tag(span) =>
      if analyse(span).Some? && analyse(span).value.mode != Closing {
        CreateTexts(st.doc, ElementNode(analyse(span).value, st.current));
      }
  }

  lemma {:induction false} RunTexts(analyse: Analysis, st: State, toks: seq<Token>)
    ensures Run(analyse, st, toks).Running? ==>
      TextsOf(Run(analyse, st, toks).state.doc.registry) == TextsOf(st.doc.registry) + TokenTexts(toks)
    decreases |toks|
  {
    if toks != [] {
      StepTexts(analyse, st, toks[0]);
      var o := Step(analyse, st, toks[0]);
      if o.Running? {
        RunTexts(analyse, o.state, toks[1..]);
        var h := if toks[0].Text? then [toks[0].text] else [];
        assert TokenTexts(toks) == h + TokenTexts(toks[1..]);
        assert Run(analyse, st, toks) == Run(analyse, o.state, toks[1..]);
        ConcatAssociative(TextsOf(st.doc.registry), h, TokenTexts(toks[1..]));
      }
    }
  }

  /**
   * A successful parse keeps every run of text between tags verbatim, in source order, as the
   * payloads of its text elements; tags never produce text elements.
   */
  lemma ParseTexts(analyse: Analysis, content: string)
    ensures ParseSpec(analyse, content).Running? ==>
      TextsOf(ParseSpec(analyse, content).state.doc.registry) == TokenTexts(Tokens(content, 0))
  {
    RunTexts(analyse, Start, Tokens(content, 0));
  }

  /**
   * The loop's handling of a closing tag: the two errors, otherwise `stack.pop() || null` becomes
   * the current element.
   */
  method CloseElement(doc: Doc, current: Option<Ref>, stack: seq<Ref>, tagName: string)
    returns (failure: Option<ParseError>, current': Option<Ref>, stack': seq<Ref>)
    ensures failure.Some? ==> Close(State(doc, current, stack), tagName) == Failed(failure.value)
    ensures failure.None? ==> Close(State(doc, current, stack), tagName) == Running(State(doc, current', stack'))
  {
    current', stack' := current, stack;
    if current.None? {
      return Some(NoOpenTag(tagName)), current', stack';
    }
    if Some(tagName) != TagNameAt(doc, current.value) {
      return Some(Mismatch(TagNameAt(doc, current.value), tagName)), current', stack';
    }
    failure := None;
    if stack == [] {
      current' := None;
    } else {
      current' := Some(stack[|stack| - 1]);
      stack' := stack[..|stack| - 1];
    }
  }

  /**
   * The loop's handling of an open or void tag: `createElement`, `appendChild` to the current
   * element, and for an open tag the push of the current element and the switch to the new one.
   */
  method OpenElement(doc: Doc, current: Option<Ref>, stack: seq<Ref>, info: TagInfo)
    returns (doc': Doc, current': Option<Ref>, stack': seq<Ref>)
    ensures OpenTag(State(doc, current, stack), info) == State(doc', current', stack')
  {
    var created := |doc.registry|;
    doc' := Create(doc, ElementNode(info, current));
    current', stack' := current, stack;
    if info.mode == Open {
      if current.Some? {
        stack' := stack + [current.value];
      }
      current' := Some(Created(created));
    }
  }

  /**
   * One pass of the loop at a complete tag `content[s..e]` found from the cursor `i`: the text
   * before the tag, if any, becomes a text element of the current element, then the tag is
   * analysed and closed or opened. On success the loop goes on from the end of the tag.
   */
  method TagStep(analyse: Analysis, doc: Doc, current: Option<Ref>, stack: seq<Ref>, content: string, i: nat, s: nat, e: nat)
    returns (failure: Option<ParseError>, doc': Doc, current': Option<Ref>, stack': seq<Ref>)
    requires i < |content| && FindTagPosition(content, i) == Some((s, e))
    requires !ParseFrom(analyse, State(doc, current, stack), content, i).Hangs?
    ensures failure.Some? ==> ParseFrom(analyse, State(doc, current, stack), content, i) == Failed(failure.value)
    ensures failure.None? ==>
      ParseFrom(analyse, State(doc, current, stack), content, i) == ParseFrom(analyse, State(doc', current', stack'), content, e)
  {
    doc', current', stack' := doc, current, stack;
    if i != s {
      doc' := Create(doc, TextNode(content[i..s], current));
    }
    var info := analyse(content[s..e]).value;
    if info.mode == Closing {
      failure, current', stack' := CloseElement(doc', current, stack, info.tagName);
    } else {
      failure := None;
      doc', current', stack' := OpenElement(doc', current, stack, info);
    }
  }

  /** The loop's last pass when no complete tag remains: the rest of the input becomes a text element. */
  method RestText(analyse: Analysis, doc: Doc, current: Option<Ref>, stack: seq<Ref>, content: string, i: nat)
    returns (doc': Doc)
    requires i < |content| && FindTagPosition(content, i).None?
    ensures ParseFrom(analyse, State(doc, current, stack), content, i) == Running(State(doc', current, stack))
    ensures ParseFrom(analyse, State(doc', current, stack), content, |content| + 1) == Running(State(doc', current, stack))
  {
    doc' := Create(doc, TextNode(content[i..], current));
  }

  /**
   * The parse loop. The cursor jumps to the start of the next tag, then past its end, or to the end
   * of the input when no complete tag remains; the result is what `ParseSpec` describes.
   */
  method Parse(analyse: Analysis, content: string) returns (r: Result<Doc, ParseError>)
    requires !ParseSpec(analyse, content).Hangs?
    ensures ParseSpec(analyse, content).Running? ==> r == Success(ParseSpec(analyse, content).state.doc)
    ensures ParseSpec(analyse, content).Failed? ==> r == Failure(ParseSpec(analyse, content).error)
    ensures r.Success? ==> WellFormed(r.value)
  {
    var doc, current, stack := Start.doc, Start.current, Start.stack;
    ghost var target := ParseSpec(analyse, content);
    ParseFromTokens(analyse, Start, content, 0);
    var i: int := 0;
    while i < |content|
      invariant 0 <= i <= |content| + 1
      invariant ParseFrom(analyse, State(doc, current, stack), content, i) == target
      decreases |content| - i
    {
      ghost var next: nat;
      var pos := FindTagPosition(content, i);
      if pos.Some? {
        var (s, e) := pos.value;
        var failure;
        failure, doc, current, stack := TagStep(analyse, doc, current, stack, content, i, s, e);
        if failure.Some? {
          return Failure(failure.value);
        }
        next := e;
        i := e - 1;
      } else {
        doc := RestText(analyse, doc, current, stack, content, i);
        next := |content| + 1;
        i := |content|;
      }
      i := i + 1;
      assert i == next;
    }
    r := Success(doc);
    ParseWellFormed(analyse, content);
  }
}
