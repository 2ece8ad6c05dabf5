# html-parser in Dafny

A Dafny model of the core of `html-parser`, a small JavaScript library that turns an HTML string
into a tree of element objects, lets a caller query and edit that tree, and serialises it back to
markup. The repository holds three generations of the same idea, and the model follows each:

- **The newest parser** (`src/Parser.js`, `src/ParsedNode.js`, `src/Config.js`). It has a
  tag scanner (`findTagPosition`), a tag analyser (`parseTag` with `mapAttributes`), the
  `parse` loop with its explicit element stack, the generic `ParsedNode` tree with in-place
  child-list edits, and the module-level configuration object.
- **The element generation** (`src/ParsedHTMLDocument.js` and `src/element/*`). It has a
  registry document that creates closed, void and text elements, the older tag analyser
  `parseTagAttributes`, the mode-dependent serialisers with the closed element's
  de-duplicating child cache, the `update` caches, the `textContent`/`innerHTML`/`outerHTML`
  getters and setters, upward re-rendering after an attribute change, and a fragment-only
  document with a counter of ids.
- **The oldest DOM classes** (`src/document/*`). These are plain-field elements, a registry
  document whose reference ids are registry indices, and queries that throw when they reach an
  unresolved child.

Module layout:

| file | module | models |
|---|---|---|
| `wrappers.dfy` | `Wrappers` | `Option`, `Result`, `Outcome` |
| `js_string.dfy` | `JsString` | `indexOf`, `substring`, `trim`, `toLowerCase`, `split`, `replace` with the whitespace and bracket patterns |
| `attributes.dfy` | `Attributes` | an attribute object: keys in insertion order, lookup, assignment, the `class` tokens the queries split out |
| `config.dfy` | `Config` | `src/Config.js` |
| `scanner.dfy` | `Scanner` | `findTagPosition` and the token stream a parse loop walks |
| `tags.dfy` | `Tags` | `parseTag`, `mapAttributes`, `parseTagAttributes` |
| `tree_builder.dfy` | `TreeBuilder` | both `parse` loops, over a value document |
| `child_lists.dfy` | `ChildLists` | the removal and replacement rules on child lists |
| `parsed_node.dfy` | `Nodes` | `src/ParsedNode.js` |
| `dom.dfy` | `Dom` | reference ids, element classes, subtree snapshots |
| `serializer.dfy` | `Serializer` | every `stringify` of the element generation, over snapshots |
| `content_text.dfy` | `ContentText` | the generic `textContent` getter |
| `elements.dfy` | `Elements` | `src/element/*` and the registry document of `src/ParsedHTMLDocument.js` |
| `legacy_dom.dfy` | `LegacyDom` | `src/document/*` |

Code that updates objects in place is modelled with classes:
- nodes, elements and documents have fields, and their methods carry `modifies` clauses;
- each loop, a `for` loop over a counted range or a `while` loop, carries invariants that tie it to a specification function;
- that function's properties are proved as lemmas.

String computations and the parse loops are modelled with functions over values:
- the parse result is a registry of element records indexed by reference id;
- a child list holds registry indices.

Recursion over the object graph (serialisation, `getDescendants`, propagation) is stated for a graph
without cycles. A ghost `rank` strictly decreases from each element to each of its children.

## Model

| member | source | states |
|---|---|---|
| JsString.IndexOf | src/Parser.js:112-113 | the result is -1 exactly when `c` does not occur from `from` on; otherwise it is the first position at or after `from` holding `c` |
| JsString.Substring | src/Parser.js:24 | the slice between the two ends when they are in order, the swapped slice when they are reversed, never longer than the string |
| JsString.Trim | src/Parser.js:133 | the slice of the input left after removing all leading and all trailing whitespace: everything cut off is whitespace and the slice neither starts nor ends with whitespace |
| JsString.TrimUnique | src/Parser.js:133 | any slice with only whitespace outside it and no whitespace at its ends is the trimmed string, so trimming is determined |
| JsString.StripSpaces | src/Parser.js:159 | the result contains no whitespace; a string without whitespace comes back unchanged; the result is empty exactly when the input is all whitespace |
| JsString.StripSpacesAppend | src/Parser.js:159 | removing whitespace acts piece by piece: stripping a concatenation concatenates the stripped pieces, so every other character is kept in order |
| JsString.Collapse | src/Parser.js:133 | whitespace in the result is single spaces, never two in a row; a string without whitespace comes back unchanged; the result is empty only for empty input and starts with whitespace exactly when the input does |
| JsString.CollapseJoin | src/Parser.js:133 | a whitespace run between a word and the rest becomes one space in that place: `a + run + b` collapses to `a + " " + Collapse(b)` |
| JsString.CollapseIdle | src/Parser.js:133 | a string whose whitespace is already single spaces is left unchanged |
| JsString.CollapseIdempotent | src/Parser.js:133 | collapsing twice equals collapsing once |
| JsString.CollapseKeepsText | src/Parser.js:133 | collapsing whitespace keeps every non-whitespace character, in order |
| JsString.StripDropSpaces | src/Parser.js:133 | dropping leading whitespace loses no non-whitespace character |
| JsString.ToLower | src/Parser.js:163 | same length; each ASCII capital is lowered and every other character is kept |
| JsString.RemoveFirst | src/Parser.js:210 | without `c` the string is unchanged; otherwise exactly the first `c` is removed |
| JsString.RemoveBrackets | src/ParsedHTMLDocument.js:284 | no `<` or `>` remains; a string without brackets comes back unchanged; the result is empty exactly when the input is all brackets |
| JsString.RemoveBracketsAppend | src/ParsedHTMLDocument.js:284 | removal acts piece by piece, so every other character is kept in order |
| JsString.Split | src/element/ParsedElement.js:53 | at least one part, and no part contains the separator |
| JsString.JoinSplit | src/element/ParsedElement.js:53 | joining the parts of a split with the separator gives the string back |
| JsString.IndexOfAt | src/Parser.js:112-113 | a position holding the character, with no earlier one from the start point on, is what the search returns |
| Attributes.Keys | src/element/ParsedHTMLElement.js:37 | the keys of the attribute object, in insertion order |
| Attributes.KeyIndex | src/element/ParsedElement.js:76 | -1 exactly when the name is absent; otherwise the first position of the name |
| Attributes.Get | src/element/ParsedElement.js:79-81 | `undefined` exactly when the object lacks the name |
| Attributes.GetFound | src/element/ParsedElement.js:79-81 | a value that is found is bound to the name in the object |
| Attributes.GetDistinct | src/element/ParsedElement.js:79-81 | with distinct keys, the value read is the one stored at the name's position |
| Attributes.Put | src/element/ParsedElement.js:86 | the name is bound to the new value; every other name reads as before; an existing key keeps its place and a new key goes last; keys stay distinct |
| Attributes.ClassTokens | src/element/ParsedElement.js:52-53 | the query fails exactly when `class` is `true`; a non-empty `class` string yields exactly its split on single spaces; a missing, `null` or empty `class` yields no tokens |
| Attributes.Hits | src/element/ParsedElement.js:54-58 | only the element itself is pushed, and it is pushed at least once exactly when the class name is one of the tokens |
| Config.Merged | src/Config.js:31-38 | the old list is a prefix of the result, which grows by at most the number of tags given |
| Config.MergedElements | src/Config.js:31-38 | a tag is in the merged list exactly when it was in the old list or among the given tags |
| Config.MergedNoDuplicates | src/Config.js:31-38 | merging never introduces a duplicate |
| Config.MergedPresent | src/Config.js:31-38 | tags that are all present already change nothing |
| Config.MergedIdempotent | src/Config.js:31-38 | merging the same tags twice equals merging them once |
| Config.ConfigureIdempotent | src/Config.js:29-45 | configuring twice with one argument leaves the state configuring once leaves |
| Config.ParserConfig.Default | src/Config.js:3-22 | trimming is on and there are fifteen distinct void tags, `!doctype` among them |
| Config.ParserConfig.Configure | src/Config.js:29-45 | the same object comes back; its void tags are merged and its trim flag is coerced only when the key is present |
| Scanner.FindTagPosition | src/Parser.js:108-116 | `(s, e)` with `s` the first `<` from `start` and `e - 1` the first `>` after it, `start <= s < e <= length` |
| Scanner.FindTagPositionNone | src/Parser.js:108-116 | null exactly when no `<` is followed by a `>` from `start` on |
| Scanner.DivExample | src/Parser.js:108-116 | on `<div>This is a test</div>` the scans give `(0, 5)` and then `(19, 25)` |
| Scanner.TokensCover | src/Parser.js:17-94 | text runs and tag spans, concatenated, give back the input from the cursor on |
| Scanner.TokensShaped | src/Parser.js:17-94 | every text run is non-empty and every tag span is a `<…>` with no other `>` |
| Scanner.TextTokensHoldNoTag | src/Parser.js:77-91 | text before a tag holds no `<`, and trailing text holds no complete tag |
| Tags.SecondQuote | src/Parser.js:182-183 | -1 or a position after the `=` holding a double quote |
| Tags.QuotedValue | src/Parser.js:186 | the value holds no double quote |
| Tags.ScanGood | src/Parser.js:175-217 | the attribute loop only builds maps whose names hold no space or `=`, whose values hold no quote, and whose bare value is never a string |
| Tags.MapAttributesGood | src/Parser.js:175-217 | `mapAttributes` yields distinct names without spaces or `=`; a value is `null` or a quote-free string; a name bound to `null` is never empty |
| Tags.ParseTagAttributesGood | src/ParsedHTMLDocument.js:306-341 | `parseTagAttributes` yields maps of the same shape, with `true` for bare names |
| Tags.StuckRegardless | src/Parser.js:182-193 | whether the loop meets an `=` without two quotes after it does not depend on the buffer or the map, so the restart from 0 is stuck again |
| Tags.AttributeStep | src/Parser.js:178-205 | one pass of the loop body: either the cursor goes back to the start with the map kept, or it moves forward and the rest of the scan is unchanged |
| Tags.MapAttributes | src/Parser.js:175-217 | the character loop returns exactly the map the specification function describes |
| Tags.ParseTag | src/Parser.js:128-168 | a content starting with `/` is a closing tag whose name is the rest with whitespace removed and which has no attributes; otherwise the tag is void exactly when its lower-cased name is listed; the name holds no whitespace and the attributes are well shaped |
| Tags.ContentTagMeaning | src/Parser.js:135-167 | on the normalised content: a leading `/` gives a closing tag; otherwise a content without a space is the name itself with no attributes, and one with a space is the name, a space, and text that `mapAttributes` maps to the attributes; void exactly for a listed lower-cased name |
| Tags.ScanPair | src/Parser.js:180-194 | a `k="v"` segment, with `k` free of spaces and `=` and `v` free of quotes, binds the buffered name plus `k` to `v` and the loop resumes after the closing quote with an empty buffer |
| Tags.ScanBare | src/Parser.js:196-202 | a name followed by a space is bound to the bare value (`null` here, `true` in the older loop) unless it is empty, and the buffer is emptied |
| Tags.ScanRest | src/Parser.js:203-216 | a tail with no space and no `=` is only buffered, and the loop ends holding it |
| Tags.OlderAttributeLoop | src/ParsedHTMLDocument.js:306-341 | the older loop, with its one restart from 0, returns exactly the map the specification function describes |
| Tags.ParseTagAttributes | src/ParsedHTMLDocument.js:283-355 | void exactly when the lower-cased name is listed, even for a closing tag; closing exactly when the content starts with `/` and the name is not listed; after a `/` the name is the rest with whitespace removed and there are no attributes; the name holds no whitespace and a bare attribute is `true` |
| Tags.OlderContentTagMeaning | src/ParsedHTMLDocument.js:287-354 | on the normalised content: the same classification with the older loop, and a listed name turns even a closing tag void; a content without a space is the name itself with no attributes |
| Tags.OlderContentTagGood | src/ParsedHTMLDocument.js:306-341 | the older analyser's attribute maps have names without spaces or `=`, quote-free values and `true` for bare names |
| TagExamples.NameThenAttributes | src/Parser.js:150-165 | a content made of a non-empty name without whitespace, a space and a rest is an open or void tag of that name carrying exactly what `mapAttributes` makes of the rest |
| TagExamples.BareAttributeTag | src/Parser.js:128-168 | `<name attr>` with one bare attribute gives that name, void exactly when listed, and the single attribute bound to `null` |
| TagExamples.ImplicitNull | _test/parser.test.js:6-12 | `<div implicit>` gives an open `div` whose attribute `implicit` is `null` |
| TagExamples.ScanOneAt | src/Parser.js:178-194 | one quoted attribute written at the cursor binds its name to its value and the loop resumes right after it |
| TagExamples.ScanWritten | src/Parser.js:178-206 | a run of quoted attributes, each followed by optional spaces, binds each name to its value in order and the loop resumes after the run |
| TagExamples.BracketedContent | src/ParsedHTMLDocument.js:284-286 | a content that is already collapsed, bracket-free and trimmed comes out of the older normalisation of `<content>` unchanged |
| TagExamples.OlderWrittenTag | src/ParsedHTMLDocument.js:299-346 | a name, a space, quoted attributes and a last bare name give the name, void exactly when listed, and the quoted attributes in order followed by the bare name bound to `true` |
| TagExamples.OlderSpanTag | src/ParsedHTMLDocument.js:283-355 | the same for a whole tag whose normalised content has that form |
| TagExamples.HiddenTrue | test/document.test.js:66-82 | `<div id="test" class="some class" data-foo="bar" hidden>` gives an open `div` with `id`, `class` and `data-foo` bound to their strings, in order, and `hidden` bound to `true` |
| TagExamples.GluedAttributes | test/document.test.js:95-108 | with no space between `class="some class"` and `data-foo="bar"`, all four attributes are still bound to their strings, in order |
| TreeBuilder.ParserJsLosesText | src/Parser.js:23-26 | a text run passed under the key `content` reaches `createTextElement` as the empty string |
| TreeBuilder.TextOptionsKeepText | src/ParsedHTMLDocument.js:174-177 | a text run passed under `textContent` arrives verbatim |
| TreeBuilder.ParseFromTokens | src/Parser.js:17-94 | the cursor-driven loop makes the same steps as walking the token stream |
| TreeBuilder.CreateWellFormed | src/ParsedHTMLDocument.js:116 | pushing a childless element under an element that may hold children keeps parent and child links consistent |
| TreeBuilder.StepOK | src/Parser.js:19-75 | each token keeps the document well formed, and only elements that may hold children become current |
| TreeBuilder.OpenTagOK | src/Parser.js:51-72 | creating and appending an open or void element keeps the document well formed, and the new current element may hold children |
| TreeBuilder.RunOK | src/Parser.js:17-94 | a run over any tokens keeps the document well formed |
| TreeBuilder.ParseWellFormed | src/Parser.js:10-97 | a parsed document has agreeing child and parent links and children in source order; text elements and elements whose mode is `void` have no children |
| TreeBuilder.StepTexts | src/ParsedHTMLDocument.js:172-185 | a text token adds exactly its text to the text elements; a tag adds none |
| TreeBuilder.RunTexts | src/ParsedHTMLDocument.js:168-249 | a run adds the text tokens' texts, in order |
| TreeBuilder.ParseTexts | src/ParsedHTMLDocument.js:161-252 | the text elements of a parsed document hold exactly the untagged runs of the input, verbatim and in order |
| TreeBuilder.CloseElement | src/Parser.js:37-50 | "No open tag" without a current element, "Mismatching tag pair" on a different name, otherwise the popped stack top becomes current |
| TreeBuilder.OpenElement | src/Parser.js:51-72 | the element is created and appended to the current element; an open tag pushes the current element and becomes current |
| TreeBuilder.Parse | src/Parser.js:10-97 | the loop returns the document or throws the error that the specification function describes, and a returned document is well formed |
| TreeBuilder.RunBeforeTag | src/Parser.js:19-36 | at a tag found at the cursor, the text before it (if any) is consumed first, then the tag token |
| TreeBuilder.RunAtTag | src/Parser.js:19-75 | one tag found at the cursor advances the run to just after the tag, or stops it with that tag's outcome |
| TreeBuilder.TagStep | src/Parser.js:19-75 | one loop iteration at a found tag: it either throws the error the specification gives, or yields a state from which parsing after the tag agrees with parsing from the cursor |
| TreeBuilder.RestText | src/Parser.js:77-91 | with no further tag, the rest of the input becomes one text element under the current element and parsing ends |
| ChildLists.Keys | src/ParsedNode.js:154-160 | one id per child, in order |
| ChildLists.Kept | src/ParsedNode.js:96-122 | exactly the entries whose id is not listed are kept, each of them from the old list |
| ChildLists.KeptNothing | src/ParsedNode.js:96-122 | an empty id list removes nothing |
| ChildLists.KeptIdempotent | src/ParsedNode.js:96-122 | removing the same ids a second time removes nothing more |
| ChildLists.KeptAppend | src/ParsedNode.js:108-116 | removal acts entry by entry and keeps the order |
| ChildLists.ReplacedMembers | src/ParsedNode.js:56-90 | after a replacement every entry is a replacement or an untouched old entry, and every untouched old entry is still there |
| ChildLists.ReplacedUntouched | src/ParsedNode.js:56-90 | a list with no matching entry is left as it was |
| ChildLists.ReplacedAppend | src/ParsedNode.js:70-86 | replacement acts entry by entry and keeps the order |
| ChildLists.ReplaceOne | src/ParsedNode.js:56-90 | with fresh replacements, `pre + [c] + post` becomes `pre + nodes + post` |
| Nodes.Listed | src/ParsedNode.js:97-101 | a single node is wrapped in an array, an array is itself, anything else stands for no nodes |
| Nodes.ParsedNode.constructor | src/ParsedNode.js:5-17 | the id is fixed; there is no parent and there are no children |
| Nodes.ParsedNode.AppendChild | src/ParsedNode.js:23-33 | a non-node throws before any change; otherwise the node is last, adopted, and nothing else about this node or the adopted node changes |
| Nodes.ParsedNode.PrependChild | src/ParsedNode.js:39-49 | as `appendChild`, with the node first, so it becomes the first child |
| Nodes.ParsedNode.HasChild | src/ParsedNode.js:138-150 | true exactly when some child carries the node's id |
| Nodes.ParsedNode.ReplaceChild | src/ParsedNode.js:56-90 | not a child: nothing changes; a non-node replacement throws before any change; otherwise the child list is the replaced list, the replacements are adopted and the child loses its parent |
| Nodes.ParsedNode.Rebuild | src/ParsedNode.js:68-86 | the loop builds the replaced list, adopts the replacements and clears the child's parent |
| Nodes.ParsedNode.AdoptInto | src/ParsedNode.js:78-83 | every replacement is appended to the list and takes this node as parent |
| Nodes.ParsedNode.RemoveChild | src/ParsedNode.js:96-122 | the children are the old ones whose id is not among the given nodes'; the node's own parent is kept |
| Nodes.ParsedNode.Remove | src/ParsedNode.js:127-131 | without a parent nothing happens; otherwise the parent drops every child with this id |
| Nodes.ParsedNode.GetChildrenRefIds | src/ParsedNode.js:154-160 | the children's ids, in order |
| Nodes.ParsedNode.FirstChild | src/ParsedNode.js:179-181 | `undefined` exactly for no children; otherwise a child carrying the first id |
| Nodes.ParsedNode.GetDescendants | src/ParsedNode.js:166-177 | the pre-order listing of the subtree, without the node itself |
| Nodes.IdsOf | src/ParsedNode.js:102-105 | the ids of the given nodes, in order |
| Nodes.BelowRanksLower | src/ParsedNode.js:166-177 | every descendant ranks lower, so a node is never among its own descendants |
| Nodes.ChildrenBelow | src/ParsedNode.js:166-177 | every child is among the descendants |
| Nodes.GrandchildExample | src/ParsedNode.js:166-177 | parent, child and grandchild: the parent has exactly two descendants, child first |
| Dom.ElementClass | src/ParsedHTMLDocument.js:92-114 | a truthy tag name listed in `voidTags` forces a void element; otherwise mode `text` gives a text element, `void` a void element, anything else a closed one; never a fragment |
| Dom.StoredMode | src/ParsedHTMLDocument.js:89 | a non-empty mode: the option when it is truthy |
| Dom.StoredTagName | src/ParsedHTMLDocument.js:92-93 | the tag name is stored exactly when it is truthy |
| Serializer.SeenAfter | src/element/ParsedClosedElement.js:25-31 | the cache only grows and ends up holding every child's id |
| Serializer.RepeatedIdSkipped | src/element/ParsedClosedElement.js:21-55 | a child whose id was already cached adds nothing to the output |
| Serializer.DuplicateChildOnce | src/element/ParsedClosedElement.js:21-55 | a child listed twice in a row is rendered once |
| Serializer.UniqueIdsConcatenate | src/element/ParsedClosedElement.js:21-55 | without shared ids the output is all the children's renderings concatenated in order |
| ContentText.LastTag | src/element/ParsedHTMLElement.js:70-75 | the tag the loop ends on: the last one found, or the one it started with when no tag remains |
| ContentText.TextContentOf | src/element/ParsedHTMLElement.js:65-82 | outside mode `closed` the whole content; otherwise never longer than the content |
| ContentText.ReadTextContent | src/element/ParsedHTMLElement.js:65-82 | the getter's loop returns what the specification function describes |
| ContentText.ReachesFinalTag | src/element/ParsedHTMLElement.js:70-75 | from any point before a final tag whose `<`s are closed, the loop ends on that final tag |
| ContentText.BetweenFirstAndLastTag | src/element/ParsedHTMLElement.js:65-82 | for `<a>inner<b>` the getter returns `inner` |
| ContentText.SingleTag | src/element/ParsedHTMLElement.js:65-82 | markup with a single tag reads as itself |
| Elements.Element.constructor | src/element/ParsedElement.js:5-21 | the given properties with no children; `content` is the element's serialisation and closed and void elements hold their `update` caches |
| Elements.Element.Stringify | src/element/ParsedHTMLElement.js:21-51 | the serialisation of the element's class over its current subtree |
| Elements.Element.StringifyClosedChildren | src/element/ParsedClosedElement.js:21-33 | the children in order, each skipped when its id was cached by an earlier child's subtree |
| Elements.Element.Index | src/element/ParsedClosedElement.js:35-54 | the cache gains exactly the ids of the element's subtree |
| Elements.Element.StringifyChildren | src/element/ParsedHTMLElement.js:53-63 | the children's serialisations concatenated in mode `closed`, the empty string otherwise |
| Elements.Element.Propagate | src/element/ParsedElement.js:30-35 | the element and each ancestor up to the root store their fresh serialisation in `content` |
| Elements.Element.Update | src/element/ParsedClosedElement.js:9-19 | a closed element caches its serialisation as `outerHTML` and its children's as `innerHTML` and `textContent`; a void element caches its serialisation under all three |
| Elements.Element.GetTextContent | src/element/ParsedHTMLElement.js:65-82 | the closed cache, the text payload, or the generic cut of `content` between its first and last tag; fails exactly for the fragment element in mode `closed`, whose document has no `findTagPosition` |
| Elements.Element.GetInnerHTML | src/element/ParsedHTMLElement.js:84-86 | the closed cache, the text payload, or the generic `textContent`, failing exactly when that getter fails |
| Elements.Element.GetOuterHTML | src/element/ParsedHTMLElement.js:88-90 | the closed cache, the text payload, or `content` |
| Elements.Element.SetTextContent | src/element/ParsedHTMLElement.js:92-104 | a closed element's only child becomes a new unparsed text element holding the string; mode `text` stores it as `content`; a text element stores it as payload; the fragment element in mode `closed` fails and changes nothing, since its document has no `createTextElement`; otherwise nothing changes |
| Elements.Element.SetInnerHTML | src/element/ParsedHTMLElement.js:106-122 | in mode `closed` the children become the parsed top-level elements, except that the fragment element fails and changes nothing, since its document has no `parse`; mode `text` and text elements store the markup |
| Elements.Element.TakeMap | src/element/ParsedClosedElement.js:98-105 | every property the copied map holds overwrites this element's, and every other property is kept |
| Elements.Element.SetOuterHTML | src/element/ParsedHTMLElement.js:124-133 | a closed element takes over the first parsed element's properties and fails without one, leaving the parsed elements' parents and the old parent's children alone; a text element stores the markup and touches neither; the fragment element with a parent fails and changes nothing, since its document has no `parse`; otherwise a parent that lists this element replaces it by all parsed elements, and a parent that does not list it, or no parent, leaves everything as it was |
| Elements.Element.HasAttribute | src/element/ParsedElement.js:75-77 | true exactly when the name is an attribute key |
| Elements.Element.GetAttribute | src/element/ParsedElement.js:79-81 | `undefined` exactly when the attribute is missing; otherwise the value bound to it |
| Elements.Element.SetAttribute | src/element/ParsedElement.js:83-91 | the value is stored; an equal value changes nothing and renders nothing; a change with `emit` re-renders the element and every ancestor |
| Elements.Element.Id | src/element/ParsedElement.js:159-161 | the `id` attribute |
| Elements.Element.ClassName | src/element/ParsedElement.js:167-169 | the `class` attribute |
| Elements.Element.SetId | src/element/ParsedElement.js:163-165 | `id` reads the new value and the other attributes are unchanged; a change is re-rendered up to the root |
| Elements.Element.SetClassName | src/element/ParsedElement.js:171-173 | `class` reads the new value and the other attributes are unchanged; a change is re-rendered up to the root |
| Elements.Element.RemoveChildren | src/element/ParsedElement.js:106-128 | an element or an array keeps exactly the children whose reference id is not listed; anything else changes nothing |
| Elements.Element.Remove | src/element/ParsedElement.js:96-100 | without a parent nothing happens; otherwise the parent drops every child with this id |
| Elements.Element.GetChildrenRefIds | src/element/ParsedElement.js:130-136 | the children's reference ids, in order |
| Elements.Element.GetDescendants | src/element/ParsedElement.js:142-153 | the pre-order listing of the subtree, without the element itself |
| Elements.Element.AppendChild | src/ParsedHTMLDocument.js:180-182 | a non-element fails before any change; otherwise it is added last and adopted |
| Elements.Element.PrependChild | src/element/ParsedHTMLDocument.js:58-60 | a non-element fails before any change; otherwise it is added first and adopted |
| Elements.Element.HasChild | src/element/ParsedHTMLDocument.js:79-81 | true exactly when some child carries the node's reference id |
| Elements.Element.ReplaceChild | src/element/ParsedHTMLElement.js:131 | not a child: nothing changes; otherwise the replacement rule applies to the child list, the replacements are adopted and the child loses its parent |
| Elements.Element.Adopt | src/element/ParsedHTMLElement.js:131 | every replacement takes this element as parent |
| Elements.Element.GetElementById | src/element/ParsedElement.js:38-46 | the first child whose `id` equals the argument, `undefined` when there is none |
| Elements.Element.GetElementsByClassName | src/element/ParsedElement.js:48-62 | the children carrying the class as a whole token, once per matching token, in order; `class: true` throws |
| Elements.Element.GetElementsByTagName | src/element/ParsedElement.js:64-73 | the children whose tag name is the argument, in order |
| Elements.RendersAlike | src/element/ParsedClosedElement.js:98-105 | a closed element that took over another's tag name, attributes and children renders as that element |
| Elements.RegistryDocument.constructor | src/ParsedHTMLDocument.js:9-45 | an empty registry, the fifteen void tags, and a fresh closed fragment named `fragment` without a mode |
| Elements.RegistryDocument.Configure | src/ParsedHTMLDocument.js:51-60 | each given tag not yet listed is appended |
| Elements.RegistryDocument.CreateElement | src/ParsedHTMLDocument.js:80-118 | a fresh element with the next reference id is pushed; its class, tag name, mode, node type and serialisation follow the options |
| Elements.RegistryDocument.CreateTextElement | src/ParsedHTMLDocument.js:126-140 | a fresh text element holding the text, with mode `text` and a null node type, is pushed |
| Elements.RegistryDocument.Stringify | src/ParsedHTMLDocument.js:146-154 | the fragment's children's serialisations concatenated in order |
| Elements.RegistryDocument.GetElementById | src/element/ParsedElement.js:38-46 | the first registered element whose `id` matches, so nested elements are found too |
| Elements.RegistryDocument.GetElementsByClassName | src/element/ParsedElement.js:48-62 | the class query over every registered element |
| Elements.RegistryDocument.GetElementsByTagName | src/element/ParsedElement.js:64-73 | the tag query over every registered element |
| Elements.Increment | src/element/ParsedHTMLDocument.js:88 | `NaN` stays `NaN`; a number grows by one |
| Elements.FragmentDocument.constructor | src/element/ParsedHTMLDocument.js:8-17 | a fresh fragment whose id was taken before the counter was set, so its counter part is `NaN`; then the counter is 0 |
| Elements.FragmentDocument.GetNextId | src/element/ParsedHTMLDocument.js:87-89 | the counter is incremented before the id is formed, so a numeric counter strictly increases |
| Elements.FragmentDocument.GetElementById | src/element/ParsedHTMLDocument.js:24-26 | the fragment's answer |
| Elements.FragmentDocument.GetElementsByTagName | src/element/ParsedHTMLDocument.js:33-35 | the fragment's answer |
| Elements.FragmentDocument.GetElementsByClassName | src/element/ParsedHTMLDocument.js:42-44 | the fragment's answer |
| Elements.FragmentDocument.AppendChild | src/element/ParsedHTMLDocument.js:50-52 | the fragment's children gain the node last |
| Elements.FragmentDocument.PrependChild | src/element/ParsedHTMLDocument.js:58-60 | the fragment's children gain the node first |
| Elements.FragmentDocument.ReplaceChild | src/element/ParsedHTMLDocument.js:67-69 | the replacement rule on the fragment's children |
| Elements.FragmentDocument.RemoveChild | src/element/ParsedHTMLDocument.js:75-77 | the listed elements' ids leave the fragment's children |
| Elements.FragmentDocument.HasChild | src/element/ParsedHTMLDocument.js:79-81 | the fragment's answer |
| Elements.FragmentDocument.Stringify | src/element/ParsedHTMLDocument.js:83-85 | the fragment's serialisation: its children's, without enclosing tags |
| Elements.FragmentDocument.GetDescendants | src/element/ParsedHTMLDocument.js:91-93 | the fragment's descendants |
| Elements.Listed | src/element/ParsedElement.js:107-110 | a single element is wrapped in an array, an array is itself, anything else stands for no elements |
| Elements.ReplacedList | src/ParsedNode.js:68-86 | the loop builds exactly the list the replacement rule describes |
| Elements.RefIdsOf | src/element/ParsedElement.js:111-114 | the reference ids of the given elements, in order |
| Elements.BelowIds | src/element/ParsedClosedElement.js:35-54 | an element's id with its descendants' ids are exactly the ids the cache collects for its subtree |
| Elements.BelowAllIds | src/element/ParsedElement.js:142-153 | the descendants of a list of children carry exactly the ids of their subtrees |
| Elements.FirstWithIdUnique | src/element/ParsedElement.js:38-46 | the id query has a single answer |
| Elements.FindById | src/element/ParsedElement.js:38-46 | the loop returns the first element whose `id` matches, or `undefined` |
| Elements.ByClassFails | src/element/ParsedElement.js:48-62 | the class query throws exactly when some child's `class` is `true` |
| Elements.ByClassMembers | src/element/ParsedElement.js:48-62 | otherwise an element is listed exactly when it is a child carrying the class as a whole token |
| Elements.WholeTokens | src/element/ParsedElement.js:53-55 | `foobar` does not carry the class `foo`; `bar foo` does |
| Elements.FilterByClass | src/element/ParsedElement.js:48-62 | the loop returns what the class query describes |
| Elements.ByTag | src/element/ParsedElement.js:64-73 | the tag query lists at most as many elements as there are children |
| Elements.ByTagMembers | src/element/ParsedElement.js:64-73 | an element is listed exactly when it is a child whose tag name is the argument |
| Elements.ByTagAppend | src/element/ParsedElement.js:64-73 | the tag query keeps the children's order |
| Elements.FilterByTag | src/element/ParsedElement.js:64-73 | the loop returns what the tag query describes |
| LegacyDom.TagOptions | src/document/ParsedHTMLDocument.js:32-34 | a string argument becomes the tag name and nothing else |
| LegacyDom.Truthy | src/document/ParsedElement.js:4-11 | `value \|\| null` keeps a non-empty string and drops the rest |
| LegacyDom.OrDefault | src/document/ParsedElement.js:4-11 | `value \|\| d` keeps a non-empty string and otherwise gives the default |
| LegacyDom.Node.Document | src/document/ParsedHTMLDocument.js:6-11 | an empty registry named `#document` of type `document` |
| LegacyDom.Node.Html | src/document/ParsedHTMLElement.js:4-8 | the element defaults for every missing option, with the reference id and `content` defaulting to `''` |
| LegacyDom.Node.Text | src/document/ParsedTextElement.js:4-9 | the element defaults, no reference id, and `textContent` defaulting to `''` |
| LegacyDom.Node.GetElementById | src/document/ParsedElement.js:13-20 | the first child with a truthy `id` equal to the argument; an unresolved child reached first throws |
| LegacyDom.Node.GetElementsByClassName | src/document/ParsedElement.js:22-36 | the children carrying the class as a whole token |
| LegacyDom.Node.GetElementsByTagName | src/document/ParsedElement.js:38-47 | the children with the tag name, in order |
| LegacyDom.Node.HasAttribute | src/document/ParsedElement.js:49-51 | true exactly when the name is an own key of the attribute object |
| LegacyDom.Node.GetAttribute | src/document/ParsedElement.js:53-55 | `undefined` exactly when the attribute is missing; otherwise its value |
| LegacyDom.Node.SetAttribute | src/document/ParsedElement.js:57-59 | the value is stored unconditionally and read back; the other attributes read as before |
| LegacyDom.Node.Id | src/document/ParsedElement.js:61-63 | the `id` attribute |
| LegacyDom.Node.SetId | src/document/ParsedElement.js:65-67 | the `id` attribute reads the new value |
| LegacyDom.Node.ClassName | src/document/ParsedElement.js:69-71 | the `class` attribute |
| LegacyDom.Node.SetClassName | src/document/ParsedElement.js:73-75 | the `class` attribute reads the new value |
| LegacyDom.Node.AppendChild | src/document/ParsedHTMLElement.js:10-16 | a non-element throws before any change; otherwise it goes last and takes this element as parent |
| LegacyDom.Node.PrependChild | src/document/ParsedHTMLElement.js:18-24 | a non-element throws before any change; otherwise it goes first and takes this element as parent |
| LegacyDom.Node.SetInnerHTML | src/document/ParsedTextElement.js:19-21 | `innerHTML`, `outerHTML` and `toString` all read the assigned string |
| LegacyDom.Node.SetOuterHTML | src/document/ParsedTextElement.js:23-25 | `innerHTML`, `outerHTML` and `toString` all read the assigned string |
| LegacyDom.Node.GetElementByReferenceId | src/document/ParsedHTMLDocument.js:64-69 | the registry entry at the id, null for a negative id or one past the end |
| LegacyDom.Node.LookupAll | src/document/ParsedHTMLDocument.js:45-51 | one lookup per reference id, in order |
| LegacyDom.Node.CreateElement | src/document/ParsedHTMLDocument.js:31-62 | a fresh element whose reference id is the registry length is pushed, so ids stay equal to registry indices; explicit children and parent win over the reference ids, and `parentRefId` 0 is ignored |
| LegacyDom.Lookup | src/document/ParsedHTMLDocument.js:64-69 | an element found is in the registry |
| LegacyDom.Lookups | src/document/ParsedHTMLDocument.js:45-51 | one result per id |
| LegacyDom.LookupRegistered | src/document/ParsedHTMLDocument.js:59-69 | a registered element is found under its own reference id |
| LegacyDom.LookupsRoundTrip | src/document/ParsedHTMLDocument.js:45-69 | resolving the reference ids of registered elements gives those elements back, in order |
| LegacyDom.RegisterKeepsDense | src/document/ParsedHTMLDocument.js:59-60 | pushing an element under the next id keeps ids equal to indices and leaves every earlier lookup unchanged |
| LegacyDom.ByIdAt | src/document/ParsedElement.js:13-20 | after non-matching elements, the next child decides: it is returned if it matches, an unresolved child throws, and no child left gives `undefined` |
| LegacyDom.FindById | src/document/ParsedElement.js:13-20 | the loop returns what the id query describes |
| LegacyDom.ByClassFails | src/document/ParsedElement.js:22-36 | the class query throws exactly when some child is unresolved or has `class` `true` |
| LegacyDom.ByClassMembers | src/document/ParsedElement.js:22-36 | otherwise an element is listed exactly when it is a child carrying the class |
| LegacyDom.FilterByClass | src/document/ParsedElement.js:22-36 | the loop returns what the class query describes |
| Attributes.PushHits | src/element/ParsedElement.js:54-58 | the inner loop pushes the element once per matching token |
| LegacyDom.ByTag | src/document/ParsedElement.js:38-47 | the tag query throws exactly when a child is unresolved, and lists at most all children |
| LegacyDom.ByTagMembers | src/document/ParsedElement.js:38-47 | without unresolved children, an element is listed exactly when it is a child with the tag name |
| LegacyDom.ByTagAppend | src/document/ParsedElement.js:38-47 | the tag query keeps the children's order |
| LegacyDom.FilterByTag | src/document/ParsedElement.js:38-47 | the loop returns what the tag query describes |

## Left out

- Events (`src/EmittableMap.js`): properties are plain fields. Change notification is an explicit upward re-render (`Elements.Element.Propagate`). It runs after attribute changes only. The source assigns `children` and `content` through keys that emit no `change` event, so those assignments re-render nothing here either.
- Missing methods: the element classes call `set`, `setAll` and `map`, and the text element calls `update`, but none of these exists on their prototype chain. The same holds for the oldest text element: `src/document/ParsedTextElement.js:6` calls `setAll`, which the plain class of `src/document/ParsedElement.js` lacks, so every `new ParsedTextElement` throws there. The model performs the field updates these calls are meant to perform, so `LegacyDom.Node.Text` builds the element the constructor evidently intends.
- Elements.Element.AppendChild, Elements.Element.PrependChild, Elements.Element.HasChild, Elements.Element.ReplaceChild: the element classes define none of these, yet the parse loop and the fragment document call them. They are modelled on the `src/ParsedNode.js` versions, keyed by reference id.
- Elements.FragmentDocument.RemoveChild: `src/element/ParsedHTMLDocument.js:76` calls `removeChild` on the fragment, which the element classes do not define (they have `removeChildren`, `src/element/ParsedElement.js:106`), so the source throws. The model runs `removeChildren` instead.
- Nodes.NodeArg: an array argument holds nodes only. A mixed array such as `[node, 'x']` is not modelled; in the source the nodes before the first non-node are already adopted when `replaceChild` throws (`src/ParsedNode.js:78-81`).
- Trimming: the documents never define `trimWhitespace`, so the element generation never trims. The model leaves trimming out. The `trim` helper is not part of this model.
- Clock: the `Date.now()` prefix of reference ids is dropped. An id is the registry length (registry document) or the counter (fragment document). With the prefix gone, the registry fragment's id `Registry(0)` equals the first created element's id. With the clock they coincide too whenever both are made within the same millisecond: the fragment takes `${Date.now()}0` (src/ParsedHTMLDocument.js:36) and so does the first created element (src/ParsedHTMLDocument.js:143).
- Re-parsing setters: `innerHTML` and `outerHTML` delegate to the document's `parse` (`src/element/ParsedHTMLElement.js:17-19`). The parse result comes in as the parameter `parsed`. The `textContent` setter takes the document as a parameter.
- Elements.RegistryDocument.CreateElement: the `children` and `source` options are not modelled; a new element starts without children.
- Tags.MapAttributes: an `=` without two double quotes after it makes the source loop forever. The method requires that the loop terminates. `Tags.StuckRegardless` proves that such input never terminates.
- Tags.ParseTag: requires termination of its attribute loop, as above.
- Tags.OlderAttributeLoop: requires termination; the older loop diverges after its second stuck `=`.
- Tags.ParseTagAttributes: requires termination, as above.
- TreeBuilder.Parse: requires that no tag analysis diverges. The tag analyser is a parameter, and `TreeBuilder.TagParser` and `TreeBuilder.AttributeParser` instantiate it with the two concrete analysers.
- LegacyDom: reference ids are numbers; a string id passed to `getElementByReferenceId` is not modelled. `undefined` and `null` children are both `null`. A `createElement` call without an argument is not modelled.
- LegacyDom.Node.CreateElement, LegacyDom.Node.SetAttribute: the new element's children list and attribute list are copies. In the source the element keeps the options' own array and attribute object (src/document/ParsedHTMLDocument.js:38, src/document/ParsedElement.js:7), which the caller can still change. Two elements built from one options object share one attribute object, so `setAttribute` on one is seen by the other; in the model each has its own list.
- LegacyDom.Node.InnerHTML, LegacyDom.Node.OuterHTML, LegacyDom.Node.ToString: plain reads of `textContent`, with no contract of their own; the two setters state what they return.
- Nodes.ParsedNode.ReplaceChild: a non-node value that happens to have a `_set` method is not modelled; every such value throws.
- TreeBuilder.TextNode, Elements.RegistryDocument.CreateTextElement, Elements.RegistryDocument.CreateElement, Elements.Element.SetTextContent: a text element's payload is a string. When the payload is empty, `createElement` skips it (src/ParsedHTMLDocument.js:101), so the text element stores `undefined` (src/element/ParsedTextElement.js:6); this happens for the parse loop's text runs, for `createTextElement('')` and for `el.textContent = ''` on a closed element. The model stores the empty string instead. Where the source concatenates that `undefined` into a parent's markup it writes the word `undefined`; the model writes nothing.
- JsString.ToLower: only ASCII capitals are lowered. `toLowerCase` also lowers other letters, some of them into ASCII (the Kelvin sign U+212A becomes `k`). So the void test at src/Parser.js:163 and src/ParsedHTMLDocument.js:350 can differ for non-ASCII names: `<LIN\u212A>` is void in the source and open in the model.
- Attributes.Keys: keys are listed in insertion order. `Object.keys` lists integer-like keys first, in ascending order, and the serialisers rely on it (src/element/ParsedClosedElement.js:60, src/element/ParsedHTMLElement.js:37, src/element/ParsedVoidElement.js:22). So `<a b="1" 2="x">` serialises with `2` first in the source and with `b` first in the model.
- Attributes.Get: only the object's own keys are found. `this.attributes[attr]` also finds members inherited from `Object.prototype` (src/element/ParsedElement.js:80,84; src/document/ParsedElement.js:54). So `getAttribute('constructor')` is a function in the source and `undefined` in the model.
- Attributes.Put: every name becomes a key. Assigning `map['__proto__']` (src/Parser.js:188, src/ParsedHTMLDocument.js:316) goes to the inherited `__proto__` setter, which ignores a string, so it creates no key. So `<div __proto__="x">` has no attributes in the source and one in the model.
- Cycles: a node can become its own ancestor in the source, and propagation or `getDescendants` would then not terminate. Every recursive member requires an acyclic graph (`Ranked`, `Ancestry`).
- `index.js`, `src/HtmlParser.js` and the `EmittableMap` listener machinery are re-export and event plumbing; they are not part of this model.

## Findings

| source | as written | input that shows it | evidently intended | confidence | as-written member | corrected member |
|---|---|---|---|---|---|---|
| src/Parser.js:23-26 | each text run goes to `createTextElement` under the key `content`, but `createTextElement` reads `textContent` (src/ParsedHTMLDocument.js:135), so it passes on `''`; `createElement` then skips that falsy value (src/ParsedHTMLDocument.js:101), and the text element's `textContent` is `undefined` (src/element/ParsedTextElement.js:6) | `parse("hi")` builds a text element without the text `hi`, given that the missing methods perform as intended (see "## Left out") | the text run is the payload, as src/ParsedHTMLDocument.js:174-177 passes it | high; not executed | TreeBuilder.ParserJsLosesText | TreeBuilder.TextOptionsKeepText |
