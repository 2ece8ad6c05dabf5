/**
 * Locating tags in markup: `findTagPosition` (src/Parser.js, src/ParsedHTMLDocument.js) and the
 * token stream the parse loops walk, untagged text runs and `<…>` spans in source order.
 */
module Scanner {
  import opened Wrappers
  import opened JsString

  /**
   * `findTagPosition(content, start)`: `Some((s, e))` where `s` is the first `<` at or after `start`
   * and `e - 1` the first `>` at or after `s`, so the tag is `content[s..e]`; `None` (null) when
   * either bracket is missing.
   */
  function FindTagPosition(content: string, start: nat): (r: Option<(nat, nat)>)
    ensures r.Some? ==> start <= r.value.0 < r.value.1 <= |content|
    ensures r.Some? ==> content[r.value.0] == '<' && '<' !in content[start..r.value.0]
    ensures r.Some? ==> content[r.value.1 - 1] == '>' && '>' !in content[r.value.0..r.value.1 - 1]
  {
    var left := IndexOf(content, '<', start);
    var right := if left > -1 then IndexOf(content, '>', left) else -1;
    if right > -1 then Some((left, right + 1)) else None
  }

  /** A complete tag, a `<` followed later by a `>`, starts at or after `start`. */
  predicate HasTag(content: string, start: nat) {
    exists s, e :: start <= s < e < |content| && content[s] == '<' && content[e] == '>'
  }

  /** `findTagPosition` returns null exactly when no complete tag remains. */
  lemma FindTagPositionNone(content: string, start: nat)
    ensures FindTagPosition(content, start).None? <==> !HasTag(content, start)
  {
    var left := IndexOf(content, '<', start);
    var pos := FindTagPosition(content, start);
    if pos.Some? {
      assert content[pos.value.0] == '<' && content[pos.value.1 - 1] == '>';
    } else if left > -1 {
      assert IndexOf(content, '>', left) == -1;
      forall s, e | start <= s < e < |content| && content[s] == '<'
        ensures content[e] != '>'
      {
        assert left <= s;
      }
    }
  }

  /** One piece of the input as the parse loop sees it. */
  datatype Token = Text(text: string) | Tag(span: string)

  function TokenText(t: Token): string {
    match t
    case Text(s) => s
    case Tag(s) => s
  }

  function Flatten(ts: seq<Token>): string {
    if ts == [] then [] else TokenText(ts[0]) + Flatten(ts[1..])
  }

  /** A tag span starts with `<`, ends with `>` and holds no other `>`. */
  predicate TagShaped(s: string) {
    |s| >= 2 && s[0] == '<' && s[|s| - 1] == '>' && '>' !in s[..|s| - 1]
  }

  /**
   * The tokens of `content[i..]`: text before the next tag (when any), the tag, and the rest
   * scanned from the end of the tag; text to the end when no tag remains.
   */
  function Tokens(content: string, i: nat): (r: seq<Token>)
    decreases |content| - i
  {
    if i >= |content| then []
    else match FindTagPosition(content, i)
      case Some((s, e)) =>
        var text := if i != s then [Text(content[i..s])] else [];
        text + [Tag(content[s..e])] + Tokens(content, e)
      case None => [Text(content[i..])]
  }

  lemma {:induction false} FlattenAppend(a: seq<Token>, b: seq<Token>)
    ensures Flatten(a + b) == Flatten(a) + Flatten(b)
  {
    if a == [] {
      assert a + b == b;
    } else {
      assert (a + b)[0] == a[0];
      assert (a + b)[1..] == a[1..] + b;
      FlattenAppend(a[1..], b);
    }
  }

  lemma SliceJoin(x: string, i: nat, s: nat, e: nat)
    requires i <= s <= e <= |x|
    ensures x[i..] == x[i..s] + x[s..e] + x[e..]
  {
    assert x[s..] == x[s..e] + x[e..];
    assert x[i..] == x[i..s] + x[s..];
  }

  lemma FlattenThree(a: Token, b: Token, rest: seq<Token>)
    ensures Flatten([a, b] + rest) == TokenText(a) + TokenText(b) + Flatten(rest)
  {
    assert ([a, b] + rest)[1..] == [b] + rest;
    assert ([b] + rest)[1..] == rest;
  }

  lemma FlattenTwo(b: Token, rest: seq<Token>)
    ensures Flatten([b] + rest) == TokenText(b) + Flatten(rest)
  {
    assert ([b] + rest)[1..] == rest;
  }

  /** One step of the token stream, spelled out. */
  lemma TokensStep(content: string, i: nat)
    requires i < |content|
    ensures FindTagPosition(content, i).None? ==> Tokens(content, i) == [Text(content[i..])]
    ensures FindTagPosition(content, i).Some? ==>
      var (s, e) := FindTagPosition(content, i).value;
      Tokens(content, i) == (if i != s then [Text(content[i..s])] else []) + [Tag(content[s..e])] + Tokens(content, e)
  {
  }

  /** Text, a tag and the remaining tokens flatten to the matching slices of the input. */
  lemma CoverStep(content: string, i: nat, s: nat, e: nat, ts: seq<Token>, rest: seq<Token>)
    requires i <= s < e <= |content|
    requires ts == (if i != s then [Text(content[i..s])] else []) + [Tag(content[s..e])] + rest
    requires Flatten(rest) == content[e..]
    ensures Flatten(ts) == content[i..]
  {
    SliceJoin(content, i, s, e);
    if i != s {
      assert ts == [Text(content[i..s]), Tag(content[s..e])] + rest;
      FlattenThree(Text(content[i..s]), Tag(content[s..e]), rest);
    } else {
      assert ts == [Tag(content[s..e])] + rest;
      FlattenTwo(Tag(content[s..e]), rest);
    }
  }

  /** The tokens cover the input exactly: nothing is dropped, duplicated or reordered. */
  lemma {:induction false} TokensCover(content: string, i: nat)
    requires i <= |content|
    ensures Flatten(Tokens(content, i)) == content[i..]
    decreases |content| - i
  {
    if i < |content| {
      var pos := FindTagPosition(content, i);
      TokensStep(content, i);
      if pos.Some? {
        TokensCover(content, pos.value.1);
        CoverStep(content, i, pos.value.0, pos.value.1, Tokens(content, i), Tokens(content, pos.value.1));
      } else {
        FlattenTwo(Text(content[i..]), []);
      }
    }
  }

  /** Every text token is non-empty and every tag token is one `<…>` span. */
  lemma {:induction false} TokensShaped(content: string, i: nat)
    ensures forall t :: t in Tokens(content, i) ==> (t.Text? ==> t.text != []) && (t.Tag? ==> TagShaped(t.span))
    decreases |content| - i
  {
    var pos := FindTagPosition(content, i);
    if i < |content| && pos.Some? {
      var s, e := pos.value.0, pos.value.1;
      TokensShaped(content, e);
      var span := content[s..e];
      assert span[..|span| - 1] == content[s..e - 1];
    }
  }

  /** No text token holds a complete tag: text before a tag has no `<`, trailing text has no `<…>`. */
  lemma {:induction false} TextTokensHoldNoTag(content: string, i: nat)
    ensures forall k :: 0 <= k < |Tokens(content, i)| && Tokens(content, i)[k].Text? ==>
      !HasTag(Tokens(content, i)[k].text, 0)
    decreases |content| - i
  {
    var pos := FindTagPosition(content, i);
    if i < |content| && pos.Some? {
      var s, e := pos.value.0, pos.value.1;
      TextTokensHoldNoTag(content, e);
      var t := content[i..s];
      forall a | 0 <= a < |t| ensures t[a] != '<' {
        assert t[a] in content[i..s];
      }
    } else if i < |content| {
      FindTagPositionNone(content, i);
      var t := content[i..];
      forall a, b | 0 <= a < b < |t| && t[a] == '<' ensures t[b] != '>' {
        assert content[i + a] == '<';
      }
    }
  }

  /** The opening `div` of the tag-position test. */
  lemma DivOpen(c: string)
    requires c == "<div>This is a test</div>"
    ensures FindTagPosition(c, 0) == Some((0, 5))
  {
    IndexOfAt(c, '<', 0, 0);
    IndexOfAt(c, '>', 0, 4);
  }

  /** The closing `div` of the tag-position test. */
  lemma DivClose(c: string)
    requires c == "<div>This is a test</div>"
    ensures FindTagPosition(c, 5) == Some((19, 25))
  {
    IndexOfAt(c, '<', 5, 19);
    IndexOfAt(c, '>', 19, 24);
  }

  /** The example scanned twice by the tag-position test: the opening and the closing `div`. */
  lemma DivExample()
    ensures FindTagPosition("<div>This is a test</div>", 0) == Some((0, 5))
    ensures FindTagPosition("<div>This is a test</div>", 5) == Some((19, 25))
  {
    DivOpen("<div>This is a test</div>");
    DivClose("<div>This is a test</div>");
  }
}
