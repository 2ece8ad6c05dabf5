/**
 * The `textContent` getter `ParsedHTMLElement` gives to elements of the element generation that
 * do not cache it: in mode `'closed'` it finds the first tag of the element's `content` and then
 * walks tag after tag to the last one, returning what lies between the two; otherwise, or when
 * there is no second tag, it returns `content` whole.
 */
module ContentText {
  import opened Wrappers
  import opened Scanner

  /**
   * The last tag the getter's loop finds when each search resumes where the previous tag ended,
   * starting at `start`; `found` when no tag remains.
   */
  function LastTag(content: string, start: nat, found: Option<(nat, nat)>): (r: Option<(nat, nat)>)
    ensures FindTagPosition(content, start).None? ==> r == found
    ensures FindTagPosition(content, start).Some? ==>
      r.Some? && start <= r.value.0 < r.value.1 <= |content| &&
      content[r.value.0] == '<' && content[r.value.1 - 1] == '>' && FindTagPosition(content, r.value.1).None?
    decreases |content| - start
  {
    match FindTagPosition(content, start)
    case None => found
    case Some(p) => LastTag(content, p.1, Some(p))
  }

  /** What the getter returns for an element with this `mode` and `content` (trimming is off). */
  function TextContentOf(mode: string, content: string): (r: string)
    ensures mode != "closed" ==> r == content
    ensures |r| <= |content|
  {
    if mode != "closed" then content
    else match FindTagPosition(content, 0)
      case None => content
      case Some(open) =>
        match LastTag(content, open.1, None)
        case None => content
        case Some(close) => content[open.1..close.0]
  }

  /** The getter's loop: `position` follows the tags, `closedtag` keeps the last one found. */
  method ReadTextContent(mode: string, content: string) returns (s: string)
    ensures s == TextContentOf(mode, content)
  {
    if mode == "closed" {
      var opentag := FindTagPosition(content, 0);
      var closedtag: Option<(nat, nat)> := None;
      var position := opentag;
      while position.Some?
        invariant position.Some? ==> position.value.1 <= |content|
        invariant opentag.None? ==> position.None? && closedtag.None?
        invariant opentag.Some? && position.Some? ==>
          LastTag(content, position.value.1, closedtag) == LastTag(content, opentag.value.1, None)
        invariant opentag.Some? && position.None? ==> closedtag == LastTag(content, opentag.value.1, None)
        decreases if position.Some? then |content| + 1 - position.value.1 else 0
      {
        position := FindTagPosition(content, position.value.1);
        if position.Some? {
          closedtag := position;
        }
      }
      if closedtag.Some? {
        s := content[opentag.value.1..closedtag.value.0];
        return;
      }
    }
    s := content;
  }

  /** Every `<` of `content[p..c]` is followed by a `>` before `c`. */
  ghost predicate BracketsClosed(content: string, p: nat, c: nat)
    requires c <= |content|
  {
    forall i :: p <= i < c && content[i] == '<' ==> exists j :: i < j < c && content[j] == '>'
  }

  /** `content[c..]` is a final tag with no other bracket inside. */
  ghost predicate FinalTag(content: string, c: nat)
  {
    c < |content| && content[c] == '<' && content[|content| - 1] == '>' &&
    (forall k :: c < k < |content| ==> content[k] != '<') &&
    (forall k :: c <= k < |content| - 1 ==> content[k] != '>')
  }

  /**
   * From any `p` up to the `<` at `c` of a final tag that holds no other bracket, the loop ends on
   * that final tag, provided every `<` it meets before `c` is closed by a `>` before `c`.
   */
  lemma {:induction false} ReachesFinalTag(content: string, p: nat, c: nat, found: Option<(nat, nat)>)
    requires p <= c && FinalTag(content, c) && BracketsClosed(content, p, c)
    ensures LastTag(content, p, found) == Some((c, |content|))
    decreases c - p
  {
    var t := NextTag(content, p, c);
    if t.1 <= c {
      ReachesFinalTag(content, t.1, c, Some(t));
    } else {
      assert FindTagPosition(content, |content|).None?;
    }
  }

  /** The next tag from `p` either closes before `c` or is the final tag itself. */
  lemma NextTag(content: string, p: nat, c: nat) returns (t: (nat, nat))
    requires p <= c && FinalTag(content, c) && BracketsClosed(content, p, c)
    ensures FindTagPosition(content, p) == Some(t)
    ensures t.1 <= c || t == (c, |content|)
  {
    var s := JsString.IndexOf(content, '<', p);
    assert s != -1 && s <= c;
    if s < c {
      var j :| s < j < c && content[j] == '>';
      var e := JsString.IndexOf(content, '>', s);
      assert s <= e <= j;
      t := (s, e + 1);
    } else {
      JsString.IndexOfAt(content, '>', c, |content| - 1);
      t := (c, |content|);
    }
  }

  /**
   * For markup `<a>inner<b>` whose first tag has no `>` inside, whose last tag has no bracket
   * inside and whose inner part leaves no `<` unclosed, the getter returns `inner`.
   */
  lemma BetweenFirstAndLastTag(a: string, inner: string, b: string)
    requires '>' !in a && '<' !in b && '>' !in b && BracketsClosed(inner, 0, |inner|)
    ensures TextContentOf("closed", "<" + a + ">" + inner + "<" + b + ">") == inner
  {
    var content := "<" + a + ">" + inner + "<" + b + ">";
    var o := |a| + 2;
    var c := o + |inner|;
    assert content[o..c] == inner;
    OpeningTag(content, a, inner + "<" + b + ">");
    assert FinalTag(content, c) by {
      assert content[c..] == "<" + b + ">";
    }
    forall i | o <= i < c && content[i] == '<'
      ensures exists j :: i < j < c && content[j] == '>'
    {
      assert inner[i - o] == '<';
      var j :| i - o < j < |inner| && inner[j] == '>';
      assert content[o + j] == '>';
    }
    ReachesFinalTag(content, o, c, None);
  }

  /** The first tag of `<a>rest` is `<a>` when `a` holds no `>`. */
  lemma OpeningTag(content: string, a: string, rest: string)
    requires content == "<" + a + ">" + rest && '>' !in a
    ensures FindTagPosition(content, 0) == Some((0, |a| + 2))
  {
    assert content[0] == '<';
    JsString.IndexOfAt(content, '<', 0, 0);
    forall k | 0 <= k < |a| + 1
      ensures content[k] != '>'
    {
      if k > 0 {
        assert content[k] == a[k - 1];
      }
    }
    assert content[|a| + 1] == '>';
    JsString.IndexOfAt(content, '>', 0, |a| + 1);
  }

  /** Markup with a single tag, such as a void element's `<br />`, reads as itself. */
  lemma SingleTag(a: string, rest: string)
    requires '>' !in a && '<' !in rest
    ensures TextContentOf("closed", "<" + a + ">" + rest) == "<" + a + ">" + rest
  {
    var content := "<" + a + ">" + rest;
    var o := |a| + 2;
    OpeningTag(content, a, rest);
    assert content[o..] == rest;
    assert JsString.IndexOf(content, '<', o) == -1;
  }
}
