/**
 * The tag analysers: `parseTag` with `mapAttributes` (src/Parser.js) and the older
 * `parseTagAttributes` (src/ParsedHTMLDocument.js). Both classify a `<…>` span as a closing,
 * open or void tag and read `name="value"` pairs and bare names with a character loop.
 */
module Tags {
  import opened Wrappers
  import opened JsString
  import opened Attributes

  datatype TagMode = Open | Closing | VoidTag

  datatype TagInfo = TagInfo(tagName: string, mode: TagMode, attributes: Attrs)

  /**
   * Where the attribute loop stands: it ran off the end with a pending name buffer, or it met an
   * `=` without two double quotes after it and set the cursor back to the start of the content.
   */
  datatype Scan = Scanned(attrs: Attrs, buf: string) | Stuck(attrs: Attrs)

  /** The closing quote of the value introduced by the `=` at `i`, or -1 when there is none. */
  function SecondQuote(c: string, i: nat): (r: int)
    ensures r == -1 || (i < r < |c| && c[r] == '"')
  {
    var q1 := IndexOf(c, '"', i);
    if q1 > -1 then IndexOf(c, '"', q1 + 1) else -1
  }

  /** The value between the two quotes following the `=` at `i`. */
  function QuotedValue(c: string, i: nat): (r: string)
    requires SecondQuote(c, i) > -1
    ensures '"' !in r
  {
    var q1 := IndexOf(c, '"', i);
    var q2 := IndexOf(c, '"', q1 + 1);
    c[q1 + 1..q2]
  }

  /**
   * The attribute loop from cursor `i` with name buffer `buf` and map `attrs`; `bare` is the value
   * given to a name without `=` (`null` in the newer parser, `true` in the older one).
   */
  function ScanFrom(c: string, i: nat, buf: string, attrs: Attrs, bare: Value): Scan
    decreases |c| - i
  {
    if i >= |c| then Scanned(attrs, buf)
    else if c[i] == '=' then
      var q2 := SecondQuote(c, i);
      if q2 > -1 then ScanFrom(c, q2 + 1, [], Put(attrs, buf, Str(QuotedValue(c, i))), bare)
      else Stuck(attrs)
    else if c[i] == ' ' then
      ScanFrom(c, i + 1, [], if buf != [] then Put(attrs, buf, bare) else attrs, bare)
    else ScanFrom(c, i + 1, buf + [c[i]], attrs, bare)
  }

  /** After the loop: a pending name, with its first `/` removed, becomes a bare attribute when non-empty. */
  function FinishBuffer(attrs: Attrs, buf: string, bare: Value): Attrs {
    if buf != [] && RemoveFirst(buf, '/') != [] then Put(attrs, RemoveFirst(buf, '/'), bare) else attrs
  }

  /** `mapAttributes(c)`; `None` when the loop never ends. */
  function MapAttributesSpec(c: string): Option<Attrs> {
    match ScanFrom(c, 0, [], [], Null)
    case Scanned(a, b) => Some(FinishBuffer(a, b, Null))
    case Stuck(_) => None
  }

  /** `parseTag(span)` against the void list `voidTags`; `None` when its attribute loop never ends. */
  function ParseTagSpec(span: string, voidTags: seq<string>): Option<TagInfo> {
    ContentTagSpec(TagContent(span), voidTags)
  }

  /** What `parseTag` analyses: the span without its first and last character, whitespace normalised. */
  function TagContent(span: string): string {
    Trim(Collapse(Substring(span, 1, |span| - 1)))
  }

  /** `parseTag` once the brackets are cut off and the whitespace is normalised into `c`. */
  function ContentTagSpec(c: string, voidTags: seq<string>): Option<TagInfo> {
    if c != [] && c[0] == '/' then Some(TagInfo(StripSpaces(c[1..]), Closing, []))
    else
      var k := IndexOf(c, ' ', 0);
      var name := if k > 0 then c[..k] else StripSpaces(c);
      var attrs := if k > 0 then MapAttributesSpec(c[k + 1..]) else Some([]);
      match attrs
      case None => None
      case Some(a) => Some(TagInfo(name, if ToLower(name) in voidTags then VoidTag else Open, a))
  }

  /** The attribute loop of `parseTagAttributes`: it starts after the tag name, and restarts once from 0. */
  function OlderScan(c: string, start: nat): Option<Attrs> {
    match ScanFrom(c, start, [], [], True)
    case Scanned(a, b) => Some(FinishBuffer(a, b, True))
    case Stuck(a) =>
      match ScanFrom(c, 0, [], a, True)
      case Scanned(a2, b2) => Some(FinishBuffer(a2, b2, True))
      case Stuck(_) => None
  }

  /** `parseTagAttributes(span)` with the document's `voidTags`; `None` when its loop never ends. */
  function ParseTagAttributesSpec(span: string, voidTags: seq<string>): Option<TagInfo> {
    OlderContentTagSpec(OlderTagContent(span), voidTags)
  }

  /** What `parseTagAttributes` analyses: the span without angle brackets, whitespace normalised. */
  function OlderTagContent(span: string): string {
    Trim(Collapse(RemoveBrackets(span)))
  }

  /** `parseTagAttributes` once the brackets are removed and the whitespace is normalised into `c`. */
  function OlderContentTagSpec(c: string, voidTags: seq<string>): Option<TagInfo> {
    var info :=
      if c != [] && c[0] == '/' then Some(TagInfo(StripSpaces(c[1..]), Closing, []))
      else
        var k := IndexOf(c, ' ', 0);
        if k > 0 then
          match OlderScan(c, k + 1)
          case Some(a) => Some(TagInfo(c[..k], Open, a))
          case None => None
        else Some(TagInfo(StripSpaces(c), Open, []));
    match info
    case None => None
    case Some(t) => Some(if ToLower(t.tagName) in voidTags then t.(mode := VoidTag) else t)
  }

  /** What the loops can put in a map: names without spaces or `=`, quote-free strings, and the bare value. */
  predicate GoodAttrs(attrs: Attrs, bare: Value) {
    DistinctKeys(attrs) &&
    forall e :: e in attrs ==>
      ' ' !in e.0 && '=' !in e.0 &&
      (e.1 == bare || (e.1.Str? && '"' !in e.1.s)) &&
      (e.1 == bare ==> e.0 != [])
  }

  /** The attribute loop only ever produces such maps. */
  lemma {:induction false} ScanGood(c: string, i: nat, buf: string, attrs: Attrs, bare: Value)
    requires !bare.Str?
    requires GoodAttrs(attrs, bare) && ' ' !in buf && '=' !in buf
    ensures GoodAttrs(ScanFrom(c, i, buf, attrs, bare).attrs, bare)
    ensures ScanFrom(c, i, buf, attrs, bare).Scanned? ==>
      var b := ScanFrom(c, i, buf, attrs, bare).buf; ' ' !in b && '=' !in b
    decreases |c| - i
  {
    if i < |c| {
      if c[i] == '=' {
        if SecondQuote(c, i) > -1 {
          ScanGood(c, SecondQuote(c, i) + 1, [], Put(attrs, buf, Str(QuotedValue(c, i))), bare);
        }
      } else if c[i] == ' ' {
        ScanGood(c, i + 1, [], if buf != [] then Put(attrs, buf, bare) else attrs, bare);
      } else {
        ScanGood(c, i + 1, buf + [c[i]], attrs, bare);
      }
    }
  }

  lemma FinishGood(attrs: Attrs, buf: string, bare: Value)
    requires !bare.Str?
    requires GoodAttrs(attrs, bare) && ' ' !in buf && '=' !in buf
    ensures GoodAttrs(FinishBuffer(attrs, buf, bare), bare)
  {
    if buf != [] {
      var n := RemoveFirst(buf, '/');
      assert forall ch :: ch in n ==> ch in buf;
    }
  }

  /**
   * `mapAttributes`: names hold no space or `=`; a quoted value holds no double quote; a bare name
   * is never empty and maps to `null`, never to the empty string.
   */
  lemma MapAttributesGood(c: string)
    requires MapAttributesSpec(c).Some?
    ensures GoodAttrs(MapAttributesSpec(c).value, Null)
  {
    ScanGood(c, 0, [], [], Null);
    var s := ScanFrom(c, 0, [], [], Null);
    FinishGood(s.attrs, s.buf, Null);
  }

  /** `parseTagAttributes`: the same shape, with `true` for bare names. */
  lemma ParseTagAttributesGood(span: string, voidTags: seq<string>)
    requires ParseTagAttributesSpec(span, voidTags).Some?
    ensures GoodAttrs(ParseTagAttributesSpec(span, voidTags).value.attributes, True)
  {
    OlderContentTagGood(OlderTagContent(span), voidTags);
  }

  lemma OlderContentTagGood(c: string, voidTags: seq<string>)
    requires OlderContentTagSpec(c, voidTags).Some?
    ensures GoodAttrs(OlderContentTagSpec(c, voidTags).value.attributes, True)
  {
    var k := IndexOf(c, ' ', 0);
    if !(c != [] && c[0] == '/') && k > 0 {
      ScanGood(c, k + 1, [], [], True);
      var s := ScanFrom(c, k + 1, [], [], True);
      if s.Scanned? {
        FinishGood(s.attrs, s.buf, True);
      } else {
        ScanGood(c, 0, [], s.attrs, True);
        var s2 := ScanFrom(c, 0, [], s.attrs, True);
        if s2.Scanned? {
          FinishGood(s2.attrs, s2.buf, True);
        }
      }
    }
  }

  /** Whitespace normalised as both analysers do it: no leading whitespace, and every whitespace character a plain space. */
  predicate Normalised(c: string) {
    (c == [] || !IsSpace(c[0])) && forall k :: 0 <= k < |c| && IsSpace(c[k]) ==> c[k] == ' '
  }

  /** Collapsing and then trimming normalises. */
  lemma TrimCollapseNormalised(x: string)
    ensures Normalised(Trim(Collapse(x)))
  {
    TrimPlainSpaces(Collapse(x));
  }

  lemma TrimPlainSpaces(s: string)
    requires forall k :: 0 <= k < |s| && IsSpace(s[k]) ==> s[k] == ' '
    ensures Normalised(Trim(s))
  {
    var c := Trim(s);
    var i, j :| 0 <= i <= j <= |s| && c == s[i..j] && AllSpace(s[..i]) && AllSpace(s[j..]);
    forall k | 0 <= k < |c| && IsSpace(c[k])
      ensures c[k] == ' '
    {
      assert c[k] == s[i + k];
    }
  }

  /** A normalised string without a plain space has no whitespace at all. */
  lemma NormalisedNoSpace(c: string)
    requires Normalised(c) && ' ' !in c
    ensures NoSpace(c)
  {
  }

  /**
   * `parseTag` on normalised content `c`: a leading `/` makes a closing tag named by the rest
   * without whitespace and with no attributes; otherwise the name is all of `c` when it holds no
   * space, and else the part before the first space, with the attributes `mapAttributes` reads
   * from the part after it; such a tag is void exactly when its lower-cased name is listed. The
   * name never holds whitespace and the map has the shape `GoodAttrs` describes.
   */
  lemma ContentTagMeaning(c: string, voidTags: seq<string>)
    requires Normalised(c) && ContentTagSpec(c, voidTags).Some?
    ensures var t := ContentTagSpec(c, voidTags).value;
      && (t.mode == Closing <==> c != [] && c[0] == '/')
      && (t.mode == Closing ==> t.tagName == StripSpaces(c[1..]) && t.attributes == [])
      && (t.mode != Closing ==> (t.mode == VoidTag <==> ToLower(t.tagName) in voidTags))
      && (t.mode != Closing && ' ' !in c ==> t.tagName == c && t.attributes == [])
      && (t.mode != Closing && ' ' in c ==>
            exists rest :: c == t.tagName + [' '] + rest && MapAttributesSpec(rest) == Some(t.attributes))
      && NoSpace(t.tagName)
      && GoodAttrs(t.attributes, Null)
  {
    var t := ContentTagSpec(c, voidTags).value;
    if !(c != [] && c[0] == '/') {
      var k := IndexOf(c, ' ', 0);
      if k > 0 {
        var rest := c[k + 1..];
        assert c == c[..k] + [' '] + rest;
        MapAttributesGood(rest);
        assert NoSpace(c[..k]) by {
          forall j | 0 <= j < k
            ensures !IsSpace(c[..k][j])
          {
            assert c[..k][j] == c[j];
          }
        }
      } else {
        assert k == -1;
        NormalisedNoSpace(c);
      }
    }
  }

  /**
   * `parseTagAttributes` on normalised content `c`: a tag is void exactly when its lower-cased
   * name is listed, closing tags included; otherwise it is closing exactly when `c` starts with
   * `/`. A closing tag is named by the rest without whitespace and has no attributes; an open tag
   * is named by all of `c` when it holds no space, and else by the part before the first space.
   * The name never holds whitespace and the map has the shape `GoodAttrs` describes.
   */
  lemma OlderContentTagMeaning(c: string, voidTags: seq<string>)
    requires Normalised(c) && OlderContentTagSpec(c, voidTags).Some?
    ensures var t := OlderContentTagSpec(c, voidTags).value;
      && (t.mode == VoidTag <==> ToLower(t.tagName) in voidTags)
      && (t.mode == Closing <==> c != [] && c[0] == '/' && ToLower(t.tagName) !in voidTags)
      && (c != [] && c[0] == '/' ==> t.tagName == StripSpaces(c[1..]) && t.attributes == [])
      && (!(c != [] && c[0] == '/') && ' ' !in c ==> t.tagName == c && t.attributes == [])
      && (!(c != [] && c[0] == '/') && ' ' in c ==> exists rest :: c == t.tagName + [' '] + rest)
      && NoSpace(t.tagName)
      && GoodAttrs(t.attributes, True)
  {
    OlderContentTagGood(c, voidTags);
    if !(c != [] && c[0] == '/') {
      var k := IndexOf(c, ' ', 0);
      if k > 0 {
        assert c == c[..k] + [' '] + c[k + 1..];
        assert NoSpace(c[..k]) by {
          forall j | 0 <= j < k
            ensures !IsSpace(c[..k][j])
          {
            assert c[..k][j] == c[j];
          }
        }
      } else {
        assert k == -1;
        NormalisedNoSpace(c);
      }
    }
  }

  /**
   * Whether the loop gets stuck does not depend on the buffer or the map. A stuck scan of
   * `mapAttributes` restarts at 0 with an empty buffer, exactly as it began, so it is stuck again,
   * and forever.
   */
  lemma {:induction false} StuckRegardless(c: string, i: nat, buf: string, attrs: Attrs, buf2: string, attrs2: Attrs, bare: Value)
    ensures ScanFrom(c, i, buf, attrs, bare).Stuck? == ScanFrom(c, i, buf2, attrs2, bare).Stuck?
    decreases |c| - i
  {
    if i < |c| {
      if c[i] == '=' {
        if SecondQuote(c, i) > -1 {
          StuckRegardless(c, SecondQuote(c, i) + 1, [], Put(attrs, buf, Str(QuotedValue(c, i))), [], Put(attrs2, buf2, Str(QuotedValue(c, i))), bare);
        }
      } else if c[i] == ' ' {
        StuckRegardless(c, i + 1, [], if buf != [] then Put(attrs, buf, bare) else attrs,
                        [], if buf2 != [] then Put(attrs2, buf2, bare) else attrs2, bare);
      } else {
        StuckRegardless(c, i + 1, buf + [c[i]], attrs, buf2 + [c[i]], attrs2, bare);
      }
    }
  }

  /** A run of characters other than space and `=` only grows the name buffer. */
  lemma {:induction false} ScanWord(c: string, i: nat, n: nat, buf: string, attrs: Attrs, bare: Value)
    requires i + n <= |c|
    requires forall j :: i <= j < i + n ==> c[j] != ' ' && c[j] != '='
    ensures ScanFrom(c, i, buf, attrs, bare) == ScanFrom(c, i + n, buf + c[i..i + n], attrs, bare)
    decreases n
  {
    if n > 0 {
      ScanWord(c, i + 1, n - 1, buf + [c[i]], attrs, bare);
      assert c[i..i + n] == [c[i]] + c[i + 1..i + n];
      assert buf + [c[i]] + c[i + 1..i + n] == buf + c[i..i + n];
    } else {
      assert buf + c[i..i] == buf;
    }
  }

  /** An `=` followed by `"value"`: the buffered name is bound to the value and the loop resumes after the closing quote. */
  lemma ScanQuoted(c: string, e: nat, q: nat, n: nat, v: string, buf: string, attrs: Attrs, bare: Value)
    requires e + 1 < q < |c| && n == q + 1 && c[e] == '=' && c[e + 1] == '"' && c[q] == '"'
    requires forall j :: e + 2 <= j < q ==> c[j] != '"'
    requires c[e + 2..q] == v
    ensures ScanFrom(c, e, buf, attrs, bare) == ScanFrom(c, n, [], Put(attrs, buf, Str(v)), bare)
  {
    QuoteLayout(c, e, q, v);
    ScanStep(c, e, buf, attrs, bare);
  }

  /** The two double quotes `SecondQuote` and `QuotedValue` find after an `=` at `e`. */
  lemma QuoteLayout(c: string, e: nat, q: nat, v: string)
    requires e + 1 < q < |c| && c[e] == '=' && c[e + 1] == '"' && c[q] == '"'
    requires forall j :: e + 2 <= j < q ==> c[j] != '"'
    requires c[e + 2..q] == v
    ensures SecondQuote(c, e) == q && QuotedValue(c, e) == v
  {
    IndexOfAt(c, '"', e, e + 1);
    IndexOfAt(c, '"', e + 2, q);
  }

  /**
   * A `name="value"` segment at `i` (the name free of spaces and `=`, the value free of double
   * quotes) binds the name, after whatever was buffered, to the string value; the loop resumes
   * with an empty buffer at `n`, just after the closing quote.
   */
  lemma ScanPair(c: string, i: nat, n: nat, k: string, v: string, buf: string, attrs: Attrs, bare: Value)
    requires i <= n <= |c| && c[i..n] == k + "=\"" + v + "\""
    requires ' ' !in k && '=' !in k && '"' !in v
    ensures ScanFrom(c, i, buf, attrs, bare) == ScanFrom(c, n, [], Put(attrs, buf + k, Str(v)), bare)
  {
    PairLayout(c, i, k, v);
    ScanPairAt(c, i, i + |k|, i + |k| + 2 + |v|, n, k, v, buf, attrs, bare);
  }

  /** `ScanPair` with the positions of the `=`, the closing quote and the character after it named. */
  lemma ScanPairAt(c: string, i: nat, e: nat, q: nat, n: nat, k: string, v: string, buf: string, attrs: Attrs, bare: Value)
    requires e == i + |k| && q == e + 2 + |v| && n == q + 1 && q < |c|
    requires forall j :: i <= j < e ==> c[j] != ' ' && c[j] != '='
    requires c[i..e] == k && c[e + 2..q] == v
    requires c[e] == '=' && c[e + 1] == '"' && c[q] == '"'
    requires forall j :: e + 2 <= j < q ==> c[j] != '"'
    ensures ScanFrom(c, i, buf, attrs, bare) == ScanFrom(c, n, [], Put(attrs, buf + k, Str(v)), bare)
  {
    ScanName(c, i, e, k, buf, attrs, bare);
    ScanQuoted(c, e, q, n, v, buf + k, attrs, bare);
  }

  /** `ScanWord` over a run spelled out as `k`. */
  lemma ScanName(c: string, i: nat, e: nat, k: string, buf: string, attrs: Attrs, bare: Value)
    requires e == i + |k| <= |c| && c[i..e] == k
    requires forall j :: i <= j < e ==> c[j] != ' ' && c[j] != '='
    ensures ScanFrom(c, i, buf, attrs, bare) == ScanFrom(c, e, buf + k, attrs, bare)
  {
    ScanWord(c, i, |k|, buf, attrs, bare);
  }

  /** Where the characters of a `name="value"` segment at `i` sit in `c`. */
  lemma PairLayout(c: string, i: nat, k: string, v: string)
    requires i + |k| + |v| + 3 <= |c| && c[i..i + |k| + |v| + 3] == k + "=\"" + v + "\""
    requires ' ' !in k && '=' !in k && '"' !in v
    ensures forall j :: i <= j < i + |k| ==> c[j] != ' ' && c[j] != '='
    ensures c[i..i + |k|] == k
    ensures c[i + |k|] == '=' && c[i + |k| + 1] == '"' && c[i + |k| + 2 + |v|] == '"'
    ensures forall j :: i + |k| + 2 <= j < i + |k| + 2 + |v| ==> c[j] != '"'
    ensures c[i + |k| + 2..i + |k| + 2 + |v|] == v
  {
    var seg := c[i..i + |k| + |v| + 3];
    var e := i + |k|;
    forall j | i <= j < e
      ensures c[j] != ' ' && c[j] != '='
    {
      assert c[j] == seg[j - i] == k[j - i];
    }
    assert seg[..|k|] == k;
    assert c[i..e] == seg[..|k|];
    assert c[e] == seg[|k|] && c[e + 1] == seg[|k| + 1] && c[e + 2 + |v|] == seg[|k| + 2 + |v|];
    forall j | e + 2 <= j < e + 2 + |v|
      ensures c[j] != '"'
    {
      assert c[j] == seg[j - i] == v[j - e - 2];
    }
    forall j | 0 <= j < |v|
      ensures c[e + 2..e + 2 + |v|][j] == v[j]
    {
      assert c[e + 2 + j] == seg[|k| + 2 + j];
    }
  }

  /**
   * A bare name followed by a space binds the name, after whatever was buffered, to `bare` (`null`
   * in `mapAttributes`, `true` in `parseTagAttributes`); an empty name binds nothing.
   */
  lemma ScanBare(c: string, i: nat, k: string, buf: string, attrs: Attrs, bare: Value)
    requires i + |k| < |c| && c[i..i + |k| + 1] == k + " "
    requires ' ' !in k && '=' !in k
    ensures ScanFrom(c, i, buf, attrs, bare) ==
      ScanFrom(c, i + |k| + 1, [], if buf + k != [] then Put(attrs, buf + k, bare) else attrs, bare)
  {
    BareLayout(c, i, k);
    ScanWord(c, i, |k|, buf, attrs, bare);
    ScanStep(c, i + |k|, buf + k, attrs, bare);
  }

  lemma BareLayout(c: string, i: nat, k: string)
    requires i + |k| < |c| && c[i..i + |k| + 1] == k + " "
    requires ' ' !in k && '=' !in k
    ensures forall j :: i <= j < i + |k| ==> c[j] != ' ' && c[j] != '='
    ensures c[i..i + |k|] == k && c[i + |k|] == ' '
  {
    var seg := c[i..i + |k| + 1];
    forall j | i <= j < i + |k|
      ensures c[j] != ' ' && c[j] != '='
    {
      assert c[j] == seg[j - i] == k[j - i];
    }
    assert seg[..|k|] == k;
    assert c[i..i + |k|] == seg[..|k|];
    assert c[i + |k|] == seg[|k|];
  }

  /** A last stretch without spaces and `=` is left in the buffer, for `FinishBuffer` to bind. */
  lemma ScanRest(c: string, i: nat, buf: string, attrs: Attrs, bare: Value)
    requires i <= |c| && ' ' !in c[i..] && '=' !in c[i..]
    ensures ScanFrom(c, i, buf, attrs, bare) == Scanned(attrs, buf + c[i..])
  {
    forall j | i <= j < |c|
      ensures c[j] != ' ' && c[j] != '='
    {
      assert c[j] == c[i..][j - i];
    }
    ScanWord(c, i, |c| - i, buf, attrs, bare);
    assert c[i..|c|] == c[i..];
  }

  /** The four cases of one step of the attribute loop at cursor `i`, unfolded for `AttributeStep`. */
  lemma ScanStep(c: string, i: nat, buf: string, attrs: Attrs, bare: Value)
    requires i < |c|
    ensures c[i] == '=' && SecondQuote(c, i) > -1 ==>
      ScanFrom(c, i, buf, attrs, bare) == ScanFrom(c, SecondQuote(c, i) + 1, [], Put(attrs, buf, Str(QuotedValue(c, i))), bare)
    ensures c[i] == '=' && SecondQuote(c, i) == -1 ==> ScanFrom(c, i, buf, attrs, bare) == Stuck(attrs)
    ensures c[i] == ' ' ==>
      ScanFrom(c, i, buf, attrs, bare) == ScanFrom(c, i + 1, [], if buf != [] then Put(attrs, buf, bare) else attrs, bare)
    ensures c[i] != '=' && c[i] != ' ' ==> ScanFrom(c, i, buf, attrs, bare) == ScanFrom(c, i + 1, buf + [c[i]], attrs, bare)
  {
  }

  /**
   * One pass of the attribute loop's body at cursor `i`, with `bare` for a name without `=`.
   * `next` is the cursor after the loop's increment; `stuck` when an `=` without two double
   * quotes after it sent the cursor back to the start.
   */
  method AttributeStep(c: string, i: nat, buf: string, attrs: Attrs, bare: Value)
    returns (stuck: bool, next: nat, buf': string, attrs': Attrs)
    requires i < |c|
    ensures stuck ==> ScanFrom(c, i, buf, attrs, bare) == Stuck(attrs) && next == 0 && buf' == [] && attrs' == attrs
    ensures !stuck ==> i < next <= |c| && ScanFrom(c, next, buf', attrs', bare) == ScanFrom(c, i, buf, attrs, bare)
  {
    ScanStep(c, i, buf, attrs, bare);
    stuck, buf', attrs' := false, [], attrs;
    if c[i] == '=' {
      var q2 := SecondQuote(c, i);
      if q2 > -1 {
        attrs' := Put(attrs, buf, Str(QuotedValue(c, i)));
        next := q2 + 1;
      } else {
        stuck, next := true, 0;
      }
    } else if c[i] == ' ' {
      if buf != [] {
        attrs' := Put(attrs, buf, bare);
      }
      next := i + 1;
    } else {
      buf' := buf + [c[i]];
      next := i + 1;
    }
  }

  /** `mapAttributes(c)`: the character loop itself, for content on which it terminates. */
  method MapAttributes(c: string) returns (attrs: Attrs)
    requires MapAttributesSpec(c).Some?
    ensures MapAttributesSpec(c) == Some(attrs)
  {
    attrs := [];
    var buf: string := [];
    var i: nat := 0;
    while i < |c|
      invariant i <= |c|
      invariant ScanFrom(c, i, buf, attrs, Null) == ScanFrom(c, 0, [], [], Null)
      decreases |c| - i
    {
      var stuck;
      stuck, i, buf, attrs := AttributeStep(c, i, buf, attrs, Null);
      if stuck {
        // the cursor went back to the start: excluded by the precondition
        assert false;
      }
    }
    if buf != [] {
      var name := RemoveFirst(buf, '/');
      if name != [] {
        attrs := Put(attrs, name, Null);
      }
    }
  }

  /** `parseTag(span)`: the newer tag analyser, for spans on which it terminates. */
  method ParseTag(span: string, voidTags: seq<string>) returns (info: TagInfo)
    requires ParseTagSpec(span, voidTags).Some?
    ensures ParseTagSpec(span, voidTags) == Some(info)
    ensures info.mode == Closing <==> TagContent(span) != [] && TagContent(span)[0] == '/'
    ensures info.mode == Closing ==> info.tagName == StripSpaces(TagContent(span)[1..]) && info.attributes == []
    ensures info.mode != Closing ==> (info.mode == VoidTag <==> ToLower(info.tagName) in voidTags)
    ensures NoSpace(info.tagName) && GoodAttrs(info.attributes, Null)
  {
    var c := Substring(span, 1, |span| - 1);
    c := Trim(Collapse(c));
    info := ContentTag(c, voidTags);
    TrimCollapseNormalised(Substring(span, 1, |span| - 1));
    ContentTagMeaning(c, voidTags);
  }

  /** The part of `parseTag` after the whitespace is normalised. */
  method ContentTag(c: string, voidTags: seq<string>) returns (info: TagInfo)
    requires ContentTagSpec(c, voidTags).Some?
    ensures ContentTagSpec(c, voidTags) == Some(info)
  {
    if c != [] && c[0] == '/' {
      return TagInfo(StripSpaces(c[1..]), Closing, []);
    }
    var name: string;
    var attrs: Attrs := [];
    var k := IndexOf(c, ' ', 0);
    if k > 0 {
      name := c[..k];
      attrs := MapAttributes(c[k + 1..]);
    } else {
      name := StripSpaces(c);
    }
    var mode := Open;
    if ToLower(name) in voidTags {
      mode := VoidTag;
    }
    info := TagInfo(name, mode, attrs);
  }

  /** The loop of `parseTagAttributes`, from just after the tag name; one restart from 0 is part of its run. */
  method OlderAttributeLoop(c: string, start: nat) returns (attrs: Attrs)
    requires start <= |c| && OlderScan(c, start).Some?
    ensures OlderScan(c, start) == Some(attrs)
  {
    attrs := [];
    var buf: string := [];
    var i: nat := start;
    ghost var restarted := false;
    ghost var first := ScanFrom(c, start, [], [], True);
    ghost var target := if first.Scanned? then first else ScanFrom(c, 0, [], first.attrs, True);
    while i < |c|
      invariant 0 <= i <= |c|
      invariant target.Scanned?
      invariant Continue(c, i, buf, attrs, restarted) == target
      decreases if restarted then 0 else 1, |c| - i
    {
      var stuck;
      stuck, i, buf, attrs := AttributeStep(c, i, buf, attrs, True);
      if stuck {
        if restarted {
          // a second return to the start would repeat forever: excluded by the precondition
          assert false;
        }
        restarted := true;
      }
    }
    if buf != [] {
      var name := RemoveFirst(buf, '/');
      if name != [] {
        attrs := Put(attrs, name, True);
      }
    }
  }

  /** Where the older loop ends up from cursor `i`: before the restart a stuck scan goes back to 0 once. */
  ghost function Continue(c: string, i: nat, buf: string, attrs: Attrs, restarted: bool): Scan {
    var s := ScanFrom(c, i, buf, attrs, True);
    if !restarted && s.Stuck? then ScanFrom(c, 0, [], s.attrs, True) else s
  }

  /** `parseTagAttributes(span)`: the older tag analyser, for spans on which it terminates. */
  method ParseTagAttributes(span: string, voidTags: seq<string>) returns (info: TagInfo)
    requires ParseTagAttributesSpec(span, voidTags).Some?
    ensures ParseTagAttributesSpec(span, voidTags) == Some(info)
    ensures info.mode == VoidTag <==> ToLower(info.tagName) in voidTags
    ensures info.mode == Closing <==>
      OlderTagContent(span) != [] && OlderTagContent(span)[0] == '/' && ToLower(info.tagName) !in voidTags
    ensures OlderTagContent(span) != [] && OlderTagContent(span)[0] == '/' ==>
      info.tagName == StripSpaces(OlderTagContent(span)[1..]) && info.attributes == []
    ensures NoSpace(info.tagName) && GoodAttrs(info.attributes, True)
  {
    var c := Trim(Collapse(RemoveBrackets(span)));
    info := OlderContentTag(c, voidTags);
    TrimCollapseNormalised(RemoveBrackets(span));
    OlderContentTagMeaning(c, voidTags);
  }

  /** The part of `parseTagAttributes` after the whitespace is normalised. */
  method OlderContentTag(c: string, voidTags: seq<string>) returns (info: TagInfo)
    requires OlderContentTagSpec(c, voidTags).Some?
    ensures OlderContentTagSpec(c, voidTags) == Some(info)
  {
    if c != [] && c[0] == '/' {
      info := TagInfo(StripSpaces(c[1..]), Closing, []);
    } else {
      var k := IndexOf(c, ' ', 0);
      if k > 0 {
        var attrs := OlderAttributeLoop(c, k + 1);
        info := TagInfo(c[..k], Open, attrs);
      } else {
        info := TagInfo(StripSpaces(c), Open, []);
      }
    }
    if ToLower(info.tagName) in voidTags {
      info := info.(mode := VoidTag);
    }
  }
}
