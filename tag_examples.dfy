/**
 * The repository's own tag cases, worked through the tag analysers: the general lemmas about the
 * attribute loop (`ScanPair`, `ScanBare`, `ScanRest`) and about the whitespace normalisation
 * (`CollapseJoin`, `TrimUnique`) carry each span to its result.
 */
module TagExamples {
  import opened Wrappers
  import opened JsString
  import opened Attributes
  import opened Tags
  import Config
  import Dom

  /** `parseTag` on `<name attr>`: the name, and the bare attribute mapped to `null`. */
  lemma BareAttributeTag(name: string, attr: string, voidTags: seq<string>)
    requires name != [] && NoSpace(name) && name[0] != '/'
    requires attr != [] && NoSpace(attr) && '=' !in attr && '/' !in attr
    ensures ParseTagSpec("<" + name + " " + attr + ">", voidTags) ==
      Some(TagInfo(name, if ToLower(name) in voidTags then VoidTag else Open, [(attr, Null)]))
  {
    var x := name + " " + attr;
    BareContent(name, attr);
    BareMap(attr);
    NameThenAttributes(x, name, attr, voidTags);
  }

  /** A content that starts with a name and a space: the name is the tag's, the rest its attributes. */
  lemma NameThenAttributes(c: string, name: string, rest: string, voidTags: seq<string>)
    requires name != [] && NoSpace(name) && name[0] != '/' && c == name + " " + rest
    ensures ContentTagSpec(c, voidTags) ==
      match MapAttributesSpec(rest)
      case None => None
      case Some(a) => Some(TagInfo(name, if ToLower(name) in voidTags then VoidTag else Open, a))
  {
    IndexOfAt(c, ' ', 0, |name|);
    assert c[..|name|] == name && c[|name| + 1..] == rest;
  }

  lemma BareContent(name: string, attr: string)
    requires name != [] && NoSpace(name) && attr != [] && NoSpace(attr)
    ensures TagContent("<" + name + " " + attr + ">") == name + " " + attr
  {
    var span := "<" + name + " " + attr + ">";
    var x := name + " " + attr;
    assert Substring(span, 1, |span| - 1) == x by {
      assert span[1..|span| - 1] == x;
    }
    assert Collapse(x) == x by {
      CollapseJoin(name, " ", attr);
    }
    assert Trim(x) == x by {
      assert x[0] == name[0] && x[|x| - 1] == attr[|attr| - 1];
      TrimWhole(x);
    }
  }

  lemma BareMap(attr: string)
    requires attr != [] && NoSpace(attr) && '=' !in attr && '/' !in attr
    ensures MapAttributesSpec(attr) == Some([(attr, Null)])
  {
    assert ScanFrom(attr, 0, [], [], Null) == Scanned([], attr) by {
      ScanRest(attr, 0, [], [], Null);
      assert [] + attr[0..] == attr;
    }
    assert FinishBuffer([], attr, Null) == [(attr, Null)] by {
      assert RemoveFirst(attr, '/') == attr;
      assert Put([], attr, Null) == [(attr, Null)];
    }
  }

  /** `parseTag('<div implicit>')`, the case of _test/parser.test.js: the attribute `implicit` is `null`. */
  lemma ImplicitNull()
    ensures ParseTagSpec("<div implicit>", Config.DefaultVoidTags) == Some(TagInfo("div", Open, [("implicit", Null)]))
  {
    ImplicitFacts();
    BareAttributeTag("div", "implicit", Config.DefaultVoidTags);
  }

  lemma ImplicitFacts()
    ensures NoSpace("div") && NoSpace("implicit") && '=' !in "implicit" && '/' !in "implicit"
    ensures ToLower("div") == "div" && "div" !in Config.DefaultVoidTags
    ensures "<div implicit>" == "<" + "div" + " " + "implicit" + ">"
  {
  }

  // ---------------------------------------------------------------------------------------------
  // Quoted attributes, one after the other

  /** An attribute as a tag spells it: `name="value"`, with or without a space after it. */
  datatype Written = Written(name: string, value: string, spaced: bool)

  function Text(w: Written): string {
    w.name + "=\"" + w.value + "\"" + (if w.spaced then " " else "")
  }

  function Texts(ws: seq<Written>): string {
    if ws == [] then [] else Text(ws[0]) + Texts(ws[1..])
  }

  /** A name the loop reads whole, and a value that the closing quote ends. */
  predicate Readable(w: Written) {
    ' ' !in w.name && '=' !in w.name && '"' !in w.value
  }

  /** The map after binding each name, in order, to its string value. */
  function PutAll(attrs: Attrs, ws: seq<Written>): Attrs
    decreases |ws|
  {
    if ws == [] then attrs else PutAll(Put(attrs, ws[0].name, Str(ws[0].value)), ws[1..])
  }

  /** One quoted attribute spelled at `i`, ending before `k`: the name is bound to the value and the loop resumes at `k`. */
  lemma ScanOneAt(c: string, i: nat, k: nat, w: Written, attrs: Attrs, bare: Value)
    requires Readable(w) && i <= k <= |c| && c[i..k] == Text(w)
    ensures ScanFrom(c, i, [], attrs, bare) == ScanFrom(c, k, [], Put(attrs, w.name, Str(w.value)), bare)
  {
    var e := i + |w.name| + |w.value| + 3;
    assert c[i..e] == w.name + "=\"" + w.value + "\"" && (w.spaced ==> e < |c| && c[e] == ' ' && k == e + 1) && (!w.spaced ==> k == e) by {
      TextLayout(c, i, k, w);
    }
    assert [] + w.name == w.name;
    ScanPair(c, i, e, w.name, w.value, [], attrs, bare);
    if w.spaced {
      SkipSpace(c, e, k, Put(attrs, w.name, Str(w.value)), bare);
    }
  }

  /** Where the pair and the optional space of `Text(w)` sit when `c[i..k]` spells it. */
  lemma TextLayout(c: string, i: nat, k: nat, w: Written)
    requires i <= k <= |c| && c[i..k] == Text(w)
    ensures i + |w.name| + |w.value| + 3 <= k
    ensures c[i..i + |w.name| + |w.value| + 3] == w.name + "=\"" + w.value + "\""
    ensures w.spaced ==> k == i + |w.name| + |w.value| + 4 && c[k - 1] == ' '
    ensures !w.spaced ==> k == i + |w.name| + |w.value| + 3
  {
    var core := w.name + "=\"" + w.value + "\"";
    var e := i + |core|;
    assert Text(w) == core + (if w.spaced then " " else "");
    assert c[i..e] == c[i..k][..|core|];
    if w.spaced {
      assert c[k - 1] == c[i..k][|core|];
    }
  }

  /**
   * A run of quoted attributes spelled from `i` to `j`: the loop binds each name to its value, in
   * order, and resumes at `j` with an empty buffer.
   */
  lemma {:induction false} ScanWritten(c: string, i: nat, j: nat, ws: seq<Written>, attrs: Attrs, bare: Value)
    requires forall w :: w in ws ==> Readable(w)
    requires i <= j <= |c| && c[i..j] == Texts(ws)
    ensures ScanFrom(c, i, [], attrs, bare) == ScanFrom(c, j, [], PutAll(attrs, ws), bare)
    decreases |ws|
  {
    if ws == [] {
      assert i == j;
    } else {
      var w, rest := ws[0], ws[1..];
      var k := i + |Text(w)|;
      assert c[i..k] == Text(w) && c[k..j] == Texts(rest) by {
        SliceSplit(c, i, k, j, Text(w), Texts(rest));
      }
      assert forall v :: v in rest ==> v in ws;
      ScanOneAt(c, i, k, w, attrs, bare);
      ScanWritten(c, k, j, rest, Put(attrs, w.name, Str(w.value)), bare);
    }
  }

  /** A slice spelling `x + y` splits where `x` ends. */
  lemma SliceSplit(c: string, i: nat, k: nat, j: nat, x: string, y: string)
    requires i <= j <= |c| && c[i..j] == x + y && k == i + |x|
    ensures k <= j && c[i..k] == x && c[k..j] == y
  {
    assert c[i..k] == c[i..j][..|x|];
    assert c[k..j] == c[i..j][|x|..];
  }

  /** A space with nothing buffered changes nothing. */
  lemma SkipSpace(c: string, j: nat, k: nat, attrs: Attrs, bare: Value)
    requires j < |c| && c[j] == ' ' && k == j + 1
    ensures ScanFrom(c, j, [], attrs, bare) == ScanFrom(c, k, [], attrs, bare)
  {
  }

  // ---------------------------------------------------------------------------------------------
  // The older parser on whole spans

  /** A tag content the older normalisation leaves as it is: collapsed, bracket-free, no space at either end. */
  predicate Clean(c: string) {
    c != [] && Collapsed(c) && '<' !in c && '>' !in c && !IsSpace(c[0]) && !IsSpace(c[|c| - 1])
  }

  /** Brackets around a clean content come off, and normalisation leaves it unchanged. */
  lemma BracketedContent(c: string)
    requires Clean(c)
    ensures OlderTagContent("<" + c + ">") == c
  {
    BracketsOff(c);
    CollapseIdle(c);
    TrimWhole(c);
  }

  lemma BracketsOff(c: string)
    requires '<' !in c && '>' !in c
    ensures RemoveBrackets("<" + c + ">") == c
  {
    RemoveBracketsAppend("<" + c, ">");
    RemoveBracketsAppend("<", c);
    assert RemoveBrackets("<") == [] && RemoveBrackets(">") == [];
  }

  lemma TrimWhole(c: string)
    requires c != [] && !IsSpace(c[0]) && !IsSpace(c[|c| - 1])
    ensures Trim(c) == c
  {
    assert c[..0] == [] && c[|c|..] == [] && c[0..|c|] == c;
    TrimUnique(c, 0, |c|);
  }

  /** A bracket-free word without whitespace is clean. */
  lemma CleanWord(w: string)
    requires w != [] && NoSpace(w) && '<' !in w && '>' !in w
    ensures Clean(w)
  {
    assert !IsSpace(w[0]) && !IsSpace(w[|w| - 1]);
  }

  /** Two clean contents joined by one space make a clean content. */
  lemma CleanJoin(a: string, b: string)
    requires Clean(a) && Clean(b)
    ensures Clean(a + " " + b)
  {
    var s := a + " " + b;
    forall k | 0 <= k < |s| && IsSpace(s[k])
      ensures s[k] == ' '
    {
      if k < |a| {
        assert s[k] == a[k];
      } else if k > |a| {
        assert s[k] == b[k - |a| - 1];
      }
    }
    forall k | 0 <= k < |s| - 1
      ensures !(IsSpace(s[k]) && IsSpace(s[k + 1]))
    {
      if k + 1 < |a| {
        assert s[k] == a[k] && s[k + 1] == a[k + 1];
      } else if k > |a| {
        assert s[k] == b[k - |a| - 1] && s[k + 1] == b[k - |a|];
      } else if k + 1 == |a| {
        assert s[k] == a[|a| - 1];
      } else {
        assert s[k + 1] == b[0];
      }
    }
    assert s[0] == a[0] && s[|s| - 1] == b[|b| - 1];
  }

  /** `Texts` of three attributes, spelled out. */
  lemma Texts3(w1: Written, w2: Written, w3: Written)
    ensures Texts([w1, w2, w3]) == Text(w1) + (Text(w2) + (Text(w3) + []))
  {
    assert Texts([w3]) == Text(w3) + [] by {
      assert [w3][1..] == [];
    }
    assert Texts([w2, w3]) == Text(w2) + Texts([w3]) by {
      assert [w2, w3][1..] == [w3];
    }
    assert Texts([w1, w2, w3]) == Text(w1) + Texts([w2, w3]) by {
      assert [w1, w2, w3][1..] == [w2, w3];
    }
  }

  /** `PutAll` of three attributes, spelled out. */
  lemma PutAll3(a: Attrs, w1: Written, w2: Written, w3: Written)
    ensures PutAll(a, [w1, w2, w3]) == Put(Put(Put(a, w1.name, Str(w1.value)), w2.name, Str(w2.value)), w3.name, Str(w3.value))
  {
    var a1 := Put(a, w1.name, Str(w1.value));
    var a2 := Put(a1, w2.name, Str(w2.value));
    var a3 := Put(a2, w3.name, Str(w3.value));
    assert PutAll(a2, [w3]) == a3 by {
      assert [w3][1..] == [];
    }
    assert PutAll(a1, [w2, w3]) == PutAll(a2, [w3]) by {
      assert [w2, w3][1..] == [w3];
    }
    assert PutAll(a, [w1, w2, w3]) == PutAll(a1, [w2, w3]) by {
      assert [w1, w2, w3][1..] == [w2, w3];
    }
  }

  /** `Texts` of four attributes, spelled out. */
  lemma Texts4(w1: Written, w2: Written, w3: Written, w4: Written)
    ensures Texts([w1, w2, w3, w4]) == Text(w1) + (Text(w2) + (Text(w3) + (Text(w4) + [])))
  {
    Texts3(w2, w3, w4);
    assert [w1, w2, w3, w4][1..] == [w2, w3, w4];
  }

  /** `PutAll` of four attributes, spelled out. */
  lemma PutAll4(a: Attrs, w1: Written, w2: Written, w3: Written, w4: Written)
    ensures PutAll(a, [w1, w2, w3, w4]) ==
      Put(Put(Put(Put(a, w1.name, Str(w1.value)), w2.name, Str(w2.value)), w3.name, Str(w3.value)), w4.name, Str(w4.value))
  {
    PutAll3(Put(a, w1.name, Str(w1.value)), w2, w3, w4);
    assert [w1, w2, w3, w4][1..] == [w2, w3, w4];
  }

  /** Re-associating `name + " " + t1 + t2 + t3 + t4 + last`. */
  lemma TextsLayout4(name: string, t1: string, t2: string, t3: string, t4: string, last: string)
    ensures name + " " + t1 + t2 + t3 + t4 + last == name + " " + (t1 + (t2 + (t3 + (t4 + []))) + last)
  {
    assert t4 + [] == t4;
  }

  /** Binding a name the map does not hold appends it. */
  lemma PutNew(a: Attrs, name: string, v: Value)
    requires forall e :: e in a ==> e.0 != name
    ensures Put(a, name, v) == a + [(name, v)]
  {
    assert !Has(a, name) by {
      forall k | 0 <= k < |a|
        ensures Keys(a)[k] != name
      {
        assert a[k] in a;
      }
    }
  }

  /**
   * `parseTagAttributes` on a content made of a name, a space, quoted attributes and a last bare
   * name: the quoted attributes are bound in order, then the bare name to `true`.
   */
  lemma OlderWrittenTag(c: string, name: string, ws: seq<Written>, last: string, voidTags: seq<string>)
    requires name != [] && NoSpace(name) && name[0] != '/'
    requires forall w :: w in ws ==> Readable(w)
    requires ' ' !in last && '=' !in last
    requires c == name + " " + (Texts(ws) + last)
    ensures OlderContentTagSpec(c, voidTags) ==
      Some(TagInfo(name, if ToLower(name) in voidTags then VoidTag else Open, FinishBuffer(PutAll([], ws), last, True)))
  {
    var k := |name|;
    assert IndexOf(c, ' ', 0) == k && c[..k] == name by {
      IndexOfAt(c, ' ', 0, k);
    }
    assert OlderScan(c, k + 1) == Some(FinishBuffer(PutAll([], ws), last, True)) by {
      OlderWrittenScan(c, k + 1, ws, last);
    }
  }

  lemma OlderWrittenScan(c: string, start: nat, ws: seq<Written>, last: string)
    requires forall w :: w in ws ==> Readable(w)
    requires ' ' !in last && '=' !in last
    requires start <= |c| && c[start..] == Texts(ws) + last
    ensures ScanFrom(c, start, [], [], True) == Scanned(PutAll([], ws), last)
  {
    var j := start + |Texts(ws)|;
    assert c[start..j] == Texts(ws) && c[j..] == last by {
      SliceSplit(c, start, j, |c|, Texts(ws), last);
    }
    ScanWritten(c, start, j, ws, [], True);
    ScanRest(c, j, [], PutAll([], ws), True);
    assert [] + c[j..] == last;
  }

  /**
   * `parseTagAttributes('<div id="test" class="some class" data-foo="bar" hidden>')`, the case of
   * test/document.test.js: three string attributes, in order, and `hidden` set to `true`.
   */
  lemma HiddenTrue()
    ensures ParseTagAttributesSpec("<div id=\"test\" class=\"some class\" data-foo=\"bar\" hidden>", Dom.DocumentVoidTags) ==
      Some(TagInfo("div", Open, [("id", Str("test")), ("class", Str("some class")), ("data-foo", Str("bar")), ("hidden", True)]))
  {
    HiddenContent();
    HiddenLayout();
    HiddenNames();
    HiddenReadable();
    HiddenAttributes();
    OlderSpanTag("<div id=\"test\" class=\"some class\" data-foo=\"bar\" hidden>", "div id=\"test\" class=\"some class\" data-foo=\"bar\" hidden", "div", [Written("id", "test", true), Written("class", "some class", true), Written("data-foo", "bar", true)], "hidden", Dom.DocumentVoidTags, [("id", Str("test")), ("class", Str("some class")), ("data-foo", Str("bar")), ("hidden", True)]);
  }

  /**
   * `parseTagAttributes` on a span whose normalised content is a name, a space, quoted attributes
   * and a last bare name: the tag is named, void when listed, and carries the attributes in order.
   */
  lemma OlderSpanTag(span: string, c: string, name: string, ws: seq<Written>, last: string, voidTags: seq<string>, expected: Attrs)
    requires OlderTagContent(span) == c
    requires name != [] && NoSpace(name) && name[0] != '/'
    requires forall w :: w in ws ==> Readable(w)
    requires ' ' !in last && '=' !in last
    requires c == name + " " + (Texts(ws) + last)
    requires FinishBuffer(PutAll([], ws), last, True) == expected
    ensures ParseTagAttributesSpec(span, voidTags) ==
      Some(TagInfo(name, if ToLower(name) in voidTags then VoidTag else Open, expected))
  {
    OlderWrittenTag(c, name, ws, last, voidTags);
  }

  lemma HiddenContent()
    ensures OlderTagContent("<div id=\"test\" class=\"some class\" data-foo=\"bar\" hidden>") == "div id=\"test\" class=\"some class\" data-foo=\"bar\" hidden"
  {
    HiddenSpan();
    BracketedContent("div id=\"test\" class=\"some class\" data-foo=\"bar\" hidden");
  }

  lemma HiddenLayout()
    ensures "div id=\"test\" class=\"some class\" data-foo=\"bar\" hidden" == "div" + " " + (Texts([Written("id", "test", true), Written("class", "some class", true), Written("data-foo", "bar", true)]) + "hidden")
  {
    HiddenText();
    Texts3(Written("id", "test", true), Written("class", "some class", true), Written("data-foo", "bar", true));
    TextsLayout("div", Text(Written("id", "test", true)), Text(Written("class", "some class", true)), Text(Written("data-foo", "bar", true)), "hidden");
  }

  lemma HiddenReadable()
    ensures forall w :: w in [Written("id", "test", true), Written("class", "some class", true), Written("data-foo", "bar", true)] ==> Readable(w)
  {
    HiddenNames();
  }

  lemma HiddenAttributes()
    ensures FinishBuffer(PutAll([], [Written("id", "test", true), Written("class", "some class", true), Written("data-foo", "bar", true)]), "hidden", True) == [("id", Str("test")), ("class", Str("some class")), ("data-foo", Str("bar")), ("hidden", True)]
  {
    PutAll3([], Written("id", "test", true), Written("class", "some class", true), Written("data-foo", "bar", true));
    HiddenMap();
  }

  /** Re-associating `name + " " + t1 + t2 + t3 + last`. */
  lemma TextsLayout(name: string, t1: string, t2: string, t3: string, last: string)
    ensures name + " " + t1 + t2 + t3 + last == name + " " + (t1 + (t2 + (t3 + [])) + last)
  {
    assert t3 + [] == t3;
  }

  /** The span is the content in brackets; the content is built word by word. */
  lemma HiddenSpan()
    ensures "<div id=\"test\" class=\"some class\" data-foo=\"bar\" hidden>" == "<" + "div id=\"test\" class=\"some class\" data-foo=\"bar\" hidden" + ">"
    ensures Clean("div id=\"test\" class=\"some class\" data-foo=\"bar\" hidden")
  {
    HiddenWords();
    CleanWord("div");
    assert "<div" == "<" + "div";
    HiddenJoin1();
    HiddenJoin2();
    HiddenJoin3();
    HiddenJoin4();
    HiddenJoin5();
    assert "<div id=\"test\" class=\"some class\" data-foo=\"bar\" hidden>" == "<div id=\"test\" class=\"some class\" data-foo=\"bar\" hidden" + ">";
  }

  /** One more word: the content stays clean, and bracketing it still only prepends `<`. */
  lemma CleanStep(a: string, w: string, la: string)
    requires Clean(a) && Clean(w) && la == "<" + a
    ensures Clean(a + " " + w) && "<" + (a + " " + w) == la + " " + w
  {
    CleanJoin(a, w);
  }

  lemma HiddenWords()
    ensures NoSpace("div") && NoSpace("id=\"test\"") && NoSpace("class=\"some") && NoSpace("class\"")
    ensures NoSpace("data-foo=\"bar\"") && NoSpace("hidden")
    ensures '<' !in "div" && '<' !in "id=\"test\"" && '<' !in "class=\"some" && '<' !in "class\""
    ensures '<' !in "data-foo=\"bar\"" && '<' !in "hidden"
    ensures '>' !in "div" && '>' !in "id=\"test\"" && '>' !in "class=\"some" && '>' !in "class\""
    ensures '>' !in "data-foo=\"bar\"" && '>' !in "hidden"
  {
    HiddenSpaces1();
    HiddenSpaces2();
  }

  lemma HiddenSpaces1()
    ensures NoSpace("div") && NoSpace("id=\"test\"") && NoSpace("class=\"some") && NoSpace("class\"")
  {
  }

  lemma HiddenSpaces2()
    ensures NoSpace("data-foo=\"bar\"") && NoSpace("hidden")
  {
  }

  lemma HiddenJoin1()
    requires Clean("div") && "<div" == "<" + "div"
    requires "id=\"test\"" != [] && NoSpace("id=\"test\"") && '<' !in "id=\"test\"" && '>' !in "id=\"test\""
    ensures Clean("div id=\"test\"") && "<div id=\"test\"" == "<" + "div id=\"test\""
  {
    CleanWord("id=\"test\"");
    CleanStep("div", "id=\"test\"", "<div");
    HiddenSpell1();
  }

  lemma HiddenSpell1()
    ensures "div id=\"test\"" == "div" + " " + "id=\"test\""
    ensures "<div id=\"test\"" == "<div" + " " + "id=\"test\""
  {
  }

  lemma HiddenJoin2()
    requires Clean("div id=\"test\"") && "<div id=\"test\"" == "<" + "div id=\"test\""
    requires "class=\"some" != [] && NoSpace("class=\"some") && '<' !in "class=\"some" && '>' !in "class=\"some"
    ensures Clean("div id=\"test\" class=\"some") && "<div id=\"test\" class=\"some" == "<" + "div id=\"test\" class=\"some"
  {
    CleanWord("class=\"some");
    CleanStep("div id=\"test\"", "class=\"some", "<div id=\"test\"");
    HiddenSpell2();
  }

  lemma HiddenSpell2()
    ensures "div id=\"test\" class=\"some" == "div id=\"test\"" + " " + "class=\"some"
    ensures "<div id=\"test\" class=\"some" == "<div id=\"test\"" + " " + "class=\"some"
  {
  }

  lemma HiddenJoin3()
    requires Clean("div id=\"test\" class=\"some") && "<div id=\"test\" class=\"some" == "<" + "div id=\"test\" class=\"some"
    requires "class\"" != [] && NoSpace("class\"") && '<' !in "class\"" && '>' !in "class\""
    ensures Clean("div id=\"test\" class=\"some class\"") && "<div id=\"test\" class=\"some class\"" == "<" + "div id=\"test\" class=\"some class\""
  {
    CleanWord("class\"");
    CleanStep("div id=\"test\" class=\"some", "class\"", "<div id=\"test\" class=\"some");
    HiddenSpell3();
  }

  lemma HiddenSpell3()
    ensures "div id=\"test\" class=\"some class\"" == "div id=\"test\" class=\"some" + " " + "class\""
    ensures "<div id=\"test\" class=\"some class\"" == "<div id=\"test\" class=\"some" + " " + "class\""
  {
  }

  lemma HiddenJoin4()
    requires Clean("div id=\"test\" class=\"some class\"") && "<div id=\"test\" class=\"some class\"" == "<" + "div id=\"test\" class=\"some class\""
    requires "data-foo=\"bar\"" != [] && NoSpace("data-foo=\"bar\"") && '<' !in "data-foo=\"bar\"" && '>' !in "data-foo=\"bar\""
    ensures Clean("div id=\"test\" class=\"some class\" data-foo=\"bar\"") && "<div id=\"test\" class=\"some class\" data-foo=\"bar\"" == "<" + "div id=\"test\" class=\"some class\" data-foo=\"bar\""
  {
    CleanWord("data-foo=\"bar\"");
    CleanStep("div id=\"test\" class=\"some class\"", "data-foo=\"bar\"", "<div id=\"test\" class=\"some class\"");
    HiddenSpell4();
  }

  lemma HiddenSpell4()
    ensures "div id=\"test\" class=\"some class\" data-foo=\"bar\"" == "div id=\"test\" class=\"some class\"" + " " + "data-foo=\"bar\""
    ensures "<div id=\"test\" class=\"some class\" data-foo=\"bar\"" == "<div id=\"test\" class=\"some class\"" + " " + "data-foo=\"bar\""
  {
  }

  lemma HiddenJoin5()
    requires Clean("div id=\"test\" class=\"some class\" data-foo=\"bar\"") && "<div id=\"test\" class=\"some class\" data-foo=\"bar\"" == "<" + "div id=\"test\" class=\"some class\" data-foo=\"bar\""
    requires "hidden" != [] && NoSpace("hidden") && '<' !in "hidden" && '>' !in "hidden"
    ensures Clean("div id=\"test\" class=\"some class\" data-foo=\"bar\" hidden") && "<div id=\"test\" class=\"some class\" data-foo=\"bar\" hidden" == "<" + "div id=\"test\" class=\"some class\" data-foo=\"bar\" hidden"
  {
    CleanWord("hidden");
    CleanStep("div id=\"test\" class=\"some class\" data-foo=\"bar\"", "hidden", "<div id=\"test\" class=\"some class\" data-foo=\"bar\"");
    HiddenSpell5();
  }

  lemma HiddenSpell5()
    ensures "div id=\"test\" class=\"some class\" data-foo=\"bar\" hidden" == "div id=\"test\" class=\"some class\" data-foo=\"bar\"" + " " + "hidden"
    ensures "<div id=\"test\" class=\"some class\" data-foo=\"bar\" hidden" == "<div id=\"test\" class=\"some class\" data-foo=\"bar\"" + " " + "hidden"
  {
  }

  /** The content of the tag, attribute by attribute. */
  lemma HiddenText()
    ensures "div id=\"test\" class=\"some class\" data-foo=\"bar\" hidden" ==
      "div" + " " + Text(Written("id", "test", true)) + Text(Written("class", "some class", true)) + Text(Written("data-foo", "bar", true)) + "hidden"
  {
    HiddenText1();
    HiddenText2();
    HiddenText3();
    HiddenText4();
  }

  lemma HiddenText1()
    ensures "div id=\"test\" " == "div" + " " + Text(Written("id", "test", true))
  {
    assert Text(Written("id", "test", true)) == "id=\"test\" ";
  }

  lemma HiddenText2()
    ensures "div id=\"test\" class=\"some class\" " == "div id=\"test\" " + Text(Written("class", "some class", true))
  {
    assert Text(Written("class", "some class", true)) == "class=\"some class\" ";
  }

  lemma HiddenText3()
    ensures "div id=\"test\" class=\"some class\" data-foo=\"bar\" " == "div id=\"test\" class=\"some class\" " + Text(Written("data-foo", "bar", true))
  {
    assert Text(Written("data-foo", "bar", true)) == "data-foo=\"bar\" ";
  }

  lemma HiddenText4()
    ensures "div id=\"test\" class=\"some class\" data-foo=\"bar\" hidden" == "div id=\"test\" class=\"some class\" data-foo=\"bar\" " + "hidden"
  {
  }

  lemma HiddenNames()
    ensures NoSpace("div") && "div"[0] != '/' && ToLower("div") == "div" && "div" !in Dom.DocumentVoidTags
    ensures Readable(Written("id", "test", true)) && Readable(Written("class", "some class", true)) && Readable(Written("data-foo", "bar", true))
    ensures ' ' !in "hidden" && '=' !in "hidden"
  {
  }

  lemma HiddenMap()
    ensures FinishBuffer(Put(Put(Put([], "id", Str("test")), "class", Str("some class")), "data-foo", Str("bar")), "hidden", True) ==
      [("id", Str("test")), ("class", Str("some class")), ("data-foo", Str("bar")), ("hidden", True)]
  {
    HiddenPut1();
    HiddenPut2();
    HiddenPut3();
    HiddenPut4();
  }

  lemma HiddenPut1()
    ensures Put([], "id", Str("test")) == [("id", Str("test"))]
  {
    PutNew([], "id", Str("test"));
  }

  lemma HiddenPut2()
    ensures Put([("id", Str("test"))], "class", Str("some class")) == [("id", Str("test")), ("class", Str("some class"))]
  {
    PutNew([("id", Str("test"))], "class", Str("some class"));
  }

  lemma HiddenPut3()
    ensures Put([("id", Str("test")), ("class", Str("some class"))], "data-foo", Str("bar")) ==
      [("id", Str("test")), ("class", Str("some class")), ("data-foo", Str("bar"))]
  {
    PutNew([("id", Str("test")), ("class", Str("some class"))], "data-foo", Str("bar"));
  }

  lemma HiddenPut4()
    ensures FinishBuffer([("id", Str("test")), ("class", Str("some class")), ("data-foo", Str("bar"))], "hidden", True) ==
      [("id", Str("test")), ("class", Str("some class")), ("data-foo", Str("bar")), ("hidden", True)]
  {
    assert RemoveFirst("hidden", '/') == "hidden" by {
      assert '/' !in "hidden";
    }
    PutNew([("id", Str("test")), ("class", Str("some class")), ("data-foo", Str("bar"))], "hidden", True);
  }

  /**
   * `parseTagAttributes` on the span of test/document.test.js whose `class` value is followed by
   * `data-foo` with no space between them: the closing quote ends the value, and all four
   * attributes are bound, in order.
   */
  lemma GluedAttributes()
    ensures ParseTagAttributesSpec("<div id=\"test\" class=\"some class\"data-foo=\"bar\" data-bar=\"baz\">", Dom.DocumentVoidTags) ==
      Some(TagInfo("div", Open, [("id", Str("test")), ("class", Str("some class")), ("data-foo", Str("bar")), ("data-bar", Str("baz"))]))
  {
    GluedContent();
    GluedLayout();
    GluedNames();
    GluedAttrs();
    OlderSpanTag("<div id=\"test\" class=\"some class\"data-foo=\"bar\" data-bar=\"baz\">", "div id=\"test\" class=\"some class\"data-foo=\"bar\" data-bar=\"baz\"", "div", [Written("id", "test", true), Written("class", "some class", false), Written("data-foo", "bar", true), Written("data-bar", "baz", false)], "", Dom.DocumentVoidTags, [("id", Str("test")), ("class", Str("some class")), ("data-foo", Str("bar")), ("data-bar", Str("baz"))]);
  }

  lemma GluedContent()
    ensures OlderTagContent("<div id=\"test\" class=\"some class\"data-foo=\"bar\" data-bar=\"baz\">") == "div id=\"test\" class=\"some class\"data-foo=\"bar\" data-bar=\"baz\""
  {
    GluedSpan();
    BracketedContent("div id=\"test\" class=\"some class\"data-foo=\"bar\" data-bar=\"baz\"");
  }

  lemma GluedSpan()
    ensures "<div id=\"test\" class=\"some class\"data-foo=\"bar\" data-bar=\"baz\">" == "<" + "div id=\"test\" class=\"some class\"data-foo=\"bar\" data-bar=\"baz\"" + ">"
    ensures Clean("div id=\"test\" class=\"some class\"data-foo=\"bar\" data-bar=\"baz\"")
  {
    GluedWords();
    CleanWord("div");
    assert "<div" == "<" + "div";
    GluedJoin1();
    GluedJoin2();
    GluedJoin3();
    GluedJoin4();
    assert "<div id=\"test\" class=\"some class\"data-foo=\"bar\" data-bar=\"baz\">" == "<div id=\"test\" class=\"some class\"data-foo=\"bar\" data-bar=\"baz\"" + ">";
  }

  lemma GluedWords()
    ensures NoSpace("div") && NoSpace("id=\"test\"") && NoSpace("class=\"some") && NoSpace("class\"data-foo=\"bar\"") && NoSpace("data-bar=\"baz\"")
    ensures '<' !in "div" && '<' !in "id=\"test\"" && '<' !in "class=\"some" && '<' !in "class\"data-foo=\"bar\"" && '<' !in "data-bar=\"baz\""
    ensures '>' !in "div" && '>' !in "id=\"test\"" && '>' !in "class=\"some" && '>' !in "class\"data-foo=\"bar\"" && '>' !in "data-bar=\"baz\""
  {
    GluedSpaces();
  }

  lemma GluedSpaces()
    ensures NoSpace("div") && NoSpace("id=\"test\"") && NoSpace("class=\"some") && NoSpace("class\"data-foo=\"bar\"") && NoSpace("data-bar=\"baz\"")
  {
  }

  lemma GluedJoin1()
    requires Clean("div") && "<div" == "<" + "div"
    requires "id=\"test\"" != [] && NoSpace("id=\"test\"") && '<' !in "id=\"test\"" && '>' !in "id=\"test\""
    ensures Clean("div id=\"test\"") && "<div id=\"test\"" == "<" + "div id=\"test\""
  {
    CleanWord("id=\"test\"");
    CleanStep("div", "id=\"test\"", "<div");
    GluedSpell1();
  }

  lemma GluedSpell1()
    ensures "div id=\"test\"" == "div" + " " + "id=\"test\""
    ensures "<div id=\"test\"" == "<div" + " " + "id=\"test\""
  {
  }

  lemma GluedJoin2()
    requires Clean("div id=\"test\"") && "<div id=\"test\"" == "<" + "div id=\"test\""
    requires "class=\"some" != [] && NoSpace("class=\"some") && '<' !in "class=\"some" && '>' !in "class=\"some"
    ensures Clean("div id=\"test\" class=\"some") && "<div id=\"test\" class=\"some" == "<" + "div id=\"test\" class=\"some"
  {
    CleanWord("class=\"some");
    CleanStep("div id=\"test\"", "class=\"some", "<div id=\"test\"");
    GluedSpell2();
  }

  lemma GluedSpell2()
    ensures "div id=\"test\" class=\"some" == "div id=\"test\"" + " " + "class=\"some"
    ensures "<div id=\"test\" class=\"some" == "<div id=\"test\"" + " " + "class=\"some"
  {
  }

  lemma GluedJoin3()
    requires Clean("div id=\"test\" class=\"some") && "<div id=\"test\" class=\"some" == "<" + "div id=\"test\" class=\"some"
    requires "class\"data-foo=\"bar\"" != [] && NoSpace("class\"data-foo=\"bar\"") && '<' !in "class\"data-foo=\"bar\"" && '>' !in "class\"data-foo=\"bar\""
    ensures Clean("div id=\"test\" class=\"some class\"data-foo=\"bar\"") && "<div id=\"test\" class=\"some class\"data-foo=\"bar\"" == "<" + "div id=\"test\" class=\"some class\"data-foo=\"bar\""
  {
    CleanWord("class\"data-foo=\"bar\"");
    CleanStep("div id=\"test\" class=\"some", "class\"data-foo=\"bar\"", "<div id=\"test\" class=\"some");
    GluedSpell3();
  }

  lemma GluedSpell3()
    ensures "div id=\"test\" class=\"some class\"data-foo=\"bar\"" == "div id=\"test\" class=\"some" + " " + "class\"data-foo=\"bar\""
    ensures "<div id=\"test\" class=\"some class\"data-foo=\"bar\"" == "<div id=\"test\" class=\"some" + " " + "class\"data-foo=\"bar\""
  {
  }

  lemma GluedJoin4()
    requires Clean("div id=\"test\" class=\"some class\"data-foo=\"bar\"") && "<div id=\"test\" class=\"some class\"data-foo=\"bar\"" == "<" + "div id=\"test\" class=\"some class\"data-foo=\"bar\""
    requires "data-bar=\"baz\"" != [] && NoSpace("data-bar=\"baz\"") && '<' !in "data-bar=\"baz\"" && '>' !in "data-bar=\"baz\""
    ensures Clean("div id=\"test\" class=\"some class\"data-foo=\"bar\" data-bar=\"baz\"") && "<div id=\"test\" class=\"some class\"data-foo=\"bar\" data-bar=\"baz\"" == "<" + "div id=\"test\" class=\"some class\"data-foo=\"bar\" data-bar=\"baz\""
  {
    CleanWord("data-bar=\"baz\"");
    CleanStep("div id=\"test\" class=\"some class\"data-foo=\"bar\"", "data-bar=\"baz\"", "<div id=\"test\" class=\"some class\"data-foo=\"bar\"");
    GluedSpell4();
  }

  lemma GluedSpell4()
    ensures "div id=\"test\" class=\"some class\"data-foo=\"bar\" data-bar=\"baz\"" == "div id=\"test\" class=\"some class\"data-foo=\"bar\"" + " " + "data-bar=\"baz\""
    ensures "<div id=\"test\" class=\"some class\"data-foo=\"bar\" data-bar=\"baz\"" == "<div id=\"test\" class=\"some class\"data-foo=\"bar\"" + " " + "data-bar=\"baz\""
  {
  }

  lemma GluedLayout()
    ensures "div id=\"test\" class=\"some class\"data-foo=\"bar\" data-bar=\"baz\"" == "div" + " " + (Texts([Written("id", "test", true), Written("class", "some class", false), Written("data-foo", "bar", true), Written("data-bar", "baz", false)]) + "")
  {
    GluedText();
    Texts4(Written("id", "test", true), Written("class", "some class", false), Written("data-foo", "bar", true), Written("data-bar", "baz", false));
    TextsLayout4("div", Text(Written("id", "test", true)), Text(Written("class", "some class", false)), Text(Written("data-foo", "bar", true)), Text(Written("data-bar", "baz", false)), "");
  }

  lemma GluedText()
    ensures "div id=\"test\" class=\"some class\"data-foo=\"bar\" data-bar=\"baz\"" == "div" + " " + Text(Written("id", "test", true)) + Text(Written("class", "some class", false)) + Text(Written("data-foo", "bar", true)) + Text(Written("data-bar", "baz", false)) + ""
  {
    GluedText1();
    GluedText2();
    GluedText3();
    GluedText4();
    assert "div id=\"test\" class=\"some class\"data-foo=\"bar\" data-bar=\"baz\"" + "" == "div id=\"test\" class=\"some class\"data-foo=\"bar\" data-bar=\"baz\"";
  }

  lemma GluedText1()
    ensures "div id=\"test\" " == "div" + " " + Text(Written("id", "test", true))
  {
    assert Text(Written("id", "test", true)) == "id=\"test\" ";
  }

  lemma GluedText2()
    ensures "div id=\"test\" class=\"some class\"" == "div id=\"test\" " + Text(Written("class", "some class", false))
  {
    assert Text(Written("class", "some class", false)) == "class=\"some class\"";
  }

  lemma GluedText3()
    ensures "div id=\"test\" class=\"some class\"data-foo=\"bar\" " == "div id=\"test\" class=\"some class\"" + Text(Written("data-foo", "bar", true))
  {
    assert Text(Written("data-foo", "bar", true)) == "data-foo=\"bar\" ";
  }

  lemma GluedText4()
    ensures "div id=\"test\" class=\"some class\"data-foo=\"bar\" data-bar=\"baz\"" == "div id=\"test\" class=\"some class\"data-foo=\"bar\" " + Text(Written("data-bar", "baz", false))
  {
    assert Text(Written("data-bar", "baz", false)) == "data-bar=\"baz\"";
  }

  lemma GluedNames()
    ensures NoSpace("div") && "div"[0] != '/' && ToLower("div") == "div" && "div" !in Dom.DocumentVoidTags
    ensures forall w :: w in [Written("id", "test", true), Written("class", "some class", false), Written("data-foo", "bar", true), Written("data-bar", "baz", false)] ==> Readable(w)
    ensures ' ' !in "" && '=' !in ""
  {
    HiddenNames();
    GluedReadable();
  }

  lemma GluedReadable()
    ensures forall w :: w in [Written("id", "test", true), Written("class", "some class", false), Written("data-foo", "bar", true), Written("data-bar", "baz", false)] ==> Readable(w)
  {
  }

  lemma GluedAttrs()
    ensures FinishBuffer(PutAll([], [Written("id", "test", true), Written("class", "some class", false), Written("data-foo", "bar", true), Written("data-bar", "baz", false)]), "", True) == [("id", Str("test")), ("class", Str("some class")), ("data-foo", Str("bar")), ("data-bar", Str("baz"))]
  {
    PutAll4([], Written("id", "test", true), Written("class", "some class", false), Written("data-foo", "bar", true), Written("data-bar", "baz", false));
    HiddenPut1();
    HiddenPut2();
    HiddenPut3();
    GluedPut4();
  }

  lemma GluedPut4()
    ensures Put([("id", Str("test")), ("class", Str("some class")), ("data-foo", Str("bar"))], "data-bar", Str("baz")) == [("id", Str("test")), ("class", Str("some class")), ("data-foo", Str("bar")), ("data-bar", Str("baz"))]
  {
    PutNew([("id", Str("test")), ("class", Str("some class")), ("data-foo", Str("bar"))], "data-bar", Str("baz"));
  }
}
