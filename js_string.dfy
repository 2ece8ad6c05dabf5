/**
 * The JavaScript string primitives the parser relies on, written out over `seq<char>`:
 * `indexOf`, `substring`, `trim`, `toLowerCase`, `split(' ')`, `replace(c, '')` and the two
 * whitespace regular expressions `replace(/\s+/g, ' ')` and `replace(/\s+/g, '')`.
 */
module JsString {

  /** The characters matched by the regular-expression class `\s` (WhiteSpace and LineTerminator). */
  predicate IsSpace(c: char) {
    var n := c as int;
    (0x09 <= n <= 0x0D) || n == 0x20 || n == 0xA0 || n == 0x1680 || (0x2000 <= n <= 0x200A)
    || n == 0x2028 || n == 0x2029 || n == 0x202F || n == 0x205F || n == 0x3000 || n == 0xFEFF
  }

  predicate NoSpace(s: string) {
    forall k :: 0 <= k < |s| ==> !IsSpace(s[k])
  }

  /** `s.indexOf(c, from)`: the first position at or after `from` holding `c`, or -1. */
  function IndexOf(s: string, c: char, from: nat): (r: int)
    ensures r == -1 || (from <= r < |s| && s[r] == c)
    ensures r >= 0 ==> forall k :: from <= k < r ==> s[k] != c
    ensures r == -1 ==> forall k :: from <= k < |s| ==> s[k] != c
    decreases |s| - from
  {
    if from >= |s| then -1
    else if s[from] == c then from
    else IndexOf(s, c, from + 1)
  }

  /** `IndexOf` finds `k` when `k` holds `c` and nothing between `from` and `k` does. */
  lemma {:induction false} IndexOfAt(s: string, c: char, from: nat, k: nat)
    requires from <= k < |s| && s[k] == c
    requires forall j :: from <= j < k ==> s[j] != c
    ensures IndexOf(s, c, from) == k
    decreases k - from
  {
    if from < k {
      IndexOfAt(s, c, from + 1, k);
    }
  }

  function Clamp(x: int, len: nat): (r: nat)
    ensures r <= len
  {
    if x < 0 then 0 else if x > len then len else x
  }

  /** `s.substring(a, b)`: both ends clamped to the string, swapped when the first is larger. */
  function Substring(s: string, a: int, b: int): (r: string)
    ensures 0 <= a <= b <= |s| ==> r == s[a..b]
    ensures 0 <= b <= a <= |s| ==> r == s[b..a]
    ensures |r| <= |s|
  {
    var lo, hi := Clamp(a, |s|), Clamp(b, |s|);
    if lo <= hi then s[lo..hi] else s[hi..lo]
  }

  /** Drops the leading run of whitespace. */
  function DropSpaces(s: string): (r: string)
    ensures |r| <= |s| && r == s[|s| - |r|..]
    ensures r == [] || !IsSpace(r[0])
    ensures forall k :: 0 <= k < |s| - |r| ==> IsSpace(s[k])
  {
    if s != [] && IsSpace(s[0]) then
      var r := DropSpaces(s[1..]);
      assert s[1..][|s| - 1 - |r|..] == s[|s| - |r|..];
      assert forall k :: 1 <= k < |s| - |r| ==> s[k] == s[1..][k - 1];
      r
    else s
  }

  /** Drops the trailing run of whitespace. */
  function DropTrailingSpaces(s: string): (r: string)
    ensures |r| <= |s| && r == s[..|r|]
    ensures r == [] || !IsSpace(r[|r| - 1])
    ensures forall k :: |r| <= k < |s| ==> IsSpace(s[k])
  {
    if s != [] && IsSpace(s[|s| - 1]) then DropTrailingSpaces(s[..|s| - 1]) else s
  }

  /** `s.trim()`: the slice of `s` left once the whitespace at both ends is cut off. */
  function Trim(s: string): (r: string)
    ensures r == [] || (!IsSpace(r[0]) && !IsSpace(r[|r| - 1]))
    ensures exists i, j :: 0 <= i <= j <= |s| && r == s[i..j] && AllSpace(s[..i]) && AllSpace(s[j..])
  {
    var d := DropSpaces(s);
    var r := DropTrailingSpaces(d);
    var i := |s| - |d|;
    assert r == s[i..i + |r|];
    assert AllSpace(s[..i]);
    var t := s[i + |r|..];
    assert t == d[|r|..];
    assert AllSpace(t) by {
      forall k | 0 <= k < |t|
        ensures IsSpace(t[k])
      {
        assert t[k] == d[|r| + k];
      }
    }
    r
  }

  predicate AllSpace(s: string) {
    forall k :: 0 <= k < |s| ==> IsSpace(s[k])
  }

  /** Only one slice of `s` has whitespace around it and non-whitespace at its ends: `trim` is that slice. */
  lemma TrimUnique(s: string, i: nat, j: nat)
    requires i <= j <= |s| && AllSpace(s[..i]) && AllSpace(s[j..])
    requires i == j || (!IsSpace(s[i]) && !IsSpace(s[j - 1]))
    ensures Trim(s) == s[i..j]
  {
    DropBothAt(s, i, j);
  }

  lemma DropBothAt(s: string, i: nat, j: nat)
    requires i <= j <= |s| && AllSpace(s[..i]) && AllSpace(s[j..])
    requires i == j || (!IsSpace(s[i]) && !IsSpace(s[j - 1]))
    ensures DropTrailingSpaces(DropSpaces(s)) == s[i..j]
  {
    if i == j {
      assert AllSpace(s[..|s|]) by {
        forall k | 0 <= k < |s|
          ensures IsSpace(s[k])
        {
          if k < i {
            assert s[..i][k] == s[k];
          } else {
            assert s[j..][k - j] == s[k];
          }
        }
      }
      DropSpacesAt(s, |s|);
    } else {
      DropSpacesAt(s, i);
      DropTrailingSuffix(s, i, j);
    }
  }

  lemma DropTrailingSuffix(s: string, i: nat, j: nat)
    requires i < j <= |s| && AllSpace(s[j..]) && !IsSpace(s[j - 1])
    ensures DropTrailingSpaces(s[i..]) == s[i..j]
  {
    var d := s[i..];
    assert d[j - i..] == s[j..];
    assert d[j - i - 1] == s[j - 1];
    DropTrailingSpacesAt(d, j - i);
    assert d[..j - i] == s[i..j];
  }

  lemma {:induction false} DropSpacesAt(s: string, i: nat)
    requires i <= |s| && AllSpace(s[..i])
    requires i == |s| || !IsSpace(s[i])
    ensures DropSpaces(s) == s[i..]
  {
    if i > 0 {
      assert s[..i][0] == s[0];
      assert s[1..][..i - 1] == s[..i][1..];
      DropSpacesAt(s[1..], i - 1);
      assert s[1..][i - 1..] == s[i..];
    }
  }

  lemma {:induction false} DropTrailingSpacesAt(s: string, j: nat)
    requires j <= |s| && AllSpace(s[j..])
    requires j == 0 || !IsSpace(s[j - 1])
    ensures DropTrailingSpaces(s) == s[..j]
    decreases |s|
  {
    if j < |s| {
      assert s[j..][|s| - 1 - j] == s[|s| - 1];
      var p := s[..|s| - 1];
      assert p[j..] == s[j..][..|s| - 1 - j];
      DropTrailingSpacesAt(p, j);
      assert p[..j] == s[..j];
    }
  }

  /** `s.replace(/\s+/g, '')`: every whitespace character removed. */
  function StripSpaces(s: string): (r: string)
    ensures NoSpace(r)
    ensures |r| <= |s|
    ensures NoSpace(s) ==> r == s
    ensures r == [] <==> AllSpace(s)
  {
    if s == [] then []
    else if IsSpace(s[0]) then StripSpaces(s[1..])
    else [s[0]] + StripSpaces(s[1..])
  }

  /** Removing whitespace works piece by piece. */
  lemma {:induction false} StripSpacesAppend(a: string, b: string)
    ensures StripSpaces(a + b) == StripSpaces(a) + StripSpaces(b)
  {
    if a == [] {
      assert a + b == b;
    } else {
      assert (a + b)[0] == a[0] && (a + b)[1..] == a[1..] + b;
      StripSpacesAppend(a[1..], b);
      assert [a[0]] + (StripSpaces(a[1..]) + StripSpaces(b)) == [a[0]] + StripSpaces(a[1..]) + StripSpaces(b);
    }
  }

  /** `s.replace(/\s+/g, ' ')`: every maximal run of whitespace becomes one space. */
  function Collapse(s: string): (r: string)
    ensures |r| <= |s|
    ensures forall k :: 0 <= k < |r| && IsSpace(r[k]) ==> r[k] == ' '
    ensures forall k :: 0 <= k < |r| - 1 ==> !(IsSpace(r[k]) && IsSpace(r[k + 1]))
    ensures r != [] && s != [] ==> (IsSpace(r[0]) <==> IsSpace(s[0]))
    ensures (r == []) == (s == [])
    ensures NoSpace(s) ==> r == s
    decreases |s|
  {
    if s == [] then []
    else if IsSpace(s[0]) then
      var tail := Collapse(DropSpaces(s[1..]));
      ConsSingleSpaces(' ', tail);
      [' '] + tail
    else
      var tail := Collapse(s[1..]);
      ConsSingleSpaces(s[0], tail);
      assert NoSpace(s) ==> [s[0]] + tail == s;
      [s[0]] + tail
  }

  /** A run of whitespace after a word becomes one space, and collapsing carries on after it. */
  lemma {:induction false} CollapseJoin(a: string, w: string, b: string)
    requires NoSpace(a) && w != [] && AllSpace(w)
    requires b == [] || !IsSpace(b[0])
    ensures Collapse(a + w + b) == a + [' '] + Collapse(b)
  {
    if a == [] {
      assert a + w + b == w + b;
      CollapseRun(w, b);
    } else {
      var t := a[1..] + w + b;
      assert a + w + b == [a[0]] + t;
      CollapseJoin(a[1..], w, b);
      CollapseCons(a[0], t);
      ConsAppend(a, [' '], Collapse(b));
    }
  }

  lemma ConsAppend(a: string, x: string, y: string)
    requires a != []
    ensures a + x + y == [a[0]] + (a[1..] + x + y)
  {
    assert a == [a[0]] + a[1..];
  }

  lemma CollapseCons(c: char, t: string)
    requires !IsSpace(c)
    ensures Collapse([c] + t) == [c] + Collapse(t)
  {
    assert ([c] + t)[1..] == t;
  }

  lemma CollapseRun(w: string, b: string)
    requires w != [] && AllSpace(w)
    requires b == [] || !IsSpace(b[0])
    ensures Collapse(w + b) == [' '] + Collapse(b)
  {
    assert (w + b)[0] == w[0] && (w + b)[1..] == w[1..] + b;
    DropSpacesOver(w[1..], b);
  }

  /** Whitespace already collapsed: every whitespace character a plain space, and no two of them adjacent. */
  predicate Collapsed(s: string) {
    && (forall k :: 0 <= k < |s| && IsSpace(s[k]) ==> s[k] == ' ')
    && (forall k :: 0 <= k < |s| - 1 ==> !(IsSpace(s[k]) && IsSpace(s[k + 1])))
  }

  /** Collapsing leaves collapsed text as it is. */
  lemma {:induction false} CollapseIdle(s: string)
    requires Collapsed(s)
    ensures Collapse(s) == s
    decreases |s|
  {
    if s != [] {
      assert Collapsed(s[1..]) by {
        forall k | 0 <= k < |s| - 2
          ensures !(IsSpace(s[1..][k]) && IsSpace(s[1..][k + 1]))
        {
          assert s[1..][k] == s[k + 1] && s[1..][k + 1] == s[k + 2];
        }
      }
      CollapseIdle(s[1..]);
      if IsSpace(s[0]) {
        DropSpacesAt(s[1..], 0);
        assert s[1..][0..] == s[1..];
      }
      assert s == [s[0]] + s[1..];
    }
  }

  /** Collapsing twice is collapsing once. */
  lemma CollapseIdempotent(s: string)
    ensures Collapse(Collapse(s)) == Collapse(s)
  {
    CollapseIdle(Collapse(s));
  }

  lemma {:induction false} DropSpacesOver(w: string, b: string)
    requires AllSpace(w)
    requires b == [] || !IsSpace(b[0])
    ensures DropSpaces(w + b) == b
  {
    if w != [] {
      assert (w + b)[1..] == w[1..] + b;
      DropSpacesOver(w[1..], b);
    } else {
      assert w + b == b;
    }
  }

  /** Putting `c` in front of a collapsed string keeps it collapsed, unless it makes two spaces meet. */
  lemma ConsSingleSpaces(c: char, tail: string)
    requires IsSpace(c) ==> c == ' ' && (tail == [] || !IsSpace(tail[0]))
    requires forall k :: 0 <= k < |tail| && IsSpace(tail[k]) ==> tail[k] == ' '
    requires forall k :: 0 <= k < |tail| - 1 ==> !(IsSpace(tail[k]) && IsSpace(tail[k + 1]))
    ensures forall k :: 0 <= k < |[c] + tail| && IsSpace(([c] + tail)[k]) ==> ([c] + tail)[k] == ' '
    ensures forall k :: 0 <= k < |[c] + tail| - 1 ==> !(IsSpace(([c] + tail)[k]) && IsSpace(([c] + tail)[k + 1]))
  {
    var r := [c] + tail;
    forall k | 0 <= k < |r| - 1
      ensures !(IsSpace(r[k]) && IsSpace(r[k + 1]))
    {
      if k > 0 {
        assert r[k] == tail[k - 1] && r[k + 1] == tail[k];
      }
    }
  }

  lemma {:induction false} StripDropSpaces(s: string)
    ensures StripSpaces(DropSpaces(s)) == StripSpaces(s)
  {
    if s != [] && IsSpace(s[0]) {
      StripDropSpaces(s[1..]);
    }
  }

  /** Collapsing whitespace keeps every other character, in order. */
  lemma {:induction false} CollapseKeepsText(s: string)
    ensures StripSpaces(Collapse(s)) == StripSpaces(s)
    decreases |s|
  {
    if s == [] {
    } else if IsSpace(s[0]) {
      var rest := DropSpaces(s[1..]);
      CollapseKeepsText(rest);
      StripDropSpaces(s[1..]);
      assert StripSpaces([' '] + Collapse(rest)) == StripSpaces(Collapse(rest));
    } else {
      CollapseKeepsText(s[1..]);
      assert ([s[0]] + Collapse(s[1..]))[1..] == Collapse(s[1..]);
    }
  }

  function LowerChar(c: char): (r: char)
    ensures 'A' <= c <= 'Z' ==> r as int == c as int + 32
    ensures !('A' <= c <= 'Z') ==> r == c
  {
    if 'A' <= c <= 'Z' then (c as int + 32) as char else c
  }

  /** `s.toLowerCase()` restricted to the ASCII letters. */
  function ToLower(s: string): (r: string)
    ensures |r| == |s|
    ensures forall k :: 0 <= k < |s| ==> r[k] == LowerChar(s[k])
  {
    seq(|s|, k requires 0 <= k < |s| => LowerChar(s[k]))
  }

  /** `s.replace(c, '')` with a one-character string pattern: the first `c` is removed. */
  function RemoveFirst(s: string, c: char): (r: string)
    ensures c !in s ==> r == s
    ensures c in s ==> |r| == |s| - 1 && (exists k :: 0 <= k < |s| && s[k] == c && c !in s[..k] && r == s[..k] + s[k + 1..])
  {
    var k := IndexOf(s, c, 0);
    if k < 0 then s
    else
      assert c !in s[..k];
      s[..k] + s[k + 1..]
  }

  /** `s.replace(/<|>/g, '')`: every angle bracket removed. */
  function RemoveBrackets(s: string): (r: string)
    ensures '<' !in r && '>' !in r
    ensures |r| <= |s|
    ensures '<' !in s && '>' !in s ==> r == s
    ensures r == [] <==> forall k :: 0 <= k < |s| ==> s[k] == '<' || s[k] == '>'
  {
    if s == [] then []
    else if s[0] == '<' || s[0] == '>' then RemoveBrackets(s[1..])
    else
      assert '<' !in s && '>' !in s ==> [s[0]] + s[1..] == s;
      [s[0]] + RemoveBrackets(s[1..])
  }

  /** Removing brackets works piece by piece. */
  lemma {:induction false} RemoveBracketsAppend(a: string, b: string)
    ensures RemoveBrackets(a + b) == RemoveBrackets(a) + RemoveBrackets(b)
  {
    if a == [] {
      assert a + b == b;
    } else {
      assert (a + b)[0] == a[0] && (a + b)[1..] == a[1..] + b;
      RemoveBracketsAppend(a[1..], b);
      assert [a[0]] + (RemoveBrackets(a[1..]) + RemoveBrackets(b)) == [a[0]] + RemoveBrackets(a[1..]) + RemoveBrackets(b);
    }
  }

  /** `s.split(sep)` with a one-character separator. */
  function Split(s: string, sep: char): (r: seq<string>)
    ensures |r| >= 1
    ensures forall k :: 0 <= k < |r| ==> sep !in r[k]
    decreases |s|
  {
    var k := IndexOf(s, sep, 0);
    if k < 0 then [s]
    else
      assert sep !in s[..k];
      [s[..k]] + Split(s[k + 1..], sep)
  }

  /** `parts.join(sep)`. */
  function Join(parts: seq<string>, sep: char): string
    requires |parts| >= 1
  {
    if |parts| == 1 then parts[0] else parts[0] + [sep] + Join(parts[1..], sep)
  }

  /** Joining a non-empty list puts the separator after its first part. */
  lemma JoinCons(head: string, rest: seq<string>, sep: char)
    requires |rest| >= 1
    ensures Join([head] + rest, sep) == head + [sep] + Join(rest, sep)
  {
    var parts := [head] + rest;
    assert parts[0] == head && parts[1..] == rest;
  }

  /** Splitting and joining on the same separator gives the string back. */
  lemma {:induction false} JoinSplit(s: string, sep: char)
    ensures Join(Split(s, sep), sep) == s
    decreases |s|
  {
    var k := IndexOf(s, sep, 0);
    if k < 0 {
      assert Split(s, sep) == [s];
    } else {
      var head := s[..k];
      var tail := s[k + 1..];
      var rest := Split(tail, sep);
      assert Split(s, sep) == [head] + rest;
      JoinCons(head, rest, sep);
      JoinSplit(tail, sep);
      assert s == head + [sep] + tail;
    }
  }
}
