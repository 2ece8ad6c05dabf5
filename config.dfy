/**
 * The parser configuration of src/Config.js: whether excess whitespace is trimmed and which
 * tag names are void. `configure` appends unseen void tags and toggles trimming.
 */
module Config {
  import opened Wrappers

  /** A JavaScript value, just detailed enough to decide truthiness (`!!v`). */
  datatype JsValue = Undefined | Null | Bool(b: bool) | Number(n: int) | NaN | Str(s: string) | Object

  predicate Truthy(v: JsValue) {
    match v
    case Undefined => false
    case Null => false
    case Bool(b) => b
    case Number(n) => n != 0
    case NaN => false
    case Str(s) => s != []
    case Object => true
  }

  /** The default void tags of the newer parser, in declaration order. */
  const DefaultVoidTags: seq<string> := ["!doctype", "area", "base", "br", "col", "embed", "hr", "img",
                                         "input", "link", "meta", "param", "source", "track", "wbr"]

  predicate NoDuplicates(s: seq<string>) {
    forall i, j :: 0 <= i < j < |s| ==> s[i] != s[j]
  }

  /** One step of the merge: push `tag` unless `indexOf` finds it. */
  function AddTag(list: seq<string>, tag: string): seq<string> {
    if tag in list then list else list + [tag]
  }

  /** The list after pushing each of `tags`, in order, whenever it is not yet present. */
  function Merged(list: seq<string>, tags: seq<string>): (r: seq<string>)
    ensures |list| <= |r| <= |list| + |tags|
    ensures r[..|list|] == list
    decreases |tags|
  {
    if tags == [] then list else AddTag(Merged(list, tags[..|tags| - 1]), tags[|tags| - 1])
  }

  /** The merge adds nothing that was not asked for, and everything that was. */
  lemma {:induction false} MergedElements(list: seq<string>, tags: seq<string>)
    ensures forall t :: t in Merged(list, tags) <==> t in list || t in tags
    decreases |tags|
  {
    if tags != [] {
      var init := tags[..|tags| - 1];
      MergedElements(list, init);
      assert tags == init + [tags[|tags| - 1]];
    }
  }

  /** A duplicate-free list stays duplicate-free. */
  lemma {:induction false} MergedNoDuplicates(list: seq<string>, tags: seq<string>)
    requires NoDuplicates(list)
    ensures NoDuplicates(Merged(list, tags))
    decreases |tags|
  {
    if tags != [] {
      MergedNoDuplicates(list, tags[..|tags| - 1]);
    }
  }

  /** Merging tags that are all present already changes nothing. */
  lemma {:induction false} MergedPresent(list: seq<string>, tags: seq<string>)
    requires forall t :: t in tags ==> t in list
    ensures Merged(list, tags) == list
    decreases |tags|
  {
    if tags != [] {
      MergedPresent(list, tags[..|tags| - 1]);
    }
  }

  /** Merging the same tags a second time is a no-op. */
  lemma MergedIdempotent(list: seq<string>, tags: seq<string>)
    ensures Merged(Merged(list, tags), tags) == Merged(list, tags)
  {
    MergedElements(list, tags);
    MergedPresent(Merged(list, tags), tags);
  }

  /** The `trimWhitespace` flag after `configure`: coerced with `!!` when the key is present. */
  function NewTrim(current: bool, trim: Option<JsValue>): bool {
    match trim
    case None => current
    case Some(v) => Truthy(v)
  }

  /** The `voidTags` list after `configure`. */
  function NewVoidTags(current: seq<string>, tags: Option<seq<string>>): seq<string> {
    match tags
    case None => current
    case Some(ts) => Merged(current, ts)
  }

  /** Configuring twice with the same argument leaves the state configuring once leaves. */
  lemma ConfigureIdempotent(trim0: bool, tags0: seq<string>, trim: Option<JsValue>, tags: Option<seq<string>>)
    ensures NewTrim(NewTrim(trim0, trim), trim) == NewTrim(trim0, trim)
    ensures NewVoidTags(NewVoidTags(tags0, tags), tags) == NewVoidTags(tags0, tags)
  {
    if tags.Some? {
      MergedIdempotent(tags0, tags.value);
    }
  }

  /** The module-level `config` object. */
  class ParserConfig {
    var trimWhitespace: bool
    var voidTags: seq<string>

    /** The defaults: trimming on, the fifteen default void tags. */
    constructor Default()
      ensures trimWhitespace && voidTags == DefaultVoidTags
      ensures |voidTags| == 15 && "!doctype" in voidTags && NoDuplicates(voidTags)
    {
      trimWhitespace := true;
      voidTags := DefaultVoidTags;
    }

    /** `configure(param)`: `tags` is `param.voidTags`, `trim` is `param.trimWhitespace` when that key is present. */
    method Configure(tags: Option<seq<string>>, trim: Option<JsValue>) returns (self: ParserConfig)
      modifies this
      ensures self == this
      ensures voidTags == NewVoidTags(old(voidTags), tags)
      ensures trimWhitespace == NewTrim(old(trimWhitespace), trim)
    {
      if tags.Some? {
        var ts := tags.value;
        for i := 0 to |ts|
          invariant voidTags == Merged(old(voidTags), ts[..i])
          invariant trimWhitespace == old(trimWhitespace)
        {
          assert ts[..i + 1][..i] == ts[..i];
          if ts[i] !in voidTags {
            voidTags := voidTags + [ts[i]];
          }
        }
        assert ts[..|ts|] == ts;
      }
      if trim.Some? {
        trimWhitespace := Truthy(trim.value);
      }
      self := this;
    }
  }
}
