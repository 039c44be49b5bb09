/**
 * The TagMonster editor plugin: it loads the configured tags files into a
 * list of names, a name lookup and a list of names per scope, and shows a
 * tag's definition with the lines around it.
 *
 * The regular expression that says which names to ignore, reading files,
 * and `os.path` are the outside world: they are the fields of `Env`.
 */
module TagMonster {
  import opened Wrappers
  import opened Text
  import opened TagEntry
  import opened TagFile

  /** One item of the `tag_files` setting. */
  datatype TagFileItem = TagFileItem(scope: string, filePath: string)

  /** Where a name leads: the tag's file, under the tags file's directory, and its search pattern. */
  datatype TagRecord = TagRecord(file: string, pattern: Option<string>)

  /**
   * The outside world: the ignore regex as a predicate on names, the lines
   * of the tags file at a path, the text of a source file, `os.path` and
   * `os.linesep`.
   */
  datatype Env = Env(
    ignored: string -> bool,
    readLines: string -> seq<string>,
    readText: string -> string,
    abspath: string -> string,
    dirname: string -> string,
    join: (string, string) -> string,
    linesep: string)

  /** The three structures `load_tag_file` builds. */
  datatype Index = Index(
    names: seq<string>,
    tagLookup: map<string, TagRecord>,
    scopeWiseNames: map<string, seq<string>>)

  const EmptyIndex := Index([], map[], map[])

  // ---------------------------------------------------------------------
  // Loading

  /** The absolute directory of the tags file. */
  function BaseDir(item: TagFileItem, env: Env): string {
    env.dirname(env.abspath(item.filePath))
  }

  /** A fresh `ctags_file` parsing the item's tags file: its tags, or the error that ends the load. */
  function ItemTags(item: TagFileItem, env: Env): Result<seq<Entry>, FileError> {
    var (fs, err) := ParseSpec(FileState(EmptyHeader, [], [], []), env.readLines(AsciiOnly(item.filePath)), []);
    if err.Some? then Err(err.value) else Ok(fs.tags)
  }

  /**
   * What reading and parsing a tags file gives. The load is stated for any
   * such function; the plugin's own is `Parsing(env)`.
   */
  type Parser = TagFileItem -> Result<seq<Entry>, FileError>

  function Parsing(env: Env): (p: Parser)
    ensures forall item :: p(item) == ItemTags(item, env)
  {
    item => ItemTags(item, env)
  }

  /** The body of the inner loop for one tag. */
  function AddTag(ix: Index, scope: string, baseDir: string, tag: Entry, env: Env): (r: Index)
    requires scope in ix.scopeWiseNames
    ensures r.scopeWiseNames.Keys == ix.scopeWiseNames.Keys
  {
    if env.ignored(tag.name) then ix
    else Index(
      ix.names + [tag.name],
      ix.tagLookup[tag.name := TagRecord(env.join(baseDir, tag.file), tag.pattern)],
      ix.scopeWiseNames[scope := ix.scopeWiseNames[scope] + [tag.name]])
  }

  /** The inner loop over the tags of one tags file. */
  function AddTags(ix: Index, scope: string, baseDir: string, tags: seq<Entry>, env: Env): (r: Index)
    requires scope in ix.scopeWiseNames
    ensures r.scopeWiseNames.Keys == ix.scopeWiseNames.Keys
    decreases |tags|
  {
    if tags == [] then ix
    else AddTag(AddTags(ix, scope, baseDir, tags[..|tags| - 1], env), scope, baseDir, tags[|tags| - 1], env)
  }

  /** One item of the outer loop: its scope's list is reset, then its tags are added. */
  function LoadItem(ix: Index, item: TagFileItem, tagsOf: Parser, env: Env): (Index, Option<FileError>) {
    var ix1 := ix.(scopeWiseNames := ix.scopeWiseNames[item.scope := []]);
    match tagsOf(item)
    case Err(e) => (ix1, Some(e))
    case Ok(tags) => (AddTags(ix1, item.scope, BaseDir(item, env), tags, env), None)
  }

  /** `load_tag_file`: from empty structures, every item in order; the first error ends it. */
  function LoadItems(items: seq<TagFileItem>, tagsOf: Parser, env: Env): (Index, Option<FileError>)
    decreases |items|
  {
    if items == [] then (EmptyIndex, None)
    else
      var (ix, e) := LoadItems(items[..|items| - 1], tagsOf, env);
      if e.Some? then (ix, e) else LoadItem(ix, items[|items| - 1], tagsOf, env)
  }

  // ---------------------------------------------------------------------
  // What loading gives, stated over the list of all loaded tags

  /** A tag with the scope and directory of the tags file it came from. */
  datatype Loaded = Loaded(scope: string, baseDir: string, tag: Entry)

  function Tagged(scope: string, baseDir: string, tags: seq<Entry>): (ls: seq<Loaded>)
    ensures |ls| == |tags| && forall k :: 0 <= k < |tags| ==> ls[k] == Loaded(scope, baseDir, tags[k])
  {
    seq(|tags|, k requires 0 <= k < |tags| => Loaded(scope, baseDir, tags[k]))
  }

  /** The tags an item contributes: all of its tags file's, or none when it does not parse. */
  function ItemLoaded(item: TagFileItem, tagsOf: Parser, env: Env): seq<Loaded> {
    match tagsOf(item)
    case Ok(tags) => Tagged(item.scope, BaseDir(item, env), tags)
    case Err(_) => []
  }

  /** Every loaded tag, item after item, each in tags-file order. */
  function Flatten(items: seq<TagFileItem>, tagsOf: Parser, env: Env): seq<Loaded>
    decreases |items|
  {
    if items == [] then [] else Flatten(items[..|items| - 1], tagsOf, env) + ItemLoaded(items[|items| - 1], tagsOf, env)
  }

  /** The record a loaded tag stands for. */
  function Record(l: Loaded, env: Env): TagRecord {
    TagRecord(env.join(l.baseDir, l.tag.file), l.tag.pattern)
  }

  /** The names of the tags that are not ignored, in order, repeats kept. */
  function KeptNames(ls: seq<Loaded>, ignored: string -> bool): seq<string>
    decreases |ls|
  {
    if ls == [] then []
    else
      var l := ls[|ls| - 1];
      KeptNames(ls[..|ls| - 1], ignored) + (if ignored(l.tag.name) then [] else [l.tag.name])
  }

  /** The record of the last tag named `n` that is not ignored. */
  function LastRecord(ls: seq<Loaded>, n: string, env: Env): Option<TagRecord>
    decreases |ls|
  {
    if ls == [] then None
    else
      var l := ls[|ls| - 1];
      if l.tag.name == n && !env.ignored(n) then Some(Record(l, env)) else LastRecord(ls[..|ls| - 1], n, env)
  }

  function Lookup(m: map<string, TagRecord>, n: string): Option<TagRecord> {
    if n in m then Some(m[n]) else None
  }

  /** The later of two lookups, where the later one has something. */
  function Override(earlier: Option<TagRecord>, later: Option<TagRecord>): Option<TagRecord> {
    if later.Some? then later else earlier
  }

  /** The last item with the given scope, or -1. */
  function LastWithScope(items: seq<TagFileItem>, s: string): (r: int)
    ensures -1 <= r < |items|
    ensures r == -1 ==> forall k :: 0 <= k < |items| ==> items[k].scope != s
    ensures r >= 0 ==> items[r].scope == s && forall k :: r < k < |items| ==> items[k].scope != s
    decreases |items|
  {
    if items == [] then -1
    else if items[|items| - 1].scope == s then |items| - 1
    else LastWithScope(items[..|items| - 1], s)
  }

  lemma {:induction false} KeptAppend(a: seq<Loaded>, b: seq<Loaded>, ignored: string -> bool)
    ensures KeptNames(a + b, ignored) == KeptNames(a, ignored) + KeptNames(b, ignored)
    decreases |b|
  {
    if b == [] {
      assert a + b == a;
    } else {
      var n := |b| - 1;
      assert (a + b)[..|a + b| - 1] == a + b[..n];
      KeptAppend(a, b[..n], ignored);
    }
  }

  lemma {:induction false} LastRecordAppend(a: seq<Loaded>, b: seq<Loaded>, n: string, env: Env)
    ensures LastRecord(a + b, n, env) == Override(LastRecord(a, n, env), LastRecord(b, n, env))
    decreases |b|
  {
    if b == [] {
      assert a + b == a;
    } else {
      var m := |b| - 1;
      assert (a + b)[..|a + b| - 1] == a + b[..m];
      LastRecordAppend(a, b[..m], n, env);
    }
  }

  /** A name is kept exactly when some tag has it and it is not ignored. */
  lemma {:induction false} KeptMembers(ls: seq<Loaded>, n: string, ignored: string -> bool)
    ensures n in KeptNames(ls, ignored) <==> !ignored(n) && exists k :: 0 <= k < |ls| && ls[k].tag.name == n
    decreases |ls|
  {
    if ls != [] {
      KeptMembers(ls[..|ls| - 1], n, ignored);
      NamedSnoc(ls, n);
    }
  }

  /** Some tag of `ls` is named `n` exactly when one before the last is, or the last is. */
  lemma NamedSnoc(ls: seq<Loaded>, n: string)
    requires ls != []
    ensures var init := ls[..|ls| - 1];
      (exists k :: 0 <= k < |ls| && ls[k].tag.name == n)
      <==> (exists k :: 0 <= k < |init| && init[k].tag.name == n) || ls[|ls| - 1].tag.name == n
  {
    var m := |ls| - 1;
    var init := ls[..m];
    if exists k :: 0 <= k < |ls| && ls[k].tag.name == n {
      var k :| 0 <= k < |ls| && ls[k].tag.name == n;
      if k < m {
        assert init[k].tag.name == n;
      }
    }
    if exists k :: 0 <= k < |init| && init[k].tag.name == n {
      var k :| 0 <= k < |init| && init[k].tag.name == n;
      assert ls[k].tag.name == n;
    }
  }

  /** `j` is the last position of a tag named `n`. */
  predicate IsLastWith(ls: seq<Loaded>, n: string, j: int) {
    0 <= j < |ls| && ls[j].tag.name == n && forall k :: j < k < |ls| ==> ls[k].tag.name != n
  }

  /**
   * A name has a record exactly when it is kept, and then the record is that
   * of the last tag with the name.
   */
  lemma {:induction false} LastRecordSpec(ls: seq<Loaded>, n: string, env: Env)
    ensures LastRecord(ls, n, env).Some? <==> n in KeptNames(ls, env.ignored)
    ensures LastRecord(ls, n, env).Some? ==>
      exists j :: IsLastWith(ls, n, j) && LastRecord(ls, n, env) == Some(Record(ls[j], env))
    decreases |ls|
  {
    KeptMembers(ls, n, env.ignored);
    if ls != [] {
      var m := |ls| - 1;
      var init := ls[..m];
      LastRecordSpec(init, n, env);
      KeptMembers(init, n, env.ignored);
      if ls[m].tag.name == n && !env.ignored(n) {
        assert LastRecord(ls, n, env) == Some(Record(ls[m], env));
        assert IsLastWith(ls, n, m);
      } else {
        assert LastRecord(ls, n, env) == LastRecord(init, n, env);
        LastRecordWitness(ls, n, env);
      }
    }
  }

  lemma LastRecordWitness(ls: seq<Loaded>, n: string, env: Env)
    requires ls != []
    requires !(ls[|ls| - 1].tag.name == n && !env.ignored(n))
    requires var init := ls[..|ls| - 1];
      LastRecord(init, n, env).Some? ==>
      exists j :: IsLastWith(init, n, j) && LastRecord(init, n, env) == Some(Record(init[j], env))
    ensures LastRecord(ls, n, env).Some? ==>
      exists j :: IsLastWith(ls, n, j) && LastRecord(ls, n, env) == Some(Record(ls[j], env))
  {
    var m := |ls| - 1;
    var init := ls[..m];
    if LastRecord(ls, n, env).Some? {
      assert LastRecord(ls, n, env) == LastRecord(init, n, env);
      var j :| IsLastWith(init, n, j) && LastRecord(init, n, env) == Some(Record(init[j], env));
      assert ls[j] == init[j];
      LastRecordNotIgnored(init, n, env);
      assert ls[m].tag.name != n;
      assert IsLastWith(ls, n, j);
    }
  }

  lemma {:induction false} LastRecordNotIgnored(ls: seq<Loaded>, n: string, env: Env)
    ensures LastRecord(ls, n, env).Some? ==> !env.ignored(n)
    decreases |ls|
  {
    if ls != [] {
      LastRecordNotIgnored(ls[..|ls| - 1], n, env);
    }
  }

  // The inner loop

  /**
   * Adding the tags of one file appends the kept names to `names` and to the
   * scope's list, and each kept name's record is that of its last tag in the
   * file; other names keep their records.
   */
  lemma {:induction false} AddTagsFacts(ix: Index, scope: string, baseDir: string, tags: seq<Entry>, env: Env)
    requires scope in ix.scopeWiseNames
    ensures var r := AddTags(ix, scope, baseDir, tags, env);
      var ls := Tagged(scope, baseDir, tags);
      r.names == ix.names + KeptNames(ls, env.ignored)
      && r.scopeWiseNames == ix.scopeWiseNames[scope := ix.scopeWiseNames[scope] + KeptNames(ls, env.ignored)]
      && forall n :: Lookup(r.tagLookup, n) == Override(Lookup(ix.tagLookup, n), LastRecord(ls, n, env))
    decreases |tags|
  {
    var ls := Tagged(scope, baseDir, tags);
    if tags == [] {
      assert ix.scopeWiseNames[scope] + [] == ix.scopeWiseNames[scope];
    } else {
      var m := |tags| - 1;
      AddTagsFacts(ix, scope, baseDir, tags[..m], env);
      var ls0 := Tagged(scope, baseDir, tags[..m]);
      assert ls[..m] == ls0;
      AddTagStep(AddTags(ix, scope, baseDir, tags[..m], env), ix, scope, ls0, ls[m], env);
      assert ls == ls0 + [ls[m]];
    }
  }

  lemma AddTagStep(r0: Index, ix: Index, scope: string, ls0: seq<Loaded>, l: Loaded, env: Env)
    requires scope in ix.scopeWiseNames && l.scope == scope
    requires r0.names == ix.names + KeptNames(ls0, env.ignored)
    requires r0.scopeWiseNames == ix.scopeWiseNames[scope := ix.scopeWiseNames[scope] + KeptNames(ls0, env.ignored)]
    requires forall n :: Lookup(r0.tagLookup, n) == Override(Lookup(ix.tagLookup, n), LastRecord(ls0, n, env))
    ensures var r := AddTag(r0, scope, l.baseDir, l.tag, env);
      var ls := ls0 + [l];
      r.names == ix.names + KeptNames(ls, env.ignored)
      && r.scopeWiseNames == ix.scopeWiseNames[scope := ix.scopeWiseNames[scope] + KeptNames(ls, env.ignored)]
      && forall n :: Lookup(r.tagLookup, n) == Override(Lookup(ix.tagLookup, n), LastRecord(ls, n, env))
  {
    var ls := ls0 + [l];
    assert ls[..|ls| - 1] == ls0;
    var r := AddTag(r0, scope, l.baseDir, l.tag, env);
    var added := if env.ignored(l.tag.name) then [] else [l.tag.name];
    assert KeptNames(ls, env.ignored) == KeptNames(ls0, env.ignored) + added;
    var before := ix.scopeWiseNames[scope];
    assert before + KeptNames(ls0, env.ignored) + added == before + KeptNames(ls, env.ignored);
    assert ix.names + KeptNames(ls0, env.ignored) + added == ix.names + KeptNames(ls, env.ignored);
    if env.ignored(l.tag.name) {
      assert KeptNames(ls, env.ignored) == KeptNames(ls0, env.ignored);
    } else {
      var sw := ix.scopeWiseNames;
      var target := sw[scope := before + KeptNames(ls, env.ignored)];
      assert r.scopeWiseNames == r0.scopeWiseNames[scope := before + KeptNames(ls0, env.ignored) + added];
      assert r.scopeWiseNames.Keys == target.Keys;
      forall key | key in target
        ensures r.scopeWiseNames[key] == target[key]
      {
      }
    }
    forall n
      ensures Lookup(r.tagLookup, n) == Override(Lookup(ix.tagLookup, n), LastRecord(ls, n, env))
    {
      if l.tag.name == n && !env.ignored(n) {
        assert LastRecord(ls, n, env) == Some(Record(l, env));
      } else {
        assert LastRecord(ls, n, env) == LastRecord(ls0, n, env);
      }
    }
  }

  // The outer loop

  /** An item that fails to parse ends the load for good. */
  lemma {:induction false} LoadErrorStops(items: seq<TagFileItem>, n: nat, k: nat, tagsOf: Parser, env: Env)
    requires n <= k <= |items| && LoadItems(items[..n], tagsOf, env).1.Some?
    ensures LoadItems(items[..k], tagsOf, env) == LoadItems(items[..n], tagsOf, env)
    decreases k
  {
    if n < k {
      LoadErrorStops(items, n, k - 1, tagsOf, env);
      LoadStopped(items, k, tagsOf, env);
    }
  }

  lemma LoadStopped(items: seq<TagFileItem>, k: nat, tagsOf: Parser, env: Env)
    requires 0 < k <= |items| && LoadItems(items[..k - 1], tagsOf, env).1.Some?
    ensures LoadItems(items[..k], tagsOf, env) == LoadItems(items[..k - 1], tagsOf, env)
  {
    assert items[..k][..k - 1] == items[..k - 1];
  }

  /**
   * A load that succeeds: `names` lists every kept name of every tags file,
   * in order and with repeats; a name has a record exactly when it is kept,
   * and it is the record of its last tag; and every configured scope has a
   * list, which holds the kept names of the last item with that scope.
   */
  lemma {:induction false} LoadFacts(items: seq<TagFileItem>, tagsOf: Parser, env: Env)
    requires LoadItems(items, tagsOf, env).1.None?
    ensures var ix := LoadItems(items, tagsOf, env).0;
      var ls := Flatten(items, tagsOf, env);
      ix.names == KeptNames(ls, env.ignored)
      && (forall n :: Lookup(ix.tagLookup, n) == LastRecord(ls, n, env))
      && (forall s :: s in ix.scopeWiseNames <==> LastWithScope(items, s) >= 0)
      && (forall s :: s in ix.scopeWiseNames ==>
        ix.scopeWiseNames[s] == KeptNames(ItemLoaded(items[LastWithScope(items, s)], tagsOf, env), env.ignored))
    decreases |items|
  {
    if items != [] {
      var m := |items| - 1;
      var init := items[..m];
      var item := items[m];
      LoadFacts(init, tagsOf, env);
      var ix0 := LoadItems(init, tagsOf, env).0;
      var ix1 := ix0.(scopeWiseNames := ix0.scopeWiseNames[item.scope := []]);
      var tags := tagsOf(item).value;
      var ls0 := Flatten(init, tagsOf, env);
      var ls1 := ItemLoaded(item, tagsOf, env);
      assert LoadItems(items, tagsOf, env).0 == AddTags(ix1, item.scope, BaseDir(item, env), tags, env);
      AddTagsFacts(ix1, item.scope, BaseDir(item, env), tags, env);
      KeptAppend(ls0, ls1, env.ignored);
      assert Flatten(items, tagsOf, env) == ls0 + ls1;
      forall n
        ensures Lookup(LoadItems(items, tagsOf, env).0.tagLookup, n) == LastRecord(ls0 + ls1, n, env)
      {
        LastRecordAppend(ls0, ls1, n, env);
      }
      LoadScopes(items, tagsOf, env, ix0);
    }
  }

  lemma LoadScopes(items: seq<TagFileItem>, tagsOf: Parser, env: Env, ix0: Index)
    requires items != [] && ix0 == LoadItems(items[..|items| - 1], tagsOf, env).0
    requires LoadItems(items, tagsOf, env).1.None?
    requires forall s :: s in ix0.scopeWiseNames <==> LastWithScope(items[..|items| - 1], s) >= 0
    requires forall s :: s in ix0.scopeWiseNames ==>
      ix0.scopeWiseNames[s] == KeptNames(ItemLoaded(items[..|items| - 1][LastWithScope(items[..|items| - 1], s)], tagsOf, env), env.ignored)
    ensures var ix := LoadItems(items, tagsOf, env).0;
      (forall s :: s in ix.scopeWiseNames <==> LastWithScope(items, s) >= 0)
      && (forall s :: s in ix.scopeWiseNames ==>
        ix.scopeWiseNames[s] == KeptNames(ItemLoaded(items[LastWithScope(items, s)], tagsOf, env), env.ignored))
  {
    var m := |items| - 1;
    var init := items[..m];
    var item := items[m];
    LoadLastScope(items, tagsOf, env, ix0);
    var ix := LoadItems(items, tagsOf, env).0;
    forall s | s in ix.scopeWiseNames
      ensures ix.scopeWiseNames[s] == KeptNames(ItemLoaded(items[LastWithScope(items, s)], tagsOf, env), env.ignored)
    {
      if s != item.scope {
        LastWithOtherScope(items, s);
      }
    }
  }

  lemma LastWithOtherScope(items: seq<TagFileItem>, s: string)
    requires items != [] && items[|items| - 1].scope != s
    ensures var init := items[..|items| - 1];
      LastWithScope(items, s) == LastWithScope(init, s)
      && (LastWithScope(init, s) >= 0 ==> items[LastWithScope(items, s)] == init[LastWithScope(init, s)])
  {
  }

  /** The last item's scope gets exactly that item's kept names; the other lists stay. */
  lemma LoadLastScope(items: seq<TagFileItem>, tagsOf: Parser, env: Env, ix0: Index)
    requires items != [] && ix0 == LoadItems(items[..|items| - 1], tagsOf, env).0
    requires LoadItems(items, tagsOf, env).1.None?
    ensures var item := items[|items| - 1];
      LoadItems(items, tagsOf, env).0.scopeWiseNames
      == ix0.scopeWiseNames[item.scope := KeptNames(ItemLoaded(item, tagsOf, env), env.ignored)]
  {
    var item := items[|items| - 1];
    var ix1 := ix0.(scopeWiseNames := ix0.scopeWiseNames[item.scope := []]);
    var tags := tagsOf(item).value;
    assert LoadItems(items[..|items| - 1], tagsOf, env).1.None?;
    AddTagsFacts(ix1, item.scope, BaseDir(item, env), tags, env);
    assert LoadItems(items, tagsOf, env).0 == AddTags(ix1, item.scope, BaseDir(item, env), tags, env);
    assert ItemLoaded(item, tagsOf, env) == Tagged(item.scope, BaseDir(item, env), tags);
    assert [] + KeptNames(ItemLoaded(item, tagsOf, env), env.ignored) == KeptNames(ItemLoaded(item, tagsOf, env), env.ignored);
  }

  /** The names the ignore predicate holds for appear nowhere. */
  predicate Clean(ix: Index, ignored: string -> bool) {
    (forall k :: 0 <= k < |ix.names| ==> !ignored(ix.names[k]))
    && (forall n :: n in ix.tagLookup ==> !ignored(n))
    && (forall s, k :: s in ix.scopeWiseNames && 0 <= k < |ix.scopeWiseNames[s]| ==> !ignored(ix.scopeWiseNames[s][k]))
  }

  lemma {:induction false} AddTagsClean(ix: Index, scope: string, baseDir: string, tags: seq<Entry>, env: Env)
    requires scope in ix.scopeWiseNames && Clean(ix, env.ignored)
    ensures Clean(AddTags(ix, scope, baseDir, tags, env), env.ignored)
    decreases |tags|
  {
    if tags != [] {
      AddTagsClean(ix, scope, baseDir, tags[..|tags| - 1], env);
    }
  }

  /** Whether it succeeds or stops at a tags file that does not parse, a load leaves no ignored name behind. */
  lemma {:induction false} LoadClean(items: seq<TagFileItem>, tagsOf: Parser, env: Env)
    ensures Clean(LoadItems(items, tagsOf, env).0, env.ignored)
    decreases |items|
  {
    if items != [] {
      var m := |items| - 1;
      LoadClean(items[..m], tagsOf, env);
      var (ix0, e0) := LoadItems(items[..m], tagsOf, env);
      if e0.None? {
        var item := items[m];
        var ix1 := ix0.(scopeWiseNames := ix0.scopeWiseNames[item.scope := []]);
        assert Clean(ix1, env.ignored);
        if tagsOf(item).Ok? {
          AddTagsClean(ix1, item.scope, BaseDir(item, env), tagsOf(item).value, env);
        }
      }
    }
  }

  // ---------------------------------------------------------------------
  // Peeking at a tag

  /** `pattern[2:len(pattern) - 2]`: the search pattern without its `/^` and `$/`. */
  function Locator(pattern: string): (r: string)
    ensures |r| <= |pattern|
  {
    Slice(pattern, 2, |pattern| - 2)
  }

  /** The locator of a ctags search pattern is the text between its anchors. */
  lemma LocatorOfPattern(body: string)
    ensures Locator("/^" + body + "$/") == body
  {
    var p := "/^" + body + "$/";
    assert p[2..|p| - 2] == body;
  }

  /** A pattern of four characters or fewer leaves nothing to search for. */
  lemma LocatorShort(pattern: string)
    requires |pattern| <= 4
    ensures Locator(pattern) == []
  {
  }

  /** The search from line `j` on: the first line that starts with `loc`, else the last line. */
  function MatchFrom(lines: seq<string>, loc: string, j: nat): (r: nat)
    requires j < |lines|
    ensures j <= r < |lines|
    ensures forall k :: j <= k < r ==> !(loc <= lines[k])
    ensures loc <= lines[r] || r == |lines| - 1
    decreases |lines| - j
  {
    if loc <= lines[j] || j == |lines| - 1 then j else MatchFrom(lines, loc, j + 1)
  }

  /** No line starts with the locator. */
  predicate NoLineStarts(lines: seq<string>, loc: string) {
    forall k :: 0 <= k < |lines| ==> !(loc <= lines[k])
  }

  /** Where the search loop of `peek_at_tag` leaves `i`. */
  function MatchIndex(lines: seq<string>, loc: string): nat
    requires lines != []
  {
    MatchFrom(lines, loc, 0)
  }

  /** The search loop: stop at the first line that starts with the locator. */
  method FindLine(lines: seq<string>, loc: string) returns (i: nat)
    requires lines != []
    ensures i == MatchIndex(lines, loc)
    ensures i < |lines| && (loc <= lines[i] || i == |lines| - 1)
    ensures forall k :: 0 <= k < i ==> !(loc <= lines[k])
  {
    i := 0;
    while i < |lines| - 1 && !(loc <= lines[i])
      invariant i < |lines| && MatchFrom(lines, loc, i) == MatchIndex(lines, loc)
    {
      i := i + 1;
    }
  }

  /** `context_size`. */
  const ContextSize: nat := 5

  function Min(a: int, b: int): int {
    if a <= b then a else b
  }

  /**
   * The slice bounds `peek_at_tag` computes, as written: the lines after the
   * match count only when more than `ContextSize` follow, and otherwise the
   * comparison's `False`, that is 0, is used.
   */
  function WindowAsWritten(length: nat, i: nat): (r: (nat, nat))
    requires i < length
    ensures r.0 == i - Min(ContextSize, i) && r.0 <= r.1 <= length
    ensures ContextSize < length - 1 - i ==> r.1 == i + ContextSize
    ensures length - 1 - i <= ContextSize ==> r.1 == i
  {
    var before := if ContextSize <= i - 1 then ContextSize else i;
    var after := if ContextSize < length - 1 - i then ContextSize else 0;
    (i - before, i + after)
  }

  /** The window meant: the matched line with up to `ContextSize` lines on each side. */
  function Window(length: nat, i: nat): (r: (nat, nat))
    requires i < length
    ensures r.0 <= i < r.1 <= length
    ensures i - r.0 == Min(ContextSize, i) && r.1 - 1 - i == Min(ContextSize, length - 1 - i)
  {
    var before := if ContextSize <= i - 1 then ContextSize else i;
    var after := if ContextSize < length - 1 - i then ContextSize else length - 1 - i;
    (i - before, i + after + 1)
  }

  /** A tag recorded without a search pattern: `None[2:...]` raises. */
  datatype PeekError = NoPattern

  /**
   * The text `peek_at_tag` shows for a tag, given the text of its file:
   * nothing when the search ends on the last line, else the window around
   * the line found, joined again.
   */
  function PeekWith(tag: TagRecord, text: string, linesep: string, window: (nat, nat) -> (nat, nat)): Result<Option<string>, PeekError>
    requires linesep != []
    requires forall length: nat, i: nat :: i < length ==> window(length, i).0 <= window(length, i).1 <= length
  {
    if tag.pattern.None? then Err(NoPattern)
    else
      var lines := Split(text, linesep);
      var i := MatchIndex(lines, Locator(tag.pattern.value));
      if i == |lines| - 1 then Ok(None)
      else
        var (lo, hi) := window(|lines|, i);
        Ok(Some(Join(lines[lo..hi], linesep)))
  }

  function PeekAsWritten(tag: TagRecord, text: string, linesep: string): Result<Option<string>, PeekError>
    requires linesep != []
  {
    PeekWith(tag, text, linesep, (length: nat, i: nat) => if i < length then WindowAsWritten(length, i) else (0, 0))
  }

  function Peek(tag: TagRecord, text: string, linesep: string): Result<Option<string>, PeekError>
    requires linesep != []
  {
    PeekWith(tag, text, linesep, (length: nat, i: nat) => if i < length then Window(length, i) else (0, 0))
  }

  /**
   * As written, when five or fewer lines follow the match the slice ends
   * just before the matched line, so the definition itself is not shown.
   */
  lemma WindowAsWrittenDropsMatch(length: nat, i: nat)
    requires i < length - 1 && length - 1 - i <= ContextSize
    ensures WindowAsWritten(length, i).1 == i
  {
  }

  /** On a two-line file whose first line is the definition, the as-written peek shows an empty panel. */
  lemma PeekAsWrittenShowsNothing()
    ensures PeekAsWritten(TagRecord("f.py", Some("/^foo$/")), "foo\nbar", "\n") == Ok(Some(""))
  {
    var lines := ["foo", "bar"];
    FooFirst();
    assert WindowAsWritten(2, 0) == (0, 0);
    assert lines[0..0] == [];
  }

  /** On the same file the intended window shows both lines. */
  lemma PeekShowsBoth()
    ensures Peek(TagRecord("f.py", Some("/^foo$/")), "foo\nbar", "\n") == Ok(Some("foo\nbar"))
  {
    var lines := ["foo", "bar"];
    FooFirst();
    assert Window(2, 0) == (0, 2);
    assert lines[0..2] == lines;
    assert lines[1..] == ["bar"];
    assert Join(lines, "\n") == "foo" + "\n" + "bar";
    assert "foo" + "\n" + "bar" == "foo\nbar";
  }

  /** The search on the two-line file stops at its first line. */
  lemma FooFirst()
    ensures Split("foo\nbar", "\n") == ["foo", "bar"]
    ensures Locator("/^foo$/") == "foo"
    ensures MatchIndex(["foo", "bar"], "foo") == 0
  {
    TwoLines();
    LocatorOfPattern("foo");
    assert "/^" + "foo" + "$/" == "/^foo$/";
    var lines := ["foo", "bar"];
    assert "foo" <= lines[0];
    assert MatchFrom(lines, "foo", 0) == 0;
  }

  lemma TwoLines()
    ensures Split("foo\nbar", "\n") == ["foo", "bar"]
  {
    assert "foo\nbar" == "foo" + ['\n'] + "bar";
    SplitTwo("foo", '\n', "bar");
  }

  lemma SplitTwo(a: string, c: char, b: string)
    requires c !in a && c !in b
    ensures Split(a + [c] + b, [c]) == [a, b]
  {
    SplitConcat(a, c, b);
    SplitWithout(a, c, 0);
    SplitWithout(b, c, 0);
  }

  /**
   * Peeking shows nothing when the search ends on the last line, which is
   * the case when no line starts with the locator; otherwise it shows the
   * lines around the first line that does, that line included.
   */
  lemma PeekOutcome(tag: TagRecord, text: string, linesep: string)
    requires linesep != [] && tag.pattern.Some?
    ensures var lines := Split(text, linesep);
      var loc := Locator(tag.pattern.value);
      var i := MatchIndex(lines, loc);
      && (NoLineStarts(lines, loc) ==> Peek(tag, text, linesep) == Ok(None))
      && (Peek(tag, text, linesep) == Ok(None) <==> i == |lines| - 1)
      && (i < |lines| - 1 ==>
        (loc <= lines[i]
        && Peek(tag, text, linesep) == Ok(Some(Join(lines[Window(|lines|, i).0..Window(|lines|, i).1], linesep)))))
  {
    var lines := Split(text, linesep);
    var loc := Locator(tag.pattern.value);
    var i := MatchIndex(lines, loc);
    if i < |lines| - 1 {
      assert loc <= lines[i];
      assert !NoLineStarts(lines, loc);
      var w := Window(|lines|, i);
      assert Peek(tag, text, linesep) == Ok(Some(Join(lines[w.0..w.1], linesep)));
    } else {
      assert Peek(tag, text, linesep) == Ok(None);
    }
  }

  /**
   * Peeking as written: nothing when the search ends on the last line;
   * otherwise up to `ContextSize` lines before the line found, then, only
   * when more than `ContextSize` lines follow it, that line and the next
   * `ContextSize - 1`. With fewer lines after it, the line found is not
   * shown.
   */
  lemma PeekAsWrittenOutcome(tag: TagRecord, text: string, linesep: string)
    requires linesep != [] && tag.pattern.Some?
    ensures var lines := Split(text, linesep);
      var loc := Locator(tag.pattern.value);
      var i := MatchIndex(lines, loc);
      && (NoLineStarts(lines, loc) ==> PeekAsWritten(tag, text, linesep) == Ok(None))
      && (PeekAsWritten(tag, text, linesep) == Ok(None) <==> i == |lines| - 1)
      && (i < |lines| - 1 ==>
        (loc <= lines[i]
        && (forall k :: 0 <= k < i ==> !(loc <= lines[k]))
        && PeekAsWritten(tag, text, linesep) == Ok(Some(Join(lines[i - Min(ContextSize, i)..if ContextSize < |lines| - 1 - i then i + ContextSize else i], linesep)))))
  {
    var lines := Split(text, linesep);
    var loc := Locator(tag.pattern.value);
    var i := MatchIndex(lines, loc);
    if i < |lines| - 1 {
      assert loc <= lines[i];
      assert !NoLineStarts(lines, loc);
      var w := WindowAsWritten(|lines|, i);
      assert PeekAsWritten(tag, text, linesep) == Ok(Some(Join(lines[w.0..w.1], linesep)));
    } else {
      assert PeekAsWritten(tag, text, linesep) == Ok(None);
    }
  }

  // ---------------------------------------------------------------------
  // The object

  class TagMonster {
    var names: seq<string>
    var tagLookup: map<string, TagRecord>
    var scopeWiseNames: map<string, seq<string>>

    function State(): Index
      reads this
    {
      Index(names, tagLookup, scopeWiseNames)
    }

    /** `TagMonster()`: no names, an empty lookup. */
    constructor()
      ensures State() == EmptyIndex
    {
      tagLookup := map[];
      names := [];
      scopeWiseNames := map[];
    }

    /**
     * `load_tag_file()` for the `tag_files` setting: whatever was loaded
     * before is gone, and the result is `LoadItems` of the setting alone.
     */
    method LoadTagFile(tagFiles: seq<TagFileItem>, env: Env) returns (err: Option<FileError>)
      modifies this
      ensures (State(), err) == LoadItems(tagFiles, Parsing(env), env)
    {
      ghost var tagsOf := Parsing(env);
      names := [];
      tagLookup := map[];
      scopeWiseNames := map[];
      err := None;
      for i := 0 to |tagFiles|
        invariant (State(), err) == LoadItems(tagFiles[..i], tagsOf, env)
        invariant err == None
      {
        var item := tagFiles[i];
        assert tagFiles[..i + 1][..i] == tagFiles[..i];
        scopeWiseNames := scopeWiseNames[item.scope := []];
        var fileName := item.filePath;
        var baseDir := env.dirname(env.abspath(fileName));
        var tagFile := new CtagsFile();
        var e := tagFile.Parse(env.readLines(AsciiOnly(fileName)), []);
        if e.Some? {
          assert tagsOf(item) == Err(e.value);
          assert LoadItems(tagFiles[..i + 1], tagsOf, env) == (State(), e);
          LoadErrorStops(tagFiles, i + 1, |tagFiles|, tagsOf, env);
          assert tagFiles[..|tagFiles|] == tagFiles;
          return e;
        }
        var tags := tagFile.tags;
        assert tagsOf(item) == Ok(tags);
        AddFileTags(item.scope, baseDir, tags, env);
      }
      assert tagFiles[..|tagFiles|] == tagFiles;
    }

    /** The inner loop of `load_tag_file()`: the tags of one tags file, in order. */
    method AddFileTags(scope: string, baseDir: string, tags: seq<Entry>, env: Env)
      requires scope in scopeWiseNames
      modifies this
      ensures State() == AddTags(old(State()), scope, baseDir, tags, env)
    {
      for j := 0 to |tags|
        invariant scope in scopeWiseNames
        invariant State() == AddTags(old(State()), scope, baseDir, tags[..j], env)
      {
        var tag := tags[j];
        assert tags[..j + 1][..j] == tags[..j];
        if env.ignored(tag.name) {
          continue;
        }
        names := names + [tag.name];
        scopeWiseNames := scopeWiseNames[scope := scopeWiseNames[scope] + [tag.name]];
        tagLookup := tagLookup[tag.name := TagRecord(env.join(baseDir, tag.file), tag.pattern)];
      }
      assert tags[..|tags|] == tags;
    }

    /**
     * `peek_at_tag(tag)`: what the panel shows, with the window holding
     * the matched line.
     */
    method PeekAtTag(tag: TagRecord, env: Env) returns (r: Result<Option<string>, PeekError>)
      requires env.linesep != []
      ensures r == PeekAsWritten(tag, env.readText(tag.file), env.linesep)
    {
      if tag.pattern.None? {
        return Err(NoPattern);
      }
      var matcher := Locator(tag.pattern.value);
      var lines := Split(env.readText(tag.file), env.linesep);
      var i := FindLine(lines, matcher);
      if i == |lines| - 1 {
        return Ok(None);
      }
      var contextSize := ContextSize;
      var length := |lines|;
      var contextBefore := if contextSize <= i - 1 then contextSize else i;
      var contextAfter := if contextSize < length - 1 - i then contextSize else 0;
      var context := Join(lines[i - contextBefore..i + contextAfter], env.linesep);
      return Ok(Some(context));
    }
  }
}
