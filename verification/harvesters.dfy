/**
 * The harvesters: objects fed one tag entry at a time that gather
 * information from them. `kind_harvester` and `by_name_harvester` group the
 * entries; `name_lookup_harvester` keeps the distinct names sorted, an index
 * from first characters to blocks of that sorted list, and answers prefix
 * queries with `starts_with`.
 */
module Harvesters {
  import opened Wrappers
  import opened Text
  import opened OrderedDict
  import opened StrOrder
  import opened TagEntry
  import KwargsValidator

  /** The exceptions a harvester raises. */
  datatype HarvestError =
    | NoExtensions          // `'kind' in entry.extensions` on an entry without extensions
    | EmptyNameList         // `sorted_names[0]` with no names fed
    | EmptyFirstName        // `sorted_names[0][0]` when the empty name was fed
    | BadKeyword(arg: string)
    | BlockWithoutLast      // an index block that never got its `last`
    | SingleNameBlock       // an index block with `first == last + 1`

  // ---------------------------------------------------------------------
  // Grouping harvesters

  /** A dict from a key to the entries filed under it. */
  type Groups = map<string, seq<Entry>>

  /** The list under `k`, empty when `k` has none yet. */
  function Listed(g: Groups, k: string): seq<Entry> {
    if k in g then g[k] else []
  }

  /** `kind` of an entry's extensions: absent, or the kind; an entry without extensions fails. */
  function KindOf(e: Entry): Result<Option<string>, HarvestError> {
    match e.extensions
    case None => Err(NoExtensions)
    case Some(ext) => Ok(if "kind" in Keys(ext) then Some(Get(ext, "kind")) else None)
  }

  /** `kind_harvester.feed`. */
  function KindFeed(g: Groups, e: Entry): Result<Groups, HarvestError> {
    match KindOf(e)
    case Err(err) => Err(err)
    case Ok(None) => Ok(g)
    case Ok(Some(k)) => Ok(g[k := Listed(g, k) + [e]])
  }

  /** Feeding `es` in order; the first error stops it. */
  function KindRun(g: Groups, es: seq<Entry>): (Groups, Option<HarvestError>)
    decreases |es|
  {
    if es == [] then (g, None)
    else
      var (g1, e1) := KindRun(g, es[..|es| - 1]);
      if e1.Some? then (g1, e1)
      else
        match KindFeed(g1, es[|es| - 1])
        case Err(err) => (g1, Some(err))
        case Ok(g2) => (g2, None)
  }

  /** The entries of `es` whose kind is `k`, in order. */
  function OfKind(es: seq<Entry>, k: string): seq<Entry>
    decreases |es|
  {
    if es == [] then []
    else OfKind(es[..|es| - 1], k) + (if KindOf(es[|es| - 1]) == Ok(Some(k)) then [es[|es| - 1]] else [])
  }

  /** `by_name_harvester.feed` over `es`. */
  function NamesAfter(g: Groups, es: seq<Entry>): Groups
    decreases |es|
  {
    if es == [] then g
    else
      var g1 := NamesAfter(g, es[..|es| - 1]);
      var e := es[|es| - 1];
      g1[e.name := Listed(g1, e.name) + [e]]
  }

  /** The entries of `es` named `n`, in order. */
  function Named(es: seq<Entry>, n: string): seq<Entry>
    decreases |es|
  {
    if es == [] then []
    else Named(es[..|es| - 1], n) + (if es[|es| - 1].name == n then [es[|es| - 1]] else [])
  }

  /**
   * After feeding `es` without error, the list under each kind is what it
   * was followed by the entries of that kind in feed order, and a kind is a
   * key exactly when it was one or some entry has it.
   */
  lemma {:induction false} KindRunGroups(g: Groups, es: seq<Entry>, k: string)
    requires KindRun(g, es).1.None?
    ensures Listed(KindRun(g, es).0, k) == Listed(g, k) + OfKind(es, k)
    ensures k in KindRun(g, es).0 <==> k in g || OfKind(es, k) != []
    decreases |es|
  {
    if es != [] {
      var n := |es| - 1;
      KindRunGroups(g, es[..n], k);
      var g1 := KindRun(g, es[..n]).0;
      KindFeedGroups(g1, es[n], k);
      assert KindRun(g, es).0 == KindFeed(g1, es[n]).value;
      assert OfKind(es, k) == OfKind(es[..n], k) + (if KindOf(es[n]) == Ok(Some(k)) then [es[n]] else []);
    }
  }

  /** One successful feed appends the entry under its own kind only. */
  lemma KindFeedGroups(g: Groups, e: Entry, k: string)
    requires KindFeed(g, e).Ok?
    ensures Listed(KindFeed(g, e).value, k) == Listed(g, k) + (if KindOf(e) == Ok(Some(k)) then [e] else [])
    ensures k in KindFeed(g, e).value <==> k in g || KindOf(e) == Ok(Some(k))
  {
  }

  /** Feeding fails exactly when some entry has no extensions. */
  lemma {:induction false} KindRunFails(g: Groups, es: seq<Entry>)
    ensures KindRun(g, es).1.Some? <==> exists i :: 0 <= i < |es| && es[i].extensions.None?
    decreases |es|
  {
    if es != [] {
      var n := |es| - 1;
      KindRunFails(g, es[..n]);
      if exists i :: 0 <= i < n && es[..n][i].extensions.None? {
        var i :| 0 <= i < n && es[..n][i].extensions.None?;
        assert es[i] == es[..n][i];
      }
      if exists i :: 0 <= i < |es| && es[i].extensions.None? {
        var i :| 0 <= i < |es| && es[i].extensions.None?;
        if i < n {
          assert es[..n][i] == es[i];
        }
      }
    }
  }

  /**
   * After feeding `es`, the list under each name is what it was followed by
   * the entries of that name in feed order; a name is a key exactly when it
   * was one or some entry has it.
   */
  lemma {:induction false} NamesAfterGroups(g: Groups, es: seq<Entry>, n: string)
    ensures Listed(NamesAfter(g, es), n) == Listed(g, n) + Named(es, n)
    ensures n in NamesAfter(g, es) <==> n in g || Named(es, n) != []
    decreases |es|
  {
    if es != [] {
      NamesAfterGroups(g, es[..|es| - 1], n);
    }
  }

  /** One more entry lengthens its own name's list by one and leaves every other list alone. */
  lemma {:induction false} FeedFilesOnce(es: seq<Entry>, e: Entry)
    ensures |Named(es + [e], e.name)| == |Named(es, e.name)| + 1
    ensures forall n :: n != e.name ==> Named(es + [e], n) == Named(es, n)
  {
    assert (es + [e])[..|es|] == es;
  }

  class KindHarvester {
    var kinds: Groups

    constructor()
      ensures kinds == map[]
    {
      kinds := map[];
    }

    /** `feed(entry)`: files an entry with a kind under it; one without extensions fails. */
    method Feed(entry: Entry) returns (err: Option<HarvestError>)
      modifies this
      ensures KindFeed(old(kinds), entry).Ok? ==> err == None && kinds == KindFeed(old(kinds), entry).value
      ensures KindFeed(old(kinds), entry).Err? ==> err == Some(KindFeed(old(kinds), entry).error) && kinds == old(kinds)
    {
      match entry.extensions
      case None =>
        err := Some(NoExtensions);
      case Some(ext) =>
        if "kind" in Keys(ext) {
          var kind := Get(ext, "kind");
          if kind !in kinds {
            kinds := kinds[kind := []];
          }
          kinds := kinds[kind := kinds[kind] + [entry]];
        }
        err := None;
    }

    /** `process_tag_list(taglist)`: `do_before` and `do_after` do nothing here. */
    method ProcessTagList(taglist: seq<Entry>) returns (err: Option<HarvestError>)
      modifies this
      ensures (kinds, err) == KindRun(old(kinds), taglist)
    {
      err := None;
      for i := 0 to |taglist|
        invariant (kinds, err) == KindRun(old(kinds), taglist[..i])
        invariant err == None
      {
        assert taglist[..i + 1][..i] == taglist[..i];
        err := Feed(taglist[i]);
        if err.Some? {
          KindRunErrorStops(old(kinds), taglist, i + 1);
          return;
        }
      }
      assert taglist[..|taglist|] == taglist;
    }
  }

  /** Once a feed has failed, the rest of the list is not fed. */
  lemma {:induction false} KindRunErrorStops(g: Groups, es: seq<Entry>, i: nat)
    requires i <= |es| && KindRun(g, es[..i]).1.Some?
    ensures KindRun(g, es) == KindRun(g, es[..i])
    decreases |es| - i
  {
    if i < |es| {
      assert es[..i + 1][..i] == es[..i];
      KindRunErrorStops(g, es, i + 1);
    } else {
      assert es[..i] == es;
    }
  }

  class ByNameHarvester {
    var names: Groups

    constructor()
      ensures names == map[]
    {
      names := map[];
    }

    /** `feed(entry)`: files the entry under its name. */
    method Feed(entry: Entry)
      modifies this
      ensures names == NamesAfter(old(names), [entry])
    {
      if entry.name !in names {
        names := names[entry.name := []];
      }
      names := names[entry.name := names[entry.name] + [entry]];
    }

    /** `process_tag_list(taglist)`. */
    method ProcessTagList(taglist: seq<Entry>)
      modifies this
      ensures names == NamesAfter(old(names), taglist)
    {
      for i := 0 to |taglist|
        invariant names == NamesAfter(old(names), taglist[..i])
      {
        assert taglist[..i + 1][..i] == taglist[..i];
        Feed(taglist[i]);
      }
      assert taglist[..|taglist|] == taglist;
    }
  }

  // ---------------------------------------------------------------------
  // The name table of `name_lookup_harvester`

  /** An index entry: the `first` position of a block and, once set, its `last`. */
  datatype Block = Block(first: int, last: Option<int>)

  type NameIndex = map<char, Block>

  /** `unique_names[name] = None`: the dict's keys, a new one at the end. */
  function AddName(unique: seq<string>, name: string): seq<string> {
    if name in unique then unique else unique + [name]
  }

  /** The keys after feeding `es`. */
  function AddNames(unique: seq<string>, es: seq<Entry>): (r: seq<string>)
    ensures Distinct(unique) ==> Distinct(r)
    decreases |es|
  {
    if es == [] then unique else AddName(AddNames(unique, es[..|es| - 1]), es[|es| - 1].name)
  }

  /** Some entry of `es` is named `x`. */
  predicate Fed(es: seq<Entry>, x: string) {
    exists i :: 0 <= i < |es| && es[i].name == x
  }

  /** The keys are the old keys together with the names fed. */
  lemma {:induction false} AddNamesSpec(unique: seq<string>, es: seq<Entry>)
    ensures forall x :: x in AddNames(unique, es) <==> x in unique || Fed(es, x)
    decreases |es|
  {
    if es != [] {
      var n := |es| - 1;
      AddNamesSpec(unique, es[..n]);
      forall x
        ensures Fed(es, x) <==> Fed(es[..n], x) || es[n].name == x
      {
        if Fed(es, x) {
          var i :| 0 <= i < |es| && es[i].name == x;
          if i < n {
            assert es[..n][i] == es[i];
          }
        }
        if Fed(es[..n], x) {
          var i :| 0 <= i < n && es[..n][i].name == x;
          assert es[i] == es[..n][i];
        }
      }
    }
  }

  /** What the loop in `do_after` carries besides the counter: the index and `prev_char`. */
  datatype IndexState = IndexState(index: NameIndex, prev: char)

  predicate NonEmptyNames(names: seq<string>) {
    forall k :: 0 <= k < |names| ==> names[k] != []
  }

  /**
   * One pass of the loop: a name whose first character has no block closes
   * the block of `prev_char` one place back and opens its own.
   */
  function IndexStep(st: IndexState, f: string, i: int): IndexState
    requires f != [] && st.prev in st.index
  {
    if f[0] !in st.index then
      IndexState(st.index[st.prev := st.index[st.prev].(last := Some(i - 1))][f[0] := Block(i, None)], f[0])
    else st
  }

  /** The loop over the first `i` sorted names, from `init`. */
  function IndexLoop(names: seq<string>, i: nat, init: IndexState): (r: IndexState)
    requires i <= |names| && NonEmptyNames(names) && init.prev in init.index
    ensures r.prev in r.index
  {
    if i == 0 then init else IndexStep(IndexLoop(names, i - 1, init), names[i - 1], i - 1)
  }

  /**
   * `do_after` from the keys `unique` and the index left by earlier calls:
   * the sorted names, the new index, and the error raised. With no names, or
   * with the empty name (which sorts first), it fails at `sorted_names[0][0]`
   * after `sorted_names` is set and before the index is touched.
   */
  function DoAfterSpec(unique: seq<string>, index0: NameIndex): (r: (seq<string>, NameIndex, Option<HarvestError>))
    requires Distinct(unique)
    ensures r.0 == Sort(unique)
  {
    var sorted := Sort(unique);
    if sorted == [] then (sorted, index0, Some(EmptyNameList))
    else if sorted[0] == [] then (sorted, index0, Some(EmptyFirstName))
    else
      SortSpec(unique);
      AscendingNonEmpty(sorted);
      (sorted, IndexAfter(sorted, index0), None)
  }

  /**
   * `do_after` sorts: the sorted names are the unique names in ascending
   * order, a permutation of them. It fails exactly when there is no name or
   * the empty name is among them, and then the index is as it was.
   */
  lemma DoAfterOutcome(unique: seq<string>, index0: NameIndex)
    requires Distinct(unique)
    ensures var (sorted, index, err) := DoAfterSpec(unique, index0);
      Ascending(sorted) && multiset(sorted) == multiset(unique)
      && (err.None? <==> unique != [] && [] !in unique)
      && (err.Some? ==> index == index0)
  {
    SortSpec(unique);
    var sorted := Sort(unique);
    if sorted != [] && sorted[0] != [] {
      AscendingNonEmpty(sorted);
      assert [] !in sorted;
    } else if sorted != [] {
      assert [] in sorted;
    }
  }

  /**
   * The index the loop of `do_after` leaves: the first name's character
   * opens a block at 0, the loop runs, and the open block gets `last = len`.
   */
  function IndexAfter(sorted: seq<string>, index0: NameIndex): NameIndex
    requires sorted != [] && NonEmptyNames(sorted)
  {
    var c0 := sorted[0][0];
    var st := IndexLoop(sorted, |sorted|, IndexState(index0[c0 := Block(0, None)], c0));
    st.index[st.prev := st.index[st.prev].(last := Some(|sorted|))]
  }

  /** Where a block ends (exclusive): the final block's `last` is the list length itself. */
  function Stop(last: int, n: int): int {
    if last == n then n else last + 1
  }

  /**
   * The block of `c` is right: it starts inside the list, a non-final block
   * ends before the last name and the final one has `last == len`, and the
   * names starting with `c` are exactly those in the block.
   */
  predicate BlockFits(names: seq<string>, c: char, b: Block)
    requires NonEmptyNames(names)
  {
    b.last.Some? && 0 <= b.first < |names|
    && (b.last.value == |names| || b.first <= b.last.value < |names| - 1)
    && forall k :: 0 <= k < |names| ==> (names[k][0] == c <==> b.first <= k < Stop(b.last.value, |names|))
  }

  /** Every first character has a block, and every block fits. */
  predicate IndexFits(names: seq<string>, index: NameIndex)
    requires NonEmptyNames(names)
  {
    (forall k :: 0 <= k < |names| ==> names[k][0] in index)
    && forall c :: c in index ==> BlockFits(names, c, index[c])
  }

  /**
   * What holds of the loop state after the first `i` names: `prev` is the
   * last name's first character, its block is open at its first position, and
   * every other block is closed around exactly the names with its character.
   */
  predicate Partial(names: seq<string>, i: nat, st: IndexState)
    requires 0 < i <= |names| && NonEmptyNames(names)
  {
    st.prev == names[i - 1][0] && st.prev in st.index
    && (forall k :: 0 <= k < i ==> names[k][0] in st.index)
    && (forall c :: c in st.index ==> 0 <= st.index[c].first < i && names[st.index[c].first][0] == c)
    && st.index[st.prev].last == None
    && (forall k :: 0 <= k < i ==> (names[k][0] == st.prev <==> st.index[st.prev].first <= k))
    && forall c :: c in st.index && c != st.prev ==>
      st.index[c].last.Some? && st.index[c].first <= st.index[c].last.value < i - 1
      && forall k :: 0 <= k < i ==> (names[k][0] == c <==> st.index[c].first <= k <= st.index[c].last.value)
  }

  lemma PartialStep(names: seq<string>, i: nat, st: IndexState)
    requires 0 < i < |names| && NonEmptyNames(names) && Ascending(names)
    requires Partial(names, i, st)
    ensures Partial(names, i + 1, IndexStep(st, names[i], i))
  {
    AscendingFirstChars(names, i - 1, i);
    if names[i][0] in st.index {
      AscendingFirstChars(names, st.index[names[i][0]].first, i - 1);
      PartialSameBlock(names, i, st);
    } else {
      PartialNewBlock(names, i, st);
    }
  }

  /** A name with the same first character as the one before extends the open block. */
  lemma PartialSameBlock(names: seq<string>, i: nat, st: IndexState)
    requires 0 < i < |names| && NonEmptyNames(names)
    requires Partial(names, i, st) && names[i][0] == st.prev
    ensures Partial(names, i + 1, IndexStep(st, names[i], i))
  {
  }

  /** A name with a new first character closes the open block and opens its own. */
  lemma PartialNewBlock(names: seq<string>, i: nat, st: IndexState)
    requires 0 < i < |names| && NonEmptyNames(names) && Ascending(names)
    requires Partial(names, i, st) && names[i][0] !in st.index
    ensures Partial(names, i + 1, IndexStep(st, names[i], i))
  {
    var f := names[i];
    var b := st.index[st.prev];
    var r := IndexStep(st, f, i);
    assert r.index[st.prev] == b.(last := Some(i - 1));
    forall k | 0 <= k < i + 1
      ensures names[k][0] != f[0] <==> k < i
    {
      if k < i {
        AscendingFirstChars(names, k, i - 1);
        AscendingFirstChars(names, i - 1, i);
      }
    }
  }

  lemma {:induction false} FreshLoop(names: seq<string>, i: nat)
    requires 0 < i <= |names| && NonEmptyNames(names) && Ascending(names)
    ensures var c0 := names[0][0];
      Partial(names, i, IndexLoop(names, i, IndexState(map[c0 := Block(0, None)], c0)))
    decreases i
  {
    var c0 := names[0][0];
    var init := IndexState(map[c0 := Block(0, None)], c0);
    if i > 1 {
      FreshLoop(names, i - 1);
      PartialStep(names, i - 1, IndexLoop(names, i - 1, init));
    }
  }

  /**
   * From a fresh index, `do_after` on distinct names fails exactly when there
   * are none or the empty name is among them; otherwise the sorted names are
   * the fed names, ascending, and the index fits them.
   */
  lemma FreshDoAfter(unique: seq<string>)
    requires Distinct(unique)
    ensures var (sorted, index, err) := DoAfterSpec(unique, map[]);
      Ascending(sorted) && |sorted| == |unique| && (forall x :: x in sorted <==> x in unique)
      && (err.None? <==> unique != [] && [] !in unique)
      && (err.None? ==> NonEmptyNames(sorted) && IndexFits(sorted, index))
  {
    SortSpec(unique);
    var (sorted, index, err) := DoAfterSpec(unique, map[]);
    if sorted != [] && sorted[0] != [] {
      AscendingNonEmpty(sorted);
      FreshIndexFits(sorted);
    }
  }

  lemma FreshIndexFits(sorted: seq<string>)
    requires sorted != [] && NonEmptyNames(sorted) && Ascending(sorted)
    ensures IndexFits(sorted, IndexAfter(sorted, map[]))
  {
    FreshLoop(sorted, |sorted|);
  }

  // ---------------------------------------------------------------------
  // Prefix queries

  /** A keyword argument of `starts_with`: an int or a bool. */
  datatype KwValue = KwInt(i: int) | KwBool(b: bool)

  const StartsWithKwargs: seq<string> := ["num_results", "case_sensitive"]

  /** `int(v)`. */
  function IntOf(v: KwValue): int {
    match v
    case KwInt(i) => i
    case KwBool(b) => if b then 1 else 0
  }

  /** Python truthiness of `v`. */
  predicate Truthy(v: KwValue) {
    match v
    case KwInt(i) => i != 0
    case KwBool(b) => b
  }

  /** `num_results`, 0 when not given. */
  function NumResults(kwargs: Dict<string, KwValue>): int {
    if "num_results" in Keys(kwargs) then IntOf(Get(kwargs, "num_results")) else 0
  }

  /** `case_sensitive`, False when not given. */
  predicate CaseSensitive(kwargs: Dict<string, KwValue>) {
    "case_sensitive" in Keys(kwargs) && Truthy(Get(kwargs, "case_sensitive"))
  }

  /** The test the filter loop applies: `t.find(m) == 0`, on lower-cased text when case is ignored. */
  predicate Matches(t: string, m: string, caseSensitive: bool) {
    if caseSensitive then m <= t else LowerStr(m) <= LowerStr(t)
  }

  /** The elements of `s` that match `m`, in order. */
  function Matching(s: seq<string>, m: string, caseSensitive: bool): seq<string>
    decreases |s|
  {
    if s == [] then []
    else Matching(s[..|s| - 1], m, caseSensitive) + (if Matches(s[|s| - 1], m, caseSensitive) then [s[|s| - 1]] else [])
  }

  /** The first `num` elements when `num` is positive, all of them otherwise. */
  function Cap(xs: seq<string>, num: int): seq<string> {
    if 0 < num < |xs| then xs[..num] else xs
  }

  /** `sorted_names[first:last + 1]` for a block; the single-name branch is not modelled. */
  function BlockNames(sorted: seq<string>, b: Block): Result<seq<string>, HarvestError> {
    if b.last.None? then Err(BlockWithoutLast)
    else if b.first == b.last.value + 1 then Err(SingleNameBlock)
    else Ok(Slice(sorted, b.first, b.last.value + 1))
  }

  /** The block of `c`, or nothing when `c` has none. */
  function BlockOf(sorted: seq<string>, index: NameIndex, c: char): Result<seq<string>, HarvestError> {
    if c in index then BlockNames(sorted, index[c]) else Ok([])
  }

  /**
   * The names the query looks at, as written: the block of the first
   * character, or when case is ignored the block of its lower-case form
   * followed by the block of its upper-case form.
   */
  function CandidatesAsWritten(sorted: seq<string>, index: NameIndex, c: char, caseSensitive: bool): Result<seq<string>, HarvestError> {
    if caseSensitive then BlockOf(sorted, index, c)
    else
      var lower := BlockOf(sorted, index, Lower(c));
      var upper := BlockOf(sorted, index, Upper(c));
      if lower.Err? then lower else if upper.Err? then upper else Ok(lower.value + upper.value)
  }

  /** The same, taking the upper-case block only when it is another block. */
  function Candidates(sorted: seq<string>, index: NameIndex, c: char, caseSensitive: bool): Result<seq<string>, HarvestError> {
    if caseSensitive then BlockOf(sorted, index, c)
    else
      var lower := BlockOf(sorted, index, Lower(c));
      var upper := if Upper(c) != Lower(c) then BlockOf(sorted, index, Upper(c)) else Ok([]);
      if lower.Err? then lower else if upper.Err? then upper else Ok(lower.value + upper.value)
  }

  /** The names looked at, as written or with the correction. */
  function Looked(sorted: seq<string>, index: NameIndex, c: char, caseSensitive: bool, corrected: bool): Result<seq<string>, HarvestError> {
    if corrected then Candidates(sorted, index, c, caseSensitive) else CandidatesAsWritten(sorted, index, c, caseSensitive)
  }

  /** `starts_with(m, **kwargs)` over the sorted names and the index, as written. */
  function StartsWithSpec(sorted: seq<string>, index: NameIndex, m: string, kwargs: Dict<string, KwValue>): Result<seq<string>, HarvestError> {
    Lookup(sorted, index, m, kwargs, false)
  }

  /** `starts_with` with each case-blind candidate looked at once. */
  function StartsWithCorrected(sorted: seq<string>, index: NameIndex, m: string, kwargs: Dict<string, KwValue>): Result<seq<string>, HarvestError> {
    Lookup(sorted, index, m, kwargs, true)
  }

  function Lookup(sorted: seq<string>, index: NameIndex, m: string, kwargs: Dict<string, KwValue>, corrected: bool): Result<seq<string>, HarvestError> {
    match KwargsValidator.Validate(Keys(kwargs), StartsWithKwargs)
    case Some(bad) => Err(BadKeyword(bad.arg))
    case None =>
      var num := NumResults(kwargs);
      if m == [] then Ok(if num != 0 then Slice(sorted, 0, num) else sorted)
      else
        var cs := CaseSensitive(kwargs);
        var c := m[0];
        if (cs && c !in index) || (!cs && Lower(c) !in index && Upper(c) !in index) then Ok([])
        else
          match Looked(sorted, index, c, cs, corrected)
          case Err(e) => Err(e)
          case Ok(cands) =>
            if |m| == 1 then Ok(if num == 0 then cands else Slice(cands, 0, num))
            else Ok(Cap(Matching(cands, m, cs), num))
  }

  lemma {:induction false} MatchingAppend(a: seq<string>, b: seq<string>, m: string, cs: bool)
    ensures Matching(a + b, m, cs) == Matching(a, m, cs) + Matching(b, m, cs)
    decreases |b|
  {
    if b != [] {
      var n := |b| - 1;
      assert (a + b)[..|a + b| - 1] == a + b[..n];
      MatchingAppend(a, b[..n], m, cs);
    } else {
      assert a + b == a;
    }
  }

  /** Matching keeps exactly the elements that match. */
  lemma {:induction false} MatchingMembers(s: seq<string>, m: string, cs: bool)
    ensures forall x :: x in Matching(s, m, cs) <==> x in s && Matches(x, m, cs)
    decreases |s|
  {
    if s != [] {
      var n := |s| - 1;
      MatchingMembers(s[..n], m, cs);
      assert s == s[..n] + [s[n]];
    }
  }

  /** Matching keeps the order, and so ascent and distinctness. */
  lemma {:induction false} MatchingKeepsOrder(s: seq<string>, m: string, cs: bool)
    ensures Ascending(s) ==> Ascending(Matching(s, m, cs))
    ensures Distinct(s) ==> Distinct(Matching(s, m, cs))
    decreases |s|
  {
    if s != [] {
      var n := |s| - 1;
      MatchingKeepsOrder(s[..n], m, cs);
      MatchingMembers(s[..n], m, cs);
      var prefix := Matching(s[..n], m, cs);
      forall k | 0 <= k < |prefix|
        ensures (Ascending(s) ==> Below(prefix[k], s[n])) && (Distinct(s) ==> prefix[k] != s[n])
      {
        assert prefix[k] in s[..n];
        var j :| 0 <= j < n && s[..n][j] == prefix[k];
        assert s[j] == prefix[k];
      }
    }
  }

  /** When only a prefix of `s` is needed to fill `num` results, the rest is not looked at. */
  lemma CapStops(s: seq<string>, m: string, cs: bool, i: nat, num: int)
    requires i <= |s| && 0 < num == |Matching(s[..i], m, cs)|
    ensures Cap(Matching(s, m, cs), num) == Matching(s[..i], m, cs)
  {
    assert s == s[..i] + s[i..];
    MatchingAppend(s[..i], s[i..], m, cs);
  }

  lemma CapAll(s: seq<string>, m: string, cs: bool, num: int)
    requires num <= 0 || |Matching(s, m, cs)| < num
    ensures Cap(Matching(s, m, cs), num) == Matching(s, m, cs)
  {
  }

  /** The names starting with `c` are the positions of an interval that holds exactly them. */
  lemma {:induction false} MatchingInterval(s: seq<string>, c: char, lo: int, hi: int)
    requires NonEmptyNames(s) && 0 <= lo <= hi <= |s|
    requires forall k :: 0 <= k < |s| ==> (s[k][0] == c <==> lo <= k < hi)
    ensures Matching(s, [c], true) == s[lo..hi]
    decreases |s|
  {
    if s != [] {
      var n := |s| - 1;
      var init := s[..n];
      assert Matches(s[n], [c], true) <==> s[n][0] == c;
      assert Matching(s, [c], true) == Matching(init, [c], true) + (if s[n][0] == c then [s[n]] else []);
      var h := if hi == |s| then n else hi;
      var l := if lo > h then h else lo;
      IntervalInit(s, init, c, lo, hi, l, h);
      MatchingInterval(init, c, l, h);
      if hi == |s| && lo < hi {
        assert init[lo..n] == s[lo..n];
        assert s[lo..hi] == s[lo..n] + [s[n]];
      } else {
        assert init[l..h] == s[lo..hi];
      }
    }
  }

  /** The hypotheses of `MatchingInterval` carry over to all but the last name. */
  lemma IntervalInit(s: seq<string>, init: seq<string>, c: char, lo: int, hi: int, l: int, h: int)
    requires NonEmptyNames(s) && 0 <= lo <= hi <= |s| && s != [] && init == s[..|s| - 1]
    requires forall k :: 0 <= k < |s| ==> (s[k][0] == c <==> lo <= k < hi)
    requires h == (if hi == |s| then |s| - 1 else hi) && l == (if lo > h then h else lo)
    ensures NonEmptyNames(init) && 0 <= l <= h <= |init|
    ensures forall k :: 0 <= k < |init| ==> (init[k][0] == c <==> l <= k < h)
  {
    forall k | 0 <= k < |init|
      ensures init[k] != [] && (init[k][0] == c <==> l <= k < h)
    {
      assert init[k] == s[k];
    }
  }

  /** A block that fits holds exactly the names with its character. */
  lemma BlockNamesFit(sorted: seq<string>, c: char, b: Block)
    requires NonEmptyNames(sorted) && BlockFits(sorted, c, b)
    ensures BlockNames(sorted, b) == Ok(Matching(sorted, [c], true))
  {
    MatchingInterval(sorted, c, b.first, Stop(b.last.value, |sorted|));
  }

  /** With an index that fits, the block of any character is the names that start with it. */
  lemma BlockOfFits(sorted: seq<string>, index: NameIndex, c: char)
    requires NonEmptyNames(sorted) && IndexFits(sorted, index)
    ensures BlockOf(sorted, index, c) == Ok(Matching(sorted, [c], true))
  {
    if c in index {
      BlockNamesFit(sorted, c, index[c]);
    } else {
      MatchingInterval(sorted, c, 0, 0);
    }
  }

  /** Filtering the names that start with `m[0]` by the prefix `m` is filtering by `m`. */
  lemma {:induction false} MatchingNarrow(s: seq<string>, m: string)
    requires m != []
    ensures Matching(Matching(s, [m[0]], true), m, true) == Matching(s, m, true)
    decreases |s|
  {
    if s != [] {
      var n := |s| - 1;
      var x := s[n];
      MatchingNarrow(s[..n], m);
      var tail := if [m[0]] <= x then [x] else [];
      MatchingAppend(Matching(s[..n], [m[0]], true), tail, m, true);
      if [m[0]] <= x {
        assert Matching(tail, m, true) == Matching([], m, true) + (if m <= x then [x] else []);
      } else {
        assert !(m <= x);
      }
    }
  }

  /** Every name matches the empty prefix. */
  lemma {:induction false} MatchingEmpty(s: seq<string>)
    ensures Matching(s, [], true) == s
    decreases |s|
  {
    if s != [] {
      MatchingEmpty(s[..|s| - 1]);
      assert s == s[..|s| - 1] + [s[|s| - 1]];
    }
  }

  /**
   * With case taken into account and an index that fits, `starts_with`
   * returns the sorted names with the prefix `m`: all of them, or as
   * `num_results` says.
   */
  lemma CaseSensitiveLookup(sorted: seq<string>, index: NameIndex, m: string, kwargs: Dict<string, KwValue>)
    requires NonEmptyNames(sorted) && IndexFits(sorted, index)
    requires KwargsValidator.Validate(Keys(kwargs), StartsWithKwargs) == None
    requires CaseSensitive(kwargs) && m != []
    ensures var w := Matching(sorted, m, true);
      var num := NumResults(kwargs);
      StartsWithSpec(sorted, index, m, kwargs) == Ok(if |m| == 1 then (if num == 0 then w else Slice(w, 0, num)) else Cap(w, num))
  {
    var c := m[0];
    BlockOfFits(sorted, index, c);
    MatchingNarrow(sorted, m);
    if |m| == 1 {
      assert m == [c];
    }
    if c !in index {
      assert Matching(sorted, [c], true) == [];
    }
  }

  /** Two characters lower-case alike exactly when one is the other's lower or upper case. */
  lemma SameLower(a: char, b: char)
    ensures Lower(a) == Lower(b) <==> a == Lower(b) || a == Upper(b)
  {
  }

  /** A case-blind prefix fixes the case-blind first character. */
  lemma LowerPrefixInitial(x: string, m: string)
    requires m != []
    ensures LowerStr(m) <= LowerStr(x) ==> x != [] && Lower(x[0]) == Lower(m[0])
    ensures |m| == 1 ==> (LowerStr(m) <= LowerStr(x) <== x != [] && Lower(x[0]) == Lower(m[0]))
  {
    if LowerStr(m) <= LowerStr(x) {
      assert LowerStr(x)[0] == LowerStr(m)[0];
    }
    if |m| == 1 && x != [] && Lower(x[0]) == Lower(m[0]) {
      assert LowerStr(m) == LowerStr(x)[..1];
    }
  }

  lemma {:induction false} MatchingAllMatch(s: seq<string>, m: string, cs: bool)
    requires forall k :: 0 <= k < |s| ==> Matches(s[k], m, cs)
    ensures Matching(s, m, cs) == s
    decreases |s|
  {
    if s != [] {
      MatchingAllMatch(s[..|s| - 1], m, cs);
      assert s == s[..|s| - 1] + [s[|s| - 1]];
    }
  }

  lemma AscendingDistinct(s: seq<string>)
    requires Ascending(s)
    ensures Distinct(s)
  {
    forall i, j | 0 <= i < j < |s|
      ensures s[i] != s[j]
    {
      BelowIrreflexive(s[i]);
    }
  }

  lemma DistinctConcat(a: seq<string>, b: seq<string>)
    requires Distinct(a) && Distinct(b) && forall x :: x in a ==> x !in b
    ensures Distinct(a + b)
  {
    forall i, j | 0 <= i < j < |a + b|
      ensures (a + b)[i] != (a + b)[j]
    {
      if i < |a| && j >= |a| {
        assert (a + b)[i] in a && (a + b)[j] == b[j - |a|];
      }
    }
  }

  /**
   * Ignoring case, with an index that fits, `starts_with` looks at the names
   * whose first character is the query's in either case, each once, and
   * keeps those whose lower-cased form starts with the lower-cased query:
   * the result lists each matching name exactly once, capped as
   * `num_results` says.
   */
  lemma IgnoringCaseLookup(sorted: seq<string>, index: NameIndex, m: string, kwargs: Dict<string, KwValue>)
    requires Ascending(sorted) && NonEmptyNames(sorted) && IndexFits(sorted, index)
    requires KwargsValidator.Validate(Keys(kwargs), StartsWithKwargs) == None
    requires !CaseSensitive(kwargs) && m != []
    ensures var v := Matching(CaseBlindBlocks(sorted, m[0]), m, false);
      var num := NumResults(kwargs);
      StartsWithCorrected(sorted, index, m, kwargs) == Ok(if |m| == 1 then (if num == 0 then v else Slice(v, 0, num)) else Cap(v, num))
      && Distinct(v)
      && forall x :: x in v <==> x in sorted && LowerStr(m) <= LowerStr(x)
  {
    var cands := CaseBlindBlocks(sorted, m[0]);
    CaseBlindCandidates(sorted, index, m[0]);
    CaseBlindMatches(sorted, m);
    IgnoringCaseResult(sorted, index, m, kwargs, true, cands);
  }

  /**
   * As written, ignoring case: for an initial with two cases the result is
   * the corrected one; for an initial without case every matching name is
   * listed twice, the whole list and then the whole list again, before the
   * cap.
   */
  lemma IgnoringCaseAsWritten(sorted: seq<string>, index: NameIndex, m: string, kwargs: Dict<string, KwValue>)
    requires Ascending(sorted) && NonEmptyNames(sorted) && IndexFits(sorted, index)
    requires KwargsValidator.Validate(Keys(kwargs), StartsWithKwargs) == None
    requires !CaseSensitive(kwargs) && m != []
    ensures var v := Matching(CaseBlindBlocks(sorted, m[0]), m, false);
      var shown := if Upper(m[0]) != Lower(m[0]) then v else v + v;
      var num := NumResults(kwargs);
      StartsWithSpec(sorted, index, m, kwargs) == Ok(if |m| == 1 then (if num == 0 then shown else Slice(shown, 0, num)) else Cap(shown, num))
  {
    var c := m[0];
    var cands := CaseBlindBlocks(sorted, c);
    CaseBlindCandidates(sorted, index, c);
    CaseBlindMatches(sorted, m);
    if Upper(c) != Lower(c) {
      CandidatesAgree(sorted, index, c, false);
      IgnoringCaseResult(sorted, index, m, kwargs, false, cands);
    } else {
      CaselessTwice(sorted, index, m, kwargs, cands);
    }
  }

  lemma CaselessTwice(sorted: seq<string>, index: NameIndex, m: string, kwargs: Dict<string, KwValue>, cands: seq<string>)
    requires KwargsValidator.Validate(Keys(kwargs), StartsWithKwargs) == None
    requires !CaseSensitive(kwargs) && m != [] && Upper(m[0]) == Lower(m[0])
    requires Candidates(sorted, index, m[0], false) == Ok(cands)
    requires |m| == 1 ==> Matching(cands, m, false) == cands
    ensures var v := Matching(cands, m, false);
      var num := NumResults(kwargs);
      StartsWithSpec(sorted, index, m, kwargs) == Ok(if |m| == 1 then (if num == 0 then v + v else Slice(v + v, 0, num)) else Cap(v + v, num))
  {
    var c := m[0];
    var lower := BlockOf(sorted, index, Lower(c));
    assert lower.Ok? && lower.value + [] == lower.value;
    assert CandidatesAsWritten(sorted, index, c, false) == Ok(cands + cands);
    MatchingAppend(cands, cands, m, false);
    IgnoringCaseResult(sorted, index, m, kwargs, false, cands + cands);
  }

  /** `starts_with` ignoring case, once the names it looks at are known. */
  lemma IgnoringCaseResult(sorted: seq<string>, index: NameIndex, m: string, kwargs: Dict<string, KwValue>, corrected: bool, cands: seq<string>)
    requires KwargsValidator.Validate(Keys(kwargs), StartsWithKwargs) == None
    requires !CaseSensitive(kwargs) && m != []
    requires Looked(sorted, index, m[0], false, corrected) == Ok(cands)
    requires |m| == 1 ==> Matching(cands, m, false) == cands
    requires (Lower(m[0]) !in index && Upper(m[0]) !in index) ==> cands == []
    ensures var v := Matching(cands, m, false);
      var num := NumResults(kwargs);
      Lookup(sorted, index, m, kwargs, corrected) == Ok(if |m| == 1 then (if num == 0 then v else Slice(v, 0, num)) else Cap(v, num))
  {
  }

  /** The case-blind matches among the names looked at: each matching name once. */
  lemma CaseBlindMatches(sorted: seq<string>, m: string)
    requires Ascending(sorted) && NonEmptyNames(sorted) && m != []
    requires Distinct(CaseBlindBlocks(sorted, m[0]))
    requires forall x :: x in CaseBlindBlocks(sorted, m[0]) <==> x in sorted && x != [] && Lower(x[0]) == Lower(m[0])
    ensures var cands := CaseBlindBlocks(sorted, m[0]);
      var v := Matching(cands, m, false);
      Distinct(v) && (forall x :: x in v <==> x in sorted && LowerStr(m) <= LowerStr(x))
      && (|m| == 1 ==> v == cands)
  {
    var cands := CaseBlindBlocks(sorted, m[0]);
    MatchingMembers(cands, m, false);
    MatchingKeepsOrder(cands, m, false);
    forall x | x in sorted
      ensures LowerStr(m) <= LowerStr(x) ==> x != [] && Lower(x[0]) == Lower(m[0])
    {
      LowerPrefixInitial(x, m);
    }
    if |m| == 1 {
      forall k | 0 <= k < |cands|
        ensures Matches(cands[k], m, false)
      {
        assert cands[k] in cands;
        LowerPrefixInitial(cands[k], m);
      }
      MatchingAllMatch(cands, m, false);
    }
  }

  /** The names starting with `c` in lower case, then those starting with it in upper case if that differs. */
  function CaseBlindBlocks(sorted: seq<string>, c: char): seq<string> {
    Matching(sorted, [Lower(c)], true) + (if Upper(c) != Lower(c) then Matching(sorted, [Upper(c)], true) else [])
  }

  /** Ignoring case, the names looked at are those whose first character lower-cases like `c`, each once. */
  lemma CaseBlindCandidates(sorted: seq<string>, index: NameIndex, c: char)
    requires Ascending(sorted) && NonEmptyNames(sorted) && IndexFits(sorted, index)
    ensures Candidates(sorted, index, c, false) == Ok(CaseBlindBlocks(sorted, c))
    ensures Distinct(CaseBlindBlocks(sorted, c))
    ensures forall x :: x in CaseBlindBlocks(sorted, c) <==> x in sorted && x != [] && Lower(x[0]) == Lower(c)
  {
    var lo, up := Matching(sorted, [Lower(c)], true), Matching(sorted, [Upper(c)], true);
    BlockOfFits(sorted, index, Lower(c));
    BlockOfFits(sorted, index, Upper(c));
    MatchingMembers(sorted, [Lower(c)], true);
    MatchingMembers(sorted, [Upper(c)], true);
    forall x | x != []
      ensures Lower(x[0]) == Lower(c) <==> x[0] == Lower(c) || x[0] == Upper(c)
    {
      SameLower(x[0], c);
    }
    AscendingDistinct(sorted);
    MatchingKeepsOrder(sorted, [Lower(c)], true);
    MatchingKeepsOrder(sorted, [Upper(c)], true);
    DistinctConcat(lo, if Upper(c) != Lower(c) then up else []);
  }

  /**
   * As written, ignoring case, a first character without case has its block
   * taken twice: a fresh harvester fed the one name `_a` lists it twice for
   * the query `_`.
   */
  lemma CaselessInitialTwice()
    ensures var (sorted, index, err) := DoAfterSpec(["_a"], map[]);
      err == None
      && CandidatesAsWritten(sorted, index, '_', false) == Ok(["_a", "_a"])
      && Candidates(sorted, index, '_', false) == Ok(["_a"])
  {
    var sorted := ["_a"];
    assert Sort(["_a"]) == sorted;
    assert sorted[0][0] == '_';
    var empty: NameIndex := map[];
    var init := IndexState(empty['_' := Block(0, None)], '_');
    assert IndexLoop(sorted, 1, init) == init;
    var index := map['_' := Block(0, Some(1))];
    assert init.index['_' := init.index['_'].(last := Some(1))] == index;
    assert DoAfterSpec(["_a"], map[]) == (["_a"], index, None);
    assert Slice(["_a"], 0, 2) == ["_a"];
    assert BlockOf(["_a"], index, '_') == Ok(["_a"]);
    assert Lower('_') == '_' == Upper('_');
    assert CandidatesAsWritten(["_a"], index, '_', false) == Ok(["_a"] + ["_a"]);
    assert ["_a"] + ["_a"] == ["_a", "_a"];
  }

  /** The correction changes nothing when case is taken into account or the first character has case. */
  lemma CandidatesAgree(sorted: seq<string>, index: NameIndex, c: char, cs: bool)
    requires cs || Upper(c) != Lower(c)
    ensures Candidates(sorted, index, c, cs) == CandidatesAsWritten(sorted, index, c, cs)
  {
  }

  /**
   * End to end: a fresh harvester that has processed `taglist` without
   * error answers a case-sensitive query with every fed name that starts
   * with `m`, ascending, each once.
   */
  lemma FreshLookup(taglist: seq<Entry>, m: string)
    requires DoAfterSpec(AddNames([], taglist), map[]).2.None?
    ensures var (sorted, index, _) := DoAfterSpec(AddNames([], taglist), map[]);
      var w := Matching(sorted, m, true);
      StartsWithSpec(sorted, index, m, [("case_sensitive", KwBool(true))]) == Ok(w)
      && Ascending(w) && forall x :: x in w <==> Fed(taglist, x) && m <= x
  {
    var unique := AddNames([], taglist);
    AddNamesSpec([], taglist);
    FreshDoAfter(unique);
    var (sorted, index, _) := DoAfterSpec(unique, map[]);
    var kwargs := [("case_sensitive", KwBool(true))];
    assert Keys(kwargs) == ["case_sensitive"];
    assert KwargsValidator.Validate(Keys(kwargs), StartsWithKwargs) == None;
    assert CaseSensitive(kwargs) && NumResults(kwargs) == 0;
    MatchingMembers(sorted, m, true);
    MatchingKeepsOrder(sorted, m, true);
    if m == [] {
      MatchingEmpty(sorted);
    } else {
      CaseSensitiveLookup(sorted, index, m, kwargs);
    }
  }

  class NameLookupHarvester {
    /** The keys of `__unique_names`, in insertion order. */
    var uniqueNames: seq<string>
    var sortedNames: seq<string>
    var nameIndex: NameIndex

    /** The keys of a dict are distinct. */
    predicate Valid()
      reads this
    {
      Distinct(uniqueNames)
    }

    constructor()
      ensures Valid() && uniqueNames == [] && sortedNames == [] && nameIndex == map[]
    {
      uniqueNames := [];
      sortedNames := [];
      nameIndex := map[];
    }

    /** `__len__`: the number of sorted names. */
    function Len(): nat
      reads this
    {
      |sortedNames|
    }

    /** `feed(entry)`: records the entry's name once. */
    method Feed(entry: Entry)
      requires Valid()
      modifies this
      ensures Valid() && uniqueNames == AddName(old(uniqueNames), entry.name)
      ensures sortedNames == old(sortedNames) && nameIndex == old(nameIndex)
    {
      if entry.name !in uniqueNames {
        uniqueNames := uniqueNames + [entry.name];
      }
    }

    /** `do_after()`: sorts the names and indexes them by first character. */
    method DoAfter() returns (err: Option<HarvestError>)
      requires Valid()
      modifies this
      ensures Valid() && uniqueNames == old(uniqueNames)
      ensures (sortedNames, nameIndex, err) == DoAfterSpec(uniqueNames, old(nameIndex))
    {
      var sorted := Sort(uniqueNames);
      sortedNames := sorted;
      if sorted == [] {
        return Some(EmptyNameList);
      }
      if sorted[0] == [] {
        return Some(EmptyFirstName);
      }
      SortSpec(uniqueNames);
      AscendingNonEmpty(sorted);
      var index := BuildIndex(sorted, nameIndex);
      nameIndex := index;
      err := None;
    }

    /** `process_tag_list(taglist)`: `do_before` does nothing; then every feed, then `do_after`. */
    method ProcessTagList(taglist: seq<Entry>) returns (err: Option<HarvestError>)
      requires Valid()
      modifies this
      ensures Valid() && uniqueNames == AddNames(old(uniqueNames), taglist)
      ensures (sortedNames, nameIndex, err) == DoAfterSpec(uniqueNames, old(nameIndex))
    {
      for i := 0 to |taglist|
        invariant Valid() && uniqueNames == AddNames(old(uniqueNames), taglist[..i])
        invariant nameIndex == old(nameIndex)
      {
        assert taglist[..i + 1][..i] == taglist[..i];
        Feed(taglist[i]);
      }
      assert taglist[..|taglist|] == taglist;
      err := DoAfter();
    }

    /** `starts_with(matchstr, **kwargs)`. */
    method StartsWith(matchstr: string, kwargs: Dict<string, KwValue>) returns (r: Result<seq<string>, HarvestError>)
      ensures r == StartsWithSpec(sortedNames, nameIndex, matchstr, kwargs)
    {
      var bad := KwargsValidator.Validate(Keys(kwargs), StartsWithKwargs);
      if bad.Some? {
        return Err(BadKeyword(bad.value.arg));
      }
      var num := 0;
      if "num_results" in Keys(kwargs) {
        num := IntOf(Get(kwargs, "num_results"));
      }
      if |matchstr| == 0 {
        if num != 0 {
          return Ok(Slice(sortedNames, 0, num));
        }
        return Ok(sortedNames);
      }
      var cs := false;
      if "case_sensitive" in Keys(kwargs) {
        if Truthy(Get(kwargs, "case_sensitive")) {
          cs := true;
        }
      }
      var c := matchstr[0];
      if cs {
        if c !in nameIndex {
          return Ok([]);
        }
      } else {
        if Lower(c) !in nameIndex && Upper(c) !in nameIndex {
          return Ok([]);
        }
      }
      var cands := CandidatesAsWritten(sortedNames, nameIndex, c, cs);
      if cands.Err? {
        return Err(cands.error);
      }
      var names := cands.value;
      if |matchstr| == 1 {
        if num == 0 {
          return Ok(names);
        }
        return Ok(Slice(names, 0, num));
      }
      var finalList := FilterNames(names, matchstr, cs, num);
      return Ok(finalList);
    }
  }

  /** The loop at the end of `starts_with`: keep the matching names, stop once there are `num` of them. */
  method FilterNames(names: seq<string>, matchstr: string, cs: bool, num: int) returns (finalList: seq<string>)
    ensures finalList == Cap(Matching(names, matchstr, cs), num)
  {
    finalList := [];
    for i := 0 to |names|
      invariant finalList == Matching(names[..i], matchstr, cs)
      invariant num > 0 ==> |finalList| < num
    {
      assert names[..i + 1][..i] == names[..i];
      var t := names[i];
      var hit: bool;
      if cs {
        FindZeroIsPrefix(t, matchstr);
        hit := Find(t, matchstr) == 0;
      } else {
        FindZeroIsPrefix(LowerStr(t), LowerStr(matchstr));
        hit := Find(LowerStr(t), LowerStr(matchstr)) == 0;
      }
      if hit {
        finalList := finalList + [t];
      }
      if num > 0 && |finalList| == num {
        CapStops(names, matchstr, cs, i + 1, num);
        return;
      }
    }
    assert names[..|names|] == names;
    CapAll(names, matchstr, cs, num);
  }

  /** The index-building part of `do_after`, on the sorted names. */
  method BuildIndex(sorted: seq<string>, index0: NameIndex) returns (index: NameIndex)
    requires sorted != [] && NonEmptyNames(sorted)
    ensures index == IndexAfter(sorted, index0)
  {
    var prev := sorted[0][0];
    index := index0[prev := Block(0, None)];
    ghost var init := IndexState(index, prev);
    for i := 0 to |sorted|
      invariant IndexState(index, prev) == IndexLoop(sorted, i, init)
    {
      var f := sorted[i];
      if f[0] !in index {
        index := index[prev := index[prev].(last := Some(i - 1))];
        index := index[f[0] := Block(i, None)];
        prev := f[0];
      }
    }
    index := index[prev := index[prev].(last := Some(|sorted|))];
  }
}
