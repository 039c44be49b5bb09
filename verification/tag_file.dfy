/**
 * `ctags_file`: reads the lines of a tags file, keeps the `!_TAG_...`
 * header fields and the list of entries, and drives harvesters through
 * `do_before`, `feed` and `do_after`.
 *
 * A harvester is an object of the caller's; the calls made to it are
 * recorded, in order, in the trace `calls`.
 */
module TagFile {
  import opened Wrappers
  import opened Text
  import opened OrderedDict
  import opened TagEntry
  import KwargsValidator

  /** A harvester object, by identity. */
  type HarvesterId = nat

  datatype Event = DoBefore | Feed(entry: Entry) | DoAfter

  /** One method call on one harvester. */
  datatype Call = Call(target: HarvesterId, event: Event)

  /** The header fields, each None until its header line is read. */
  datatype Header = Header(
    format: Option<int>, formatComment: Option<string>,
    sorted: Option<int>, sortedComment: Option<string>,
    author: Option<string>, authorComment: Option<string>,
    name: Option<string>, nameComment: Option<string>,
    url: Option<string>, urlComment: Option<string>,
    version: Option<string>, versionComment: Option<string>)

  const EmptyHeader := Header(None, None, None, None, None, None, None, None, None, None, None, None)

  /** The four headers whose value is kept as text. */
  datatype TextField = Author | ProgramName | Url | Version

  datatype FileError =
    | BadKeyword(arg: string)           // the keyword check refused a keyword
    | EmptyLine                         // `line[0]` on an empty line
    | UnknownHeader(key: string)        // the `except KeyError` branch names an undefined variable
    | HeaderNotInteger                  // `int(line[0])` on a FORMAT or SORTED value
    | HeaderFieldMissing                // `line[0]` or `line[1]` past the end of the header's fields
    | EntryFailed(error: EntryError)    // the tag line was refused
    | NoTagData                         // `harvest` with no tags

  /** The keys of the handler table. */
  const HeaderKeys: seq<string> := [FormatKey, SortedKey, TextKey(Author), TextKey(ProgramName), TextKey(Url), TextKey(Version)]

  const FormatKey := "!_TAG_FILE_FORMAT"
  const SortedKey := "!_TAG_FILE_SORTED"

  function TextKey(f: TextField): string {
    match f
    case Author => "!_TAG_PROGRAM_AUTHOR"
    case ProgramName => "!_TAG_PROGRAM_NAME"
    case Url => "!_TAG_PROGRAM_URL"
    case Version => "!_TAG_PROGRAM_VERSION"
  }

  // ---------------------------------------------------------------------
  // Call traces

  /** The same call made on each harvester of `hs`, in list order. */
  function Broadcast(hs: seq<HarvesterId>, ev: Event): seq<Call>
    decreases |hs|
  {
    if hs == [] then [] else Broadcast(hs[..|hs| - 1], ev) + [Call(hs[|hs| - 1], ev)]
  }

  /** `feed` of each entry, in order, to each harvester. */
  function Feeds(hs: seq<HarvesterId>, es: seq<Entry>): seq<Call>
    decreases |es|
  {
    if es == [] then [] else Feeds(hs, es[..|es| - 1]) + Broadcast(hs, Feed(es[|es| - 1]))
  }

  /** The calls one harvester receives. */
  function Project(cs: seq<Call>, h: HarvesterId): seq<Call>
    decreases |cs|
  {
    if cs == [] then []
    else Project(cs[..|cs| - 1], h) + (if cs[|cs| - 1].target == h then [cs[|cs| - 1]] else [])
  }

  /** `feed` of each entry, in order, to one harvester. */
  function FeedsTo(h: HarvesterId, es: seq<Entry>): seq<Call>
    decreases |es|
  {
    if es == [] then [] else FeedsTo(h, es[..|es| - 1]) + [Call(h, Feed(es[|es| - 1]))]
  }

  /** How often `h` is listed. */
  function Count(hs: seq<HarvesterId>, h: HarvesterId): nat
    decreases |hs|
  {
    if hs == [] then 0 else Count(hs[..|hs| - 1], h) + (if hs[|hs| - 1] == h then 1 else 0)
  }

  function Repeat(c: Call, n: nat): seq<Call> {
    seq(n, _ => c)
  }

  // ---------------------------------------------------------------------
  // The specification of the parser, on the values of the object's fields

  datatype FileState = FileState(header: Header, tags: seq<Entry>, feed: seq<HarvesterId>, calls: seq<Call>)

  /** The `!_TAG_FILE_FORMAT` handler: only while the format is unset or 0. */
  function FormatHeader(h: Header, values: seq<string>): (Header, Option<FileError>) {
    if h.format.Some? && h.format.value != 0 then (h, None)
    else if values == [] then (h, Some(HeaderFieldMissing))
    else
      match ParseInt(values[0])
      case None => (h, Some(HeaderNotInteger))
      case Some(n) =>
        var h1 := h.(format := Some(n));
        if |values| < 2 then (h1, Some(HeaderFieldMissing))
        else (h1.(formatComment := Some(StripChar(values[1], '/'))), None)
  }

  /** The `!_TAG_FILE_SORTED` handler: every occurrence overwrites. */
  function SortedHeader(h: Header, values: seq<string>): (Header, Option<FileError>) {
    if values == [] then (h, Some(HeaderFieldMissing))
    else
      match ParseInt(values[0])
      case None => (h, Some(HeaderNotInteger))
      case Some(n) =>
        var h1 := h.(sorted := Some(n));
        if |values| < 2 then (h1, Some(HeaderFieldMissing))
        else (h1.(sortedComment := Some(StripChar(values[1], '/'))), None)
  }

  function WithText(h: Header, f: TextField, v: string): Header {
    match f
    case Author => h.(author := Some(v))
    case ProgramName => h.(name := Some(v))
    case Url => h.(url := Some(v))
    case Version => h.(version := Some(v))
  }

  function WithComment(h: Header, f: TextField, c: string): Header {
    match f
    case Author => h.(authorComment := Some(c))
    case ProgramName => h.(nameComment := Some(c))
    case Url => h.(urlComment := Some(c))
    case Version => h.(versionComment := Some(c))
  }

  function TextOf(h: Header, f: TextField): Option<string> {
    match f
    case Author => h.author
    case ProgramName => h.name
    case Url => h.url
    case Version => h.version
  }

  /** The AUTHOR, NAME, URL and VERSION handlers: every occurrence overwrites. */
  function TextHeader(h: Header, f: TextField, values: seq<string>): (Header, Option<FileError>) {
    if values == [] then (h, Some(HeaderFieldMissing))
    else
      var h1 := WithText(h, f, values[0]);
      if |values| < 2 then (h1, Some(HeaderFieldMissing))
      else (WithComment(h1, f, StripChar(values[1], '/')), None)
  }

  /** The handler table, looked up by the first tab-separated field of a `!` line. */
  function HeaderSpec(h: Header, key: string, values: seq<string>): (Header, Option<FileError>) {
    if key == FormatKey then FormatHeader(h, values)
    else if key == SortedKey then SortedHeader(h, values)
    else if key == TextKey(Author) then TextHeader(h, Author, values)
    else if key == TextKey(ProgramName) then TextHeader(h, ProgramName, values)
    else if key == TextKey(Url) then TextHeader(h, Url, values)
    else if key == TextKey(Version) then TextHeader(h, Version, values)
    else (h, Some(UnknownHeader(key)))
  }

  /** `_clear_variables`: every header field None, no tags, no feed harvesters. */
  function Cleared(st: FileState): FileState {
    FileState(EmptyHeader, [], [], st.calls)
  }

  /** `feed_init`: the keyword check, then a clear state and `do_before` on each harvester. */
  function FeedInitSpec(st: FileState, kwargs: Dict<string, seq<HarvesterId>>): (r: (FileState, Option<FileError>))
    ensures r.1.None? ==> r.0.header == EmptyHeader && r.0.tags == []
    ensures r.1.Some? ==> r.0 == st
  {
    match KwargsValidator.Validate(Keys(kwargs), ["harvesters"])
    case Some(bad) => (st, Some(BadKeyword(bad.arg)))
    case None =>
      var hs := if "harvesters" in Keys(kwargs) then Get(kwargs, "harvesters") else [];
      (Cleared(st).(feed := hs, calls := st.calls + Broadcast(hs, DoBefore)), None)
  }

  function EntryOfLine(line: string): Result<Entry, EntryError> {
    EntryOf([LineArg(line)], [])
  }

  /** `feed_line`: the entry is appended and fed to every feed harvester. */
  function FeedLineSpec(st: FileState, line: string): (FileState, Option<FileError>) {
    match EntryOfLine(line)
    case Err(e) => (st, Some(EntryFailed(e)))
    case Ok(entry) => (st.(tags := st.tags + [entry], calls := st.calls + Broadcast(st.feed, Feed(entry))), None)
  }

  /** `feed_finish`: `do_after` on each feed harvester, then the list is dropped. */
  function FeedFinishSpec(st: FileState): FileState {
    st.(feed := [], calls := st.calls + Broadcast(st.feed, DoAfter))
  }

  /** The header fields of a `!` line: stripped, then split on tabs. */
  function HeaderFields(line: string): seq<string> {
    Split(Strip(line), "\t")
  }

  /** One line of the loop in `parse`. */
  function LineSpec(st: FileState, line: string): (FileState, Option<FileError>) {
    if line == [] then (st, Some(EmptyLine))
    else if line[0] == '!' then
      var elements := HeaderFields(line);
      var (h, err) := HeaderSpec(st.header, elements[0], elements[1..]);
      (st.(header := h), err)
    else FeedLineSpec(st, line)
  }

  /** The loop in `parse`; the first error ends it. */
  function ParseBody(st: FileState, lines: seq<string>): (FileState, Option<FileError>)
    decreases |lines|
  {
    if lines == [] then (st, None)
    else
      var (s1, e1) := ParseBody(st, lines[..|lines| - 1]);
      if e1.Some? then (s1, e1) else LineSpec(s1, lines[|lines| - 1])
  }

  /** `parse(lines, **kwargs)`. */
  function ParseSpec(st: FileState, lines: seq<string>, kwargs: Dict<string, seq<HarvesterId>>): (FileState, Option<FileError>) {
    var (s1, e1) := FeedInitSpec(st, kwargs);
    if e1.Some? then (s1, e1)
    else
      var (s2, e2) := ParseBody(s1, lines);
      if e2.Some? then (s2, e2) else (FeedFinishSpec(s2), None)
  }

  /** `harvest(harvesters)`. */
  function HarvestSpec(st: FileState, hs: seq<HarvesterId>): (r: (FileState, Option<FileError>))
    ensures r.1.Some? <==> st.tags == []
    ensures r.0.header == st.header && r.0.tags == st.tags && r.0.feed == st.feed
  {
    if st.tags == [] then (st, Some(NoTagData))
    else (st.(calls := st.calls + Broadcast(hs, DoBefore) + Feeds(hs, st.tags) + Broadcast(hs, DoAfter)), None)
  }

  /**
   * What the entry parser makes of each line that becomes an entry (the
   * non-empty lines that do not start with `!`), in line order.
   */
  function EntryResults(lines: seq<string>): seq<Result<Entry, EntryError>>
    decreases |lines|
  {
    if lines == [] then []
    else
      EntryResults(lines[..|lines| - 1]) + EntryResult(lines[|lines| - 1])
  }

  function EntryResult(line: string): seq<Result<Entry, EntryError>> {
    if line != [] && line[0] != '!' then [EntryOfLine(line)] else []
  }

  function Oks(es: seq<Entry>): seq<Result<Entry, EntryError>>
    decreases |es|
  {
    if es == [] then [] else Oks(es[..|es| - 1]) + [Ok(es[|es| - 1])]
  }

  // ---------------------------------------------------------------------
  // The object

  class CtagsFile {
    var header: Header
    var tags: seq<Entry>
    var feedHarvesters: seq<HarvesterId>
    /** Every call made on a harvester so far. */
    var calls: seq<Call>

    function State(): FileState
      reads this
    {
      FileState(header, tags, feedHarvesters, calls)
    }

    /** `ctags_file()` with no tags to parse. */
    constructor()
      ensures State() == FileState(EmptyHeader, [], [], [])
    {
      header := EmptyHeader;
      tags := [];
      feedHarvesters := [];
      calls := [];
    }

    /** `for h in hs: h.<event>()`. */
    method CallAll(hs: seq<HarvesterId>, ev: Event)
      modifies this
      ensures calls == old(calls) + Broadcast(hs, ev)
      ensures header == old(header) && tags == old(tags) && feedHarvesters == old(feedHarvesters)
    {
      ghost var calls0 := calls;
      for i := 0 to |hs|
        invariant header == old(header) && tags == old(tags) && feedHarvesters == old(feedHarvesters)
        invariant calls == calls0 + Broadcast(hs[..i], ev)
      {
        assert hs[..i + 1][..i] == hs[..i];
        calls := calls + [Call(hs[i], ev)];
      }
      assert hs[..|hs|] == hs;
    }

    method ClearVariables()
      modifies this
      ensures State() == Cleared(old(State()))
    {
      header := EmptyHeader;
      tags := [];
      feedHarvesters := [];
    }

    method HeaderFormat(values: seq<string>) returns (err: Option<FileError>)
      modifies this
      ensures (header, err) == FormatHeader(old(header), values)
      ensures tags == old(tags) && feedHarvesters == old(feedHarvesters) && calls == old(calls)
    {
      err := None;
      if !(header.format.Some? && header.format.value != 0) {
        if values == [] {
          return Some(HeaderFieldMissing);
        }
        var n := ParseInt(values[0]);
        if n.None? {
          return Some(HeaderNotInteger);
        }
        header := header.(format := n);
        if |values| < 2 {
          return Some(HeaderFieldMissing);
        }
        header := header.(formatComment := Some(StripChar(values[1], '/')));
      }
    }

    method HeaderSorted(values: seq<string>) returns (err: Option<FileError>)
      modifies this
      ensures (header, err) == SortedHeader(old(header), values)
      ensures tags == old(tags) && feedHarvesters == old(feedHarvesters) && calls == old(calls)
    {
      if values == [] {
        return Some(HeaderFieldMissing);
      }
      var n := ParseInt(values[0]);
      if n.None? {
        return Some(HeaderNotInteger);
      }
      header := header.(sorted := n);
      if |values| < 2 {
        return Some(HeaderFieldMissing);
      }
      header := header.(sortedComment := Some(StripChar(values[1], '/')));
      err := None;
    }

    /** The AUTHOR, NAME, URL and VERSION handlers. */
    method HeaderText(f: TextField, values: seq<string>) returns (err: Option<FileError>)
      modifies this
      ensures (header, err) == TextHeader(old(header), f, values)
      ensures tags == old(tags) && feedHarvesters == old(feedHarvesters) && calls == old(calls)
    {
      if values == [] {
        return Some(HeaderFieldMissing);
      }
      header := WithText(header, f, values[0]);
      if |values| < 2 {
        return Some(HeaderFieldMissing);
      }
      header := WithComment(header, f, StripChar(values[1], '/'));
      err := None;
    }

    /** A `!` line: the handler named by its first field gets the rest. */
    method HeaderLine(line: string) returns (err: Option<FileError>)
      requires line != [] && line[0] == '!'
      modifies this
      ensures (State(), err) == LineSpec(old(State()), line)
    {
      var elements := HeaderFields(line);
      var key, values := elements[0], elements[1..];
      if key == FormatKey {
        err := HeaderFormat(values);
      } else if key == SortedKey {
        err := HeaderSorted(values);
      } else if key == TextKey(Author) {
        err := HeaderText(Author, values);
      } else if key == TextKey(ProgramName) {
        err := HeaderText(ProgramName, values);
      } else if key == TextKey(Url) {
        err := HeaderText(Url, values);
      } else if key == TextKey(Version) {
        err := HeaderText(Version, values);
      } else {
        err := Some(UnknownHeader(key));
      }
    }

    method FeedInit(kwargs: Dict<string, seq<HarvesterId>>) returns (err: Option<FileError>)
      modifies this
      ensures (State(), err) == FeedInitSpec(old(State()), kwargs)
    {
      var bad := KwargsValidator.Validate(Keys(kwargs), ["harvesters"]);
      if bad.Some? {
        return Some(BadKeyword(bad.value.arg));
      }
      ClearVariables();
      feedHarvesters := [];
      if "harvesters" in Keys(kwargs) {
        feedHarvesters := Get(kwargs, "harvesters");
      }
      CallAll(feedHarvesters, DoBefore);
      err := None;
    }

    method FeedLine(line: string) returns (err: Option<FileError>)
      modifies this
      ensures (State(), err) == FeedLineSpec(old(State()), line)
    {
      var entry := NewEntry([LineArg(line)], []);
      assert entry == EntryOfLine(line);
      if entry.Err? {
        return Some(EntryFailed(entry.error));
      }
      tags := tags + [entry.value];
      CallAll(feedHarvesters, Feed(entry.value));
      err := None;
    }

    method FeedFinish()
      modifies this
      ensures State() == FeedFinishSpec(old(State()))
    {
      CallAll(feedHarvesters, DoAfter);
      feedHarvesters := [];
    }

    /** `parse(lines, **kwargs)` over the lines of a tags file. */
    /** One line of the loop in `parse`: an empty line fails on `line[0]`. */
    method ParseLine(line: string) returns (err: Option<FileError>)
      modifies this
      ensures (State(), err) == LineSpec(old(State()), line)
    {
      if line == [] {
        err := Some(EmptyLine);
      } else if line[0] == '!' {
        err := HeaderLine(line);
      } else {
        err := FeedLine(line);
      }
    }

    method Parse(lines: seq<string>, kwargs: Dict<string, seq<HarvesterId>>) returns (err: Option<FileError>)
      modifies this
      ensures (State(), err) == ParseSpec(old(State()), lines, kwargs)
    {
      ghost var st := State();
      err := FeedInit(kwargs);
      if err.Some? {
        return;
      }
      ghost var start := State();
      for i := 0 to |lines|
        invariant ParseBody(start, lines[..i]) == (State(), None)
        invariant err == None
      {
        err := ParseLine(lines[i]);
        ParseBodyStep(start, lines, i);
        if err.Some? {
          ParseBodyErrorStops(start, lines, i + 1);
          ParseSpecParts(st, lines, kwargs);
          return;
        }
      }
      assert lines[..|lines|] == lines;
      FeedFinish();
      ParseSpecParts(st, lines, kwargs);
    }

    /** `harvest(harvesters)`: every tag to every harvester, bracketed by `do_before` and `do_after`. */
    method Harvest(hs: seq<HarvesterId>) returns (err: Option<FileError>)
      modifies this
      ensures (State(), err) == HarvestSpec(old(State()), hs)
    {
      if tags == [] {
        return Some(NoTagData);
      }
      CallAll(hs, DoBefore);
      FeedAll(hs);
      CallAll(hs, DoAfter);
      err := None;
    }

    /** The middle of `harvest`: each tag, in order, to every harvester. */
    method FeedAll(hs: seq<HarvesterId>)
      modifies this
      ensures calls == old(calls) + Feeds(hs, old(tags))
      ensures header == old(header) && tags == old(tags) && feedHarvesters == old(feedHarvesters)
    {
      var ts := tags;
      for t := 0 to |ts|
        invariant header == old(header) && tags == ts && feedHarvesters == old(feedHarvesters)
        invariant calls == old(calls) + Feeds(hs, ts[..t])
      {
        assert ts[..t + 1][..t] == ts[..t];
        CallAll(hs, Feed(ts[t]));
      }
      assert ts[..|ts|] == ts;
    }
  }

  // ---------------------------------------------------------------------
  // Properties

  /**
   * A tag line fed to the parser: when it makes an entry, the entry, with
   * the line's name and file, is appended after the earlier tags and sent to
   * each feed harvester, header and harvester list untouched; when it does
   * not, nothing changes and the error is reported.
   */
  lemma FeedLineAppends(st: FileState, line: string, name: string, file: string, rest: string)
    requires Strip(line) == name + "\t" + file + "\t" + rest
    requires '\t' !in name && '\t' !in file
    requires line != [] && (line[0] != '{' || line[|line| - 1] != '}')
    ensures var (s1, err) := FeedLineSpec(st, line);
      (err.None? <==> EntryOfLine(line).Ok?)
      && (err.Some? ==> s1 == st && err == Some(EntryFailed(EntryOfLine(line).error)))
      && (err.None? ==> (s1.header == st.header && s1.feed == st.feed
        && |s1.tags| == |st.tags| + 1 && s1.tags[..|st.tags|] == st.tags
        && s1.tags[|st.tags|].name == name && s1.tags[|st.tags|].file == file
        && s1.calls == st.calls + Broadcast(st.feed, Feed(s1.tags[|st.tags|]))))
  {
    LineEntry(line, name, file, rest);
    if EntryOfLine(line).Ok? {
      var e := EntryOfLine(line).value;
      assert (st.tags + [e])[..|st.tags|] == st.tags;
    }
  }

  lemma ParseSpecParts(st: FileState, lines: seq<string>, kwargs: Dict<string, seq<HarvesterId>>)
    requires FeedInitSpec(st, kwargs).1.None?
    ensures var body := ParseBody(FeedInitSpec(st, kwargs).0, lines);
      ParseSpec(st, lines, kwargs) == if body.1.Some? then body else (FeedFinishSpec(body.0), None)
  {
  }

  lemma ParseBodyStep(st: FileState, lines: seq<string>, i: nat)
    requires i < |lines| && ParseBody(st, lines[..i]).1.None?
    ensures ParseBody(st, lines[..i + 1]) == LineSpec(ParseBody(st, lines[..i]).0, lines[i])
  {
    assert lines[..i + 1][..i] == lines[..i];
  }

  /** Once a line has failed, the rest of the lines are not read. */
  lemma {:induction false} ParseBodyErrorStops(st: FileState, lines: seq<string>, i: nat)
    requires i <= |lines| && ParseBody(st, lines[..i]).1.Some?
    ensures ParseBody(st, lines) == ParseBody(st, lines[..i])
    decreases |lines| - i
  {
    if i < |lines| {
      assert lines[..i + 1][..i] == lines[..i];
      ParseBodyErrorStops(st, lines, i + 1);
    } else {
      assert lines[..i] == lines;
    }
  }

  /**
   * A loop over lines that does not fail appends one entry per entry line,
   * in line order, feeds each to the feed harvesters, and keeps the list of
   * feed harvesters.
   */
  lemma {:induction false} ParseBodyEntries(st: FileState, lines: seq<string>)
    requires ParseBody(st, lines).1.None?
    ensures var s := ParseBody(st, lines).0;
      |s.tags| >= |st.tags| && s.tags[..|st.tags|] == st.tags
      && Oks(s.tags[|st.tags|..]) == EntryResults(lines)
      && s.calls == st.calls + Feeds(st.feed, s.tags[|st.tags|..])
      && s.feed == st.feed
    decreases |lines|
  {
    if lines != [] {
      var prefix := lines[..|lines| - 1];
      var last := lines[|lines| - 1];
      ParseBodyEntries(st, prefix);
      var s1 := ParseBody(st, prefix).0;
      var s := ParseBody(st, lines).0;
      LineEntries(s1, last);
      var added := Added(last);
      EntriesStep(st, s1, s, added, EntryResults(prefix));
    }
  }

  lemma EntriesStep(st: FileState, s1: FileState, s: FileState, added: seq<Entry>, before: seq<Result<Entry, EntryError>>)
    requires |added| <= 1
    requires |s1.tags| >= |st.tags| && s1.tags[..|st.tags|] == st.tags
    requires Oks(s1.tags[|st.tags|..]) == before
    requires s1.calls == st.calls + Feeds(st.feed, s1.tags[|st.tags|..]) && s1.feed == st.feed
    requires s.feed == s1.feed && s.tags == s1.tags + added
    requires s.calls == s1.calls + (if added == [] then [] else Broadcast(s1.feed, Feed(added[0])))
    ensures |s.tags| >= |st.tags| && s.tags[..|st.tags|] == st.tags
      && Oks(s.tags[|st.tags|..]) == before + Oks(added)
      && s.calls == st.calls + Feeds(st.feed, s.tags[|st.tags|..])
      && s.feed == st.feed
  {
    if added == [] {
      assert s.tags == s1.tags;
      assert s.calls == s1.calls;
      assert Oks(added) == [];
    } else {
      assert added == [added[0]];
      EntriesStepOne(st.tags, st.calls, st.feed, s1.tags, s1.calls, added[0]);
      assert Oks(added) == [Ok(added[0])];
    }
  }

  lemma EntriesStepOne(tags0: seq<Entry>, calls0: seq<Call>, hs: seq<HarvesterId>, tags1: seq<Entry>,
                       calls1: seq<Call>, e: Entry)
    requires |tags1| >= |tags0| && tags1[..|tags0|] == tags0
    requires calls1 == calls0 + Feeds(hs, tags1[|tags0|..])
    ensures (tags1 + [e])[..|tags0|] == tags0
    ensures Oks((tags1 + [e])[|tags0|..]) == Oks(tags1[|tags0|..]) + [Ok(e)]
    ensures calls1 + Broadcast(hs, Feed(e)) == calls0 + Feeds(hs, (tags1 + [e])[|tags0|..])
  {
    var n := |tags0|;
    SnocSlices(tags1, e, n);
    OksSnoc(tags1[n..], e);
    FeedsSnoc(hs, tags1[n..], e);
    assert calls1 + Broadcast(hs, Feed(e)) == calls0 + (Feeds(hs, tags1[n..]) + Broadcast(hs, Feed(e)));
  }

  lemma SnocSlices<T>(s: seq<T>, x: T, n: nat)
    requires n <= |s|
    ensures (s + [x])[..n] == s[..n] && (s + [x])[n..] == s[n..] + [x]
  {
  }

  lemma FeedsSnoc(hs: seq<HarvesterId>, es: seq<Entry>, e: Entry)
    ensures Feeds(hs, es + [e]) == Feeds(hs, es) + Broadcast(hs, Feed(e))
  {
    assert (es + [e])[..|es|] == es;
  }

  lemma OksSnoc(es: seq<Entry>, e: Entry)
    ensures Oks(es + [e]) == Oks(es) + [Ok(e)]
  {
    assert (es + [e])[..|es|] == es;
  }

  /** The entry a line adds when it is parsed without error. */
  function Added(line: string): seq<Entry> {
    if line != [] && line[0] != '!' && EntryOfLine(line).Ok? then [EntryOfLine(line).value] else []
  }

  lemma LineEntries(st: FileState, line: string)
    requires LineSpec(st, line).1.None?
    ensures var s := LineSpec(st, line).0;
      s.feed == st.feed && s.tags == st.tags + Added(line)
      && s.calls == st.calls + (if Added(line) == [] then [] else Broadcast(st.feed, Feed(Added(line)[0])))
      && Oks(Added(line)) == EntryResult(line)
  {
  }

  /** A successful parse starts from no tags and ends with no feed harvesters. */
  lemma ParseEntries(st: FileState, lines: seq<string>, kwargs: Dict<string, seq<HarvesterId>>)
    requires ParseSpec(st, lines, kwargs).1.None?
    ensures var s := ParseSpec(st, lines, kwargs).0;
      var hs := if "harvesters" in Keys(kwargs) then Get(kwargs, "harvesters") else [];
      Oks(s.tags) == EntryResults(lines)
      && s.calls == st.calls + Broadcast(hs, DoBefore) + Feeds(hs, s.tags) + Broadcast(hs, DoAfter)
      && s.feed == []
  {
    var s1 := FeedInitSpec(st, kwargs).0;
    ParseBodyEntries(s1, lines);
  }

  /** A FORMAT that is set and non-zero survives the rest of the file. */
  lemma {:induction false} FormatFirstWins(st: FileState, lines: seq<string>)
    requires st.header.format.Some? && st.header.format.value != 0
    ensures ParseBody(st, lines).0.header.format == st.header.format
    decreases |lines|
  {
    if lines != [] {
      var prefix := lines[..|lines| - 1];
      FormatFirstWins(st, prefix);
      var (s1, e1) := ParseBody(st, prefix);
      if e1.None? {
        LineKeepsFormat(s1, lines[|lines| - 1]);
      }
    }
  }

  lemma LineKeepsFormat(st: FileState, line: string)
    requires st.header.format.Some? && st.header.format.value != 0
    ensures LineSpec(st, line).0.header.format == st.header.format
  {
    if line != [] && line[0] == '!' {
      var e := HeaderFields(line);
      HeaderKeepsFormat(st.header, e[0], e[1..]);
    }
  }

  lemma HeaderKeepsFormat(h: Header, key: string, values: seq<string>)
    requires h.format.Some? && h.format.value != 0
    ensures HeaderSpec(h, key, values).0.format == h.format
  {
  }

  /** `line` is a well-formed header line for `f` with value `v`. */
  predicate IsTextHeaderLine(line: string, f: TextField, v: string) {
    line != [] && line[0] == '!' && |HeaderFields(line)| >= 3
    && HeaderFields(line)[0] == TextKey(f) && HeaderFields(line)[1] == v
  }

  predicate IsHeaderLineFor(line: string, f: TextField) {
    line != [] && line[0] == '!' && HeaderFields(line)[0] == TextKey(f)
  }

  /** The last AUTHOR (NAME, URL, VERSION) header line decides the value. */
  lemma {:induction false} TextHeaderLastWins(st: FileState, lines: seq<string>, j: nat, f: TextField, v: string)
    requires j < |lines| && IsTextHeaderLine(lines[j], f, v)
    requires forall m :: j < m < |lines| ==> !IsHeaderLineFor(lines[m], f)
    requires ParseBody(st, lines).1.None?
    ensures TextOf(ParseBody(st, lines).0.header, f) == Some(v)
    decreases |lines|
  {
    var prefix := lines[..|lines| - 1];
    var last := lines[|lines| - 1];
    var s1 := ParseBody(st, prefix).0;
    if j < |lines| - 1 {
      TextHeaderLastWins(st, prefix, j, f, v);
      LineKeepsText(s1, last, f);
    } else {
      LineSetsText(s1, last, f, v);
    }
  }

  lemma LineKeepsText(st: FileState, line: string, f: TextField)
    requires !IsHeaderLineFor(line, f)
    ensures TextOf(LineSpec(st, line).0.header, f) == TextOf(st.header, f)
  {
    if line != [] && line[0] == '!' {
      var e := HeaderFields(line);
      HeaderOtherText(st.header, e[0], e[1..], f);
    }
  }

  lemma LineSetsText(st: FileState, line: string, f: TextField, v: string)
    requires IsTextHeaderLine(line, f, v)
    ensures TextOf(LineSpec(st, line).0.header, f) == Some(v)
  {
    var e := HeaderFields(line);
    HeaderSetsText(st.header, e[0], e[1..], f);
  }

  /** `line` is a well-formed SORTED header line with value `n`. */
  predicate IsSortedHeaderLine(line: string, n: int) {
    line != [] && line[0] == '!' && |HeaderFields(line)| >= 3
    && HeaderFields(line)[0] == SortedKey && ParseInt(HeaderFields(line)[1]) == Some(n)
  }

  predicate IsSortedLine(line: string) {
    line != [] && line[0] == '!' && HeaderFields(line)[0] == SortedKey
  }

  /** Unlike FORMAT, the last SORTED header line decides the value. */
  lemma {:induction false} SortedLastWins(st: FileState, lines: seq<string>, j: nat, n: int)
    requires j < |lines| && IsSortedHeaderLine(lines[j], n)
    requires forall m :: j < m < |lines| ==> !IsSortedLine(lines[m])
    requires ParseBody(st, lines).1.None?
    ensures ParseBody(st, lines).0.header.sorted == Some(n)
    decreases |lines|
  {
    var prefix := lines[..|lines| - 1];
    var last := lines[|lines| - 1];
    var s1 := ParseBody(st, prefix).0;
    if j < |lines| - 1 {
      SortedLastWins(st, prefix, j, n);
      LineKeepsSorted(s1, last);
    } else {
      LineSetsSorted(s1, last, n);
    }
  }

  lemma LineKeepsSorted(st: FileState, line: string)
    requires !IsSortedLine(line)
    ensures LineSpec(st, line).0.header.sorted == st.header.sorted
  {
    if line != [] && line[0] == '!' {
      var e := HeaderFields(line);
      HeaderOtherSorted(st.header, e[0], e[1..]);
    }
  }

  lemma LineSetsSorted(st: FileState, line: string, n: int)
    requires IsSortedHeaderLine(line, n)
    ensures LineSpec(st, line).0.header.sorted == Some(n)
  {
    var e := HeaderFields(line);
    HeaderSetsSorted(st.header, e[0], e[1..], n);
  }

  lemma HeaderOtherSorted(h: Header, key: string, values: seq<string>)
    requires key != SortedKey
    ensures HeaderSpec(h, key, values).0.sorted == h.sorted
  {
  }

  lemma HeaderSetsSorted(h: Header, key: string, values: seq<string>, n: int)
    requires key == SortedKey && |values| >= 2 && ParseInt(values[0]) == Some(n)
    ensures HeaderSpec(h, key, values).0.sorted == Some(n)
  {
  }

  /** A `!` line whose key is not in the handler table makes the parse fail. */
  lemma UnknownHeaderFails(st: FileState, line: string)
    requires line != [] && line[0] == '!' && HeaderFields(line)[0] !in HeaderKeys
    ensures LineSpec(st, line) == (st, Some(UnknownHeader(HeaderFields(line)[0])))
  {
    var elements := HeaderFields(line);
    HeaderUnknown(st.header, elements[0], elements[1..]);
  }

  lemma HeaderUnknown(h: Header, key: string, values: seq<string>)
    requires key !in HeaderKeys
    ensures HeaderSpec(h, key, values) == (h, Some(UnknownHeader(key)))
  {
    assert key != HeaderKeys[0] && key != HeaderKeys[1] && key != HeaderKeys[2];
    assert key != HeaderKeys[3] && key != HeaderKeys[4] && key != HeaderKeys[5];
  }

  lemma HeaderOtherText(h: Header, key: string, values: seq<string>, f: TextField)
    requires key != TextKey(f)
    ensures TextOf(HeaderSpec(h, key, values).0, f) == TextOf(h, f)
  {
  }

  lemma HeaderSetsText(h: Header, key: string, values: seq<string>, f: TextField)
    requires key == TextKey(f) && |values| >= 2
    ensures TextOf(HeaderSpec(h, key, values).0, f) == Some(values[0])
  {
  }

  /**
   * A line of whitespace does not start with `!`, and the entry parser
   * refuses it: a blank line in a tags file ends the parse.
   */
  lemma BlankLineFails(st: FileState, line: string)
    requires line != [] && forall k :: 0 <= k < |line| ==> IsSpace(line[k])
    ensures LineSpec(st, line).1 == Some(EntryFailed(FieldCount))
  {
    assert !IsSpace('!') && !IsSpace('{');
    assert TrimLeft(line, IsSpace) == [];
    assert SplitN([], "\t", 2) == [[]];
  }

  /** The calls on a harvester listed `Count` times: that many copies of the broadcast. */
  lemma {:induction false} ProjectBroadcast(hs: seq<HarvesterId>, ev: Event, h: HarvesterId)
    ensures Project(Broadcast(hs, ev), h) == Repeat(Call(h, ev), Count(hs, h))
    decreases |hs|
  {
    if hs != [] {
      var prefix := hs[..|hs| - 1];
      ProjectBroadcast(prefix, ev, h);
      ProjectAppend(Broadcast(prefix, ev), [Call(hs[|hs| - 1], ev)], h);
      assert Project([Call(hs[|hs| - 1], ev)], h) == if hs[|hs| - 1] == h then [Call(h, ev)] else [];
    }
  }

  lemma {:induction false} ProjectAppend(a: seq<Call>, b: seq<Call>, h: HarvesterId)
    ensures Project(a + b, h) == Project(a, h) + Project(b, h)
    decreases |b|
  {
    if b == [] {
      assert a + b == a;
    } else {
      var b' := b[..|b| - 1];
      assert (a + b)[..|a + b| - 1] == a + b';
      ProjectAppend(a, b', h);
    }
  }

  /** A harvester listed once is fed every entry, in order, and nothing else. */
  lemma {:induction false} ProjectFeeds(hs: seq<HarvesterId>, es: seq<Entry>, h: HarvesterId)
    requires Count(hs, h) == 1
    ensures Project(Feeds(hs, es), h) == FeedsTo(h, es)
    decreases |es|
  {
    if es != [] {
      var prefix := es[..|es| - 1];
      ProjectFeeds(hs, prefix, h);
      ProjectAppend(Feeds(hs, prefix), Broadcast(hs, Feed(es[|es| - 1])), h);
      ProjectBroadcast(hs, Feed(es[|es| - 1]), h);
    }
  }

  /**
   * The protocol a listed-once harvester sees, in `parse` as in `harvest`:
   * one `do_before`, one `feed` per entry in order, one `do_after`.
   */
  lemma Protocol(hs: seq<HarvesterId>, es: seq<Entry>, h: HarvesterId)
    requires Count(hs, h) == 1
    ensures Project(Broadcast(hs, DoBefore) + Feeds(hs, es) + Broadcast(hs, DoAfter), h)
      == [Call(h, DoBefore)] + FeedsTo(h, es) + [Call(h, DoAfter)]
  {
    ProjectAppend(Broadcast(hs, DoBefore) + Feeds(hs, es), Broadcast(hs, DoAfter), h);
    ProjectAppend(Broadcast(hs, DoBefore), Feeds(hs, es), h);
    ProjectBroadcast(hs, DoBefore, h);
    ProjectBroadcast(hs, DoAfter, h);
    ProjectFeeds(hs, es, h);
  }

  /** `harvest` on a file with tags runs the same protocol over every stored tag. */
  lemma HarvestProtocol(st: FileState, hs: seq<HarvesterId>, h: HarvesterId)
    requires st.tags != [] && Count(hs, h) == 1
    ensures var s := HarvestSpec(st, hs).0;
      |s.calls| >= |st.calls| && s.calls[..|st.calls|] == st.calls
      && Project(s.calls[|st.calls|..], h) == [Call(h, DoBefore)] + FeedsTo(h, st.tags) + [Call(h, DoAfter)]
  {
    var s := HarvestSpec(st, hs).0;
    var added := Broadcast(hs, DoBefore) + Feeds(hs, st.tags) + Broadcast(hs, DoAfter);
    assert s.calls == st.calls + added;
    assert s.calls[|st.calls|..] == added;
    Protocol(hs, st.tags, h);
  }
}
