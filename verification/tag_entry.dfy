/**
 * `ctags_entry`: one tag, built from a line of an extended-format tags file,
 * from a dict, or from keyword arguments. The object keeps the dict it was
 * built from (its `repr` is that dict's) and a few attributes read from it.
 */
module TagEntry {
  import opened Wrappers
  import opened Text
  import opened OrderedDict
  import KwargsValidator

  /** The extension-field dict: field name to field text. */
  type ExtDict = Dict<string, string>

  /** The values an entry dict holds: text, an integer, the extension dict, or None. */
  datatype Value = VStr(s: string) | VInt(i: int) | VExt(d: ExtDict) | VNone

  /** The entry dict, in insertion order (its `repr` is what `==` compares). */
  type Rep = Dict<string, Value>

  /** The single positional argument: a tag line, a dict, or anything else. */
  datatype Arg = LineArg(text: string) | DictArg(d: Rep) | OtherArg

  datatype EntryError =
    | BadParameter(arg: string)   // the keyword check refused a keyword
    | MultipleData                // a positional argument and keywords together
    | NotModelled                 // a repr string to `eval`, or a value of a type the model does not carry
    | FieldCount                  // the tag line has fewer than three tab-separated fields
    | LineExtNotInteger           // a `line:` extension field that `int()` refuses
    | UnknownExtTag               // a second extension field without a colon
    | FileRequired
    | NameRequired
    | LineNumberNotInteger        // `int(entry['line_number'])` fails
    | NoLocator                   // neither a non-zero line number nor a non-empty pattern

  /** The attributes of a constructed `ctags_entry`, and the dict it keeps. */
  datatype Entry = Entry(
    name: string,
    file: string,
    pattern: Option<string>,
    lineNumber: Option<int>,
    extensions: Option<ExtDict>,
    rep: Rep)

  const ValidKwargs: seq<string> := ["name", "file", "pattern", "line_number", "extensions"]

  /** The marker between the locator and the extension fields. */
  const CommentBegin: string := ";\""

  // ---------------------------------------------------------------------
  // The tag line

  /**
   * The rest of a tag line, cut at the last `;"` when `find` puts the first
   * one past position 0; otherwise the whole rest is the locator.
   */
  function SplitLocator(rest: string): (r: (string, Option<string>))
    ensures r.1.Some? ==> (Find(rest, CommentBegin) > 0
      && rest == r.0 + CommentBegin + r.1.value
      && Find(r.1.value, CommentBegin) == -1)
    ensures r.1.None? ==> Find(rest, CommentBegin) <= 0 && r.0 == rest
  {
    if Find(rest, CommentBegin) > 0 then
      var j := RFind(rest, CommentBegin);
      var ext := rest[j + 2..];
      assert rest == rest[..j] + CommentBegin + ext by {
        assert rest[j..j + 2] == CommentBegin;
      }
      assert Find(ext, CommentBegin) == -1 by {
        forall k | 0 <= k ensures !OccursAt(ext, CommentBegin, k) {
          OccursInSuffix(rest, CommentBegin, j + 2, k);
        }
      }
      (rest[..j], Some(ext))
    else
      (rest, None)
  }

  /**
   * `k, v = field.split(':', 1)` when the field holds a colon; None when it
   * does not.
   */
  function SplitKeyValue(field: string): (r: Option<(string, string)>)
    ensures r.Some? <==> ':' in field
    ensures r.Some? ==> field == r.value.0 + ":" + r.value.1 && ':' !in r.value.0
  {
    FindChar(field, ':');
    var i := Find(field, ":");
    if i == -1 then None
    else
      assert field == field[..i] + ":" + field[i + 1..] by {
        assert field[i..i + 1] == ":";
      }
      Some((field[..i], field[i + 1..]))
  }

  /** The key an extension field writes: its text before the first colon, or `kind`. */
  function FieldKey(field: string): string {
    match SplitKeyValue(field)
    case Some((k, _)) => k
    case None => "kind"
  }

  /** The value an extension field writes: its text after the first colon, or all of it. */
  function FieldValue(field: string): string {
    match SplitKeyValue(field)
    case Some((_, v)) => v
    case None => field
  }

  /**
   * What the loop over extension fields carries: the extension dict, the
   * line number if the entry has one, and `kind_arg_found`.
   */
  datatype ExtState = ExtState(exts: ExtDict, lineNumber: Option<int>, kindFound: bool)

  /** One pass of the loop over extension fields. */
  function StepField(st: ExtState, field: string): Result<ExtState, EntryError> {
    match SplitKeyValue(field)
    case Some((k, v)) =>
      var exts := Put(st.exts, k, v);
      if k == "line" && st.lineNumber.None? then
        match ParseInt(v)
        case None => Err(LineExtNotInteger)
        case Some(n) => Ok(ExtState(exts, Some(n), st.kindFound))
      else
        Ok(st.(exts := exts))
    case None =>
      if st.kindFound then Err(UnknownExtTag)
      else Ok(ExtState(Put(st.exts, "kind", field), st.lineNumber, true))
  }

  /** The loop over extension fields, from state `init`; the first error stops it. */
  function FoldFields(fields: seq<string>, init: ExtState): Result<ExtState, EntryError>
    decreases |fields|
  {
    if fields == [] then Ok(init)
    else
      match FoldFields(fields[..|fields| - 1], init)
      case Err(e) => Err(e)
      case Ok(st) => StepField(st, fields[|fields| - 1])
  }

  /** The extension fields: the text after `;"`, when it starts with a tab, split on tabs. */
  function ExtensionFields(ext: Option<string>): seq<string> {
    if ext.Some? && ext.value != [] && ext.value[0] == '\t' then Split(ext.value[1..], "\t") else []
  }

  /** The locator's dict entry: `line_number` for an all-digit locator, `pattern` otherwise. */
  function LocatorItem(locator: string): (string, Value) {
    if IsDigits(locator) then ("line_number", VInt(DecimalValue(locator)))
    else ("pattern", VStr(locator))
  }

  /** The state the extension loop starts from. */
  function InitialState(locator: string): ExtState {
    ExtState([], if IsDigits(locator) then Some(DecimalValue(locator)) else None, false)
  }

  /**
   * The entry dict for name, file and the rest of a tag line, in the order
   * the constructor inserts its keys: name, file, the locator, extensions,
   * and last a `line_number` taken from a `line:` field.
   */
  function ParseRest(name: string, file: string, rest: string): Result<Rep, EntryError> {
    var (locator, ext) := SplitLocator(rest);
    match FoldFields(ExtensionFields(ext), InitialState(locator))
    case Err(e) => Err(e)
    case Ok(st) => Ok(RestRep(name, file, locator, st))
  }

  function RestRep(name: string, file: string, locator: string, st: ExtState): Rep {
    [("name", VStr(name)), ("file", VStr(file)), LocatorItem(locator), ("extensions", VExt(st.exts))]
    + (if !IsDigits(locator) && st.lineNumber.Some? then [("line_number", VInt(st.lineNumber.value))] else [])
  }

  /** A tag line: stripped, split at its first two tabs, then the rest parsed. */
  function ParseTagLine(line: string): Result<Rep, EntryError> {
    var parts := SplitN(Strip(line), "\t", 2);
    if |parts| < 3 then Err(FieldCount) else ParseRest(parts[0], parts[1], parts[2])
  }

  // ---------------------------------------------------------------------
  // From the entry dict to the attributes

  function PatternOf(entry: Rep): Result<Option<string>, EntryError> {
    if "pattern" !in Keys(entry) then Ok(None)
    else
      match Get(entry, "pattern")
      case VStr(s) => Ok(Some(s))
      case VNone => Ok(None)
      case _ => Err(NotModelled)
  }

  /** `int(entry['line_number'])` when the key is present. */
  function LineNumberOf(entry: Rep): Result<Option<int>, EntryError> {
    if "line_number" !in Keys(entry) then Ok(None)
    else
      match Get(entry, "line_number")
      case VInt(i) => Ok(Some(i))
      case VStr(s) => (match ParseInt(s) case Some(i) => Ok(Some(i)) case None => Err(LineNumberNotInteger))
      case _ => Err(LineNumberNotInteger)
  }

  function ExtensionsOf(entry: Rep): Result<Option<ExtDict>, EntryError> {
    if "extensions" !in Keys(entry) then Ok(None)
    else
      match Get(entry, "extensions")
      case VExt(d) => Ok(Some(d))
      case VNone => Ok(None)
      case _ => Err(NotModelled)
  }

  /** Python truthiness of the two locators. */
  predicate HasLocator(lineNumber: Option<int>, pattern: Option<string>) {
    (lineNumber.Some? && lineNumber.value != 0) || (pattern.Some? && pattern.value != "")
  }

  /** Name and file are strings, and pattern and line number can be read. */
  predicate Readable(entry: Rep) {
    "file" in Keys(entry) && Get(entry, "file").VStr?
    && "name" in Keys(entry) && Get(entry, "name").VStr?
    && PatternOf(entry).Ok? && LineNumberOf(entry).Ok?
  }

  /**
   * The checks that end the constructor: `file` and then `name` must be
   * present, and a non-zero line number or a non-empty pattern must locate
   * the tag. A built entry keeps the dict it came from.
   */
  function Build(entry: Rep): (r: Result<Entry, EntryError>)
    ensures "file" !in Keys(entry) ==> r == Err(FileRequired)
    ensures "file" in Keys(entry) && Get(entry, "file").VStr? && "name" !in Keys(entry) ==> r == Err(NameRequired)
    ensures r.Ok? ==> (r.value.rep == entry
      && "file" in Keys(entry) && Get(entry, "file") == VStr(r.value.file)
      && "name" in Keys(entry) && Get(entry, "name") == VStr(r.value.name)
      && PatternOf(entry) == Ok(r.value.pattern)
      && LineNumberOf(entry) == Ok(r.value.lineNumber)
      && ExtensionsOf(entry) == Ok(r.value.extensions)
      && HasLocator(r.value.lineNumber, r.value.pattern))
    ensures Readable(entry) ==>
      (r.Ok? <==> HasLocator(LineNumberOf(entry).value, PatternOf(entry).value) && ExtensionsOf(entry).Ok?)
      && (!HasLocator(LineNumberOf(entry).value, PatternOf(entry).value) ==> r == Err(NoLocator))
  {
    if "file" !in Keys(entry) then Err(FileRequired)
    else if !Get(entry, "file").VStr? then Err(NotModelled)
    else if "name" !in Keys(entry) then Err(NameRequired)
    else if !Get(entry, "name").VStr? then Err(NotModelled)
    else
      match PatternOf(entry)
      case Err(e) => Err(e)
      case Ok(pattern) =>
        match LineNumberOf(entry)
        case Err(e) => Err(e)
        case Ok(lineNumber) =>
          if !HasLocator(lineNumber, pattern) then Err(NoLocator)
          else
            match ExtensionsOf(entry)
            case Err(e) => Err(e)
            case Ok(extensions) =>
              Ok(Entry(Get(entry, "name").s, Get(entry, "file").s, pattern, lineNumber, extensions, entry))
  }

  /** `ctags_entry(*args, **kwargs)`. */
  function EntryOf(args: seq<Arg>, kwargs: Rep): (r: Result<Entry, EntryError>)
    ensures KwargsValidator.Validate(Keys(kwargs), ValidKwargs).Some? ==> r.Err? && r.error.BadParameter?
    ensures KwargsValidator.Validate(Keys(kwargs), ValidKwargs).None? && |args| == 1 && kwargs != [] ==> r == Err(MultipleData)
    ensures r.Ok? ==> Build(r.value.rep) == r
  {
    match KwargsValidator.Validate(Keys(kwargs), ValidKwargs)
    case Some(bad) => Err(BadParameter(bad.arg))
    case None =>
      if |args| == 1 then
        if kwargs != [] then Err(MultipleData)
        else
          match args[0]
          case DictArg(d) => Build(d)
          case OtherArg => Build([])
          case LineArg(t) =>
            if t == [] then Build([])
            else if t[0] == '{' && t[|t| - 1] == '}' then Err(NotModelled)
            else
              match ParseTagLine(t)
              case Err(e) => Err(e)
              case Ok(rep) => Build(rep)
      else Build(kwargs)
  }

  // ---------------------------------------------------------------------
  // The constructor

  /** The loop over extension fields, with `kind_arg_found` and an early exit on error. */
  method ParseExtensionFields(fields: seq<string>, init: ExtState) returns (r: Result<ExtState, EntryError>)
    ensures r == FoldFields(fields, init)
  {
    var exts := init.exts;
    var lineNumber := init.lineNumber;
    var kindArgFound := init.kindFound;
    for i := 0 to |fields|
      invariant FoldFields(fields[..i], init) == Ok(ExtState(exts, lineNumber, kindArgFound))
    {
      FoldFieldsSnoc(fields, init, i);
      ghost var st := ExtState(exts, lineNumber, kindArgFound);
      var field := fields[i];
      match SplitKeyValue(field) {
        case Some((k, v)) =>
          StepWithKey(st, field, k, v);
          exts := Put(exts, k, v);
          if k == "line" && lineNumber.None? {
            var n := ParseInt(v);
            if n.None? {
              FoldFieldsErrorStops(fields, init, i + 1);
              return Err(LineExtNotInteger);
            }
            lineNumber := n;
          }
        case None =>
          StepWithoutKey(st, field);
          if kindArgFound {
            FoldFieldsErrorStops(fields, init, i + 1);
            return Err(UnknownExtTag);
          }
          exts := Put(exts, "kind", field);
          kindArgFound := true;
      }
    }
    assert fields[..|fields|] == fields;
    r := Ok(ExtState(exts, lineNumber, kindArgFound));
  }

  /** One step on a `key:value` field. */
  lemma StepWithKey(st: ExtState, field: string, k: string, v: string)
    requires SplitKeyValue(field) == Some((k, v))
    ensures k == "line" && st.lineNumber.None? && ParseInt(v).None? ==> StepField(st, field) == Err(LineExtNotInteger)
    ensures k == "line" && st.lineNumber.None? && ParseInt(v).Some? ==>
      StepField(st, field) == Ok(ExtState(Put(st.exts, k, v), ParseInt(v), st.kindFound))
    ensures !(k == "line" && st.lineNumber.None?) ==> StepField(st, field) == Ok(st.(exts := Put(st.exts, k, v)))
  {
  }

  /** One step on a field without a colon. */
  lemma StepWithoutKey(st: ExtState, field: string)
    requires SplitKeyValue(field).None?
    ensures st.kindFound ==> StepField(st, field) == Err(UnknownExtTag)
    ensures !st.kindFound ==> StepField(st, field) == Ok(ExtState(Put(st.exts, "kind", field), st.lineNumber, true))
  {
  }

  /** One more field: the loop runs one more step unless it has already failed. */
  lemma FoldFieldsSnoc(fields: seq<string>, init: ExtState, i: nat)
    requires i < |fields|
    ensures FoldFields(fields[..i + 1], init)
      == match FoldFields(fields[..i], init)
         case Err(e) => Err(e)
         case Ok(st) => StepField(st, fields[i])
  {
    assert fields[..i + 1][..i] == fields[..i];
  }

  /** Once the loop has failed on a prefix, the whole loop fails the same way. */
  lemma {:induction false} FoldFieldsErrorStops(fields: seq<string>, init: ExtState, i: nat)
    requires i <= |fields| && FoldFields(fields[..i], init).Err?
    ensures FoldFields(fields, init) == FoldFields(fields[..i], init)
    decreases |fields| - i
  {
    if i < |fields| {
      assert fields[..i + 1][..i] == fields[..i];
      FoldFieldsErrorStops(fields, init, i + 1);
    } else {
      assert fields[..i] == fields;
    }
  }

  /**
   * `ctags_entry.__init__`: the keyword check, the choice of data source, the
   * tag-line parse with its extension loop, and the final checks.
   */
  method NewEntry(args: seq<Arg>, kwargs: Rep) returns (r: Result<Entry, EntryError>)
    ensures r == EntryOf(args, kwargs)
  {
    var bad := KwargsValidator.Validate(Keys(kwargs), ValidKwargs);
    if bad.Some? {
      return Err(BadParameter(bad.value.arg));
    }
    var entry: Rep := [];
    if |args| == 1 {
      if kwargs != [] {
        return Err(MultipleData);
      }
      match args[0] {
        case DictArg(d) =>
          entry := d;
        case OtherArg =>
        case LineArg(t) =>
          if t != [] {
            if t[0] == '{' && t[|t| - 1] == '}' {
              return Err(NotModelled);
            }
            var parts := SplitN(Strip(t), "\t", 2);
            if |parts| < 3 {
              return Err(FieldCount);
            }
            var (locator, ext) := SplitLocator(parts[2]);
            var st := ParseExtensionFields(ExtensionFields(ext), InitialState(locator));
            if st.Err? {
              return Err(st.error);
            }
            entry := RestRep(parts[0], parts[1], locator, st.value);
          }
      }
    } else if kwargs != [] {
      entry := kwargs;
    }
    r := Build(entry);
  }

  // ---------------------------------------------------------------------
  // str() and ==

  /** The file name after the last `/`, or after the last `\` when there is no `/`. */
  function Basename(path: string): (r: string)
    ensures |r| <= |path| && r == path[|path| - |r|..]
    ensures '/' in path ==> '/' !in r && path[|path| - |r| - 1] == '/'
    ensures '/' !in path ==> '\\' !in r && (r == path || path[|path| - |r| - 1] == '\\')
  {
    var i := RFind(path, "/");
    var j := if i == -1 then RFind(path, "\\") else i;
    forall k ensures OccursAt(path, "/", k) <==> 0 <= k < |path| && path[k] == '/' {
      OccursOneChar(path, '/', k);
    }
    forall k ensures OccursAt(path, "\\", k) <==> 0 <= k < |path| && path[k] == '\\' {
      OccursOneChar(path, '\\', k);
    }
    assert i == -1 <==> '/' !in path;
    path[j + 1..]
  }

  /** `str(line_number)`, where an absent line number prints as `None`. */
  function LineText(lineNumber: Option<int>): string {
    match lineNumber
    case Some(i) => IntToString(i)
    case None => "None"
  }

  /** `str(entry)`. */
  function Str(e: Entry): string {
    if e.name != "" then e.name + ":" + Basename(e.file) + ":" + LineText(e.lineNumber)
    else "Unnamed tag."
  }

  /** `a == b` compares the reprs of the two kept dicts; `!=` is its negation. */
  predicate Eq(a: Entry, b: Entry) {
    a.rep == b.rep
  }

  predicate Ne(a: Entry, b: Entry) {
    a.rep != b.rep
  }

  // ---------------------------------------------------------------------
  // Properties

  /** The tag line splits at its first two tabs: name and file hold none, the rest may. */
  lemma TagLineFields(line: string, name: string, file: string, rest: string)
    requires Strip(line) == name + "\t" + file + "\t" + rest
    requires '\t' !in name && '\t' !in file
    ensures ParseTagLine(line) == ParseRest(name, file, rest)
  {
    SplitFirstTwoTabs(name, file, rest);
  }

  lemma SplitFirstTwoTabs(name: string, file: string, rest: string)
    requires '\t' !in name && '\t' !in file
    ensures SplitN(name + "\t" + file + "\t" + rest, "\t", 2) == [name, file, rest]
  {
    var tail := file + ['\t'] + rest;
    assert name + "\t" + file + "\t" + rest == name + ['\t'] + tail;
    SplitNCons(name, '\t', tail, 2);
    SplitNCons(file, '\t', rest, 1);
  }

  /** A tag line with fewer than two tabs (after stripping) is refused. */
  lemma TooFewFields(line: string, name: string, file: string)
    requires Strip(line) == name + "\t" + file || Strip(line) == name
    requires '\t' !in name && '\t' !in file
    ensures ParseTagLine(line) == Err(FieldCount)
  {
    SplitWithout(name, '\t', 2);
    SplitWithout(file, '\t', 1);
    if Strip(line) == name + "\t" + file {
      SplitNCons(name, '\t', file, 2);
    }
  }

  /**
   * The locator decides the entry's key: an all-digit locator is the line
   * number, anything else the pattern; name and file come first.
   */
  lemma LocatorKind(name: string, file: string, rest: string)
    requires ParseRest(name, file, rest).Ok?
    ensures var rep := ParseRest(name, file, rest).value;
      var locator := SplitLocator(rest).0;
      "name" in Keys(rep) && Get(rep, "name") == VStr(name)
      && "file" in Keys(rep) && Get(rep, "file") == VStr(file)
      && "extensions" in Keys(rep)
      && ("pattern" in Keys(rep) <==> !IsDigits(locator))
      && (IsDigits(locator) ==> "line_number" in Keys(rep) && Get(rep, "line_number") == VInt(DecimalValue(locator)))
      && (!IsDigits(locator) ==> Get(rep, "pattern") == VStr(locator))
  {
    var (locator, ext) := SplitLocator(rest);
    RestRepKeys(name, file, locator, FoldFields(ExtensionFields(ext), InitialState(locator)).value);
  }

  lemma RestRepKeys(name: string, file: string, locator: string, st: ExtState)
    ensures var rep := RestRep(name, file, locator, st);
      "name" in Keys(rep) && Get(rep, "name") == VStr(name)
      && "file" in Keys(rep) && Get(rep, "file") == VStr(file)
      && "extensions" in Keys(rep) && Get(rep, "extensions") == VExt(st.exts)
      && ("pattern" in Keys(rep) <==> !IsDigits(locator))
      && (IsDigits(locator) ==> "line_number" in Keys(rep) && Get(rep, "line_number") == VInt(DecimalValue(locator)))
      && (!IsDigits(locator) ==> Get(rep, "pattern") == VStr(locator))
  {
    var item := LocatorItem(locator);
    var head: Rep := [("name", VStr(name)), ("file", VStr(file)), item, ("extensions", VExt(st.exts))];
    var tail: Rep := if !IsDigits(locator) && st.lineNumber.Some? then [("line_number", VInt(st.lineNumber.value))] else [];
    assert RestRep(name, file, locator, st) == head + tail;
    KeysAt(head, 0);
    KeysAt(head, 1);
    KeysAt(head, 2);
    KeysAt(head, 3);
    assert Keys(head) == ["name", "file", item.0, "extensions"];
    KeysAppend(head, tail);
    assert Keys(tail) == if tail == [] then [] else ["line_number"];
    GetAt(head, 0);
    GetAt(head, 1);
    GetAt(head, 2);
    GetAt(head, 3);
    GetAppend(head, tail, "name");
    GetAppend(head, tail, "file");
    GetAppend(head, tail, item.0);
    GetAppend(head, tail, "extensions");
  }

  /** A pattern locator leaves `line_number` to a `line:` extension field. */
  lemma RestRepLine(name: string, file: string, locator: string, st: ExtState)
    requires !IsDigits(locator)
    ensures var rep := RestRep(name, file, locator, st);
      ("line_number" in Keys(rep) <==> st.lineNumber.Some?)
      && (st.lineNumber.Some? ==> Get(rep, "line_number") == VInt(st.lineNumber.value))
  {
    var head: Rep := [("name", VStr(name)), ("file", VStr(file)), LocatorItem(locator), ("extensions", VExt(st.exts))];
    var tail: Rep := if st.lineNumber.Some? then [("line_number", VInt(st.lineNumber.value))] else [];
    var rep := RestRep(name, file, locator, st);
    assert rep == head + tail;
    KeysAt(head, 0);
    KeysAt(head, 1);
    KeysAt(head, 2);
    KeysAt(head, 3);
    assert Keys(head) == ["name", "file", "pattern", "extensions"];
    KeysAppend(head, tail);
    if tail != [] {
      assert Keys(tail) == ["line_number"];
      assert rep[4] == ("line_number", VInt(st.lineNumber.value));
      GetAt(rep, 4);
    } else {
      assert Keys(tail) == [];
    }
  }

  /** What the final checks read from a dict built from a tag line. */
  lemma RestRepFields(name: string, file: string, locator: string, st: ExtState)
    ensures var rep := RestRep(name, file, locator, st);
      Readable(rep)
      && Get(rep, "name") == VStr(name) && Get(rep, "file") == VStr(file)
      && PatternOf(rep) == Ok(if IsDigits(locator) then None else Some(locator))
      && LineNumberOf(rep) == Ok(if IsDigits(locator) then Some(DecimalValue(locator)) else st.lineNumber)
      && ExtensionsOf(rep) == Ok(Some(st.exts))
  {
    RestRepKeys(name, file, locator, st);
    if !IsDigits(locator) {
      RestRepLine(name, file, locator, st);
    }
  }

  /**
   * A tag line end to end: name and file are its first two tab-separated
   * fields; an all-digit locator is the line number and anything else the
   * pattern; a `line:` field gives the line number only when the locator did
   * not; the extensions are what the field loop collected. The entry exists
   * exactly when the loop succeeds and the locators are not both empty.
   */
  lemma LineEntry(line: string, name: string, file: string, rest: string)
    requires Strip(line) == name + "\t" + file + "\t" + rest
    requires '\t' !in name && '\t' !in file
    requires line != [] && (line[0] != '{' || line[|line| - 1] != '}')
    ensures var (locator, ext) := SplitLocator(rest);
      var folded := FoldFields(ExtensionFields(ext), InitialState(locator));
      var e := EntryOf([LineArg(line)], []);
      (folded.Err? ==> e == Err(folded.error))
      && (folded.Ok? ==>
        var pattern := if IsDigits(locator) then None else Some(locator);
        var lineNumber := if IsDigits(locator) then Some(DecimalValue(locator)) else folded.value.lineNumber;
        (e.Ok? <==> HasLocator(lineNumber, pattern))
        && (e.Err? ==> e.error == NoLocator)
        && (e.Ok? ==> (e.value.name == name && e.value.file == file
          && e.value.pattern == pattern && e.value.lineNumber == lineNumber
          && e.value.extensions == Some(folded.value.exts))))
  {
    LineEntryParsed(line, name, file, rest);
    var (locator, ext) := SplitLocator(rest);
    var folded := FoldFields(ExtensionFields(ext), InitialState(locator));
    if folded.Ok? {
      RestRepFields(name, file, locator, folded.value);
    }
  }

  lemma LineEntryParsed(line: string, name: string, file: string, rest: string)
    requires Strip(line) == name + "\t" + file + "\t" + rest
    requires '\t' !in name && '\t' !in file
    requires line != [] && (line[0] != '{' || line[|line| - 1] != '}')
    ensures var p := ParseRest(name, file, rest);
      EntryOf([LineArg(line)], []) == if p.Err? then Err(p.error) else Build(p.value)
  {
    LineArgEntry(line);
    TagLineFields(line, name, file, rest);
  }

  lemma LineArgEntry(line: string)
    requires line != [] && (line[0] != '{' || line[|line| - 1] != '}')
    ensures var p := ParseTagLine(line);
      EntryOf([LineArg(line)], []) == if p.Err? then Err(p.error) else Build(p.value)
  {
    NoKwargs();
    var args := [LineArg(line)];
    assert |args| == 1 && args[0] == LineArg(line);
    match ParseTagLine(line)
    case Err(e) =>
      assert EntryOf(args, []) == Err(e);
    case Ok(rep) =>
      assert EntryOf(args, []) == Build(rep);
  }

  lemma NoKwargs()
    ensures KwargsValidator.Validate(Keys<string, Value>([]), ValidKwargs) == None
  {
    assert Keys<string, Value>([]) == [];
  }

  /** A dict argument, or keyword arguments with no positional one, go straight to the final checks. */
  lemma DictEntry(d: Rep, args: seq<Arg>, kwargs: Rep)
    ensures EntryOf([DictArg(d)], []) == Build(d)
    ensures EntryOf([OtherArg], []) == Err(FileRequired) && EntryOf([LineArg([])], []) == Err(FileRequired)
    ensures |args| != 1 && KwargsValidator.Validate(Keys(kwargs), ValidKwargs).None? ==> EntryOf(args, kwargs) == Build(kwargs)
  {
    assert Keys<string, Value>([]) == [];
  }

  /** A line number given by the locator is never replaced by a `line:` field. */
  lemma {:induction false} LocatorLineKept(fields: seq<string>, init: ExtState)
    requires init.lineNumber.Some? && FoldFields(fields, init).Ok?
    ensures FoldFields(fields, init).value.lineNumber == init.lineNumber
    decreases |fields|
  {
    if fields != [] {
      LocatorLineKept(fields[..|fields| - 1], init);
    }
  }

  /**
   * Each field writes `extensions[key] = value`; the last field writing a
   * key decides its value. A colon-less field writes `kind`.
   */
  lemma {:induction false} LastFieldWins(fields: seq<string>, init: ExtState, j: nat)
    requires j < |fields| && FoldFields(fields, init).Ok?
    requires forall m :: j < m < |fields| ==> FieldKey(fields[m]) != FieldKey(fields[j])
    ensures var exts := FoldFields(fields, init).value.exts;
      FieldKey(fields[j]) in Keys(exts) && Get(exts, FieldKey(fields[j])) == FieldValue(fields[j])
    decreases |fields|
  {
    var n := |fields| - 1;
    var prefix := fields[..n];
    var st := FoldFields(prefix, init).value;
    StepFieldWrites(st, fields[n]);
    if j < n {
      assert prefix[j] == fields[j];
      LastFieldWins(prefix, init, j);
    }
  }

  /** A field that is accepted writes its key and value into the extension dict. */
  lemma StepFieldWrites(st: ExtState, field: string)
    requires StepField(st, field).Ok?
    ensures StepField(st, field).value.exts == Put(st.exts, FieldKey(field), FieldValue(field))
  {
  }

  /** A second colon-less extension field is an error. */
  lemma {:induction false} SecondKindFails(fields: seq<string>, init: ExtState, i: nat, j: nat)
    requires i < j < |fields| && ':' !in fields[i] && ':' !in fields[j]
    ensures FoldFields(fields, init).Err?
    decreases |fields|
  {
    var prefix := fields[..|fields| - 1];
    if j < |fields| - 1 {
      SecondKindFails(prefix, init, i, j);
    } else if FoldFields(prefix, init).Ok? {
      KindFoundSticks(prefix, init, i);
      KindAgainFails(FoldFields(prefix, init).value, fields[j]);
    }
  }

  lemma KindAgainFails(st: ExtState, field: string)
    requires st.kindFound && ':' !in field
    ensures StepField(st, field) == Err(UnknownExtTag)
  {
  }

  /** After a colon-less field, `kind_arg_found` stays set. */
  lemma {:induction false} KindFoundSticks(fields: seq<string>, init: ExtState, i: nat)
    requires i < |fields| && ':' !in fields[i] && FoldFields(fields, init).Ok?
    ensures FoldFields(fields, init).value.kindFound
    decreases |fields|
  {
    var prefix := fields[..|fields| - 1];
    if i < |fields| - 1 {
      KindFoundSticks(prefix, init, i);
    }
  }

  /**
   * Every entry the constructor returns is what the final checks make of its
   * own dict: each attribute is that dict's value, and a locator is set.
   */
  lemma EntryKeepsRep(args: seq<Arg>, kwargs: Rep)
    requires EntryOf(args, kwargs).Ok?
    ensures var e := EntryOf(args, kwargs).value;
      Build(e.rep) == Ok(e) && HasLocator(e.lineNumber, e.pattern)
      && Get(e.rep, "name") == VStr(e.name) && Get(e.rep, "file") == VStr(e.file)
      && PatternOf(e.rep) == Ok(e.pattern) && LineNumberOf(e.rep) == Ok(e.lineNumber)
      && ExtensionsOf(e.rep) == Ok(e.extensions)
  {
  }

  /** Equal reprs mean equal entries: `==` sees every attribute. */
  lemma EqualRepsEqualEntries(a: Entry, b: Entry)
    requires Build(a.rep) == Ok(a) && Build(b.rep) == Ok(b)
    ensures Eq(a, b) <==> a == b
    ensures Ne(a, b) <==> !Eq(a, b)
  {
  }

  /** `str()` reads back as name, basename and line number when neither name nor basename has a colon. */
  lemma StrFields(e: Entry)
    requires e.name != "" && ':' !in e.name && ':' !in Basename(e.file)
    ensures |Split(Str(e), ":")| >= 2 && Split(Str(e), ":")[..2] == [e.name, Basename(e.file)]
    ensures e.lineNumber.Some? ==> (Split(Str(e), ":") == [e.name, Basename(e.file), LineText(e.lineNumber)]
      && ParseInt(Split(Str(e), ":")[2]) == e.lineNumber)
  {
    var t := LineText(e.lineNumber);
    SplitThreeColons(e.name, Basename(e.file), t);
    FirstTwo(e.name, Basename(e.file), Split(t, ":"));
    if e.lineNumber.Some? {
      LineTextField(e.lineNumber.value);
    }
  }

  lemma FirstTwo(a: string, b: string, rest: seq<string>)
    ensures |[a, b] + rest| >= 2 && ([a, b] + rest)[..2] == [a, b]
    ensures |rest| == 1 ==> [a, b] + rest == [a, b, rest[0]]
  {
  }

  /** A printed line number holds no colon and reads back as itself. */
  lemma LineTextField(i: int)
    ensures Split(LineText(Some(i)), ":") == [LineText(Some(i))]
    ensures ParseInt(LineText(Some(i))) == Some(i)
  {
    var m: nat := if i < 0 then -i else i;
    assert IsDigits(NatToString(m));
    assert ':' !in LineText(Some(i));
    SplitWithout(LineText(Some(i)), ':', 0);
    ParseIntOfIntToString(i);
  }

  lemma SplitThreeColons(a: string, b: string, c: string)
    requires ':' !in a && ':' !in b
    ensures Split(a + ":" + b + ":" + c, ":") == [a, b] + Split(c, ":")
  {
    assert a + ":" + b + ":" + c == a + [':'] + (b + [':'] + c);
    SplitCons(a, ':', b + [':'] + c);
    SplitCons(b, ':', c);
  }
}
