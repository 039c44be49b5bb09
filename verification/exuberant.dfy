/**
 * The string and list logic of the Exuberant Ctags wrapper:
 * - reading the `--list-kinds` listing into a table of languages and kinds;
 * - reading the version out of the `--version` banner;
 * - checking and merging the generator options before a run, and writing
 *   the file list that goes to the program's standard input;
 * - turning the options into command-line text;
 * - moving the program's warning lines out of its output on Windows.
 *
 * Nothing here runs the program. What it prints, and whether a path names a
 * program that can be started at all, are inputs.
 */
module Exuberant {
  import opened Wrappers
  import opened Text
  import opened OrderedDict

  /** Options that take no value. */
  const ArglessArgs: seq<string> := ["--version", "--help", "--license", "--list-languages",
    "-a", "-B", "-e", "-F", "-n", "-N", "-R", "-u", "-V", "-w", "-x"]

  /** Read the file list from standard input, and write the tags to standard output. */
  const DefaultOpts: Dict<string, string> := [("-L", "-"), ("-f", "-")]

  const ExuberantId: string := "exuberant ctags"

  const WarningStr: string := ": Warning:"

  /** The exceptions these operations raise. */
  datatype ExuberantError =
    | KindFormat(line: string)             // ValueError: a kind line with more than two pieces
    | KindWithoutDescription(line: string) // IndexError: a kind line with one piece
    | NotExuberant                         // TypeError: the banner does not name Exuberant Ctags
    | EmptyOption                          // IndexError: an option named by the empty string
    | ReservedOption                       // ValueError: `-f` or `-o` among the user's options
    | NoExecutable                         // ValueError: no ctags program to run

  // ---------------------------------------------------------------------
  // The `--list-kinds` listing

  /** Language (lower-cased) to kind letter to description. */
  type LanguageInfo = map<string, map<string, string>>

  /**
   * What one line of the listing is on its own: empty, a language name
   * (a line that does not start with whitespace, stripped and lower-cased),
   * or an indented kind line cut at double spaces.
   */
  datatype KindsLine = Blank | Language(name: string) | KindLine(line: string, pieces: seq<string>)

  function Classify(line: string): (c: KindsLine)
    ensures c.Language? ==> c.name != []
  {
    if line == [] then Blank
    else if IsSpace(line[0]) then KindLine(line, Split(Strip(line), "  "))
    else
      assert TrimLeft(line, IsSpace) == line;
      Language(LowerStr(Strip(line)))
  }

  function ClassifyAll(lines: seq<string>): (cs: seq<KindsLine>)
    ensures |cs| == |lines|
    decreases |lines|
  {
    if lines == [] then [] else ClassifyAll(lines[..|lines| - 1]) + [Classify(lines[|lines| - 1])]
  }

  lemma {:induction false} ClassifyAllPrefix(lines: seq<string>, n: nat)
    requires n <= |lines|
    ensures ClassifyAll(lines[..n]) == ClassifyAll(lines)[..n]
    decreases |lines|
  {
    if n < |lines| {
      var m := |lines| - 1;
      assert lines[..m][..n] == lines[..n];
      ClassifyAllPrefix(lines[..m], n);
    } else {
      assert lines[..n] == lines;
    }
  }

  /** The dictionary being filled and the language whose kinds are being read. */
  datatype KindsState = KindsState(info: LanguageInfo, key: string)

  predicate KindsInv(st: KindsState) {
    st.key != [] ==> st.key in st.info
  }

  /** One line of the listing. */
  function KindsStep(st: KindsState, c: KindsLine): (r: Result<KindsState, ExuberantError>)
    requires KindsInv(st)
    ensures r.Ok? ==> KindsInv(r.value)
  {
    match c
    case Blank => Ok(st)
    case KindLine(line, pieces) =>
      if st.key == [] then Ok(st)
      else if |pieces| > 2 then Err(KindFormat(line))
      else if |pieces| < 2 then Err(KindWithoutDescription(line))
      else Ok(st.(info := st.info[st.key := st.info[st.key][pieces[0] := pieces[1]]]))
    case Language(key) =>
      Ok(KindsState(if key in st.info then st.info else st.info[key := map[]], key))
  }

  /** Reading one more line of the listing is one more step. */
  lemma KindsNext(lines: seq<string>, i: nat, st: KindsState)
    requires i < |lines| && KindsRun(ClassifyAll(lines[..i])) == Ok(st)
    ensures KindsInv(st)
    ensures KindsRun(ClassifyAll(lines[..i + 1])) == KindsStep(st, Classify(lines[i]))
  {
    var cs := ClassifyAll(lines[..i + 1]);
    assert lines[..i + 1][..i] == lines[..i];
    assert cs[..i] == ClassifyAll(lines[..i]) && cs[i] == Classify(lines[i]);
  }

  /** The listing read line by line; the first bad line stops it. */
  function KindsRun(cs: seq<KindsLine>): (r: Result<KindsState, ExuberantError>)
    ensures r.Ok? ==> KindsInv(r.value)
    decreases |cs|
  {
    if cs == [] then Ok(KindsState(map[], ""))
    else
      match KindsRun(cs[..|cs| - 1])
      case Err(e) => Err(e)
      case Ok(st) => KindsStep(st, cs[|cs| - 1])
  }

  /** What `__process_kinds_list` returns or raises. */
  function KindsInfo(lines: seq<string>): Result<LanguageInfo, ExuberantError> {
    match KindsRun(ClassifyAll(lines))
    case Err(e) => Err(e)
    case Ok(st) => Ok(st.info)
  }

  /** The language named by the last language line, or "" before any. */
  function CurrentLanguage(cs: seq<KindsLine>): string
    decreases |cs|
  {
    if cs == [] then ""
    else if cs[|cs| - 1].Language? then cs[|cs| - 1].name
    else CurrentLanguage(cs[..|cs| - 1])
  }

  /** Line `i` read as a kind: its language, kind and description. */
  function KindAt(cs: seq<KindsLine>, i: nat): Option<(string, string, string)>
    requires i < |cs|
  {
    var lang := CurrentLanguage(cs[..i]);
    if cs[i].KindLine? && lang != [] && |cs[i].pieces| == 2 then Some((lang, cs[i].pieces[0], cs[i].pieces[1]))
    else None
  }

  /** Line `i` is an indented line under a language that does not cut into two pieces. */
  predicate BadKindLine(cs: seq<KindsLine>, i: nat)
    requires i < |cs|
  {
    cs[i].KindLine? && CurrentLanguage(cs[..i]) != [] && |cs[i].pieces| != 2
  }

  lemma KindAtPrefix(cs: seq<KindsLine>, n: nat, i: nat)
    requires i < n <= |cs|
    ensures cs[..n][i] == cs[i] && cs[..n][..i] == cs[..i]
    ensures KindAt(cs[..n], i) == KindAt(cs, i)
    ensures BadKindLine(cs[..n], i) == BadKindLine(cs, i)
  {
    assert cs[..n][..i] == cs[..i];
  }

  /** Reading stops for good at the first bad line. */
  lemma {:induction false} KindsErrorStops(cs: seq<KindsLine>, n: nat)
    requires n <= |cs| && KindsRun(cs[..n]).Err?
    ensures KindsRun(cs) == KindsRun(cs[..n])
    decreases |cs| - n
  {
    if n < |cs| {
      var m := |cs| - 1;
      assert cs[..m][..n] == cs[..n];
      KindsErrorStops(cs[..m], n);
    } else {
      assert cs[..n] == cs;
    }
  }

  /** While reading goes well, the current key is the last language named. */
  lemma {:induction false} KindsKey(cs: seq<KindsLine>)
    requires KindsRun(cs).Ok?
    ensures KindsRun(cs).value.key == CurrentLanguage(cs)
    decreases |cs|
  {
    if cs != [] {
      KindsKey(cs[..|cs| - 1]);
    }
  }

  /** Reading fails exactly when some indented line under a language does not cut into two pieces. */
  lemma {:induction false} KindsFails(cs: seq<KindsLine>)
    ensures KindsRun(cs).Err? <==> exists i :: 0 <= i < |cs| && BadKindLine(cs, i)
    decreases |cs|
  {
    if cs != [] {
      var n := |cs| - 1;
      var init := cs[..n];
      KindsFails(init);
      forall i | 0 <= i < n
        ensures BadKindLine(init, i) == BadKindLine(cs, i)
      {
        KindAtPrefix(cs, n, i);
      }
      if KindsRun(init).Err? {
        var i :| 0 <= i < n && BadKindLine(init, i);
        assert BadKindLine(cs, i);
      } else {
        KindsKey(init);
        assert BadKindLine(cs, n) <==> KindsRun(cs).Err?;
        assert forall i :: 0 <= i < n ==> !BadKindLine(cs, i);
      }
    }
  }

  /** Every language line gives a key, and nothing else does. */
  lemma {:induction false} KindsLanguages(cs: seq<KindsLine>, lang: string)
    requires KindsRun(cs).Ok?
    ensures lang in KindsRun(cs).value.info <==> Language(lang) in cs
    decreases |cs|
  {
    if cs != [] {
      var n := |cs| - 1;
      KindsLanguages(cs[..n], lang);
      assert cs == cs[..n] + [cs[n]];
    }
  }

  /**
   * A kind line whose language and kind no later line repeats decides that
   * kind's description: a language line met again keeps what was read
   * under it, and a later kind line for the same kind would overwrite it.
   */
  lemma {:induction false} KindsLastWins(cs: seq<KindsLine>, i: nat, lang: string, kind: string, desc: string)
    requires KindsRun(cs).Ok? && i < |cs| && KindAt(cs, i) == Some((lang, kind, desc))
    requires forall j :: i < j < |cs| ==> (KindAt(cs, j).None? || KindAt(cs, j).value.0 != lang
      || KindAt(cs, j).value.1 != kind)
    ensures lang in KindsRun(cs).value.info && kind in KindsRun(cs).value.info[lang]
    ensures KindsRun(cs).value.info[lang][kind] == desc
    decreases |cs|
  {
    var n := |cs| - 1;
    var init := cs[..n];
    KindsKey(init);
    if i < n {
      forall j | i < j < n
        ensures KindAt(init, j) == KindAt(cs, j)
      {
        KindAtPrefix(cs, n, j);
      }
      KindAtPrefix(cs, n, i);
      KindsLastWins(init, i, lang, kind, desc);
      assert KindAt(cs, n).None? || KindAt(cs, n).value.0 != lang || KindAt(cs, n).value.1 != kind;
    } else {
      assert init == cs[..i];
    }
  }

  /** Every description in the table comes from a kind line under its language. */
  lemma {:induction false} KindsNoInvention(cs: seq<KindsLine>, lang: string, kind: string)
    requires KindsRun(cs).Ok?
    requires lang in KindsRun(cs).value.info && kind in KindsRun(cs).value.info[lang]
    ensures exists i :: 0 <= i < |cs| && KindAt(cs, i) == Some((lang, kind, KindsRun(cs).value.info[lang][kind]))
    decreases |cs|
  {
    var n := |cs| - 1;
    var init := cs[..n];
    KindsKey(init);
    var desc := KindsRun(cs).value.info[lang][kind];
    if KindAt(cs, n) != Some((lang, kind, desc)) {
      KindsNoInvention(init, lang, kind);
      var i :| 0 <= i < n && KindAt(init, i) == Some((lang, kind, desc));
      KindAtPrefix(cs, n, i);
    }
  }

  // ---------------------------------------------------------------------
  // The version banner

  /** The version `_query_tag_generator` reads from the `--version` output. */
  function VersionOf(out: string): (r: Result<string, ExuberantError>)
    ensures r.Err? <==> forall k :: !OccursAt(LowerStr(out), ExuberantId, k)
  {
    if Find(LowerStr(out), ExuberantId) < 0 then Err(NotExuberant)
    else Ok(Strip(Slice(out, |ExuberantId|, Find(out, ","))))
  }

  /**
   * A banner that names the program in any letter case, then a space, the
   * version and a comma, gives that version back.
   */
  lemma VersionRoundTrip(name: string, v: string, rest: string)
    requires LowerStr(name) == ExuberantId && ',' !in v
    requires v != [] ==> !IsSpace(v[0]) && !IsSpace(v[|v| - 1])
    ensures VersionOf(name + " " + v + "," + rest) == Ok(v)
  {
    var out := name + " " + v + "," + rest;
    BannerNamesProgram(name, out);
    var a := name + " " + v;
    BannerComma(name, v, rest);
    assert Slice(out, |ExuberantId|, |a|) == out[|name|..|a|];
    BannerVersion(name, v, rest);
    StripSpaceFirst(v);
  }

  lemma BannerVersion(name: string, v: string, rest: string)
    ensures (name + " " + v + "," + rest)[|name|..|name + " " + v|] == " " + v
  {
    var a := name + " " + v;
    var out := a + "," + rest;
    assert out[..|a|] == a;
    assert a[|name|..] == " " + v;
  }

  /** A banner that starts with the program's name, in any letter case, names it. */
  lemma BannerNamesProgram(name: string, out: string)
    requires LowerStr(name) == ExuberantId && name <= out
    ensures Find(LowerStr(out), ExuberantId) == 0
  {
    var low := LowerStr(out);
    assert low[..|ExuberantId|] == ExuberantId;
    FindZeroIsPrefix(low, ExuberantId);
  }

  /** The first comma of the banner is the one after the version. */
  lemma BannerComma(name: string, v: string, rest: string)
    requires LowerStr(name) == ExuberantId && ',' !in v
    ensures Find(name + " " + v + "," + rest, ",") == |name + " " + v|
  {
    var a := name + " " + v;
    assert ',' !in name by {
      forall k | 0 <= k < |name|
        ensures name[k] != ','
      {
        assert LowerStr(name)[k] == Lower(name[k]);
      }
    }
    FindAfterPrefix(a, ',', rest);
    assert name + " " + v + "," + rest == a + [','] + rest;
  }

  /** A space in front of a word without outer whitespace is stripped away. */
  lemma StripSpaceFirst(v: string)
    requires v != [] ==> !IsSpace(v[0]) && !IsSpace(v[|v| - 1])
    ensures Strip(" " + v) == v
  {
    TrimLeftSpace(v);
    StripUnchanged(v);
  }

  lemma TrimLeftSpace(v: string)
    ensures TrimLeft(" " + v, IsSpace) == TrimLeft(v, IsSpace)
  {
    var t := " " + v;
    assert t[0] == ' ' && t[1..] == v;
  }

  // ---------------------------------------------------------------------
  // Command-line text

  /**
   * What `_dict_to_args` writes for one option. `longEnd` follows the
   * `--name=value` form: the program writes nothing there, `" "` is the
   * separator every other form ends with.
   */
  function OptionText(k: string, v: string, longEnd: string): Result<string, ExuberantError> {
    if k in ArglessArgs then Ok(k + " ")
    else if "--" <= k then Ok(k + "=" + v + longEnd)
    else if k == [] then Err(EmptyOption)
    else if k[0] == '-' then Ok(k + " " + v + " ")
    else Ok("")
  }

  /** The options written one after the other, in dictionary order. */
  function ArgsText(opts: Dict<string, string>, longEnd: string): Result<string, ExuberantError>
    decreases |opts|
  {
    if opts == [] then Ok("")
    else
      match ArgsText(opts[..|opts| - 1], longEnd)
      case Err(e) => Err(e)
      case Ok(s) =>
        match OptionText(opts[|opts| - 1].0, opts[|opts| - 1].1, longEnd)
        case Err(e) => Err(e)
        case Ok(t) => Ok(s + t)
  }

  /** `_dict_to_args` as written: a long option is not followed by a space. */
  function ArgsAsWritten(opts: Dict<string, string>): Result<string, ExuberantError> {
    ArgsText(opts, "")
  }

  /** `_dict_to_args` with every option followed by a space. */
  function Args(opts: Dict<string, string>): Result<string, ExuberantError> {
    ArgsText(opts, " ")
  }

  /** Building the text fails exactly when some option is named by the empty string. */
  lemma {:induction false} ArgsFails(opts: Dict<string, string>, longEnd: string)
    ensures ArgsText(opts, longEnd).Err? <==> exists i :: 0 <= i < |opts| && opts[i].0 == []
    decreases |opts|
  {
    if opts != [] {
      var n := |opts| - 1;
      ArgsFails(opts[..n], longEnd);
      assert "" !in ArglessArgs;
      if exists i :: 0 <= i < |opts| && opts[i].0 == [] {
        var i :| 0 <= i < |opts| && opts[i].0 == [];
        if i < n {
          assert opts[..n][i].0 == [];
        }
      }
    }
  }

  /** The non-empty pieces of `s` between spaces: the words a shell reads. */
  function Words(s: string): seq<string> {
    NonEmpty(Split(s, " "))
  }

  function NonEmpty(xs: seq<string>): (r: seq<string>)
    ensures forall k :: 0 <= k < |r| ==> r[k] != []
    decreases |xs|
  {
    if xs == [] then []
    else (if xs[0] == [] then [] else [xs[0]]) + NonEmpty(xs[1..])
  }

  lemma {:induction false} NonEmptyAppend(a: seq<string>, b: seq<string>)
    ensures NonEmpty(a + b) == NonEmpty(a) + NonEmpty(b)
    decreases |a|
  {
    if a == [] {
      assert a + b == b;
    } else {
      assert (a + b)[1..] == a[1..] + b;
      NonEmptyAppend(a[1..], b);
    }
  }

  /** Text that ends with a space and what follows it are read as separate words. */
  lemma WordsAppend(a: string, b: string)
    requires a == [] || a[|a| - 1] == ' '
    ensures Words(a + b) == Words(a) + Words(b)
  {
    if a == [] {
      assert a + b == b;
    } else {
      var a' := a[..|a| - 1];
      assert a == a' + [' '] + [];
      assert a + b == a' + [' '] + b;
      SplitConcat(a', ' ', b);
      SplitConcat(a', ' ', []);
      assert Split([], " ") == [""];
      NonEmptyAppend(Split(a', " "), Split(b, " "));
      NonEmptyAppend(Split(a', " "), [""]);
    }
  }

  /** A word without spaces followed by one space is that word alone. */
  lemma WordSpace(w: string)
    requires ' ' !in w
    ensures Words(w + " ") == if w == [] then [] else [w]
  {
    assert w + " " == w + [' '] + [];
    SplitConcat(w, ' ', []);
    SplitWithout(w, ' ', 0);
    assert Split([], " ") == [""];
    assert Split(w + " ", " ") == [w] + [""];
    NonEmptyAppend([w], [""]);
    assert NonEmpty([""]) == [] by {
      assert [""][1..] == [];
    }
    assert NonEmpty([w]) == (if w == [] then [] else [w]) by {
      assert [w][1..] == [];
    }
  }

  /** A `--name=value` option: the only form whose text the two endings change. */
  predicate LongOption(k: string) {
    k !in ArglessArgs && "--" <= k
  }

  /**
   * Without a long option the text as written is the text with a space
   * after every option, so `ArgsWords` tells what the program reads.
   */
  lemma {:induction false} ArgsAsWrittenAgree(opts: Dict<string, string>)
    requires forall i :: 0 <= i < |opts| ==> !LongOption(opts[i].0)
    ensures ArgsAsWritten(opts) == Args(opts)
    decreases |opts|
  {
    if opts != [] {
      var n := |opts| - 1;
      forall i | 0 <= i < n ensures !LongOption(opts[..n][i].0) {
        assert opts[..n][i] == opts[i];
      }
      ArgsAsWrittenAgree(opts[..n]);
      assert OptionText(opts[n].0, opts[n].1, "") == OptionText(opts[n].0, opts[n].1, " ");
    }
  }

  /** The words one option should give the program. */
  function OptionWords(k: string, v: string): seq<string> {
    if k in ArglessArgs then [k]
    else if "--" <= k then [k + "=" + v]
    else if k != [] && k[0] == '-' then [k, v]
    else []
  }

  function CommandWords(opts: Dict<string, string>): seq<string>
    decreases |opts|
  {
    if opts == [] then []
    else CommandWords(opts[..|opts| - 1]) + OptionWords(opts[|opts| - 1].0, opts[|opts| - 1].1)
  }

  /** An option whose name and value the command line can carry as written. */
  predicate PlainOption(k: string, v: string) {
    k != [] && ' ' !in k && ' ' !in v
    && (k !in ArglessArgs && !("--" <= k) && k[0] == '-' ==> v != [])
  }

  lemma OptionWordsOfText(k: string, v: string)
    requires PlainOption(k, v)
    ensures OptionText(k, v, " ").Ok?
    ensures var t := OptionText(k, v, " ").value; (t == [] || t[|t| - 1] == ' ') && Words(t) == OptionWords(k, v)
  {
    if k in ArglessArgs {
      WordSpace(k);
    } else if "--" <= k {
      WordSpace(k + "=" + v);
    } else if k[0] == '-' {
      ShortOptionWords(k, v);
    } else {
      assert Split("", " ") == [""];
    }
  }

  /** `-x value ` reads back as the two words `-x` and `value`. */
  lemma ShortOptionWords(k: string, v: string)
    requires k != [] && v != [] && ' ' !in k && ' ' !in v
    ensures Words(k + " " + v + " ") == [k, v]
  {
    WordSpace(k);
    WordSpace(v);
    WordsAppend(k + " ", v + " ");
    AppendAssoc(k + " ", v, " ");
  }

  /**
   * With the space after every option, the program reads each option as the
   * words it should be: the name alone, `--name=value`, or the name and then
   * the value.
   */
  lemma {:induction false} ArgsWords(opts: Dict<string, string>)
    requires forall i :: 0 <= i < |opts| ==> PlainOption(opts[i].0, opts[i].1)
    ensures Args(opts).Ok?
    ensures var s := Args(opts).value; (s == [] || s[|s| - 1] == ' ') && Words(s) == CommandWords(opts)
    decreases |opts|
  {
    if opts == [] {
      assert Split("", " ") == [""];
    } else {
      var n := |opts| - 1;
      var init := opts[..n];
      forall i | 0 <= i < n
        ensures PlainOption(init[i].0, init[i].1)
      {
        assert init[i] == opts[i];
      }
      ArgsWords(init);
      ArgsWordsStep(opts);
    }
  }

  /** The step of `ArgsWords`: one more option after text that already reads right. */
  lemma ArgsWordsStep(opts: Dict<string, string>)
    requires opts != [] && PlainOption(opts[|opts| - 1].0, opts[|opts| - 1].1)
    requires Args(opts[..|opts| - 1]).Ok?
    requires var s := Args(opts[..|opts| - 1]).value;
      (s == [] || s[|s| - 1] == ' ') && Words(s) == CommandWords(opts[..|opts| - 1])
    ensures Args(opts).Ok?
    ensures var s := Args(opts).value; (s == [] || s[|s| - 1] == ' ') && Words(s) == CommandWords(opts)
  {
    var n := |opts| - 1;
    var init := opts[..n];
    var (k, v) := opts[n];
    OptionWordsOfText(k, v);
    var s := Args(init).value;
    var t := OptionText(k, v, " ").value;
    assert Args(opts) == Ok(s + t);
    WordsAppend(s, t);
    assert CommandWords(opts) == CommandWords(init) + OptionWords(k, v);
    if t == [] {
      assert s + t == s;
    } else {
      assert (s + t)[|s + t| - 1] == t[|t| - 1];
    }
  }

  /**
   * As written, a long option runs into the option after it: with
   * `--fields=+n` and then `-R`, the program reads the single word
   * `--fields=+n-R` and never sees `-R`.
   */
  lemma LongOptionRunsOn()
    ensures ArgsAsWritten([("--fields", "+n"), ("-R", "")]) == Ok("--fields=+n-R ")
    ensures Words("--fields=+n-R ") == ["--fields=+n-R"]
    ensures CommandWords([("--fields", "+n"), ("-R", "")]) == ["--fields=+n", "-R"]
  {
    LongOptionText();
    WordSpace("--fields=+n-R");
    assert "--fields=+n-R" + " " == "--fields=+n-R ";
    LongOptionWords();
  }

  lemma LongOptionText()
    ensures ArgsAsWritten([("--fields", "+n"), ("-R", "")]) == Ok("--fields=+n-R ")
  {
    var opts := [("--fields", "+n"), ("-R", "")];
    assert opts[..1] == [("--fields", "+n")];
    assert opts[..1][..0] == [];
    assert "--fields" !in ArglessArgs;
    assert "--" <= "--fields";
    assert "--fields" + "=" + "+n" + "" == "--fields=+n";
    assert OptionText("--fields", "+n", "") == Ok("--fields=+n");
    assert ArgsText(opts[..1], "") == Ok("" + "--fields=+n");
    assert "-R" in ArglessArgs;
    assert "-R" + " " == "-R ";
    assert OptionText("-R", "", "") == Ok("-R ");
    assert ArgsText(opts, "") == Ok("" + "--fields=+n" + "-R ");
    assert "" + "--fields=+n" + "-R " == "--fields=+n-R ";
  }

  lemma LongOptionWords()
    ensures CommandWords([("--fields", "+n"), ("-R", "")]) == ["--fields=+n", "-R"]
  {
    var opts := [("--fields", "+n"), ("-R", "")];
    assert opts[..1] == [("--fields", "+n")];
    assert opts[..1][..0] == [];
    assert "--fields" !in ArglessArgs;
    assert "--" <= "--fields";
    assert "--fields" + "=" + "+n" == "--fields=+n";
    assert OptionWords("--fields", "+n") == ["--fields=+n"];
    assert CommandWords(opts[..1]) == [] + ["--fields=+n"];
    assert "-R" in ArglessArgs;
    assert OptionWords("-R", "") == ["-R"];
  }

  // ---------------------------------------------------------------------
  // The wrapper object

  /** What starting the program at a path gives: nothing, or what it prints for `--version` and `--list-kinds`. */
  datatype Probe = Missing | Runs(versionOutput: string, kindsOutput: seq<string>)

  /** The keyword arguments of the generating methods. */
  datatype GenerateArgs = GenerateArgs(
    tagProgram: Option<string>,
    files: Option<seq<string>>,
    generatorOptions: Option<Dict<string, string>>)

  /** The fields of `exuberant_ctags` the modelled operations touch. */
  datatype CtagsState = CtagsState(
    version: Option<string>,
    languageInfo: Option<LanguageInfo>,
    fileList: seq<string>,
    executablePath: Option<string>,
    warnings: seq<string>)

  /** `_query_tag_generator` on the program's two outputs. */
  function QuerySpec(st: CtagsState, versionOutput: string, kindsOutput: seq<string>): (CtagsState, Option<ExuberantError>) {
    match VersionOf(versionOutput)
    case Err(e) => (st, Some(e))
    case Ok(v) =>
      var st1 := st.(version := Some(v));
      match KindsInfo(kindsOutput)
      case Err(e) => (st1, Some(e))
      case Ok(info) => (st1.(languageInfo := Some(info)), None)
  }

  /** `ctags_executable(path)`: whether the program starts, after querying it when it does. */
  function ExecutableSpec(st: CtagsState, path: string, probe: string -> Probe): (CtagsState, Result<bool, ExuberantError>) {
    match probe(path)
    case Missing => (st, Ok(false))
    case Runs(vo, ko) =>
      var (st1, e) := QuerySpec(st, vo, ko);
      (st1, if e.Some? then Err(e.value) else Ok(true))
  }

  /** A path Python treats as true: present and non-empty. */
  predicate HasPath(p: Option<string>) {
    p.Some? && p.value != []
  }

  function UserOptions(kw: GenerateArgs): Dict<string, string> {
    if kw.generatorOptions.Some? then kw.generatorOptions.value else []
  }

  /** The options the wrapper keeps for itself. */
  predicate Reserved(kw: GenerateArgs) {
    "-f" in Keys(UserOptions(kw)) || "-o" in Keys(UserOptions(kw))
  }

  /** The `tag_program` and `files` keywords, then the fallback to `ctags` on the search path. */
  function ProgramSpec(st: CtagsState, kw: GenerateArgs, probe: string -> Probe): (CtagsState, Option<ExuberantError>) {
    var (st1, r1) := if kw.tagProgram.Some? then ExecutableSpec(st, kw.tagProgram.value, probe) else (st, Ok(false));
    if r1.Err? then (st1, Some(r1.error))
    else
      var st2 := if r1.value then st1.(executablePath := kw.tagProgram) else st1;
      var st3 := if kw.files.Some? then st2.(fileList := kw.files.value) else st2;
      if HasPath(st3.executablePath) then (st3, None)
      else
        var (st4, r4) := ExecutableSpec(st3, "ctags", probe);
        if r4.Err? then (st4, Some(r4.error))
        else if r4.value then (st4.(executablePath := Some("ctags")), None)
        else (st4, Some(NoExecutable))
  }

  /** Each file followed by the line separator. */
  function FileListText(files: seq<string>, linesep: string): string
    decreases |files|
  {
    if files == [] then "" else FileListText(files[..|files| - 1], linesep) + files[|files| - 1] + linesep
  }

  /** `_prepare_to_generate(kw)`: the new state, and the options and standard input of the run. */
  function PrepareSpec(st: CtagsState, kw: GenerateArgs, probe: string -> Probe, linesep: string)
    : (CtagsState, Result<(Dict<string, string>, string), ExuberantError>)
  {
    var st0 := st.(warnings := []);
    if Reserved(kw) then (st0, Err(ReservedOption))
    else
      var (st1, e) := ProgramSpec(st0, kw, probe);
      if e.Some? then (st1, Err(e.value))
      else
        var opts := Update(DefaultOpts, UserOptions(kw));
        (st1, Ok((opts, if "-L" in Keys(UserOptions(kw)) then "" else FileListText(st1.fileList, linesep))))
  }

  /**
   * A query succeeds exactly when the banner names Exuberant Ctags and the
   * listing reads; the version is stored as soon as the banner is read, the
   * table only when the listing reads too, and nothing else changes.
   */
  lemma QueryOutcome(st: CtagsState, versionOutput: string, kindsOutput: seq<string>)
    ensures var (st1, e) := QuerySpec(st, versionOutput, kindsOutput);
      (e.None? <==> VersionOf(versionOutput).Ok? && KindsInfo(kindsOutput).Ok?)
      && st1.fileList == st.fileList && st1.executablePath == st.executablePath && st1.warnings == st.warnings
      && (VersionOf(versionOutput).Ok? ==> st1.version == Some(VersionOf(versionOutput).value))
      && (VersionOf(versionOutput).Err? ==> st1 == st)
      && (e.None? ==> st1.languageInfo == Some(KindsInfo(kindsOutput).value))
      && (e.Some? ==> st1.languageInfo == st.languageInfo)
  {
  }

  /** Starting the program changes at most the version and the table. */
  lemma ExecutableFrame(st: CtagsState, path: string, probe: string -> Probe)
    ensures var (st1, r) := ExecutableSpec(st, path, probe);
      st1.fileList == st.fileList && st1.executablePath == st.executablePath
      && st1.warnings == st.warnings
  {
    match probe(path)
    case Missing =>
    case Runs(vo, ko) => QueryOutcome(st, vo, ko);
  }

  /**
   * Choosing the program either fails or leaves a non-empty program path
   * behind, with the file list from the `files` keyword when given, and the
   * warnings untouched.
   */
  lemma ProgramOutcome(st: CtagsState, kw: GenerateArgs, probe: string -> Probe)
    ensures var (st1, e) := ProgramSpec(st, kw, probe);
      st1.warnings == st.warnings
      && (e.None? ==>
        (HasPath(st1.executablePath)
        && st1.fileList == (if kw.files.Some? then kw.files.value else st.fileList)))
  {
    if kw.tagProgram.Some? {
      ExecutableFrame(st, kw.tagProgram.value, probe);
    }
    var (st1, r1) := if kw.tagProgram.Some? then ExecutableSpec(st, kw.tagProgram.value, probe) else (st, Ok(false));
    if r1.Err? {
      assert ProgramSpec(st, kw, probe) == (st1, Some(r1.error));
    } else {
      var st2 := if r1.value then st1.(executablePath := kw.tagProgram) else st1;
      var st3 := if kw.files.Some? then st2.(fileList := kw.files.value) else st2;
      assert st3.warnings == st.warnings;
      assert st3.fileList == (if kw.files.Some? then kw.files.value else st.fileList);
      if HasPath(st3.executablePath) {
        assert ProgramSpec(st, kw, probe) == (st3, None);
      } else {
        var (st4, r4) := ExecutableSpec(st3, "ctags", probe);
        ExecutableFrame(st3, "ctags", probe);
        if r4.Err? {
          assert ProgramSpec(st, kw, probe) == (st4, Some(r4.error));
        } else if r4.value {
          assert ProgramSpec(st, kw, probe) == (st4.(executablePath := Some("ctags")), None);
        } else {
          assert ProgramSpec(st, kw, probe) == (st4, Some(NoExecutable));
        }
      }
    }
  }

  /**
   * The merged options: a key is present exactly when it is a default or the
   * user's, the user's value wins, and a default the user leaves alone is `-`.
   */
  lemma MergedOptions(user: Dict<string, string>, k: string)
    requires DistinctKeys(user)
    ensures var m := Update(DefaultOpts, user);
      (k in Keys(m) <==> k == "-L" || k == "-f" || k in Keys(user))
      && (k in Keys(user) ==> Get(m, k) == Get(user, k))
      && (k in Keys(DefaultOpts) && k !in Keys(user) ==> Get(m, k) == "-")
  {
    assert Keys(DefaultOpts) == ["-L", "-f"];
    UpdateGet(DefaultOpts, user, k);
    assert Get(DefaultOpts, "-f") == "-" && Get(DefaultOpts, "-L") == "-";
  }

  /**
   * Preparing refuses `-f` and `-o` before anything else. When it succeeds
   * the warnings are empty, a program path is set, the file list is the
   * `files` keyword when given, the options are the defaults merged with the
   * user's (see `MergedOptions`), `-f` keeps its default `-`, and the
   * standard input lists the files unless the user passed `-L`.
   */
  lemma PrepareOutcome(st: CtagsState, kw: GenerateArgs, probe: string -> Probe, linesep: string)
    requires DistinctKeys(UserOptions(kw))
    ensures var (st1, r) := PrepareSpec(st, kw, probe, linesep);
      (Reserved(kw) ==> st1 == st.(warnings := []) && r == Err(ReservedOption))
      && (r.Ok? ==>
        (st1.warnings == [] && HasPath(st1.executablePath)
        && st1.fileList == (if kw.files.Some? then kw.files.value else st.fileList)
        && r.value.0 == Update(DefaultOpts, UserOptions(kw))
        && "-f" in Keys(r.value.0) && Get(r.value.0, "-f") == "-"
        && r.value.1 == (if "-L" in Keys(UserOptions(kw)) then "" else FileListText(st1.fileList, linesep))))
  {
    var user := UserOptions(kw);
    var st0 := st.(warnings := []);
    ProgramOutcome(st0, kw, probe);
    MergedOptions(user, "-f");
    if !Reserved(kw) {
      assert "-f" !in Keys(user);
      var (st1, e) := ProgramSpec(st0, kw, probe);
      assert PrepareSpec(st, kw, probe, linesep).0 == st1;
    }
  }

  lemma {:induction false} FileListJoin(files: seq<string>, linesep: string)
    ensures FileListText(files, linesep) == Join(files + [""], linesep)
    decreases |files|
  {
    if files == [] {
      assert files + [""] == [""];
    } else {
      var n := |files| - 1;
      var init := files[..n];
      FileListJoin(init, linesep);
      assert files + [""] == (init + [files[n]]) + [""];
      assert files == init + [files[n]];
      JoinSnoc(init + [files[n]], "", linesep);
      if init != [] {
        JoinSnoc(init, files[n], linesep);
        JoinSnoc(init, "", linesep);
      } else {
        assert init + [files[n]] == [files[n]];
      }
    }
  }

  /**
   * The program reads its standard input a line at a time: with a one-character
   * separator that no file name holds, cutting the text at it gives the file
   * names back, and one empty piece after the final separator.
   */
  lemma FileListRoundTrip(files: seq<string>, c: char)
    requires forall k :: 0 <= k < |files| ==> c !in files[k]
    ensures Split(FileListText(files, [c]), [c]) == files + [""]
  {
    SeparatorFreeSnoc(files, c);
    FileListJoin(files, [c]);
    SplitJoin(files + [""], c);
  }

  /** Adding the empty piece keeps every piece free of the separator. */
  lemma SeparatorFreeSnoc(files: seq<string>, c: char)
    requires forall k :: 0 <= k < |files| ==> c !in files[k]
    ensures forall k :: 0 <= k < |files + [""]| ==> c !in (files + [""])[k]
  {
    var parts := files + [""];
    forall k | 0 <= k < |parts|
      ensures c !in parts[k]
    {
      if k < |files| {
        assert parts[k] == files[k];
      }
    }
  }

  // ---------------------------------------------------------------------
  // Warning lines

  /** The program name from its path: from the last `/` (kept), else the last `\`, else all of it. */
  function ShortName(path: string): (r: string)
    ensures |r| <= |path| && r == path[|path| - |r|..]
    ensures '/' in path ==> r != [] && r[0] == '/' && '/' !in r[1..]
    ensures '/' !in path && '\\' in path ==> r != [] && r[0] == '\\' && '\\' !in r[1..]
    ensures '/' !in path && '\\' !in path ==> r == path
  {
    RFindChar(path, '/');
    RFindChar(path, '\\');
    var slash := RFind(path, "/");
    if slash >= 0 then path[slash..]
    else
      var back := RFind(path, "\\");
      if back >= 0 then path[back..] else path
  }

  /** A path to the program ends in `/` and its name. */
  lemma ShortNameOfPath(dir: string, name: string)
    requires '/' !in name
    ensures ShortName(dir + "/" + name) == "/" + name
  {
    var path := dir + "/" + name;
    var r := RFind(path, "/");
    OccursOneChar(path, '/', |dir|);
    forall k | k > |dir|
      ensures !OccursAt(path, "/", k)
    {
      OccursOneChar(path, '/', k);
      if 0 <= k < |path| {
        assert path[k] == name[k - |dir| - 1];
      }
    }
    assert r == |dir|;
    assert path[|dir|..] == "/" + name;
  }

  predicate IsWarning(line: string, marker: string) {
    marker <= line
  }

  /** The lines that are not warnings, in order. */
  function Plain(s: seq<string>, marker: string): seq<string>
    decreases |s|
  {
    if s == [] then []
    else Plain(s[..|s| - 1], marker) + (if IsWarning(s[|s| - 1], marker) then [] else [s[|s| - 1]])
  }

  /** The warning lines, in order. */
  function Warned(s: seq<string>, marker: string): seq<string>
    decreases |s|
  {
    if s == [] then []
    else Warned(s[..|s| - 1], marker) + (if IsWarning(s[|s| - 1], marker) then [s[|s| - 1]] else [])
  }

  /** The indices of the warning lines, ascending. */
  function Positions(s: seq<string>, marker: string): (r: seq<int>)
    ensures forall q :: 0 <= q < |r| ==> 0 <= r[q] < |s| && IsWarning(s[r[q]], marker)
    ensures forall p, q :: 0 <= p < q < |r| ==> r[p] < r[q]
    ensures forall k :: 0 <= k < |s| && IsWarning(s[k], marker) ==> k in r
    decreases |s|
  {
    if s == [] then []
    else
      var init := s[..|s| - 1];
      var r0 := Positions(init, marker);
      assert forall q :: 0 <= q < |r0| ==> s[r0[q]] == init[r0[q]];
      assert forall k :: 0 <= k < |s| - 1 ==> s[k] == init[k];
      r0 + (if IsWarning(s[|s| - 1], marker) then [|s| - 1] else [])
  }

  function Reversed<T>(s: seq<T>): (r: seq<T>)
    ensures |r| == |s|
    decreases |s|
  {
    if s == [] then [] else Reversed(s[1..]) + [s[0]]
  }

  lemma {:induction false} ReversedAppend<T>(a: seq<T>, b: seq<T>)
    ensures Reversed(a + b) == Reversed(b) + Reversed(a)
    decreases |a|
  {
    if a == [] {
      assert a + b == b;
    } else {
      assert (a + b)[1..] == a[1..] + b;
      ReversedAppend(a[1..], b);
    }
  }

  lemma {:induction false} FilterAppend(a: seq<string>, b: seq<string>, marker: string)
    ensures Plain(a + b, marker) == Plain(a, marker) + Plain(b, marker)
    ensures Warned(a + b, marker) == Warned(a, marker) + Warned(b, marker)
    decreases |b|
  {
    if b == [] {
      assert a + b == a;
    } else {
      var n := |b| - 1;
      assert (a + b)[..|a + b| - 1] == a + b[..n];
      FilterAppend(a, b[..n], marker);
    }
  }

  lemma {:induction false} FilterClean(s: seq<string>, marker: string)
    requires forall k :: 0 <= k < |s| ==> !IsWarning(s[k], marker)
    ensures Plain(s, marker) == s && Warned(s, marker) == []
    decreases |s|
  {
    if s != [] {
      var n := |s| - 1;
      FilterClean(s[..n], marker);
      assert s == s[..n] + [s[n]];
    }
  }

  /**
   * The lines are split between the two lists: each line goes to exactly
   * one of them, by whether it is a warning.
   */
  lemma {:induction false} FilterPartition(s: seq<string>, marker: string)
    ensures multiset(Plain(s, marker)) + multiset(Warned(s, marker)) == multiset(s)
    ensures forall x :: x in Plain(s, marker) <==> x in s && !IsWarning(x, marker)
    ensures forall x :: x in Warned(s, marker) <==> x in s && IsWarning(x, marker)
    decreases |s|
  {
    if s != [] {
      var n := |s| - 1;
      FilterPartition(s[..n], marker);
      assert s == s[..n] + [s[n]];
    }
  }

  /** After the pops of the warnings at or beyond `b`, in descending order. */
  predicate Popped(results: seq<string>, marker: string, b: nat, cur: seq<string>, popped: seq<string>)
    requires b <= |results|
  {
    cur == results[..b] + Plain(results[b..], marker) && popped == Reversed(Warned(results[b..], marker))
  }

  /** Popping the warning at `p`, when none lies between it and `b`. */
  lemma PopStep(results: seq<string>, marker: string, p: nat, b: nat, cur: seq<string>, popped: seq<string>)
    requires p < b <= |results| && IsWarning(results[p], marker)
    requires forall k :: p < k < b ==> !IsWarning(results[k], marker)
    requires Popped(results, marker, b, cur, popped)
    ensures p < |cur| && cur[p] == results[p]
    ensures Popped(results, marker, p, cur[..p] + cur[p + 1..], popped + [cur[p]])
  {
    var mid := results[p + 1..b];
    var tail := results[b..];
    FilterSplit(results, marker, p, b);
    assert results[..b] == results[..p] + [results[p]] + mid;
    var rest := mid + Plain(tail, marker);
    assert cur == results[..p] + [results[p]] + rest;
    RemoveAt(results[..p], results[p], rest);
    ReversedAppend([results[p]], Warned(tail, marker));
    assert Reversed([results[p]]) == [results[p]];
  }

  /** A warning at `p` followed by plain lines up to `b`, seen from `p` and from `b`. */
  lemma FilterSplit(results: seq<string>, marker: string, p: nat, b: nat)
    requires p < b <= |results| && IsWarning(results[p], marker)
    requires forall k :: p < k < b ==> !IsWarning(results[k], marker)
    ensures Plain(results[p..], marker) == results[p + 1..b] + Plain(results[b..], marker)
    ensures Warned(results[p..], marker) == [results[p]] + Warned(results[b..], marker)
  {
    var mid := results[p + 1..b];
    var tail := results[b..];
    FilterClean(mid, marker);
    assert results[p..] == [results[p]] + mid + tail;
    FilterAppend([results[p]] + mid, tail, marker);
    FilterAppend([results[p]], mid, marker);
    assert Plain([results[p]], marker) == [] by {
      assert [results[p]][..0] == [];
    }
    assert Warned([results[p]], marker) == [results[p]] by {
      assert [results[p]][..0] == [];
    }
  }

  /** Removing the element at `|a|` from `a + [x] + b` leaves `a + b`. */
  lemma RemoveAt<T>(a: seq<T>, x: T, b: seq<T>)
    ensures var s := a + [x] + b; s[|a|] == x && s[..|a|] + s[|a| + 1..] == a + b
  {
    var s := a + [x] + b;
    assert s[..|a|] == a;
    assert s[|a| + 1..] == b;
  }

  /** The `i`-th pop and the bound it leaves, for `t` warnings popped. */
  function PopBound(pos: seq<int>, t: nat, n: nat): int
    requires t <= |pos|
  {
    if t == 0 then n else pos[|pos| - t]
  }

  class ExuberantCtags {
    var version: Option<string>
    var languageInfo: Option<LanguageInfo>
    var fileList: seq<string>
    var executablePath: Option<string>
    var warnings: seq<string>

    function State(): CtagsState
      reads this
    {
      CtagsState(version, languageInfo, fileList, executablePath, warnings)
    }

    /** `exuberant_ctags()` with no keyword arguments. */
    constructor()
      ensures State() == CtagsState(None, None, [], None, [])
    {
      version := None;
      languageInfo := None;
      fileList := [];
      executablePath := None;
      warnings := [];
    }

    /** `__process_kinds_list`. */
    method ProcessKindsList(kindsList: seq<string>) returns (r: Result<LanguageInfo, ExuberantError>)
      ensures r == KindsInfo(kindsList)
    {
      var d: LanguageInfo := map[];
      var key := "";
      for i := 0 to |kindsList|
        invariant KindsRun(ClassifyAll(kindsList[..i])) == Ok(KindsState(d, key))
      {
        var k := kindsList[i];
        KindsNext(kindsList, i, KindsState(d, key));
        if |k| > 0 {
          if IsSpace(k[0]) {
            if |key| > 0 {
              var kindInfo := Split(Strip(k), "  ");
              if |kindInfo| > 2 {
                ClassifyAllPrefix(kindsList, i + 1);
                KindsErrorStops(ClassifyAll(kindsList), i + 1);
                return Err(KindFormat(k));
              }
              if |kindInfo| < 2 {
                ClassifyAllPrefix(kindsList, i + 1);
                KindsErrorStops(ClassifyAll(kindsList), i + 1);
                return Err(KindWithoutDescription(k));
              }
              d := d[key := d[key][kindInfo[0] := kindInfo[1]]];
            }
          } else {
            key := LowerStr(Strip(k));
            if key !in d {
              d := d[key := map[]];
            }
          }
        }
      }
      assert kindsList[..|kindsList|] == kindsList;
      return Ok(d);
    }

    /** `_query_tag_generator`, given what the program printed for `--version` and `--list-kinds`. */
    method QueryTagGenerator(versionOutput: string, kindsOutput: seq<string>) returns (err: Option<ExuberantError>)
      modifies this
      ensures (State(), err) == QuerySpec(old(State()), versionOutput, kindsOutput)
    {
      var outstr := versionOutput;
      if Find(LowerStr(outstr), ExuberantId) < 0 {
        assert VersionOf(versionOutput) == Err(NotExuberant);
        return Some(NotExuberant);
      }
      var comma := Find(outstr, ",");
      var v := Strip(Slice(outstr, |ExuberantId|, comma));
      assert VersionOf(versionOutput) == Ok(v);
      version := Some(v);
      ghost var st1 := State();
      assert st1 == old(State()).(version := Some(v));
      var info := ProcessKindsList(kindsOutput);
      if info.Err? {
        assert QuerySpec(old(State()), versionOutput, kindsOutput) == (st1, Some(info.error));
        return Some(info.error);
      }
      languageInfo := Some(info.value);
      assert QuerySpec(old(State()), versionOutput, kindsOutput) == (st1.(languageInfo := Some(info.value)), None);
      return None;
    }

    /** `ctags_executable(path)`. */
    method CtagsExecutable(path: string, probe: string -> Probe) returns (r: Result<bool, ExuberantError>)
      modifies this
      ensures (State(), r) == ExecutableSpec(old(State()), path, probe)
    {
      match probe(path)
      case Missing =>
        return Ok(false);
      case Runs(vo, ko) =>
        var e := QueryTagGenerator(vo, ko);
        if e.Some? {
          return Err(e.value);
        }
        return Ok(true);
    }

    /** The `tag_program` and `files` keywords and the fallback program. */
    method ChooseProgram(kw: GenerateArgs, probe: string -> Probe) returns (err: Option<ExuberantError>)
      modifies this
      ensures (State(), err) == ProgramSpec(old(State()), kw, probe)
    {
      if kw.tagProgram.Some? {
        var ok := CtagsExecutable(kw.tagProgram.value, probe);
        if ok.Err? {
          return Some(ok.error);
        }
        if ok.value {
          executablePath := kw.tagProgram;
        }
      }
      if kw.files.Some? {
        fileList := kw.files.value;
      }
      if !HasPath(executablePath) {
        var ok := CtagsExecutable("ctags", probe);
        if ok.Err? {
          return Some(ok.error);
        }
        if ok.value {
          executablePath := Some("ctags");
        } else {
          return Some(NoExecutable);
        }
      }
      return None;
    }

    /** `_prepare_to_generate(kw)`, with `os.linesep` as `linesep`. */
    method PrepareToGenerate(kw: GenerateArgs, probe: string -> Probe, linesep: string)
      returns (r: Result<(Dict<string, string>, string), ExuberantError>)
      modifies this
      ensures (State(), r) == PrepareSpec(old(State()), kw, probe, linesep)
    {
      var inputFileOverride := false;
      warnings := [];
      if kw.generatorOptions.Some? {
        var keys := Keys(kw.generatorOptions.value);
        if "-f" in keys || "-o" in keys {
          return Err(ReservedOption);
        }
        if "-L" in keys {
          inputFileOverride := true;
        }
      }
      var err := ChooseProgram(kw, probe);
      if err.Some? {
        return Err(err.value);
      }
      var genOpts := DefaultOpts;
      if kw.generatorOptions.Some? {
        genOpts := Update(genOpts, kw.generatorOptions.value);
      }
      var text := "";
      if !inputFileOverride {
        var files := fileList;
        for i := 0 to |files|
          invariant text == FileListText(files[..i], linesep)
        {
          assert files[..i + 1][..i] == files[..i];
          text := text + files[i] + linesep;
        }
        assert files[..|files|] == files;
      }
      return Ok((genOpts, text));
    }

    /** `_dict_to_args`: a long option is written without a separator after it. */
    method DictToArgs(genOpts: Dict<string, string>) returns (r: Result<string, ExuberantError>)
      ensures r == ArgsAsWritten(genOpts)
    {
      var yargs := "";
      for i := 0 to |genOpts|
        invariant ArgsText(genOpts[..i], "") == Ok(yargs)
      {
        assert genOpts[..i + 1][..i] == genOpts[..i];
        var (k, v) := genOpts[i];
        if k in ArglessArgs {
          yargs := yargs + (k + " ");
        } else if |k| >= 2 && k[..2] == "--" {
          assert k + "=" + v + "" == k + "=" + v;
          yargs := yargs + (k + "=" + v);
        } else if k == [] {
          ArgsErrorStops(genOpts, i + 1, "");
          return Err(EmptyOption);
        } else if k[0] == '-' {
          yargs := yargs + (k + " " + v + " ");
        } else {
          assert yargs + "" == yargs;
        }
      }
      assert genOpts[..|genOpts|] == genOpts;
      return Ok(yargs);
    }

    /**
     * The end of `generate_tags`: on Windows the program's warnings come in
     * its output, and the lines that start with the program name and
     * `: Warning:` are popped from the highest index down and appended to
     * the warnings; elsewhere the warnings are the lines of its error stream.
     */
    method CollectWarnings(results: seq<string>, errLines: seq<string>, win32: bool) returns (kept: seq<string>)
      requires win32 ==> executablePath.Some?
      modifies this
      ensures !win32 ==> kept == results && State() == old(State()).(warnings := errLines)
      ensures win32 ==> var marker := ShortName(old(executablePath).value) + WarningStr;
        kept == Plain(results, marker)
        && State() == old(State()).(warnings := old(warnings) + Reversed(Warned(results, marker)))
    {
      if !win32 {
        warnings := errLines;
        return results;
      }
      var path := executablePath.value;
      var shortname: string;
      if RFind(path, "/") >= 0 {
        shortname := path[RFind(path, "/")..];
      } else if RFind(path, "\\") >= 0 {
        shortname := path[RFind(path, "\\")..];
      } else {
        shortname := path;
      }
      var marker := shortname + WarningStr;
      var idxs := WarningIndices(results, marker);
      // `idxs` is ascending, so sorting it in reverse order reverses it.
      var desc := Reversed(idxs);
      var popped := PopWarnings(results, marker, idxs, desc);
      kept := popped.0;
      warnings := warnings + popped.1;
    }
  }

  /** The error stops the option text for good. */
  lemma {:induction false} ArgsErrorStops(opts: Dict<string, string>, n: nat, longEnd: string)
    requires n <= |opts| && ArgsText(opts[..n], longEnd).Err?
    ensures ArgsText(opts, longEnd) == ArgsText(opts[..n], longEnd)
    decreases |opts| - n
  {
    if n < |opts| {
      var m := |opts| - 1;
      assert opts[..m][..n] == opts[..n];
      ArgsErrorStops(opts[..m], n, longEnd);
    } else {
      assert opts[..n] == opts;
    }
  }

  /** The first loop of the warning filter: the indices of the lines that start with `marker`. */
  method WarningIndices(results: seq<string>, marker: string) returns (idxs: seq<int>)
    ensures idxs == Positions(results, marker)
  {
    idxs := [];
    var i := 0;
    for j := 0 to |results|
      invariant i == j && idxs == Positions(results[..j], marker)
    {
      assert results[..j + 1][..j] == results[..j];
      var r := results[j];
      FindZeroIsPrefix(r, marker);
      if Find(r, marker) == 0 {
        idxs := idxs + [i];
      }
      i := i + 1;
    }
    assert results[..|results|] == results;
  }

  /** The second loop: pop each index, highest first, collecting the popped lines. */
  method PopWarnings(results: seq<string>, marker: string, idxs: seq<int>, desc: seq<int>)
    returns (r: (seq<string>, seq<string>))
    requires idxs == Positions(results, marker) && desc == Reversed(idxs)
    ensures r.0 == Plain(results, marker) && r.1 == Reversed(Warned(results, marker))
  {
    var cur := results;
    var popped: seq<string> := [];
    var m := |idxs|;
    ReversedAt(idxs);
    assert results[..|results|] == results && results[|results|..] == [];
    for t := 0 to m
      invariant Popped(results, marker, PopBound(idxs, t, |results|), cur, popped)
    {
      var p := desc[t];
      var b := PopBound(idxs, t, |results|);
      assert p == idxs[m - 1 - t];
      PopGap(results, marker, idxs, t);
      PopStep(results, marker, p, b, cur, popped);
      popped := popped + [cur[p]];
      cur := cur[..p] + cur[p + 1..];
    }
    PopFinish(results, marker, idxs, cur, popped);
    r := (cur, popped);
  }

  /** Once every warning is popped, the plain lines remain and the warnings are collected, last first. */
  lemma PopFinish(results: seq<string>, marker: string, idxs: seq<int>, cur: seq<string>, popped: seq<string>)
    requires idxs == Positions(results, marker)
    requires Popped(results, marker, PopBound(idxs, |idxs|, |results|), cur, popped)
    ensures cur == Plain(results, marker) && popped == Reversed(Warned(results, marker))
  {
    var b := PopBound(idxs, |idxs|, |results|);
    PopFinishGap(results, marker, idxs);
    FilterCleanPrefix(results, marker, b);
  }

  /** Before the first warning there are only plain lines. */
  lemma PopFinishGap(results: seq<string>, marker: string, idxs: seq<int>)
    requires idxs == Positions(results, marker)
    ensures PopBound(idxs, |idxs|, |results|) <= |results|
    ensures forall k :: 0 <= k < PopBound(idxs, |idxs|, |results|) ==> !IsWarning(results[k], marker)
  {
    var b := PopBound(idxs, |idxs|, |results|);
    if idxs != [] {
      assert b == idxs[0];
      forall q | 0 <= q < |idxs|
        ensures b <= idxs[q]
      {
        assert q == 0 || idxs[0] < idxs[q];
      }
    }
    GapClean(results, marker, -1, b, idxs);
  }

  /** Plain lines up to `b` pass straight through both filters. */
  lemma FilterCleanPrefix(results: seq<string>, marker: string, b: nat)
    requires b <= |results|
    requires forall k :: 0 <= k < b ==> !IsWarning(results[k], marker)
    ensures Plain(results, marker) == results[..b] + Plain(results[b..], marker)
    ensures Warned(results, marker) == Warned(results[b..], marker)
  {
    var head := results[..b];
    FilterClean(head, marker);
    FilterAppend(head, results[b..], marker);
    assert head + results[b..] == results;
  }

  /** No warning lies strictly between `lo` and `hi` when no warning position does. */
  lemma GapClean(results: seq<string>, marker: string, lo: int, hi: int, idxs: seq<int>)
    requires idxs == Positions(results, marker) && hi <= |results|
    requires forall q :: 0 <= q < |idxs| ==> idxs[q] <= lo || hi <= idxs[q]
    ensures forall k :: lo < k < hi && 0 <= k ==> !IsWarning(results[k], marker)
  {
    forall k | lo < k < hi && 0 <= k
      ensures !IsWarning(results[k], marker)
    {
      assert k !in idxs;
    }
  }

  /** Between the `t`-th pop and the bound before it there are only plain lines. */
  lemma PopGap(results: seq<string>, marker: string, idxs: seq<int>, t: nat)
    requires idxs == Positions(results, marker) && t < |idxs|
    ensures forall k :: idxs[|idxs| - 1 - t] < k < PopBound(idxs, t, |results|) ==> !IsWarning(results[k], marker)
  {
    var m := |idxs|;
    var p := idxs[m - 1 - t];
    var b := PopBound(idxs, t, |results|);
    forall q | 0 <= q < m
      ensures idxs[q] <= p || b <= idxs[q]
    {
      if q > m - 1 - t {
        assert t > 0 && b == idxs[m - t];
        assert q == m - t || idxs[m - t] < idxs[q];
      }
    }
    GapClean(results, marker, p, b, idxs);
  }

  lemma {:induction false} ReversedAt<T>(s: seq<T>)
    ensures forall t :: 0 <= t < |s| ==> Reversed(s)[t] == s[|s| - 1 - t]
    decreases |s|
  {
    if s != [] {
      ReversedAt(s[1..]);
    }
  }
}
