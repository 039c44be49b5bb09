# TagMonster in Dafny

TagMonster is a Sublime Text plugin for jumping to and previewing symbol
definitions. It reads ctags-format tags files through the `pyctags` library.
This project models the plugin's index and preview logic, and the parts of
`pyctags` that logic rests on:

- `ctags_entry` (`TagEntry`): a tag line or keyword arguments become an
  entry. The line splits into name, file and locator at the first two tabs.
  The locator is a line number or a search pattern. Exuberant extension
  fields follow `;"`.
- `ctags_file` (`TagFile`, class `CtagsFile`): holds the header fields and
  the list of entries.
  - Header handlers, `parse`, and the incremental `feed_init` /
    `feed_line` / `feed_finish` protocol.
  - `harvest`.
  - Each call it makes to a harvester is recorded in a `calls` trace.
- The harvesters (`Harvesters`):
  - `kind_harvester`, `by_name_harvester`, and their `process_tag_list`.
  - `name_lookup_harvester`: the sorted, de-duplicated name list, the index
    from first character to a block of that list, and `starts_with`, which
    searches it case-sensitively or not.
- `exuberant_ctags` (`Exuberant`, class `ExuberantCtags`):
  - the `--list-kinds` parser and the version taken from the `--version`
    banner;
  - the conversion of an options dict to a command line;
  - `_prepare_to_generate`;
  - the Windows warning filter that moves `<program>: Warning:` lines out of
    the output.
- `kwargs_validator.validate` (`KwargsValidator`).
- The plugin (`TagMonster`, class `TagMonster`):
  - `load_tag_file` builds the name list, the name-to-record lookup (the
    last tag of a name wins), and the per-scope name lists, skipping names
    the ignore pattern matches.
  - `peek_at_tag` finds the first line that starts with the tag's pattern
    and shows a window of context around it.

Supporting modules:

- `Text`: the Python `str` operations the code relies on, written out, so
  that every contract is stated against Python's own behaviour. These are
  `strip`, `find`/`rfind`, `split` with and without `maxsplit`, `join`,
  clamped slicing, `lower`/`upper`, `int()` and `str()`.
- `OrderedDict`: a dict as a sequence of key/value pairs in insertion order.
  It is used where the order is observable: the entry dict that `==`
  compares through `repr`, and the options dict that `_dict_to_args` walks.
- `StrOrder`: Python's string ordering and `list.sort`.

Each imperative routine of the source is a method on a class whose fields
are the Python object's attributes. Each method is proved equal to a
specification function on the old state that follows the code as written,
and the source's promises are lemmas about those functions. Where the code
does not do what it evidently means (see "Findings"), a corrected function
sits beside the as-written one as a reference, with the intended property
proved about it and a lemma relating the two.

A Python exception becomes an error value in a `Result` or `Option`. Each
error value has its own constructor: `FileError`, `EntryError`,
`HarvestError`, `ExuberantError`, `ParameterError`.

The model keeps these behaviours of the code as written:

- A blank line or an unknown `!` header line makes `parse` fail. The
  unknown header fails because its handler names an undefined variable.
- A tag line whose locator is the line number `0` has no valid locator.
- A failed load leaves the index as far as it got, because
  `load_tag_file` clears the index before it reads any file.
- When the pattern matches no line, `peek_at_tag` returns nothing, just as
  it does for a match on the last line.

## Model

| member | source | states |
|---|---|---|
| Text.Find | pyctags/tag_entry.py:100 | `str.find`: -1 exactly when the substring occurs nowhere, otherwise the first position where it occurs |
| Text.RFind | pyctags/tag_entry.py:169-172 | `str.rfind`: -1 exactly when the substring occurs nowhere, otherwise the last position where it occurs |
| Text.FindZeroIsPrefix | pyctags/harvesters.py:217 | `t.find(m) == 0` holds exactly when `m` is a prefix of `t` |
| Text.Split | pyctags/tag_entry.py:120 | `str.split(sep)` always yields at least one piece |
| Text.SplitPieces | pyctags/tag_entry.py:120 | no piece of `str.split(sep)` holds the separator |
| Text.SplitN | pyctags/tag_entry.py:96 | `str.split(sep, n)` yields between one and `n + 1` pieces |
| Text.SplitNPieces | pyctags/tag_entry.py:96 | every piece of `str.split(sep, n)` but the last holds no separator, and the last holds none either when fewer than `n` cuts were made |
| Text.JoinSplit | tagmonster.py:104 | joining the pieces of a split with the same separator gives the text back |
| Text.JoinSplitN | pyctags/tag_entry.py:96 | the same round trip holds for a split with `maxsplit` |
| Text.SplitJoin | pyctags/exuberant.py:173-176 | pieces free of a one-character separator, joined by it and split again, are the pieces |
| Text.TrimLeft | pyctags/tag_entry.py:90 | the result is a suffix of the input, everything dropped is whitespace, and it does not start with whitespace |
| Text.TrimRight | pyctags/tag_entry.py:90 | the result is a prefix of the input, everything dropped is whitespace, and it does not end with whitespace |
| Text.StripUnchanged | pyctags/exuberant.py:108 | `strip` leaves text alone when it neither starts nor ends with whitespace |
| Text.LowerStr | pyctags/exuberant.py:104 | `lower()` keeps the length, leaves no ASCII capital, keeps every other character, and turns each capital into the small letter whose capital it is |
| Text.LowerStrIdempotent | pyctags/harvesters.py:223 | lower-casing twice is lower-casing once |
| Text.AsciiOnly | tagmonster.py:17 | `encode('ascii', 'ignore')` keeps only characters below 128 and never lengthens the text |
| Text.AsciiOnlyKeepsAscii | tagmonster.py:17 | `encode('ascii', 'ignore')` returns the text unchanged exactly when it is all ASCII |
| Text.AsciiOnlyAppend | tagmonster.py:17 | the characters are dropped piece by piece, so the kept ones stay in their order |
| Text.ParseIntOfIntToString | pyctags/tag_entry.py:177 | `int(str(n)) == n` for every integer |
| Text.DecimalOfNatToString | pyctags/tag_entry.py:107 | the decimal digits of a natural number read back to that number |
| OrderedDict.Put | pyctags/tag_entry.py:124 | assigning `d[k] = v`: `k` maps to `v`, other keys keep their values, a new key goes last and an existing one keeps its place |
| OrderedDict.UpdateGet | pyctags/exuberant.py:169-171 | `d.update(e)`: the keys are those of both dicts, `e` wins where both have a key, `d` keeps the rest |
| OrderedDict.KeysAppend | pyctags/exuberant.py:129 | the keys of two concatenated dicts are the keys of the first, then of the second |
| KwargsValidator.Validate | pyctags/kwargs_validator.py:38-48 | no error exactly when every argument is allowed; an error names the first argument that is not allowed |
| TagEntry.SplitLocator | pyctags/tag_entry.py:100-103 | when `;"` occurs after position 0, the rest is cut at its last occurrence and the extension text holds no further `;"`; otherwise the locator is the whole rest |
| TagEntry.SplitKeyValue | pyctags/tag_entry.py:122-123 | a field with a colon splits at its first colon into key and value that join back to the field |
| TagEntry.ParseExtensionFields | pyctags/tag_entry.py:114-135 | the loop over extension fields computes the fold `FoldFields` over the fields |
| TagEntry.FoldFieldsErrorStops | pyctags/tag_entry.py:128-132 | once a field raises, the later fields change nothing |
| TagEntry.LastFieldWins | pyctags/tag_entry.py:121-124 | the last field with a given key sets that key's value |
| TagEntry.StepFieldWrites | pyctags/tag_entry.py:122-124 | one `key:value` field writes exactly that key in the extension dict |
| TagEntry.LocatorLineKept | pyctags/tag_entry.py:125-127 | a `line:` field does not replace a line number the locator already gave |
| TagEntry.SecondKindFails | pyctags/tag_entry.py:130-132 | two fields without a colon make the line fail |
| TagEntry.KindFoundSticks | pyctags/tag_entry.py:133-135 | after a field without a colon the kind is marked as found |
| TagEntry.SplitFirstTwoTabs | pyctags/tag_entry.py:96 | a line splits at its first two tabs into name, file and the rest, which keeps any further tabs |
| TagEntry.TagLineFields | pyctags/tag_entry.py:90-96 | the stripped line's name, file and rest are what the entry is built from |
| TagEntry.TooFewFields | pyctags/tag_entry.py:96 | a line with fewer than two tabs is refused |
| TagEntry.LocatorKind | pyctags/tag_entry.py:105-114 | an all-digit locator sets `line_number` to its value and no pattern; any other locator becomes the pattern; name, file and an extension dict are always set |
| TagEntry.Build | pyctags/tag_entry.py:140-163 | a missing file or name is an error; a built entry keeps its dict and takes name, file, pattern, line number (through `int`) and extensions from it; for a dict with string name and file and a readable pattern and line number, the entry exists exactly when the locators are not both empty and the extensions read, and empty locators give `NoLocator` |
| TagEntry.EntryOf | pyctags/tag_entry.py:60-163 | a refused keyword is an error; a positional argument together with keywords is an error; a built entry is what `Build` makes of its own dict |
| TagEntry.RestRepFields | pyctags/tag_entry.py:96-135 | the dict built from a tag line has name and file as strings, the locator as pattern or line number, a `line:` field's number only when the locator gave none, and the collected extensions |
| TagEntry.LineEntry | pyctags/tag_entry.py:76-163 | a tag line end to end: a field error is the constructor's error; otherwise the entry exists exactly when a locator is set, and then its name, file, pattern, line number and extensions are the line's |
| TagEntry.DictEntry | pyctags/tag_entry.py:76-140 | a dict argument, and keyword arguments without a positional one, go straight to the final checks; no data at all is a missing file |
| TagEntry.NewEntry | pyctags/tag_entry.py:46-163 | the constructor computes `EntryOf` on its arguments, whose outcome `LineEntry`, `DictEntry` and `EntryKeepsRep` state |
| TagEntry.EntryKeepsRep | pyctags/tag_entry.py:140-163 | a constructed entry can be rebuilt from the dict it keeps, each of its attributes is that dict's value, and it has a valid locator |
| TagEntry.Basename | pyctags/tag_entry.py:169-174 | the short file name is a suffix of the path: after its last `/`, else after its last `\`, else the whole path |
| TagEntry.StrFields | pyctags/tag_entry.py:168-179 | `str(entry)` reads back as name and short file name, then the line number, which parses back to the entry's own |
| TagEntry.EqualRepsEqualEntries | pyctags/tag_entry.py:181-185 | `==` on built entries is equality of the entries, and `!=` is its negation |
| TagFile.FeedInitSpec | pyctags/tag_file.py:188-206 | a refused keyword leaves the state alone; otherwise the header and the tag list are cleared |
| TagFile.HarvestSpec | pyctags/tag_file.py:165-185 | harvesting fails exactly when there are no tags, and it changes neither the header, the tags nor the feed harvesters |
| TagFile.CtagsFile.constructor | pyctags/tag_file.py:39-51 | a new file has an empty header, no tags, no harvesters and no calls |
| TagFile.CtagsFile.CallAll | pyctags/tag_file.py:176-177 | calls one method on each harvester in order and changes nothing else |
| TagFile.CtagsFile.ClearVariables | pyctags/tag_file.py:58-91 | every header field is unset and the tags and feed harvesters are empty |
| TagFile.CtagsFile.HeaderFormat | pyctags/tag_file.py:93-97 | the FORMAT handler computes `FormatHeader` and touches only the header |
| TagFile.CtagsFile.HeaderSorted | pyctags/tag_file.py:99-102 | the SORTED handler computes `SortedHeader` and touches only the header |
| TagFile.CtagsFile.HeaderText | pyctags/tag_file.py:104-122 | the four text handlers compute `TextHeader` and touch only the header |
| TagFile.CtagsFile.HeaderLine | pyctags/tag_file.py:152-159 | a `!` line is dispatched by its first tab-separated field to its handler |
| TagFile.CtagsFile.FeedInit | pyctags/tag_file.py:188-206 | computes `FeedInitSpec` and calls `do_before` on each harvester |
| TagFile.CtagsFile.FeedLine | pyctags/tag_file.py:208-218 | computes `FeedLineSpec`: the entry is appended and fed to every feed harvester |
| TagFile.FeedLineAppends | pyctags/tag_file.py:208-218 | a tag line that makes an entry appends it, with the line's name and file, after the earlier tags and sends it to each feed harvester; one that does not changes nothing and reports the entry's error |
| TagFile.CtagsFile.FeedFinish | pyctags/tag_file.py:220-225 | calls `do_after` on each feed harvester and drops them |
| TagFile.CtagsFile.ParseLine | pyctags/tag_file.py:149-161 | one line of `parse`: a header line or a tag line |
| TagFile.CtagsFile.Parse | pyctags/tag_file.py:133-163 | computes `ParseSpec`: feed_init, every line in order, then feed_finish |
| TagFile.ParseBodyErrorStops | pyctags/tag_file.py:149-161 | once a line fails, later lines change nothing |
| TagFile.ParseBodyEntries | pyctags/tag_file.py:149-161 | the lines add one entry per tag line, in order, and feed each to the harvesters |
| TagFile.ParseEntries | pyctags/tag_file.py:133-163 | a successful parse holds exactly the entries of its tag lines; each harvester saw `do_before`, every entry, then `do_after`, and none is kept |
| TagFile.FormatFirstWins | pyctags/tag_file.py:95-97 | once the format is set to a non-zero value, no later header changes it |
| TagFile.HeaderKeepsFormat | pyctags/tag_file.py:95 | no header handler changes a non-zero format |
| TagFile.TextHeaderLastWins | pyctags/tag_file.py:104-122 | the last AUTHOR, NAME, URL or VERSION header line sets that field |
| TagFile.SortedLastWins | pyctags/tag_file.py:99-102 | unlike FORMAT, the last SORTED header line sets the sorted field |
| TagFile.HeaderSetsSorted | pyctags/tag_file.py:99-102 | a SORTED header with an integer value and a comment sets the field to that integer |
| TagFile.HeaderOtherSorted | pyctags/tag_file.py:93-131 | a header for another key leaves the sorted field alone |
| TagFile.HeaderSetsText | pyctags/tag_file.py:104-122 | a text header with a value and a comment sets its field to the value |
| TagFile.HeaderOtherText | pyctags/tag_file.py:124-131 | a header for another key leaves a text field alone |
| TagFile.UnknownHeaderFails | pyctags/tag_file.py:156-159 | a `!` line whose key has no handler fails and leaves the state alone |
| TagFile.BlankLineFails | pyctags/tag_file.py:161 | a line of whitespace is refused as a tag line with too few fields |
| TagFile.CtagsFile.Harvest | pyctags/tag_file.py:165-185 | computes `HarvestSpec`: fails on no tags, else broadcasts `do_before`, each tag, then `do_after` |
| TagFile.CtagsFile.FeedAll | pyctags/tag_file.py:179-182 | feeds every tag to every harvester, tag by tag |
| TagFile.ProjectFeeds | pyctags/tag_file.py:179-182 | a harvester listed once receives every tag exactly once, in order |
| TagFile.Protocol | pyctags/tag_file.py:176-185 | a harvester listed once sees `do_before`, every tag in order, then `do_after` |
| TagFile.HarvestProtocol | pyctags/tag_file.py:165-185 | `harvest` on a non-empty file gives each harvester listed once exactly that protocol after the earlier calls |
| StrOrder.BelowTransitive | pyctags/harvesters.py:131 | string order is transitive |
| StrOrder.BelowTotal | pyctags/harvesters.py:131 | two different strings are ordered one way or the other |
| StrOrder.Sort | pyctags/harvesters.py:130-131 | sorting permutes the list |
| StrOrder.SortSpec | pyctags/harvesters.py:130-131 | sorting distinct strings gives them in ascending order, each once |
| Harvesters.KindRunGroups | pyctags/harvesters.py:72-77 | after a run, each kind's list is its old list followed by the run's entries of that kind, in order |
| Harvesters.KindFeedGroups | pyctags/harvesters.py:72-77 | one entry is appended to its kind's list, and only there |
| Harvesters.KindRunFails | pyctags/harvesters.py:72 | a run fails exactly when some entry has no extension dict |
| Harvesters.KindRunErrorStops | pyctags/harvesters.py:56-59 | once an entry fails, later entries change nothing |
| Harvesters.KindHarvester.constructor | pyctags/harvesters.py:63-64 | a new harvester has no kinds |
| Harvesters.KindHarvester.Feed | pyctags/harvesters.py:66-77 | computes `KindFeed`, leaving the dict alone on error |
| Harvesters.KindHarvester.ProcessTagList | pyctags/harvesters.py:50-59 | computes `KindRun` over the list |
| Harvesters.NamesAfterGroups | pyctags/harvesters.py:97-99 | after a run, each name's list is its old list followed by the run's entries of that name, in order |
| Harvesters.FeedFilesOnce | pyctags/harvesters.py:97-99 | feeding an entry adds it once under its own name and nowhere else |
| Harvesters.ByNameHarvester.constructor | pyctags/harvesters.py:90-91 | a new harvester has no names |
| Harvesters.ByNameHarvester.Feed | pyctags/harvesters.py:93-99 | computes `NamesAfter` for the one entry |
| Harvesters.ByNameHarvester.ProcessTagList | pyctags/harvesters.py:50-59 | computes `NamesAfter` over the list |
| Harvesters.AddNames | pyctags/harvesters.py:120-126 | recording names keeps the unique names free of repeats |
| Harvesters.AddNamesSpec | pyctags/harvesters.py:120-126 | the unique names are the earlier ones plus exactly the names fed |
| Harvesters.NameLookupHarvester.constructor | pyctags/harvesters.py:111-114 | a new harvester has no names and an empty index |
| Harvesters.NameLookupHarvester.Feed | pyctags/harvesters.py:120-126 | records the name as a unique key and changes nothing else |
| Harvesters.DoAfterOutcome | pyctags/harvesters.py:128-142 | the sorted names are the unique names in ascending order, a permutation of them; it fails exactly when there is no name or the empty name is among them, and a failure leaves the index alone |
| Harvesters.PartialStep | pyctags/harvesters.py:136-141 | one pass of the index loop keeps every finished block covering exactly the names with its initial |
| Harvesters.FreshDoAfter | pyctags/harvesters.py:128-142 | from an empty index: the names come out ascending and complete; it fails exactly when no name or the empty name was fed; on success every block covers exactly the names with its initial |
| Harvesters.BuildIndex | pyctags/harvesters.py:133-142 | the index loop computes `IndexAfter` |
| Harvesters.NameLookupHarvester.DoAfter | pyctags/harvesters.py:128-142 | computes `DoAfterSpec` on the unique names and the old index |
| Harvesters.NameLookupHarvester.ProcessTagList | pyctags/harvesters.py:50-59 | records every name, then computes `DoAfterSpec` |
| Harvesters.MatchingMembers | pyctags/harvesters.py:215-226 | the filter keeps exactly the names that match |
| Harvesters.MatchingKeepsOrder | pyctags/harvesters.py:215-226 | the filter keeps ascending order and distinctness |
| Harvesters.CapStops | pyctags/harvesters.py:219-220 | the loop stops at the first point where it has `num_results` matches |
| Harvesters.CapAll | pyctags/harvesters.py:228 | with no limit, or fewer matches than the limit, every match is returned |
| Harvesters.FilterNames | pyctags/harvesters.py:215-228 | the loop computes the matches capped at `num_results` |
| Harvesters.BlockNamesFit | pyctags/harvesters.py:184-190 | the slice of a fitting block is exactly the names with that initial |
| Harvesters.BlockOfFits | pyctags/harvesters.py:184-190 | for an index built by `do_after`, the block of any initial is exactly the names with it |
| Harvesters.MatchingNarrow | pyctags/harvesters.py:215-218 | filtering the initial's block by the whole string is filtering all names by it |
| Harvesters.CaseSensitiveLookup | pyctags/harvesters.py:166-220 | a case-sensitive lookup returns the names that start with the string, capped as the source caps them |
| Harvesters.CaseBlindCandidates | pyctags/harvesters.py:193-207 | the corrected case-blind candidates are distinct and are exactly the names whose initial is the same letter ignoring case |
| Harvesters.IgnoringCaseLookup | pyctags/harvesters.py:181-226 | with the corrected candidates (`StartsWithCorrected`), a case-blind lookup returns, without repeats, exactly the names that start with the string ignoring case, capped |
| Harvesters.IgnoringCaseAsWritten | pyctags/harvesters.py:181-226 | as written, a case-blind lookup gives the corrected result when the initial has two cases, and otherwise that list of matches twice over before the cap |
| Harvesters.CaselessTwice | pyctags/harvesters.py:193-226 | for an initial without case, the as-written lookup sees every candidate twice and so lists every match twice |
| Harvesters.CaselessInitialTwice | pyctags/harvesters.py:193-207 | for the single name `_a`, the blocks as written list it twice under `_`; the corrected candidates list it once |
| Harvesters.CandidatesAgree | pyctags/harvesters.py:177-207 | as written and corrected agree when the search is case-sensitive or the initial has two cases |
| Harvesters.FreshLookup | pyctags/harvesters.py:120-220 | after processing a tag list, a case-sensitive lookup returns in ascending order exactly the fed names that start with the string |
| Harvesters.NameLookupHarvester.StartsWith | pyctags/harvesters.py:144-228 | computes `StartsWithSpec`, the lookup as written, on the sorted names and the index |
| Exuberant.Classify | pyctags/exuberant.py:77-85 | a language line names a non-empty language |
| Exuberant.KindsStep | pyctags/exuberant.py:77-87 | one line keeps the current language a key of the table |
| Exuberant.ExuberantCtags.ProcessKindsList | pyctags/exuberant.py:72-89 | the loop computes `KindsInfo` over the listing |
| Exuberant.KindsErrorStops | pyctags/exuberant.py:80-82 | once a line fails, later lines change nothing |
| Exuberant.KindsFails | pyctags/exuberant.py:80-83 | the listing fails exactly when an indented line under a language does not cut at double spaces into exactly two pieces |
| Exuberant.KindsKey | pyctags/exuberant.py:84-85 | the current language is the last language line read |
| Exuberant.KindsLanguages | pyctags/exuberant.py:84-87 | the table has a language exactly when the listing has a line naming it |
| Exuberant.KindsLastWins | pyctags/exuberant.py:80-83 | the last line for a kind under a language sets its description |
| Exuberant.KindsNoInvention | pyctags/exuberant.py:76-89 | every kind in the table comes from a line of the listing with that description |
| Exuberant.VersionOf | pyctags/exuberant.py:104-108 | the banner is refused exactly when it does not name Exuberant Ctags, ignoring case |
| Exuberant.VersionRoundTrip | pyctags/exuberant.py:104-108 | a banner `Exuberant Ctags <v>, ...` gives back `<v>` |
| Exuberant.ExuberantCtags.QueryTagGenerator | pyctags/exuberant.py:92-117 | computes `QuerySpec` on the two outputs of the program |
| Exuberant.QueryOutcome | pyctags/exuberant.py:99-117 | the query succeeds exactly when the banner and the listing both read; the version is stored as soon as the banner reads, the table only on success, and nothing else changes |
| Exuberant.ExuberantCtags.CtagsExecutable | pyctags/tag_base.py:69-88 | computes `ExecutableSpec`: false for a program that does not start, else the query's outcome |
| Exuberant.ExecutableFrame | pyctags/tag_base.py:69-88 | probing a program changes neither the file list, the program path nor the warnings |
| Exuberant.ExuberantCtags.ChooseProgram | pyctags/exuberant.py:156-167 | computes `ProgramSpec`: `tag_program`, `files`, then the fallback to `ctags` |
| Exuberant.ProgramOutcome | pyctags/exuberant.py:156-167 | on success a program path is set and the file list is the `files` keyword when given |
| Exuberant.MergedOptions | pyctags/exuberant.py:50 | the merged options hold the defaults and the user's keys, the user's value winning, and a default left alone is `-` |
| Exuberant.ExuberantCtags.PrepareToGenerate | pyctags/exuberant.py:142-178 | computes `PrepareSpec` |
| Exuberant.PrepareOutcome | pyctags/exuberant.py:142-178 | `-f` or `-o` is refused first; a success clears the warnings, sets a program, merges the options and lists the files on standard input unless `-L` was passed |
| Exuberant.FileListRoundTrip | pyctags/exuberant.py:173-176 | the standard-input text cut at the separator gives the file names back |
| Exuberant.ArgsFails | pyctags/exuberant.py:133-136 | the conversion fails exactly when some option is named by the empty string |
| Exuberant.ArgsWords | pyctags/exuberant.py:128-140 | with the corrected long option, the command line's words are each option's words in order |
| Exuberant.LongOptionRunsOn | pyctags/exuberant.py:133-135 | as written, `--fields=+n` and a following `-R` run into one word |
| Exuberant.ArgsAsWrittenAgree | pyctags/exuberant.py:128-140 | without a long option, the text as written is the text with a space after every option, whose words `ArgsWords` gives |
| Exuberant.ExuberantCtags.DictToArgs | pyctags/exuberant.py:119-140 | the loop computes the text as written, `ArgsAsWritten` |
| Exuberant.ShortName | pyctags/exuberant.py:209-214 | the short name is a suffix of the program path: from its last `/` when it has one, else from its last `\` when it has one, else the whole path |
| Exuberant.ShortNameOfPath | pyctags/exuberant.py:209-210 | for a path with a `/`, the short name is the last `/` and what follows |
| Exuberant.Positions | pyctags/exuberant.py:216-221 | the indices collected are ascending and are exactly the indices of the warning lines |
| Exuberant.WarningIndices | pyctags/exuberant.py:216-221 | the loop computes `Positions` |
| Exuberant.PopWarnings | pyctags/exuberant.py:224-226 | popping at the indices in descending order leaves the lines that are not warnings and collects the warnings last first |
| Exuberant.FilterPartition | pyctags/exuberant.py:225-226 | kept lines and warnings together are the output lines, kept lines are exactly the non-warnings, warnings exactly the warning lines |
| Exuberant.ExuberantCtags.CollectWarnings | pyctags/exuberant.py:207-228 | on Windows the warnings move from the output, in reverse order, onto the warnings list; elsewhere the warnings are the error output and the output is unchanged |
| Exuberant.ExuberantCtags.constructor | pyctags/exuberant.py:55-70 | a new wrapper has no version, no table, no files, no program and no warnings |
| TagMonster.AddTags | tagmonster.py:32-44 | adding tags keeps the set of scopes |
| TagMonster.AddTagsFacts | tagmonster.py:32-44 | adding tags appends the names that are not ignored to the name list and to the scope's list, and a name's record is that of its last tag |
| TagMonster.KeptMembers | tagmonster.py:33-36 | a name is listed exactly when it is not ignored and some tag has it |
| TagMonster.LastRecordSpec | tagmonster.py:41-44 | a name has a record exactly when it is listed, and the record comes from its last tag |
| TagMonster.LastWithScope | tagmonster.py:23-24 | the last configured tags file with a given scope, or none |
| TagMonster.LoadErrorStops | tagmonster.py:28-30 | once a tags file fails to parse, later tags files change nothing |
| TagMonster.LoadFacts | tagmonster.py:19-44 | after a successful load: the names are every non-ignored name in file order; each record is from the last tag of its name; the scopes are exactly the configured ones, each listing the names of the last tags file with that scope |
| TagMonster.LoadLastScope | tagmonster.py:24 | a tags file replaces its scope's list with its own names |
| TagMonster.LoadClean | tagmonster.py:33-34 | no ignored name reaches the names, the lookup or a scope's list |
| TagMonster.TagMonster.constructor | tagmonster.py:9-12 | a new plugin has an empty index |
| TagMonster.TagMonster.LoadTagFile | tagmonster.py:14-44 | computes `LoadItems` over the configured tags files |
| TagMonster.TagMonster.AddFileTags | tagmonster.py:32-44 | the loop over one file's tags computes `AddTags` |
| TagMonster.Locator | tagmonster.py:103 | the pattern's interior is no longer than the pattern |
| TagMonster.LocatorOfPattern | tagmonster.py:103 | the interior of `/^body$/` is `body` |
| TagMonster.LocatorShort | tagmonster.py:91 | a pattern of four characters or fewer has an empty interior |
| TagMonster.MatchFrom | tagmonster.py:106-108 | the search stops at the first line that starts with the locator, or at the last line |
| TagMonster.FindLine | tagmonster.py:106-108 | the loop finds that line: no earlier line starts with the locator |
| TagMonster.WindowAsWritten | tagmonster.py:118-122 | as written, the window starts `min(5, i)` lines before the match and ends, exclusive, 5 lines after it when more than 5 lines follow, else at the match itself |
| TagMonster.WindowAsWrittenDropsMatch | tagmonster.py:119-122 | as written, when five lines or fewer follow the match the window ends before the matched line |
| TagMonster.PeekAsWrittenShowsNothing | tagmonster.py:99-122 | as written, a match on the first of two lines shows empty context |
| TagMonster.Window | tagmonster.py:118-122 | the corrected window holds the match, up to five lines before and up to five after |
| TagMonster.PeekShowsBoth | tagmonster.py:99-122 | with the corrected window, the same file shows both lines |
| TagMonster.PeekOutcome | tagmonster.py:103-122 | nothing is shown exactly when the search ends on the last line, in particular when nothing matches; otherwise the line found starts with the locator and the window around it is shown |
| TagMonster.PeekAsWrittenOutcome | tagmonster.py:103-122 | as written, nothing is shown exactly when the search ends on the last line, in particular when nothing matches; otherwise the line found is the first starting with the locator, and the lines shown are up to 5 before it and then, only when more than 5 follow it, it and the next 4 |
| TagMonster.TagMonster.PeekAtTag | tagmonster.py:99-122 | computes `PeekAsWritten` on the text of the tag's file |

## Left out

- The Sublime Text layer of `tagmonster.py` is not modelled. This covers
  `open_tag_in_file`, `find_in_view`, the output panel, the commands and
  `sublime.load_settings`. The settings arrive as parameters: the tags
  files and an ignore predicate.
- `write_completion_dict` and `rebuild_tags` are not modelled. They write
  files and run a shell command.
- Subprocess calls are replaced by their outputs, which are parameters:
  - the program's `--version` and `--list-kinds` output, through `Probe`;
  - the generated lines and error lines given to `CollectWarnings`.
  - For the same reason `generate_tags`, `generate_tagfile` and
    `generate_object` are not modelled beyond their preparation and their
    warning filter.
- The ignore regex is a predicate on names. `re.escape` followed by `match`
  is a prefix test on the escaped text.
- File contents, `os.path.abspath`, `dirname`, `join` and `os.linesep` are
  fields of `Env`.
- Python 2's UTF-8 decoding of tag lines is not modelled. Character case
  (`lower`, `upper`, `isdigit`) is ASCII only.
- A repr string given to `ctags_entry` (`eval`) is not modelled. Neither is
  a keyword value of a type other than the one the source documents. Both
  give the `NotModelled` error.
- The message of unsupported versions (exuberant.py:110-111) is not
  modelled, because it only prints.
- The `tags` argument of the `ctags_file` constructor (tag_file.py:53-56)
  is not modelled. `parse` is called on its own, as the plugin does.
- The `tag_program` and `files` keywords of the `exuberant_ctags`
  constructor (tag_base.py:62-66) are not modelled. `ChooseProgram`
  models the same logic as `_prepare_to_generate` uses it.
- `tag_base.py` is modelled only in `ctags_executable`.
- TagMonster.TagMonster.constructor: also sets up `scopeWiseNames`, which
  the source creates only in `load_tag_file`.
- Harvesters.NameLookupHarvester.Len: carries no contract of its own. It
  returns the number of sorted names.
- Harvesters.FeedFilesOnce: states the effect of one entry. The count for
  a whole list follows from `NamesAfterGroups`.
- Harvesters.CaseSensitiveLookup: assumes an index built by `do_after` from
  scratch. The source never clears the index between runs, and a stale
  block would be used as it is.
- The single-name branch of `starts_with` (`first == last + 1`,
  harvesters.py:187-188 and 196-197) cannot be reached from an index
  `do_after` built. The model returns the `SingleNameBlock` error there
  instead of slicing a string.
- TagFile.Protocol: assumes harvester methods never raise. The model
  records each harvester call in a trace and gives it no way to fail, while
  in the source `kind_harvester.feed` on an entry without extensions
  (harvesters.py:72) or `name_lookup_harvester.do_after` with no names or
  an empty name (harvesters.py:134) raises and ends `harvest` or `parse` at
  that call. The harvesters' own failures are modelled on their own, in
  `KindRunFails` and `FreshDoAfter`.
- TagFile.HarvestProtocol: rests on the same assumption as `Protocol`.
- TagFile.ParseEntries: rests on the same assumption as `Protocol`.
- `idxs.sort(reverse=True)` is modelled as the reverse of the ascending
  index list the loop collects.

## Findings

| source | as written | input that shows it | evidently intended | confidence | as-written member | corrected member |
|---|---|---|---|---|---|---|
| pyctags/harvesters.py:193-207 | a case-blind lookup adds the block of `matchstr[0].lower()` and then the block of `matchstr[0].upper()`; for a character without case these are the same block | names `["_a"]`, `starts_with("_")` without case sensitivity gives `["_a", "_a"]` | each name once: take the second block only when the upper-case initial differs from the lower-case one | not executed | Harvesters.CaselessInitialTwice | Harvesters.CaseBlindCandidates |
| pyctags/exuberant.py:133-135 | a long option is written as `k=v` with no space after it | options `--fields: +n` then `-R: ""` give `--fields=+n-R ` | `--fields=+n -R ` | not executed | Exuberant.LongOptionRunsOn | Exuberant.ArgsWords |
| tagmonster.py:118-122 | `context_after` is a boolean `False` (0) when five lines or fewer follow the match, and the slice `lines[i - before:i + after]` stops before line `i + after`, so it drops the matched line in the first case and the fifth following line in the other | file `foo\nbar`, pattern `/^foo$/` shows an empty context; a 20-line file matched at line 10 shows lines 5 to 14, not 5 to 15 | lines `i - min(5, i)` to `i + min(5, length - 1 - i)`, both included | not executed | TagMonster.PeekAsWrittenShowsNothing | TagMonster.PeekShowsBoth |
