# TVClub XMLTV grabber, modelled in Dafny

This project models the listing transform of `tv_grab_fr_tvclub.py`. The
grabber takes the TVClub feed, a `tv` document of `channel` and
`programme` elements, and builds an XMLTV listing from it:

- the channels selected by the user come first, in feed order;
- then come the programmes that overlap the requested day window, with
  duplicates removed (the first occurrence wins);
- each kept programme gets its Windows-1252 characters repaired, its texts
  stripped, a `lang="fr"` marker on `sub-title` and `desc`, and an ETSI
  EN 300 468 genre inserted just before its own `category`.

The model also covers:

- the channel catalogue built from the feed;
- the `channel=<id>` configuration file, both the regular-expression reader
  and the writer;
- the interactive selection rule of `_configure`.

Modules, one per component:

| module | file | component |
|---|---|---|
| `Wrappers` | wrappers.dfy | `Option` |
| `Text` | text.dfy | Python's `str.strip` |
| `Cp1252` | cp1252.dfy | `_WINDOWS_1252_UTF_8`, `_fix_windows_1252` |
| `Categories` | categories.dfy | `_ETSI_PROGRAM_CATEGORIES`, `_etsi_category` |
| `Dates` | dates.dfy | stamp dates as ordinal day numbers, the span clamp, the day window |
| `Tree` | tree.dfy | elements |
| `FixUp` | fixup.dfy | `_update_program_xmltv` |
| `ProgrammeKey` | key.dfy | `_get_program_id` |
| `Catalogue` | catalogue.dfy | `_retrieve_available_channels` |
| `Listing` | listing.dfy | `_get_xmltv_data` |
| `Config` | config.dfy | `_read_configuration` / `_write_configuration` |
| `Configure` | configure.dfy | `_configure` |

In `Tree`, a `programme` is a class, `ProgrammeNode`, because the grabber
edits it in place. Every other element is a value.

Programme nodes are edited in place and the listing is built by loops, so
those parts are methods with loop invariants:

- `FixUp.UpdateProgramme`
- `Listing.Grabber.GetXmltvData` and its loops
- `Catalogue.RetrieveAvailableChannels`
- `Config.ReadConfiguration` / `Config.WriteConfiguration`
- `Configure.Configure`

Each of these is proved against a specification function: `Fixed`,
`Run` / `Listed`, `IsCatalogueOf`, `ConfigIds` / `Written`, `Choose`.
The properties the grabber relies on are then proved about those functions.

Behaviour worth knowing:

- The repair table has 27 entries.
- The clamped span `min(5 - offset, 5)` is negative when `offset > 5`.
- A window whose last day falls before its first day still lets through a
  programme that spans it (`Dates.EmptyWindowCanPass`).
- The configuration reader keeps trailing white space in an id. The
  `(.+)` group is greedy, so the `\s*` before `$` only takes the newline.
- Duplicates are detected on the feed's key, taken before the clean-up.
  Two programmes whose titles differ only in trailing white space are both
  kept, and both leave with the same cleaned title, so the listing can hold
  two programmes with the same channel, start, stop and title
  (`Listing.CleanedKeysCanCollide`).
- Date arithmetic on the window raises `OverflowError` when its first or
  last day falls outside years 1 to 9999. The grabber then returns no
  document.

## Model

| member | source | states |
|---|---|---|
| Text.Strip | tv_grab_fr_tvclub.py:157 | the result is the input without its leading and trailing white space; what is removed is all white space, and the result neither starts nor ends with white space |
| Text.StripIdempotent | tv_grab_fr_tvclub.py:164 | stripping twice is stripping once |
| Cp1252.KeysAreC1 | tv_grab_fr_tvclub.py:58-86 | every key of the repair table is a C1 code point (U+0080..U+009F) |
| Cp1252.RepairChar | tv_grab_fr_tvclub.py:146 | a repaired character is never a table key, and a character outside the table is left unchanged |
| Cp1252.Repair | tv_grab_fr_tvclub.py:143-146 | same length; character i is the table value when input character i is a key, otherwise unchanged; the result holds no key |
| Cp1252.RepairKeyFree | tv_grab_fr_tvclub.py:143-146 | a text holding no key is left unchanged |
| Cp1252.RepairIdempotent | tv_grab_fr_tvclub.py:154-166 | repairing twice is repairing once, so the second repair of `desc` changes nothing |
| Cp1252.RepairAppend | tv_grab_fr_tvclub.py:146 | repair works character by character: repairing a concatenation is concatenating the repairs |
| Categories.EtsiCategory | tv_grab_fr_tvclub.py:132-141 | `None` exactly for a label outside the 7-entry table; a found value is `""` or one of the ETSI genre names |
| Categories.EmptyGenreOnlyForEmission | tv_grab_fr_tvclub.py:47-55 | the empty genre is given for `Emission` and only for it |
| Categories.FictionLabels | tv_grab_fr_tvclub.py:48-54 | `Cinéma`, `Série` and `Téléfilm` all map to `Movie / Drama` |
| Dates.ClampDays | tv_grab_fr_tvclub.py:197-202 | the span is unchanged when `days + offset <= 5`; otherwise it shrinks, to 5 or to `5 - offset`, and `days + offset` becomes at most 5 |
| Dates.DayWindow | tv_grab_fr_tvclub.py:225-227 | the window starts at `today + offset` and spans the clamped number of days |
| Dates.OverlapsIffCommonDay | tv_grab_fr_tvclub.py:240 | for a non-empty window and start ≤ stop, the pass test holds exactly when some day from start to stop lies in the window |
| Dates.EmptyWindowCanPass | tv_grab_fr_tvclub.py:197-240 | with `days = 1, offset = 6` the window is empty, yet a programme from day 4 to day 6 passes the test |
| Dates.WindowBounded | tv_grab_fr_tvclub.py:197-202 | for `offset >= 0` the window never reaches past `today + 4` |
| Dates.TenDaysIsFive | tv_grab_fr_tvclub.py:197-202 | asking for 10 days from today gives the same window as asking for 5 |
| Dates.OrdinalNextDay | tv_grab_fr_tvclub.py:232-239 | consecutive calendar dates have consecutive day numbers, across month and year ends |
| Dates.DaysInYear | tv_grab_fr_tvclub.py:232-239 | the day numbers of 1 January of consecutive years differ by the length of the first year |
| Dates.YearLength | tv_grab_fr_tvclub.py:232-239 | a year has 366 days when it is a leap year and 365 otherwise |
| Dates.DateRange | tv_grab_fr_tvclub.py:225-227 | 1 January of year 1 is day 1 and 31 December 9999 is day 3652059, the bounds of a Python date |
| Dates.OrdinalBounds | tv_grab_fr_tvclub.py:232-239 | every valid calendar date has a day number within those bounds |
| Dates.DayOf | tv_grab_fr_tvclub.py:232-239 | the date of a well-formed stamp is a day a Python date can hold |
| ProgrammeKey.Key | tv_grab_fr_tvclub.py:180-189 | the key is the channel, start, stop and title joined by `|`: its length is theirs plus 3, it starts with the channel and a `|`, and ends with a `|` and the title |
| ProgrammeKey.KeyInjective | tv_grab_fr_tvclub.py:180-189 | when the stamps are well formed and the channel holds no `|`, equal keys mean equal channel, start, stop and title |
| Tree.Find | tv_grab_fr_tvclub.py:155 | `find` gives the first child with the tag, or none when no child has it |
| Tree.FindText | tv_grab_fr_tvclub.py:189 | `findtext(tag, '')`: `''` when no child has the tag; otherwise the text of the child that has the tag with no earlier child having it, or `''` when that child has no text |
| FixUp.CleanupIdempotent | tv_grab_fr_tvclub.py:157-164 | a repaired and stripped text holds no key, and cleaning it again changes nothing |
| FixUp.FixedTextChild | tv_grab_fr_tvclub.py:154-166 | each present `title`, `sub-title`, `desc` is still found first after the fix-up, its text is `strip(repair(original))`, `sub-title` and `desc` gain `lang="fr"`, `title` keeps its attributes, and tag and children stay the same |
| FixUp.FixedNoNewTextChild | tv_grab_fr_tvclub.py:154-166 | an absent `title`, `sub-title` or `desc` stays absent |
| FixUp.FixedCategory | tv_grab_fr_tvclub.py:168-178 | without a genre the children keep their number; with one, exactly one genre element sits at the original category's index, the original right after it, and the genre is now the first `category` |
| FixUp.FixedKeepsOtherChildren | tv_grab_fr_tvclub.py:148-178 | every other child is kept unchanged, moved one place on when the genre was inserted before it |
| FixUp.CategoryOutcomes | tv_grab_fr_tvclub.py:132-178 | a warning means no genre and a label outside the table; `Emission` inserts nothing and warns nothing; an empty label does neither |
| FixUp.CleanTexts | tv_grab_fr_tvclub.py:154-159 | the loop over the three text tags leaves the attributes alone and leaves the children as the loop stage after all three tags |
| FixUp.DescStep | tv_grab_fr_tvclub.py:161-166 | the second pass over `desc` gives the same text as the loop did and adds `lang="fr"`, which completes the text clean-up |
| FixUp.UpdateProgramme | tv_grab_fr_tvclub.py:148-178 | the programme's children become `Fixed` of the old ones, its attributes are unchanged, and the returned warning is the unknown category label |
| Catalogue.Put | tv_grab_fr_tvclub.py:121 | a dictionary store: a known id keeps its place and takes the new name, a new id is appended; ids stay distinct |
| Catalogue.PutStep | tv_grab_fr_tvclub.py:116-121 | storing the next qualifying pair keeps the catalogue invariant |
| Catalogue.RetrieveAvailableChannels | tv_grab_fr_tvclub.py:109-123 | the result is the catalogue of the channels that have both an id and a display name: distinct ids in first-occurrence order, each with its last display name |
| Catalogue.PairsOf | tv_grab_fr_tvclub.py:117-121 | the pairs considered are exactly the (id, name) of the qualifying channels |
| Catalogue.CatalogueIds | tv_grab_fr_tvclub.py:109-123 | an id is in the catalogue exactly when some channel has that id and a display name |
| Listing.RootAttrs | tv_grab_fr_tvclub.py:204-216 | the root has the three source attributes with their constants, and the generator attributes exactly when they were given |
| Listing.ClampWarnings | tv_grab_fr_tvclub.py:197-202 | one "up to 5 days" warning exactly when the span is clamped |
| Listing.Selected | tv_grab_fr_tvclub.py:218-221 | the selected channels are exactly those whose id is in the selection, increasing, so in feed order |
| Listing.SelectChannels | tv_grab_fr_tvclub.py:218-221 | the loop appends exactly the selected channels, in feed order |
| Listing.Passes | tv_grab_fr_tvclub.py:240 | a programme passes exactly when its stop day is not before the first day and its start day not after the last; for a programme that does not end before it starts and a non-empty window, that is exactly when one of its days lies in the window |
| Listing.KeptIndices | tv_grab_fr_tvclub.py:228-250 | the kept programmes among the first n are exactly those that pass the window test and have no earlier passing programme with the same key, in source order |
| Listing.KeptKeysDistinct | tv_grab_fr_tvclub.py:243-247 | the feed keys of the kept programmes, taken before the clean-up, are pairwise distinct |
| Listing.CleanedKeysCanCollide | tv_grab_fr_tvclub.py:243-250 | two programmes titled `A` and `A ` with the same channel and stamps inside the window are both kept, and after the clean-up their keys are equal |
| Listing.KeptCover | tv_grab_fr_tvclub.py:243-247 | every programme that passes the window test has a kept programme with its key at or before it |
| Listing.DuplicateTest | tv_grab_fr_tvclub.py:244-246 | for a passing programme, "its key is among the kept keys so far" is exactly "it is not kept" |
| Listing.ProgrammeWarnings | tv_grab_fr_tvclub.py:137-139 | every programme warning names a non-empty category outside the table |
| Listing.Reached | tv_grab_fr_tvclub.py:228-250 | the first programme at which the loop raises (a stamp that does not parse, or a missing text in a kept programme), or the end when none does |
| Listing.Listed | tv_grab_fr_tvclub.py:228-250 | the programmes appended are exactly the kept ones before the raise point, in source order |
| Listing.RunMeaning | tv_grab_fr_tvclub.py:228-250 | after n programmes the loop state holds the keys of the kept programmes, the kept indices, their warnings, and the raise point if one was met |
| Listing.RunComplete | tv_grab_fr_tvclub.py:228-250 | the full run succeeds exactly when no programme raises, and keeps `Listed` with its warnings |
| Listing.Visit | tv_grab_fr_tvclub.py:232-249 | one programme turn: raise, skip (outside the window or a seen key), or keep it, fix it up in place and report its key and warning |
| Listing.ListProgrammes | tv_grab_fr_tvclub.py:223-250 | the programme loop succeeds exactly when the run does, appends the kept programmes, returns their warnings, and leaves exactly those programmes fixed up |
| Listing.Grabber.constructor | tv_grab_fr_tvclub.py:88-94 | the grabber keeps the feed and the generator data, and its channels are the catalogue of the feed |
| Listing.Grabber.GetXmltvData | tv_grab_fr_tvclub.py:191-252 | with `channels_only`, the root with the selected channels and no programme change; otherwise a document exactly when no programme raises, holding the selected channels and then the listed programmes, with the clamp warning and the category warnings, and exactly the listed programmes fixed up; no document and no programme change when the window's first or last day is not a date Python can hold |
| Config.Header | tv_grab_fr_tvclub.py:359 | when `^\s*channel\s*=` matches, the returned position is just past the `=` and the line splits there as the pattern says |
| Config.GroupFrom | tv_grab_fr_tvclub.py:359 | a found group is preceded by white space, holds no newline and is followed by white space only |
| Config.ParseLine | tv_grab_fr_tvclub.py:359-361 | a matched id is non-empty, holds no newline, and is shorter than the line by at least the length of `channel=` |
| Config.MatchSound | tv_grab_fr_tvclub.py:359-361 | a match splits the line as the whole pattern says, and the id is the group |
| Config.MatchFirst | tv_grab_fr_tvclub.py:359 | any split the pattern allows means the line matches, and the group chosen starts no earlier, or at the same place and ends no earlier (the backtracking engine's preference) |
| Config.TrailingSpaceKept | tv_grab_fr_tvclub.py:359-361 | white space after an id on a written line is part of the id read back |
| Config.LinesJoined | tv_grab_fr_tvclub.py:358 | the lines the file iterator yields put back together give the file |
| Config.LinesShape | tv_grab_fr_tvclub.py:358 | each line is non-empty and holds a newline only as its last character, and every line but the last ends with one |
| Config.ReadConfiguration | tv_grab_fr_tvclub.py:353-363 | the ids are the groups of the matching lines, in file order; other lines are ignored |
| Config.WriteConfiguration | tv_grab_fr_tvclub.py:366-375 | the file is one `channel=<id>` line per id, in order |
| Config.ConfigLineParses | tv_grab_fr_tvclub.py:359-375 | a written line reads back as its id, when the id is non-empty, starts with no white space and holds no `\n` |
| Config.LinesOfWritten | tv_grab_fr_tvclub.py:358-375 | a written file splits back into its written lines |
| Config.RoundTrip | tv_grab_fr_tvclub.py:353-375 | writing ids and reading the file back gives the same ids, when each reads back as its line and holds no `\r` either, which Python's universal newlines would take for a line end |
| Configure.Answers | tv_grab_fr_tvclub.py:392-403 | the accepted answers are stripped, and each is a choice or empty |
| Configure.Ask | tv_grab_fr_tvclub.py:392-403 | the prompt reads lines until one strips to a choice, and fails when the input runs out first |
| Configure.ChooseAll | tv_grab_fr_tvclub.py:404-407 | once `all` is answered every remaining channel is selected |
| Configure.ChooseNone | tv_grab_fr_tvclub.py:405-407 | once `none` is answered no remaining channel is selected |
| Configure.ChooseIsReference | tv_grab_fr_tvclub.py:389-407 | the step-by-step selection equals the closed form: the `yes` channels before the first `all`/`none`, then all remaining channels after `all`; it fails only when there are fewer answers than channels to decide |
| Configure.Configure | tv_grab_fr_tvclub.py:378-413 | the selection is that closed form, and the written file lists it, exactly when the input does not run out |
| Configure.SelectionFromCatalogue | tv_grab_fr_tvclub.py:389-407 | only catalogue ids are selected |

## Left out

- Fetching and parsing the feed (`_get_programs`, urllib, lxml) is not modelled. The parsed feed is a given `Feed` value.
- XML serialisation and pretty-printing in `write_xmltv` are not modelled. The listing is returned as a `Document` value.
- lxml's move-on-append is not modelled. Appending a feed element to the root moves it out of `self._xmltv`. The model reads the feed as an unchanging snapshot and builds fresh node sequences.
- `datetime.date.today()` is the parameter `today`, a day number, read once. The grabber calls it twice, for the first and the last day; if midnight passes between the calls, its last day is one later than `today + offset + span - 1`, and the model does not capture that.
- Dates.StampOk: only the exact `YYYYMMDDHHMMSS ±HHMM` form of `strptime` is accepted, with a single space and a four-digit offset. The model raises on every other form, including ones Python parses: the other offsets `%z` accepts (`Z`, `+HH:MM`, offsets with seconds), a run of white space in place of the format's space, and fields written with fewer digits. The date is the stamp's own calendar date.
- Logging is a returned sequence of `Warning` values, in the order the grabber logs them. Debug messages and log levels are left out.
- Exceptions are the `None` document. A kept programme whose `title`, `sub-title` or `desc` has no text raises `TypeError`, because the repair iterates over `None`. One whose `category` has no text raises `AttributeError` at `None.strip()`. A stamp that does not parse raises too.
- Listing.Visit: when a kept programme lacks a text, the model raises before it changes anything. Python may already have edited an earlier text child by then.
- The command line is not modelled: `_parse_cli_args`, the `_print_*` helpers, `_main` and `sys.exit`.
- File and OS effects are not modelled: `open`, `os.mkdir` and path handling. Files are their text as a string.
- Config.ReadConfiguration: the file is split at `\n`. Universal-newline translation of `\r\n` and `\r` is not modelled.
- Configure.Configure: the prompt strings and the messages on stderr are not modelled. `input()` is a sequence of lines, and running out of lines stands for the `EOFError`.
