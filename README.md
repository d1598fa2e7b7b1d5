# uma-db-alert core, modelled in Dafny

uma-db-alert scrapes trainer records from searches on the Uma Musume global
database site and posts them to a Discord forum channel. In its present form
the runner posts the first record that has a trainer id and a profile link,
then stops. A state module (per-search state files, white-spark
fingerprints and a window of remembered trainer ids) is written but not yet
called by the runner. This project models the parts of the program that
hold logic and not I/O:

- **State of a search** (`utils/state.py`):
  - the canonical search URL and the search key (`_canon_url`, `_search_key`);
  - white-spark label normalisation (`_clean_token`);
  - the order-insensitive white-spark fingerprint (`whites_fingerprint`);
    whitespace after a word and before an opening bracket survives the cleaning, so `Foo ( Bar )` and `Foo(Bar)` give different fingerprints;
  - the fresh state record that `load` returns;
  - `trim_window`, which keeps only the greatest trainer ids.
- **Forum formatter** (`formatters/discord_forum.py`):
  - Markdown escaping (`_escape_md`);
  - chip joining (`_join`);
  - `make_title_and_body`, with its required-field check and conversions.
- **Site options and text helpers** (`source_sites/uma_global.py`):
  - `DEFAULTS`, `PRESETS` and `ALLOWED_KEYS`;
  - the trainer-id extractor (`_first_id_from_href`);
  - the option merge with its type coercions (`_merge_options`);
  - the counter rule of `grab_count`.
- **Discord output** (`outputs/discord.py`):
  - `_clip`;
  - the checks and payload construction at the start of `send`.

Modules:

| file | module | models |
|---|---|---|
| wrappers.dfy | Wrappers | `Option` and `Result` |
| text.dfy | Text | Python `str.strip`, `str.isspace`, ASCII digits, `join`, `replace`, ASCII `lower`, decimal printing and reading |
| values.dfy | PyValues | the dynamic values read from YAML and scraper records: `bool(v)`, `int(v)`, `str(v)`, `d.get(k, default)` |
| sorting.dfy | Sorting | `sorted()` on strings (code-point order) as insertion sort |
| normalize.dfy | Normalize | `_clean_token` |
| fingerprint.dfy | Fingerprint | `whites_fingerprint` |
| state_store.dfy | StateStore | `_canon_url`, `_search_key`, the fresh record of `load`, `trim_window` (a class whose digest map the method rebinds) |
| formatter.dfy | DiscordForum | `_escape_md`, `_join`, `make_title_and_body` |
| uma_global.dfy | UmaGlobal | `DEFAULTS`, `PRESETS`, `ALLOWED_KEYS`, `_merge_options` (imperative methods proved against a functional specification) |
| digit_runs.dfy | DigitRuns | the digit-run searches of `_first_id_from_href` and `grab_count` |
| discord_output.dfy | DiscordOutput | `_clip` and the validation and payload of `send` |

Some of the Python's dependencies are parameters of the model:

- NFKC normalisation is `Normalize.Nfkc`, a function on strings.
- SHA-1 is `Fingerprint.Hash`.
- The process environment read by `send` is a map.
- The creation time of a fresh state record is a string argument.

Python exceptions become the failure side of a `Result`:

- `DiscordForum.FormatError` for `make_title_and_body`;
- `UmaGlobal.OptionsError` for `_merge_options`;
- `DiscordOutput.SendError` for `send`.

## Model

| member | source | states |
|---|---|---|
| Normalize.CleanToken | utils/state.py:32-33 | a missing or empty label cleans to the empty string |
| Normalize.TidyShape | utils/state.py:35-39 | after the replacements and the four substitutions a label has no NBSP, ZWSP or BOM, its only whitespace is single spaces, it has no space at either end, and no space before `,`, `)` or `]` or after `(` or `[` |
| Normalize.CleanTokenShape | utils/state.py:32-40 | every result of `_clean_token`, including the empty one, has that tidy form |
| Normalize.DropBeforeShape | utils/state.py:37-38 | deleting whitespace before the given characters keeps a collapsed text collapsed, leaves no space before them, and keeps the other no-space-before properties |
| Normalize.DropAfterShape | utils/state.py:39 | deleting whitespace after `(` or `[` keeps a collapsed text collapsed, leaves no space after them, and keeps the no-space-before properties |
| Normalize.CollapseFixes | utils/state.py:36 | the whitespace collapse leaves a text alone when it already has only single spaces |
| Normalize.DropBeforeFixes | utils/state.py:37-38 | deleting space before a character changes nothing when no space precedes it |
| Normalize.DropAfterFixes | utils/state.py:39 | deleting space after an opener changes nothing when no space follows one |
| Normalize.TidyFixes | utils/state.py:35-39 | a text already in tidy form passes through the post-NFKC steps unchanged |
| Normalize.TidyIdempotent | utils/state.py:35-39 | the post-NFKC steps are idempotent on every text |
| Normalize.CleanTokenIdempotent | utils/state.py:32-40 | cleaning a cleaned label again changes nothing when NFKC leaves the cleaned label alone |
| Normalize.CleanTokenNotIdempotentInGeneral | utils/state.py:34-35 | an idempotent normaliser exists under which `_clean_token` is not idempotent: the zero-width space deleted after NFKC lets "e" and a combining acute compose on a second pass |
| Normalize.FirstPass | utils/state.py:32-40 | first cleaning of "e", ZWSP, acute gives "e" followed by the combining acute |
| Normalize.SecondPass | utils/state.py:32-40 | cleaning that result again gives the precomposed "é" |
| Normalize.Scrub | utils/state.py:35 | NBSP to a space, ZWSP and BOM deleted; its result is tidy-scrubbed per `TidyShape` |
| Normalize.CollapseFrom | utils/state.py:36 | every whitespace run becomes one space: the result's only whitespace is single plain spaces; `CollapseKeepsText` states that the other characters are kept, in order |
| Normalize.DropSpaceBefore | utils/state.py:37-38 | whitespace runs directly before a character of the set are deleted; properties in `DropBeforeShape` and `DropBeforeFixes` |
| Normalize.DropSpaceAfter | utils/state.py:39 | whitespace runs directly after `(` or `[` are deleted; properties in `DropAfterShape` and `DropAfterFixes` |
| Normalize.Arrange | utils/state.py:36-39 | the collapse, strip and three deletions in the code's order; see `TidyShape` |
| Normalize.Tidy | utils/state.py:35-39 | everything `_clean_token` does after NFKC; `TidyShape`, `TidyFixes` and `TidyIdempotent` state its output form and idempotence, and `TidyKeepsText` states that the label's text survives |
| Text.StripKeepsText | utils/state.py:36 | `strip` removes whitespace only: the non-whitespace characters are those of the input, in order |
| Normalize.CollapseKeepsText | utils/state.py:36 | collapsing whitespace runs keeps the non-whitespace characters, in order |
| Normalize.DropBeforeKeepsText | utils/state.py:37-38 | deleting whitespace before `,`, `)` or `]` keeps the non-whitespace characters, in order |
| Normalize.DropAfterKeepsText | utils/state.py:39 | deleting whitespace after `(` or `[` keeps the non-whitespace characters, in order |
| Normalize.ArrangeKeepsText | utils/state.py:36-39 | steps 3-6 together change whitespace only |
| Normalize.ScrubKeepsText | utils/state.py:35 | the replacements keep every non-whitespace character except ZWSP and BOM, in order (NBSP becomes a space, also whitespace) |
| Normalize.TidyKeepsText | utils/state.py:35-39 | the tidied label's non-whitespace characters are the label's, less ZWSP and BOM, in order; labels that differ there tidy to different tokens |
| Normalize.CleanTokenKeepsText | utils/state.py:32-40 | the same for `_clean_token` after NFKC: labels whose normalised text differs other than in whitespace, ZWSP and BOM clean to different tokens, so their fingerprints count them as different |
| Normalize.SpaceBeforeOpenerKept | utils/state.py:36-39 | no step deletes whitespace before an opening bracket: for words x and y, "x ( y )" tidies to "x (y)", while "x(y)" stays as it is, and the two differ |
| Fingerprint.Kept | utils/state.py:44 | the comprehension keeping non-empty cleaned labels; see `KeptShape`, `KeptConcat`, `KeptPermutation` |
| Fingerprint.Blob | utils/state.py:44-46 | the text that is hashed; see `BlobDecodes`, `BlobEqualIff`, `BlobEmptyIff` |
| Fingerprint.WhitesFingerprint | utils/state.py:42-47 | SHA-1 of the blob; see `FingerprintOrderInsensitive` and `FingerprintIgnoresBlank` |
| Fingerprint.SpacedBracketsDiffer | utils/state.py:42-46 | spacing inside brackets is not cosmetic: for words x and y, "x ( y )" and "x(y)" give the different blobs "x (y)" and "x(y)" |
| Fingerprint.FooBarSpacingMatters | utils/state.py:42-46 | the instance: "Foo ( Bar )" hashes "Foo (Bar)" and "Foo(Bar)" hashes "Foo(Bar)" |
| Fingerprint.KeptShape | utils/state.py:44 | the comprehension keeps no empty token and no more tokens than there are labels |
| Fingerprint.SplitOn | utils/state.py:46 | splitting on the separator yields at least one piece |
| Fingerprint.SplitJoin | utils/state.py:46 | joining tokens free of the separator and splitting them again gives the tokens back |
| Fingerprint.TokensHaveNoSep | utils/state.py:36-44 | no cleaned token holds U+001F, since Python counts it as whitespace and the collapse turns it into a space |
| Fingerprint.JoinedDecodes | utils/state.py:45-46 | reading back a joined list of non-empty, separator-free tokens gives the sorted tokens |
| Fingerprint.JoinedEmptyIff | utils/state.py:46 | the joined text of non-empty tokens is empty iff there are no tokens |
| Fingerprint.BlobDecodes | utils/state.py:42-46 | the hashed text reads back as exactly the sorted list of kept tokens: nothing is lost or merged |
| Fingerprint.KeptConcat | utils/state.py:44 | the comprehension distributes over list concatenation |
| Fingerprint.KeptPermutation | utils/state.py:44 | permuting the labels permutes the kept tokens |
| Fingerprint.FingerprintOrderInsensitive | utils/state.py:42-47 | two label lists that are permutations of each other have the same blob and the same fingerprint |
| Fingerprint.KeptSkipsBlank | utils/state.py:44 | a label that cleans to "" contributes nothing |
| Fingerprint.FingerprintIgnoresBlank | utils/state.py:42-47 | inserting a label that cleans to "" anywhere leaves the fingerprint unchanged |
| Fingerprint.BlobEmptyIff | utils/state.py:42-46 | the blob is empty iff no label survives cleaning, and a missing list is treated as an empty one |
| Fingerprint.BlobEqualIff | utils/state.py:42-46 | two lists give the same blob iff their kept tokens are equal as multisets, in both directions |
| Fingerprint.BlobKeepsDuplicates | utils/state.py:43-46 | duplicates are kept: a label listed twice gives a different blob from the label listed once |
| Sorting.Insert | utils/state.py:45 | inserting into a sorted list keeps it sorted and adds exactly one occurrence |
| Sorting.SortStrings | utils/state.py:45 | `sorted` gives a sorted permutation of its input |
| Sorting.SortedUnique | utils/state.py:45 | two sorted permutations of one multiset are equal |
| Sorting.SortStringsPermutation | utils/state.py:45 | `sorted` depends only on the multiset of its input |
| Sorting.LexLeTotal | utils/state.py:45 | string order is total |
| Sorting.LexLeAntisymmetric | utils/state.py:45 | string order is antisymmetric |
| Sorting.LexLeTransitive | utils/state.py:45 | string order is transitive |
| StateStore.SearchKeyIgnoresPadding | utils/state.py:21-26 | whitespace around the URL does not change the search key, and a missing URL keys like the empty one |
| StateStore.SearchKeyTextInjective | utils/state.py:24-25 | when neither site id contains `|`, equal hashed texts mean equal site ids and equal canonical URLs |
| StateStore.SearchKeyCollision | utils/state.py:24-26 | with a `|` in a site id, the searches (site + "\|", u) and (site, "\|" + u) get the same key |
| StateStore.CanonUrlUnchanged | utils/state.py:21-22 | a URL without whitespace at its ends that NFKC leaves alone is its own canonical form |
| StateStore.CanonUrlIdempotent | utils/state.py:21-22 | canonicalising again changes nothing when NFKC is idempotent and its output has no whitespace at the ends |
| StateStore.CanonUrl | utils/state.py:21-22 | `(u or "").strip()` then NFKC; its properties are stated by `CanonUrlUnchanged`, `CanonUrlIdempotent` and `SearchKeyIgnoresPadding` |
| StateStore.SearchKeyText | utils/state.py:24-25 | the text `site_id + "\|\|" + canonical URL`; `SearchKeyTextInjective` and `SearchKeyCollision` state when it determines the search |
| StateStore.SearchKey | utils/state.py:24-26 | SHA-1 of that text; see `SearchKeyIgnoresPadding` and `SearchKeyCollision` |
| StateStore.CanonUrlNotIdempotentInGeneral | utils/state.py:21-22 | an idempotent normaliser mapping U+00A8 to a space and U+0308 makes `_canon_url` non-idempotent |
| StateStore.SuffixStart | utils/state.py:78 | the start of `xs[-limit:]` never passes the end of the list |
| StateStore.KeepCount | utils/state.py:78 | `sorted(ids)[-limit:]` keeps at most all ids, exactly `limit` when 0 < limit <= n, and all of them when the limit is 0 |
| StateStore.Window | utils/state.py:74-79 | the window is a sub-map of the digests that keeps each kept id's fingerprint |
| StateStore.WindowKeepsGreatest | utils/state.py:78-79 | every kept id sorts after every dropped id |
| StateStore.WindowZeroKeepsAll | utils/state.py:77-78 | a limit of 0 keeps every entry, because `[-0:]` is the whole list |
| StateStore.WindowBySlice | utils/state.py:78-79 | the window is the digest map restricted to the slice `sorted(keys)[-limit:]` |
| StateStore.KeptIffInSlice | utils/state.py:78-79 | an id is in the window iff it is in that slice |
| StateStore.WindowSize | utils/state.py:77-79 | the window holds all entries when they fit, and otherwise exactly as many as the slice keeps; for 0 < limit < n that is `limit` |
| StateStore.SortedIds | utils/state.py:78 | `sorted(d.keys())` is strictly increasing and holds each id once |
| StateStore.SearchState.Fresh | utils/state.py:50-62 | the record `load` creates when there is no state file: version 1, the canonical URL, not seeded, no digests, window 2000, the given creation time, no update time |
| StateStore.SearchState.TrimWindow | utils/state.py:74-79 | the digests become the window of the old digests under the old limit; nothing changes when they fit; the size is the slice's size; a positive limit bounds the size; every other field is unchanged |
| StateStore.DigitOrderMatchesValue | utils/state.py:78 | for ids of equal length, string order is numeric order, so the window keeps the numerically greatest ids |
| StateStore.LeadingDigitDecides | utils/state.py:78 | between equal-length digit strings a smaller leading digit means a smaller number |
| StateStore.WindowPrefersShorterId | utils/state.py:78 | across lengths the heuristic breaks: with limit 1, "999" is kept and "1000" dropped, although 1000 > 999 |
| PyValues.ParseDecimal | formatters/discord_forum.py:50-51 | `int(str(n)) == n` for every integer n |
| DiscordForum.Join | formatters/discord_forum.py:18-19 | `_join`, built from the per-chip escape `EscapeAll`; `JoinReadsBack`, `JoinIgnoresBlank` and `JoinFailsIff` state what it keeps, how it reads back and when it raises |
| DiscordForum.Sparks | formatters/discord_forum.py:55 | the sparks line; cases in `SparksCases` |
| DiscordForum.Title | formatters/discord_forum.py:55-60 | the title; shape in `TitleShape` |
| DiscordForum.BodyText | formatters/discord_forum.py:63-68 | the four labelled lines and the link, before the strip; see `BodyShape` |
| DiscordForum.MakeTitleAndBody | formatters/discord_forum.py:21-71 | `make_title_and_body`; `MakeTitleAndBodyOfRecord` states when it gives a post and ties the title and body to the record's values, `WellFormedRecordPosts` that a well-formed record always gives one, and `ReadFields` its errors |
| DiscordForum.EscapeMd | formatters/discord_forum.py:6-16 | escaping never shortens a text, never starts the result with a special character, leaves a text without specials unchanged, and keeps the last character |
| DiscordForum.EscapedSpecialsPreceded | formatters/discord_forum.py:6-16 | every special character after the start of an escaped text is preceded by a backslash |
| DiscordForum.UnescapeEscape | formatters/discord_forum.py:6-16 | escaping is invertible: removing the backslash before each escaped character gives the original text |
| DiscordForum.ChipTextsStripped | formatters/discord_forum.py:19 | the chips `_join` keeps are non-empty and already stripped |
| DiscordForum.ChipTextsConcat | formatters/discord_forum.py:19 | chip selection distributes over list concatenation, and a failure on either side is a failure of the whole |
| DiscordForum.JoinIgnoresBlank | formatters/discord_forum.py:19 | a falsy item or a whitespace-only string is skipped wherever it sits |
| DiscordForum.JoinFailsIff | formatters/discord_forum.py:19 | `_join` raises iff some item is truthy but not a str |
| DiscordForum.SplitBar | formatters/discord_forum.py:19 | splitting on " \| " yields at least one piece |
| DiscordForum.SplitBarJoin | formatters/discord_forum.py:19 | joining separable pieces with " \| " and splitting again gives the pieces back |
| DiscordForum.EscapedSeparable | formatters/discord_forum.py:16-19 | in an escaped, stripped, non-empty chip every `\|` follows a backslash and the chip does not end in a space, so the " \| " separator can be neither inside it nor straddle its end |
| DiscordForum.JoinReadsBack | formatters/discord_forum.py:18-19 | splitting a joined chip line and un-escaping the pieces (`UnescapeAll`) gives exactly the stripped chips; the line is empty iff there are none |
| DiscordForum.MissingFrom | formatters/discord_forum.py:39-41 | the missing list holds exactly the required keys absent from the record, and no more entries than there are required keys |
| DiscordForum.MissingFromInOrder | formatters/discord_forum.py:41 | the missing keys keep the order of the required list: a single key is listed iff absent, and the list for a concatenation is the concatenation of the lists |
| DiscordForum.Convert | formatters/discord_forum.py:45-52 | a conversion fails only as a bad value of a required field; `r.get` is modelled by `PyValues.Get`; `ConvertOrder` states when it succeeds and what it gives |
| DiscordForum.ConvertOrder | formatters/discord_forum.py:45-52 | the conversions succeed iff every field converts (`str` of the trainer id, `_join` of the four lists, `int` of the two counts, `.strip()` of the link); a failure names the first field in `required` order that does not convert; on success the fields are the stripped `str(trainer_id)`, the joined lists, the `int` counts and the stripped `id_url` |
| DiscordForum.ReadFields | formatters/discord_forum.py:39-52 | the missing-fields error happens iff some required key is absent and names exactly those keys, listed as the missing-key filter lists them (in required order); any other error names a present required key; with no key missing, it is `Convert`, so `ConvertOrder` gives its successes |
| DiscordForum.SparksCases | formatters/discord_forum.py:55 | the sparks are blue " \| " pink, only the non-empty one, or empty iff both are empty |
| DiscordForum.TitleShape | formatters/discord_forum.py:55-60 | the title is the trainer id, the sparks when non-empty, and "White w \| G1 g", joined by " — " |
| DiscordForum.BodyShape | formatters/discord_forum.py:63-69 | the body is the four labelled lines and the link with trailing whitespace removed, and exactly that text when the link does not end in whitespace |
| DiscordForum.MakeTitleAndBodyShape | formatters/discord_forum.py:21-71 | `make_title_and_body` fails exactly when reading the fields fails, with the same error, and otherwise returns that title and body |
| DiscordForum.MakeTitleAndBodyOfRecord | formatters/discord_forum.py:21-71 | a post is returned iff every required key is present and every field converts; its title is the stripped `str(trainer_id)`, the blue and pink chips when any, and `White {white_count} \| G1 {g1_count}` joined by " — "; its body is the four labelled chip lines, a blank line and the stripped `id_url`, with trailing whitespace stripped |
| DiscordForum.WellFormedRecordPosts | formatters/discord_forum.py:21-71 | a record with a str trainer id and link, four lists of str and two int counts always gives a post |
| UmaGlobal.Layered | source_sites/uma_global.py:49-62 | the options before coercion; `MergePrecedence` and `MergeKeys` state its content |
| UmaGlobal.Coerce | source_sites/uma_global.py:64-67 | the four coercions in order; see `CoerceShape`, `CoerceMode`, `CoerceKeeps` |
| UmaGlobal.MergeSpec | source_sites/uma_global.py:41-68 | what `_merge_options` returns; see `CoercedTypes`, `MergePrecedence`, `EmptySearchGetsDefaults` |
| UmaGlobal.SwitchesListed | source_sites/uma_global.py:10-24 | the allowed keys are the keys of `DEFAULTS`, and every preset sets only allowed keys |
| UmaGlobal.UpdateFrom | source_sites/uma_global.py:57-62 | the override loop gives the old options overlaid with the allowed entries of the source (`Pick`); `UnknownKeysIgnored` and `UnknownBlockKeysIgnored` state that the other entries have no effect |
| UmaGlobal.LayerOptions | source_sites/uma_global.py:49-62 | the imperative layering equals the specification: defaults, preset, options block, search |
| UmaGlobal.CoerceTypes | source_sites/uma_global.py:64-67 | the imperative coercion equals the specification of the four coercions |
| UmaGlobal.MergeOptions | source_sites/uma_global.py:41-68 | `_merge_options` equals its specification, failures included |
| UmaGlobal.PresetLayerKeys | source_sites/uma_global.py:19-55 | a preset layer sets only allowed keys |
| UmaGlobal.MergeKeys | source_sites/uma_global.py:41-68 | the merged options hold exactly the allowed keys, before and after coercion |
| UmaGlobal.MergePrecedence | source_sites/uma_global.py:49-62 | for each allowed key the search entry wins, then the options block, then the preset, then the default |
| UmaGlobal.CoerceShape | source_sites/uma_global.py:64-66 | after coercion `max_pages` is an int equal to `int()` of the old value, and `headless` and `verbose` are the truthiness of theirs |
| UmaGlobal.CoerceMode | source_sites/uma_global.py:67 | after coercion `mode` is the lower-cased `str()` of the old value and holds no upper-case letter |
| UmaGlobal.CoerceKeeps | source_sites/uma_global.py:64-67 | coercion adds only the four coerced keys and leaves every other entry as it was |
| UmaGlobal.UncoercedKeys | source_sites/uma_global.py:64-67 | `search_timeout_ms` and `settle_ms` come through the merge uncoerced |
| UmaGlobal.CoercedTypes | source_sites/uma_global.py:64-67 | the merged options have an int page count, boolean switches and a lower-case mode str, each derived from the layered value |
| UmaGlobal.SearchPresetWins | source_sites/uma_global.py:51-53 | a preset on the search entry overrides any preset in its options block |
| UmaGlobal.UnknownPresetIgnored | source_sites/uma_global.py:54-55 | a preset name that is not a str or not a key of `PRESETS` (and is hashable) adds no layer: the result is defaults, options block and search alone |
| UmaGlobal.UnknownKeysIgnored | source_sites/uma_global.py:60-62 | a search key outside the allowed set, other than `options` and `preset`, has no effect on the result |
| UmaGlobal.UnknownBlockKeysIgnored | source_sites/uma_global.py:57-59 | an options-block key outside the allowed set, other than `preset`, has no effect |
| UmaGlobal.EmptySearchGetsDefaults | source_sites/uma_global.py:41-68 | an empty search merges to exactly `DEFAULTS` |
| UmaGlobal.DefaultsAreCoerced | source_sites/uma_global.py:10-17 | the defaults already have the coerced types |
| DigitRuns.FirstRun | source_sites/uma_global.py:29-35 | `re.search(r"(\d{n,})", s)` and its group; see `FirstRunShape` |
| DigitRuns.FirstIdFromHref | source_sites/uma_global.py:31-35 | `_first_id_from_href`; see `FirstIdShape` |
| DigitRuns.CountFromText | source_sites/uma_global.py:124-125 | `grab_count`'s rule; see `CountFromTextShape` |
| DigitRuns.RunEnd | source_sites/uma_global.py:29 | the end of a digit run is within the text, everything before it is a digit, and the next character, if any, is not |
| DigitRuns.ScanRun | source_sites/uma_global.py:29-34 | a found start lies inside the text and at or after the scan start |
| DigitRuns.ScanRunLeftmost | source_sites/uma_global.py:29-34 | the scan finds a match iff some position starts enough digits, and it finds the leftmost such position |
| DigitRuns.FirstRunShape | source_sites/uma_global.py:29-35 | `re.search` finds nothing iff no position starts enough digits; otherwise the match is the whole maximal digit run at the leftmost such position and has at least the minimum length |
| DigitRuns.FirstIdShape | source_sites/uma_global.py:31-35 | a missing or empty link gives no id; an id is all digits and at least six long; a link gives no id iff no six digits appear in a row |
| DigitRuns.CountFromTextShape | source_sites/uma_global.py:119-125 | a counter without digits reads 0; otherwise it reads the value of the first digit run once the commas are removed |
| DiscordOutput.Clip | outputs/discord.py:9-12 | `_clip`; see `ClipShape` and `ClipIdempotent` |
| DiscordOutput.ClipShape | outputs/discord.py:9-12 | a text that fits is unchanged; a longer one becomes its first `max(0, n-1)` characters and an ellipsis; the result is at most `max(n, 1)` long; `None` clips to "" |
| DiscordOutput.ClipIdempotent | outputs/discord.py:9-12 | clipping twice to one limit is clipping once, except for `None` under a negative limit, which becomes a lone ellipsis |
| DiscordOutput.Send | outputs/discord.py:14-37 | reading `settings` through `PyValues.Get` (`dict.get`), the checks in the code's order, each failure exactly when its condition is the first to hold: a channel kind other than "forum", then a `webhook_env` that is not a str, then a missing or empty webhook (naming the variable), then a `max_chars` that `int` refuses; it succeeds iff none holds; on success the webhook is non-empty, the title is clipped to 96 and the body to `min(max_chars, 2000)`, both fit those limits, and `applied_tags` is copied iff present |

## Left out

- Browser scraping is not modelled. This covers everything in `source_sites/uma_global.py` that drives Playwright: `open_search`, `_parse_chips_and_counts` (with `grab_list` and the DOM reads of `grab_count`), `scrape_page_first`, `go_next_page` and `scrape`, and also `_log`. Only the text rule of `grab_count` is modelled, as `DigitRuns.CountFromText`.
- File and clock I/O in `utils/state.py` is not modelled: `state_dir`, `state_path`, the JSON read of `load`, `save`, and the timestamps. The creation time is a parameter of `StateStore.SearchState.Fresh`.
- NFKC normalisation and SHA-1 are parameters, not implementations. The properties are stated for any normaliser (idempotent where a lemma needs it) and on the text that is hashed.
- The network side of `send` is not modelled: the webhook POST, the 429 retry with `Retry-After` and `sleep`, `raise_for_status`, and the dry-run printout. The model stops at the request `send` would make.
- orchestrator.py, with its `run` that posts the first record through the outputs, and source/uma_global.py are not part of this model.
- The program has no seeding, result-cap or selection step. The `seeded` flag that `load` puts into a fresh record (utils/state.py:57) is modelled, and no code reads it.
- `\d`, `str.isdigit` and `str.lower` are modelled on ASCII only. Python also accepts other Unicode decimal digits and lower-cases non-ASCII letters.
- `str()` of a list or dict is not rendered. `PyValues.StrOf` gives no value for them, so a list-valued `trainer_id` or `mode` is an error in the model, where Python would succeed with its repr.
- `int()` is modelled for bools, ints and plain decimal strings. Underscores in digit strings, other bases and floats (`int(2.5)`) are not modelled.
- `_join` over a dict iterates its keys in Python. The model treats a dict-valued chip list as an error.
- A non-mapping `options` block raises different exceptions in Python, depending on its value. The model folds them into one `OptionsNotMapping` error, and an unhashable preset name into `PresetUnhashable`.
- Python exception types and messages are reduced to the error datatypes.
- Normalize.CleanTokenIdempotent: proved only under the hypothesis that NFKC leaves the cleaned label unchanged, because `Normalize.CleanTokenNotIdempotentInGeneral` shows it fails without one.
- StateStore.SearchState.Limit: the stored `window_limit` is an optional int. The model does not cover `int()` of a stored string or float (`"500"`, `500.0`), nor the `TypeError` that a stored `null` raises.
- Fingerprint.Blob: labels are optional strings. The `TypeError` that `unicodedata.normalize` raises on a truthy label that is not a str (a number, a list) is not modelled.
- StateStore.CanonUrlIdempotent: proved only when NFKC's output has no whitespace at its ends, because `StateStore.CanonUrlNotIdempotentInGeneral` shows it fails otherwise.
- DiscordOutput.ClipIdempotent: holds except for `None` under a negative limit, where the second clip differs.
- DiscordOutput.Send: defaults `max_chars` to 2000 as the code does. The docstring of `send` says 1800.
- StateStore.SearchState.TrimWindow: the model always has a digest map. Python's `st.get("digests", {})` only matters when the record lacks one.
