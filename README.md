# A verified model of the KSU podcast editor's core and the Suno prompt helpers

This project models two small Python packages in Dafny.

**KSU podcast editor.** It takes a transcribed recording (segments of timed words) through three steps:
- the **analyzer** finds multi-word filler phrases, single-word fillers and immediate word repetitions, and returns edit decisions sorted by start time;
- the **editor** cuts the decided time ranges out of the audio, the latest start first, and joins the two sides of each cut with a crossfade when both are long enough;
- the **results writer** (`_save_results`) labels every word with the reason of the decision that has exactly its start and end, and writes JSON, CSV or a plain-text report, chosen by the output file's suffix.

**Suno MCP server.** Two of its helpers are modelled:
- the **prompt generator** fills missing settings from a conversation analysis and joins mood, up to three themes, style and the instrumental flag into a prompt;
- the **downloader** chooses the output directory and the file name of a downloaded track.

Times are whole milliseconds throughout. The audio is one sample per millisecond, so decision times index the sample sequence directly.

Modules, one per file:
- `Wrappers` holds `Option`.
- `Text` holds the Python string operations used: `lower`, `strip`, `split`, `join`, `endswith`, `in`, `str(n)` and `split(sep)`.
- `Models` holds the records.
- `Ordering` holds Python's stable sort as a stable insertion sort, with its sortedness, permutation and stability lemmas.
- `Normalization` models `_normalize`.
- `Detector` holds the analyzer: the specification functions and the `analyze` method with its loops.
- `DetectorProperties` and `DetectorExamples` prove properties of the analyzer and two worked cases: overlapping phrases, and a Russian sample with fillers, a filler phrase and a repetition.
- `Editing` models the editor.
- `Report` models `_save_results`.
- `PromptGenerator` models the prompt generator.
- `Downloader` models the downloader's naming rules.

The analyzer's and the editor's loops are Dafny methods. Each method is proved equal to a specification function, and the properties are lemmas about those functions. `Analyzer` and `Editor` are value types: their constructors set their fields and no method changes them.

## Model

| member | source | states |
|---|---|---|
| Detector.PhraseStrings | ksu-podcast-editor/ksu_podcast_editor/analyzer.py:23-36 | each phrase string is its table words joined by single spaces, one per table entry |
| Detector.PhraseTablesSplit | ksu-podcast-editor/ksu_podcast_editor/analyzer.py:23-36 | splitting every Russian and English phrase on whitespace gives back exactly its listed words |
| Detector.LanguagePhrasesNonEmpty | ksu-podcast-editor/ksu_podcast_editor/analyzer.py:51 | every phrase of every language, known or not, splits into at least one word |
| Detector.NewAnalyzer | ksu-podcast-editor/ksu_podcast_editor/analyzer.py:42-53 | the analyzer has the language's filler set plus the custom fillers and the language's phrase list; an unknown language gets no phrases and only the custom fillers |
| Normalization.Normalize | ksu-podcast-editor/ksu_podcast_editor/analyzer.py:134-136 | a normalised text never ends in one of `.,!?:;` |
| Normalization.NormalizeLower | ksu-podcast-editor/ksu_podcast_editor/analyzer.py:134-136 | a normalised text is already lower case |
| Normalization.NormalizeFront | ksu-podcast-editor/ksu_podcast_editor/analyzer.py:134-136 | a normalised text does not start with whitespace |
| Normalization.NormalizeFixed | ksu-podcast-editor/ksu_podcast_editor/analyzer.py:134-136 | a lower-case text with nothing to strip at either end normalises to itself |
| Normalization.NormalizeIdempotent | ksu-podcast-editor/ksu_podcast_editor/analyzer.py:134-136 | normalising twice equals normalising once whenever the first result does not end in whitespace |
| Normalization.NormalizeNotIdempotent | ksu-podcast-editor/ksu_podcast_editor/analyzer.py:134-136 | without that condition it fails: "a ." normalises to "a " and then to "a" |
| Detector.Normalized | ksu-podcast-editor/ksu_podcast_editor/analyzer.py:82 | one normalised text per word, at the word's index |
| Detector.Analyze | ksu-podcast-editor/ksu_podcast_editor/analyzer.py:55-132 | `analyze` returns exactly the sorted decisions of the three passes over the flattened words |
| Detector.CollectWords | ksu-podcast-editor/ksu_podcast_editor/analyzer.py:66-68 | the loop builds the words of all segments, segment after segment |
| Detector.NormalizeAll | ksu-podcast-editor/ksu_podcast_editor/analyzer.py:82 | the loop gives the same texts as normalising each word where it is compared |
| Detector.FindPhrases | ksu-podcast-editor/ksu_podcast_editor/analyzer.py:74-98 | the phrase loop yields the decisions and claimed indices of the phrase pass over all phrases, in list order |
| Detector.MatchPhrase | ksu-podcast-editor/ksu_podcast_editor/analyzer.py:75-76 | one phrase iteration advances the phrase pass by exactly that phrase |
| Detector.PhrasePassStep | ksu-podcast-editor/ksu_podcast_editor/analyzer.py:74-78 | one phrase of the pass scans every window position of that phrase; the phrase has at least one word |
| Detector.ScanPhrase | ksu-podcast-editor/ksu_podcast_editor/analyzer.py:78-98 | the window loop skips windows with a claimed word, records a match with its first word's start, last word's end and joined raw texts, and claims its indices |
| Detector.FindFillers | ksu-podcast-editor/ksu_podcast_editor/analyzer.py:101-113 | the filler loop yields one decision per unclaimed word whose normalised text is a filler, and claims those indices |
| Detector.FindRepetitions | ksu-podcast-editor/ksu_podcast_editor/analyzer.py:116-127 | the repetition loop yields one decision per unclaimed word after the first that repeats its predecessor |
| DetectorProperties.PhrasePassOk | ksu-podcast-editor/ksu_podcast_editor/analyzer.py:70-98 | after the phrase pass, every hit spans its words' times, all its words are claimed, and no two hits share a word |
| DetectorProperties.PhrasePassMaximal | ksu-podcast-editor/ksu_podcast_editor/analyzer.py:74-98 | no phrase match is missed: after the phrase pass, every window whose normalised words equal one of the phrases holds a claimed word, so it was either taken or overlapped by an earlier match |
| DetectorProperties.PhrasePassMarked | ksu-podcast-editor/ksu_podcast_editor/analyzer.py:89-98 | the claimed word indices are exactly those some phrase decision spans |
| DetectorProperties.PhraseWindowClaimed | ksu-podcast-editor/ksu_podcast_editor/analyzer.py:74-98 | for the analyzer, every window one of its phrases matches shares a word with some phrase decision |
| DetectorProperties.PhrasePassShape | ksu-podcast-editor/ksu_podcast_editor/analyzer.py:82-96 | every phrase decision covers words whose normalised texts are one phrase's words; it runs from the first word's start to the last word's end, has reason "filler" and the raw texts joined by spaces |
| DetectorProperties.FillerIff | ksu-podcast-editor/ksu_podcast_editor/analyzer.py:101-113 | a filler decision for word `i` is emitted if and only if no phrase claimed `i` and its normalised text is in the filler set |
| DetectorProperties.RepetitionIff | ksu-podcast-editor/ksu_podcast_editor/analyzer.py:116-127 | a repetition decision for word `i >= 1` is emitted if and only if `i` is unclaimed after the filler pass and its normalised text equals its predecessor's and has more than one character; the predecessor may be claimed |
| DetectorProperties.RepetitionRun | ksu-podcast-editor/ksu_podcast_editor/analyzer.py:116-127 | a run of `k` unclaimed equal words yields `k - 1` repetitions, one for every word but the first |
| DetectorProperties.AllHitsOk | ksu-podcast-editor/ksu_podcast_editor/analyzer.py:70-127 | across the three passes every hit spans its words and no two hits share a word |
| DetectorProperties.AllHitsKind | ksu-podcast-editor/ksu_podcast_editor/analyzer.py:70-127 | every hit is a phrase decision, a filler decision or a repetition decision as those passes define them |
| DetectorProperties.DetectSorted | ksu-podcast-editor/ksu_podcast_editor/analyzer.py:130 | the returned decisions are ordered by start time |
| DetectorProperties.DetectStable | ksu-podcast-editor/ksu_podcast_editor/analyzer.py:130 | decisions with equal starts keep the order in which the passes found them |
| DetectorProperties.DetectNonOverlapping | ksu-podcast-editor/ksu_podcast_editor/analyzer.py:70-132 | on a well-formed timeline every decision has positive length and ends no later than the next one starts |
| DetectorProperties.DetectSound | ksu-podcast-editor/ksu_podcast_editor/analyzer.py:89-127 | every returned decision comes from a hit of one of the passes, so its reason is "filler" or "repetition" |
| DetectorProperties.DetectComplete | ksu-podcast-editor/ksu_podcast_editor/analyzer.py:129-132 | every hit of the passes is among the returned decisions |
| DetectorProperties.DetectEmpty | ksu-podcast-editor/ksu_podcast_editor/analyzer.py:64-132 | no words, no decisions |
| DetectorExamples.EarlierPhraseWins | ksu-podcast-editor/ksu_podcast_editor/analyzer.py:74-98 | with phrases "ну вот" then "вот так", the words "ну вот так" yield one decision, for "ну вот": the later phrase overlaps claimed words and is skipped |
| DetectorExamples.RussianSample | ksu-podcast-editor/ksu_podcast_editor/analyzer.py:74-130 | the Russian analyzer on six timed words normalising to "э вот как бы привет привет" returns exactly four decisions in time order: "э" and "вот" as fillers, "как бы" as one filler spanning both words with their texts joined by a space, and the second "привет" as a repetition; the first "привет" is kept |
| Ordering.SortByPermutes | ksu-podcast-editor/ksu_podcast_editor/analyzer.py:130 | the sort is a permutation of its input: every element is kept, as often as it occurs |
| Ordering.SortBySorted | ksu-podcast-editor/ksu_podcast_editor/analyzer.py:130 | the sort's result is ordered by the key |
| Ordering.SortByStable | ksu-podcast-editor/ksu_podcast_editor/analyzer.py:130 | for each key value, the elements with that key keep their input order |
| Models.Defaults | ksu-podcast-editor/ksu_podcast_editor/models.py:6-30 | the record defaults: confidence 1.0, no words, empty segment text, empty original text |
| Models.FlattenAt | ksu-podcast-editor/ksu_podcast_editor/analyzer.py:66-68 | word `j` of segment `s` sits at the number of words before segment `s`, plus `j` |
| Models.FlattenLength | ksu-podcast-editor/ksu_podcast_editor/analyzer.py:66-68 | the flattened length is the sum of the segments' word counts |
| Models.TimelineMonotone | ksu-podcast-editor/ksu_podcast_editor/models.py:6-12 | on a well-formed timeline a word ends no later than any later word starts |
| Editing.Take | ksu-podcast-editor/ksu_podcast_editor/editor.py:50 | `audio[:i]` is a prefix of length `i` when `i` is in range, and all of it past the end |
| Editing.Drop | ksu-podcast-editor/ksu_podcast_editor/editor.py:51 | `audio[i:]` is a suffix of length `len - i` when `i` is in range, and empty past the end |
| Editing.TakeDrop | ksu-podcast-editor/ksu_podcast_editor/editor.py:50-51 | the two slices at the same index concatenate back to the audio |
| Editing.Crossfade | ksu-podcast-editor/ksu_podcast_editor/editor.py:55 | a crossfaded join is `c` samples shorter than its sides, keeps `before` ahead of the overlap and `after` behind it |
| Editing.SpliceLength | ksu-podcast-editor/ksu_podcast_editor/editor.py:53-57 | a cut crossfades, losing `c` samples, when both sides are at least `c` long; otherwise it is exactly `before + after` |
| Editing.SpliceInRange | ksu-podcast-editor/ksu_podcast_editor/editor.py:46-57 | a cut inside the buffer removes `end - start` samples, plus `c` when it crossfades |
| Editing.SplicePrefix | ksu-podcast-editor/ksu_podcast_editor/editor.py:49-57 | a cut leaves the audio ahead of it unchanged (ahead of the overlap when it crossfades) |
| Editing.SpliceInverted | ksu-podcast-editor/ksu_podcast_editor/editor.py:46-57 | a decision with `end < start` removes nothing: the samples between come out twice |
| Editing.EditEmpty | ksu-podcast-editor/ksu_podcast_editor/editor.py:33-37 | no decisions: the output is the input |
| Editing.ProcessingOrderDescending | ksu-podcast-editor/ksu_podcast_editor/editor.py:43 | decisions are processed by descending start, each one once, and equal starts keep their input order |
| Editing.ApplyAllKeepsPrefix | ksu-podcast-editor/ksu_podcast_editor/editor.py:41-45 | non-inverted cuts (`start <= end`) that all start at least `p + c` in leave the first `p` samples as they were, so earlier timestamps stay valid |
| Editing.ProcessingOrderInRange | ksu-podcast-editor/ksu_podcast_editor/editor.py:43 | non-empty, pairwise non-overlapping cuts inside the buffer, in any input order, come out of the processing order latest first, each ending where the previous one starts or earlier |
| Editing.RemovedPermutation | ksu-podcast-editor/ksu_podcast_editor/editor.py:43 | what the cuts cover does not depend on their order: two lists with the same elements cover the same total |
| Editing.EditedReduction | ksu-podcast-editor/ksu_podcast_editor/editor.py:39-57 | `edit` on non-empty, non-overlapping cuts inside the audio, given in any order, that all crossfade: the output is shorter by what the cuts cover plus one crossfade per cut |
| Editing.TotalReduction | ksu-podcast-editor/ksu_podcast_editor/editor.py:45-57 | non-overlapping in-range decisions, processed latest first, that all crossfade shorten the audio by what they cover plus one crossfade each |
| Editing.Editor.Edit | ksu-podcast-editor/ksu_podcast_editor/editor.py:33-59 | `edit` returns the input for no decisions, else the result of cutting the decisions in descending start order |
| Editing.EditorDefault | ksu-podcast-editor/ksu_podcast_editor/editor.py:15-21 | the default crossfade is 20 ms |
| Report.DecisionMapKeys | ksu-podcast-editor/ksu_podcast_editor/cli.py:25-28 | the map's keys are exactly the decisions' (start, end) pairs, and each maps to a decision with that key |
| Report.DecisionMapLastWins | ksu-podcast-editor/ksu_podcast_editor/cli.py:27-28 | a key maps to the last decision that has it |
| Report.BuildDecisionMap | ksu-podcast-editor/ksu_podcast_editor/cli.py:24-28 | the loop builds that map |
| Report.LabelWords | ksu-podcast-editor/ksu_podcast_editor/cli.py:30-42 | the nested loop builds one labelled row per flattened word, in order |
| Report.AllWordsPlacement | ksu-podcast-editor/ksu_podcast_editor/cli.py:30-42 | word `j` of segment `s` has its row after the rows of the earlier words, with its text, times, confidence and label |
| Report.LabelOfWord | ksu-podcast-editor/ksu_podcast_editor/cli.py:32-40 | a word's label is "keep" when no decision has its exact start and end, else the reason of the last decision that does |
| Report.Suffix | ksu-podcast-editor/ksu_podcast_editor/cli.py:44 | the suffix is empty or a dot followed by at least one character, with no further dot and no slash |
| Report.SuffixOfName | ksu-podcast-editor/ksu_podcast_editor/cli.py:44 | for any directory, a non-empty stem (dots allowed) and an extension without dot or slash, the suffix of `dir/stem.ext` is "." followed by the extension |
| Report.SuffixOfHidden | ksu-podcast-editor/ksu_podcast_editor/cli.py:44 | a hidden file `dir/.ext` has no suffix |
| Report.FormatOfName | ksu-podcast-editor/ksu_podcast_editor/cli.py:44-91 | `dir/stem.ext` gets the JSON report exactly when the extension lower-cases to "json", CSV exactly when it lower-cases to "csv", and plain text otherwise |
| Report.NoSuffixIsText | ksu-podcast-editor/ksu_podcast_editor/cli.py:90-91 | a file name without a dot gets the plain-text report |
| Report.FillersList | ksu-podcast-editor/ksu_podcast_editor/cli.py:66-74 | one filler entry per decision |
| Report.FormatTimeRoundTrip | ksu-podcast-editor/ksu_podcast_editor/cli.py:97 | a time written with three decimals reads back as the same millisecond, negative times included |
| Report.TextLineLabel | ksu-podcast-editor/ksu_podcast_editor/cli.py:96-97 | a line ends with ` [label]` exactly when the label is not "keep"; a kept word's line ends with its text |
| Report.LinesAt | ksu-podcast-editor/ksu_podcast_editor/cli.py:95-97 | line `i` of the report sits right after the lines of the words before it |
| Report.TextReportLine | ksu-podcast-editor/ksu_podcast_editor/cli.py:92-97 | every word's line is in the plain-text report |
| Report.TextReportSummary | ksu-podcast-editor/ksu_podcast_editor/cli.py:98-100 | the plain-text report ends with the summary of the word and decision counts |
| Report.SaveResults | ksu-podcast-editor/ksu_podcast_editor/cli.py:21-100 | `_save_results` produces the value for the format its path chooses |
| Report.JsonReport | ksu-podcast-editor/ksu_podcast_editor/cli.py:46-80 | the JSON value has one entry per segment, the labelled words, one filler entry per decision with its text, times and reason, and the three counts |
| Report.CsvReport | ksu-podcast-editor/ksu_podcast_editor/cli.py:84-88 | the CSV has the five columns and one labelled row per word |
| Report.PlainTextReport | ksu-podcast-editor/ksu_podcast_editor/cli.py:90-100 | the plain-text report has every word's line and ends with the word and decision counts |
| Text.SplitJoin | ksu-podcast-editor/ksu_podcast_editor/analyzer.py:75 | non-empty words without whitespace, joined by spaces, split back into themselves |
| Text.ParseNatToString | ksu-podcast-editor/ksu_podcast_editor/cli.py:99-100 | the decimal digits of a count read back as the count |
| Text.SplitOnFirst | suno-mcp/src/suno_mcp/downloader.py:35 | `s.split(sep)[0]` is the text before the first separator |
| Text.SplitOnLast | suno-mcp/src/suno_mcp/downloader.py:35 | `s.split(sep)[-1]` is the text after the last separator |
| PromptGenerator.AnalyzeConversation | suno-mcp/src/suno_mcp/prompt_generator.py:27-43 | the placeholder analysis: mood "neutral", themes ["conversation"], emotions ["calm"], genres ["ambient"], no key phrases, energy "medium" |
| PromptGenerator.AnalyzeConversationConstant | suno-mcp/src/suno_mcp/prompt_generator.py:27-43 | the analysis does not depend on the conversation |
| PromptGenerator.ResolvePrecedence | suno-mcp/src/suno_mcp/prompt_generator.py:56-59 | truthy explicit settings win; with an analysis the falsy ones come from it (the style from the first genre, or none); without one nothing changes |
| PromptGenerator.FirstThree | suno-mcp/src/suno_mcp/prompt_generator.py:68 | `themes[:3]`: the first three themes when there are at least three, otherwise all of them |
| PromptGenerator.PromptFields | suno-mcp/src/suno_mcp/prompt_generator.py:78-82 | the returned style and flag are the resolved ones, and no title is set |
| PromptGenerator.DefaultWhenNoParts | suno-mcp/src/suno_mcp/prompt_generator.py:62-76 | with nothing to say the prompt is "ambient background music" |
| PromptGenerator.MoodFirst | suno-mcp/src/suno_mcp/prompt_generator.py:64-65 | a mood leads the prompt as "<mood> mood" |
| PromptGenerator.ThemesShown | suno-mcp/src/suno_mcp/prompt_generator.py:67-68 | each of the first three themes appears in the prompt |
| PromptGenerator.ExtraThemesIgnored | suno-mcp/src/suno_mcp/prompt_generator.py:68 | themes after the third do not change the prompt |
| PromptGenerator.FullPrompt | suno-mcp/src/suno_mcp/prompt_generator.py:64-76 | with mood, themes and style all set and no flag, the prompt is "<mood> mood, " then the first three themes joined by ", ", then ", <style> style" |
| PromptGenerator.FullInstrumentalPrompt | suno-mcp/src/suno_mcp/prompt_generator.py:64-76 | the same with the flag set, followed by ", instrumental" |
| PromptGenerator.StyleShown | suno-mcp/src/suno_mcp/prompt_generator.py:70-71 | a style appears as "<style> style" |
| PromptGenerator.InstrumentalLast | suno-mcp/src/suno_mcp/prompt_generator.py:73-76 | the instrumental flag puts "instrumental" at the end |
| PromptGenerator.PromptNonEmpty | suno-mcp/src/suno_mcp/prompt_generator.py:62-76 | the prompt is non-empty unless the only part is a single empty theme |
| PromptGenerator.BlankThemePrompt | suno-mcp/src/suno_mcp/prompt_generator.py:67-76 | as written, `generate_prompt(themes=[""])` returns an empty prompt |
| PromptGenerator.GeneratePromptNonEmpty | suno-mcp/src/suno_mcp/prompt_generator.py:76 | the corrected prompt is never empty and equals the original whenever that one is non-empty |
| PromptGenerator.MoodExample | suno-mcp/tests/test_prompt_generator.py:12-15 | `generate_prompt(mood="melancholic")` is "melancholic mood" |
| PromptGenerator.ThemesExample | suno-mcp/tests/test_prompt_generator.py:18-21 | three themes are joined by ", " and the first leads |
| PromptGenerator.StyleExample | suno-mcp/tests/test_prompt_generator.py:24-28 | `generate_prompt(style="jazz")` has prompt "jazz style" and style "jazz" |
| PromptGenerator.InstrumentalExample | suno-mcp/tests/test_prompt_generator.py:31-35 | mood "calm" with the flag gives "calm mood, instrumental" and the flag set |
| PromptGenerator.AnalysisExample | suno-mcp/tests/test_prompt_generator.py:38-53 | a full analysis contributes its mood, both themes and its first genre as the style |
| PromptGenerator.EmptyExample | suno-mcp/tests/test_prompt_generator.py:56-59 | no arguments give the default prompt |
| PromptGenerator.PlaceholderExample | suno-mcp/src/suno_mcp/prompt_generator.py:35-43 | the placeholder analysis gives "neutral mood, conversation, ambient style" with style "ambient" |
| Downloader.OutputDirPrecedence | suno-mcp/src/suno_mcp/downloader.py:26-27 | a given directory, even an empty one, wins over the environment; the environment's `SUNO_OUTPUT_DIR` wins over "./output" |
| Downloader.UrlFilenameSplits | suno-mcp/src/suno_mcp/downloader.py:35 | the URL's candidate name is exactly `url.split("/")[-1].split("?")[0]` |
| Downloader.UrlFilenameShape | suno-mcp/src/suno_mcp/downloader.py:35 | the candidate occurs in the URL and holds no '/' and no '?'; a URL with neither is its own candidate |
| Downloader.GeneratedNameShape | suno-mcp/src/suno_mcp/downloader.py:40 | a generated name is "suno_", at most eight hex digits, ".mp3"; 17 characters from a full identifier |
| Downloader.WithMp3Shape | suno-mcp/src/suno_mcp/downloader.py:43-44 | the extension rule keeps the name as a prefix, always ends in ".mp3", and changes the name exactly when it lacks ".mp3" |
| Downloader.WithMp3Idempotent | suno-mcp/src/suno_mcp/downloader.py:43-44 | applying the extension rule twice is applying it once |
| Downloader.FileNameEndsWithMp3 | suno-mcp/src/suno_mcp/downloader.py:32-44 | every saved name ends with ".mp3" |
| Downloader.FileNameFromUrl | suno-mcp/src/suno_mcp/downloader.py:33-40 | without a given name, the URL's candidate is used exactly when it is a non-empty ".mp3" name; otherwise a generated name is used |
| Downloader.FileNameGiven | suno-mcp/src/suno_mcp/downloader.py:42-44 | a given name is used whatever the URL, with ".mp3" appended when missing; an empty name becomes ".mp3" |
| Downloader.FileNameIdempotent | suno-mcp/src/suno_mcp/downloader.py:32-44 | passing a saved name back in as the file name returns it unchanged |

## Left out

- I/O is not modelled: reading and exporting WAV files, the file writes of `_save_results`, the HTTP download, `mkdir` and the environment lookup. The audio is a parameter and the result. The written value is the result. The environment variable is an `Option` parameter.
- `Editor.get_duration` and the transcriber are not part of this model. Neither is the rest of the command-line interface (argument parsing, progress output), nor the Suno client and server.
- `Detector.Analyze`: every word is normalised once up front, where the source normalises inside each test. The texts compared are the same, which `Detector.NormalizeAll` states.
- `Detector.Analyze`: the sort in place (`decisions.sort`) is modelled as a stable sort on a sequence value. Python's sort is stable, and stability is all the model relies on.
- `Text.Lower` maps only ASCII, Latin-1 and Cyrillic capitals. That covers both gazetteers, but not the rest of Unicode's case mapping. Unicode normalisation is not modelled either.
- `Text.Split` models `str.split()` with Python's whitespace set. The only property proved about it is that space-joined words split back into themselves, which is what the phrase tables need.
- `Editing.Editor.Edit`: the crossfade's gain curve is a parameter. `Blend` mixes overlap sample `k` of the outgoing side with the incoming one. Only where the mix lands, and how long the result is, are proved.
- `Editing.Editor.Edit`: decision times are whole milliseconds, so `int(decision.start * 1000)` is the identity. Truncating fractional seconds is not modelled.
- `Editing.Editor`: `crossfade_ms` is a natural number. A negative crossfade is not modelled.
- `Editing.Take` and `Editing.Drop`: these follow Python's list-slice rules for negative and out-of-range bounds. The audio library's own handling of very negative positions is not modelled.
- `Report.SaveResults`: `round(x, 3)` is the identity on whole milliseconds. Confidences are `real` and are not rounded.
- `Report.SaveResults`: the verbose debug print is not modelled.
- `Editing.EditedReduction`: every cut must cover at least one millisecond. An empty cut that starts where another cut starts is ordered by input position, and the length count for that case is not proved.
- `Report.Suffix` follows the rule where a final dot gives no suffix ("a." has none). Python releases differ on that case. The path normalisation `pathlib` performs is not modelled.
- The JSON, CSV and plain-text encodings are modelled as the values written, not as bytes. JSON escaping, CSV quoting and number formatting in the JSON and CSV files are left out. The plain-text report's `{:.3f}` times are modelled.
- `Downloader.FileName`: the directory join `output_path / filename` and pathlib's normalisation are not modelled. The random identifier's hex digits are a parameter.

## Findings

| source | as written | input that shows it | evidently intended | confidence | as-written member | corrected member |
|---|---|---|---|---|---|---|
| suno-mcp/src/suno_mcp/prompt_generator.py:67-76 | a themes list whose one theme is empty is truthy, so it adds the part `""`; the parts list is then non-empty and the default prompt is skipped | `generate_prompt(themes=[""])` returns the prompt `""` | a prompt is never empty: fall back to "ambient background music" whenever the joined parts are empty | medium, not executed | PromptGenerator.BlankThemePrompt | PromptGenerator.GeneratePromptNonEmpty |
