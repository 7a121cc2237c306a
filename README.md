# Zhuyin input method for Kodi: a Dafny model of its core

This project models the core of a Kodi add-on that types Chinese by Zhuyin
(Bopomofo) with a remote control or keyboard. It covers:

- the syllable parser;
- the phrase dictionary and the user's own phrase store;
- the candidate engine that ranks and caches candidate phrases, and its
  context-aware variant;
- the habit-learning engine;
- the candidate list's selection and paging state;
- the text buffers of the input bar;
- the remote-control dispatch with long-press detection, and the grid
  navigation of the on-screen keyboard;
- the command-line parser of the entry point.

Each source file becomes one module:

- `ZhuyinParser` (zhuyin_parser.dfy) models resources/lib/engine/zhuyin_parser.py
- `PhraseDb` (phrase_db.dfy) models resources/lib/engine/phrase_db.py
- `Candidates` (candidate_engine.dfy) models resources/lib/engine/candidate_engine.py
- `Learning` (learning.dfy) models resources/lib/engine/learning.py
- `CandidateList` (candidate_list.dfy) models resources/lib/ui/candidate_list.py
- `InputBar` (input_bar.dfy) models resources/lib/ui/input_bar.py
- `CecHandler` (cec_handler.dfy) models resources/lib/utils/cec_handler.py
- `Launcher` (launcher.dfy) models default.py

Four more modules support them:

- `Common`: options, Python slicing, prefixes and joins.
- `Sorting`: a stable insertion sort by a total preorder, with its
  sortedness, permutation and stability lemmas. It stands for Python's
  `sorted` and for SQL `ORDER BY`.
- `PyStr`: Python's `str.strip`, `str.split` on one separator, and `int()`
  of a decimal string.
- `Table`: an SQLite table with a UNIQUE constraint, held as its rows in
  rowid order. It provides `INSERT OR IGNORE`, `INSERT OR REPLACE`,
  `UPDATE ... WHERE`, `INSERT ... ON CONFLICT DO UPDATE` and `DELETE`.

How the source's state becomes Dafny:

- Objects whose fields the source updates are classes with `modifies`
  clauses: the databases, the engines, the candidate list and bar, the
  input bars, the CEC handler and the keyboard navigation.
- Each such method is specified by a function of the old state. Lemmas
  about those functions carry what the source promises.
- Loops in the source stay loops with invariants. These are the parse loop,
  the candidate-gathering loops, the preference promotion in
  `get_single_char_candidates`, the import loops, the skip loop of `move`,
  and the argument loop of `parse_args`.
- Each loop is proved equal to a recursive function, and the properties are
  stated about that function.
- Python dictionaries keep insertion order, and that order decides ties in
  `max` and `sorted`. So the learning engine's nested dictionaries are
  association lists of groups of tallies. Python `defaultdict` increments
  are upserts on them.
- The cache dictionary is a list of entries, and its oldest entry is the
  first.

## Model

| member | source | states |
|---|---|---|
| ZhuyinParser.IsEmpty | resources/lib/engine/zhuyin_parser.py:35-36 | a syllable is empty exactly when its text (initial, medial, final, tone) is empty |
| ZhuyinParser.IsComplete | resources/lib/engine/zhuyin_parser.py:23-33 | a tone makes a syllable complete; without one it is complete exactly when it has a medial or a final or a ㄓㄔㄕㄖㄗㄘㄙ initial |
| ZhuyinParser.ToSearchKey | resources/lib/engine/zhuyin_parser.py:38-40 | the key followed by the tone mark is the syllable's text: the key is the text without its tone |
| ZhuyinParser.ToStringRoundTrip | resources/lib/engine/zhuyin_parser.py:20-21 | a parsed syllable's text, its slots written in the order initial, medial, final, tone, parses back to that syllable alone |
| ZhuyinParser.Parse | resources/lib/engine/zhuyin_parser.py:65-140 | the while loop over the input computes `ParseSpec`, the per-character step folded over the input and followed by the final flush |
| ZhuyinParser.ParseCanonical | resources/lib/engine/zhuyin_parser.py:83-138 | every emitted syllable is non-empty, its `raw` equals initial+medial+final+tone, and each slot holds at most one symbol of its own class |
| ZhuyinParser.SymbolAccounting | resources/lib/engine/zhuyin_parser.py:79-133 | the characters of the emitted syllables are, as a multiset, exactly the recognised symbols of the input: each lands in one slot of one syllable, and spaces and unknown characters contribute nothing |
| ZhuyinParser.SyllableCountBound | resources/lib/engine/zhuyin_parser.py:79-138 | there are at most as many syllables as recognised symbols, and none exactly when the input has no recognised symbol |
| ZhuyinParser.ParseSingle | resources/lib/engine/zhuyin_parser.py:142-145 | None exactly when the input has no recognised symbol, otherwise the first parsed syllable, which is canonical |
| ZhuyinParser.ParseReordersSlots | resources/lib/engine/zhuyin_parser.py:100-120 | a medial typed before an initial lands after it: "ㄧㄅ" parses to one syllable whose text "ㄅㄧ" is not the input |
| ZhuyinParser.Validate | resources/lib/engine/zhuyin_parser.py:147-166 | False exactly for a ㄐㄑㄒ initial with a medial other than ㄧ/ㄩ, a ㄐㄑㄒ initial with a final and no medial, or a ㄓ-group initial with ㄩ; the message is empty exactly when valid |
| ZhuyinParser.GetPossibleCompletions | resources/lib/engine/zhuyin_parser.py:168-208 | initials then medials when nothing is recognised; after a lone initial: ㄧ, ㄩ for ㄐㄑㄒ, ㄧ, ㄨ then finals then tones for the ㄓ group, medials then finals then tones for any other; finals then tones after a medial without a final; only tones once a final is present; nothing for a syllable with only a tone |
| ZhuyinParser.GetTone | resources/lib/engine/zhuyin_parser.py:220-225 | the tone number of the last character, and 1 for an empty string or a last character that is not a tone |
| ZhuyinParser.RemoveTone | resources/lib/engine/zhuyin_parser.py:227-231 | drops exactly the last character when it is a tone mark, otherwise returns the string unchanged |
| ZhuyinParser.ToneOfCanonical | resources/lib/engine/zhuyin_parser.py:220-231 | for a parsed syllable, removing the tone from its text gives its search key, and the tone read back is its tone slot's number |
| ZhuyinParser.SplitSyllables | resources/lib/engine/zhuyin_parser.py:215-218 | one non-empty text per parsed syllable, equal to its `raw`; at most one per recognised symbol, and none exactly when no symbol is recognised |
| ZhuyinParser.Normalize | resources/lib/engine/zhuyin_parser.py:210-213 | the normalized string parses to the same syllables as the input, so it splits into the same texts |
| ZhuyinParser.NormalizeIdempotent | resources/lib/engine/zhuyin_parser.py:210-213 | normalizing twice is normalizing once, since the normalized string parses to the input's syllables |
| PhraseDb.ParseLine | resources/lib/engine/phrase_db.py:241-249 | a line is skipped exactly when it is blank, starts with `#` or has no tab after stripping; otherwise the phrase and zhuyin are the first two tab-separated fields, two fields give frequency 100, and with a third field the line is a bad frequency exactly when `int()` rejects it, else the row carries the parsed value; an entry stores its phrase's length |
| PyStr.Strip | resources/lib/engine/phrase_db.py:241 | `str.strip`: empty exactly for an all-whitespace string; otherwise the part of the string after its leading whitespace, neither starting nor ending with whitespace, followed in the string by whitespace only |
| PyStr.StripIdempotent | resources/lib/engine/phrase_db.py:241 | stripping twice is stripping once |
| PyStr.JoinSplitOn | resources/lib/engine/phrase_db.py:245 | joining the pieces of `split('\t')` with the separator gives the line back |
| PyStr.ParseIntToString | resources/lib/engine/phrase_db.py:249 | `int()` reads back every integer's decimal text |
| PhraseDb.PhraseDatabase.InsertIfAbsent | resources/lib/engine/phrase_db.py:251-254 | the table after `INSERT OR IGNORE` of one row, which keeps the UNIQUE constraint and the length column |
| PhraseDb.ParseFormatLine | resources/lib/engine/phrase_db.py:241-254 | a `phrase<TAB>zhuyin<TAB>frequency` line is read back as exactly that row |
| PhraseDb.ImportKeepsRows | resources/lib/engine/phrase_db.py:240-256 | a successful import keeps every existing row in place, the UNIQUE constraint and the length column |
| PhraseDb.ImportFindsEntries | resources/lib/engine/phrase_db.py:240-256 | after a successful import, the pair of every well-formed line is in the table: with the row it already had, or, when the pair is new and no earlier line carries it, with this line's row (INSERT OR IGNORE keeps the first occurrence) |
| PhraseDb.EntriesKeepExisting | resources/lib/engine/phrase_db.py:251-254 | over the parsed lines: a pair already in the table keeps the row it had |
| PhraseDb.EntriesKeepFirst | resources/lib/engine/phrase_db.py:251-254 | over the parsed lines: a pair new to the table ends up with the row of the first entry carrying it |
| PhraseDb.PhraseDatabase.Search | resources/lib/engine/phrase_db.py:67-93 | the rows with exactly this zhuyin, sorted by frequency descending then length ascending, the first `limit` of them |
| PhraseDb.PhraseDatabase.SearchPrefix | resources/lib/engine/phrase_db.py:95-120 | the rows whose zhuyin starts with the prefix, sorted by length then frequency, at most `limit` |
| PhraseDb.PhraseDatabase.SearchWithoutTone | resources/lib/engine/phrase_db.py:122-153 | the same rows as a prefix search (the pattern is key + `%`), ordered as in `search` |
| PhraseDb.PhraseDatabase.GetSingleChar | resources/lib/engine/phrase_db.py:155-177 | one-character rows with this zhuyin, most frequent first, at most `limit` |
| PhraseDb.PhraseDatabase.GetAssociatedPhrases | resources/lib/engine/phrase_db.py:204-228 | phrases longer than one character that start with the given character, most frequent first, at most `limit` |
| PhraseDb.PhraseDatabase.GetStats | resources/lib/engine/phrase_db.py:258-276 | total is the row count, characters the number of one-character rows and words the number of longer rows; together they never exceed the total, and equal it when no phrase is empty |
| PhraseDb.PhraseDatabase.AddPhrase | resources/lib/engine/phrase_db.py:179-189 | the table after `INSERT OR REPLACE`, which keeps the UNIQUE constraint and the length column |
| PhraseDb.AddPhraseLookup | resources/lib/engine/phrase_db.py:179-189 | afterwards the pair finds the new row and every other pair finds what it found before |
| PhraseDb.PhraseDatabase.UpdateFrequency | resources/lib/engine/phrase_db.py:191-202 | exactly the row of the pair gains `increment`; every other row is unchanged |
| PhraseDb.UpdateFrequencyLookup | resources/lib/engine/phrase_db.py:191-202 | a missing pair stays missing, and an existing one is found with its frequency raised |
| PhraseDb.PhraseDatabase.ImportFromText | resources/lib/engine/phrase_db.py:230-256 | the loop computes `ImportAll`; a bad frequency field leaves the table as it was (no commit) |
| PhraseDb.EntriesFailIff | resources/lib/engine/phrase_db.py:230-256 | over the parsed lines: the import fails exactly when one of them is a bad frequency, wherever it stands |
| PhraseDb.ImportFailsIff | resources/lib/engine/phrase_db.py:230-256 | the import rolls back exactly when some line that is not skipped has a frequency field `int()` rejects |
| PhraseDb.UserPhraseDatabase.RecordSelection | resources/lib/engine/phrase_db.py:325-338 | the history after the upsert; the custom table is untouched |
| PhraseDb.RecordSelectionLookup | resources/lib/engine/phrase_db.py:325-338 | a new pair gets count 1, a known one its count + 1, both stamped with the clock; other pairs are unchanged |
| PhraseDb.UserPhraseDatabase.GetUserPreference | resources/lib/engine/phrase_db.py:340-353 | this zhuyin's history rows, most used first and most recent among equals, at most `limit` |
| PhraseDb.UserPhraseDatabase.AddCustomPhrase | resources/lib/engine/phrase_db.py:355-371 | `INSERT OR IGNORE` into the custom table and into `phrases` with frequency 1000; history untouched |
| PhraseDb.AddCustomPhraseOnce | resources/lib/engine/phrase_db.py:355-371 | adding the same custom phrase twice is adding it once, and an existing phrase row keeps its frequency |
| PhraseDb.UserPhraseDatabase.ClearHistory | resources/lib/engine/phrase_db.py:373-378 | the history is empty and the custom table unchanged |
| Candidates.SortCandidates | resources/lib/engine/candidate_engine.py:132-163 | sorted by descending score, a permutation of the input, and stable: candidates of equal score keep their order |
| Candidates.ScoreComponents | resources/lib/engine/candidate_engine.py:141-163 | the sort key adds 10000 for an exact match, 8000/6000/4000 for learned/user/system, 5000/3000/1000 for 2-4/1/other lengths, and the frequency one for one |
| Candidates.Ranked | resources/lib/engine/candidate_engine.py:123-125 | the first `limit` of the sorted candidates: sorted, drawn from the input, and every candidate left out ranks no higher than any kept |
| Candidates.LastChar | resources/lib/engine/candidate_engine.py:110-113 | the context's last character, or nothing when the context is empty |
| Candidates.DirectDistinct | resources/lib/engine/candidate_engine.py:66-107 | preference, exact and prefix candidates never repeat a phrase |
| Candidates.GatherProvenance | resources/lib/engine/candidate_engine.py:66-121 | associative candidates only follow the direct ones, and only with a context and room under `limit`; each candidate comes from one of the four sources |
| Candidates.GatherComplete | resources/lib/engine/candidate_engine.py:66-107 | every preferred and every exact phrase has a candidate in the gathered list, since those loops ignore `limit`; every prefix phrase too when the first two steps left the list short of `limit`; only repeats are dropped |
| Candidates.AssociativeFrom | resources/lib/engine/candidate_engine.py:109-121 | an associative candidate comes from a phrase starting with the context's last character, with that character dropped |
| Candidates.AssociativeMayRepeat | resources/lib/engine/candidate_engine.py:109-121 | the seen-set holds the full phrase, so an associative candidate can repeat an exact one (家 after 大家) |
| Candidates.CacheKeyInjective | resources/lib/engine/candidate_engine.py:62 | for zhuyin without ':', distinct (zhuyin, context) pairs have distinct cache keys |
| Candidates.CacheKeyCollision | resources/lib/engine/candidate_engine.py:62 | with ':' in the zhuyin two different requests share a key |
| Candidates.CacheInsert | resources/lib/engine/candidate_engine.py:165-171 | the entry is added last, and the oldest entry is evicted when the cache holds 100; keys stay unique and the size at most 100 |
| Candidates.Invalidate | resources/lib/engine/candidate_engine.py:182-185 | the kept entries are exactly, and in their old order, those whose key does not contain the zhuyin as a substring; keys stay unique |
| Candidates.CacheHitIgnoresLimit | resources/lib/engine/candidate_engine.py:61-64 | a cached answer is returned whatever `limit` is asked for |
| Candidates.RemoveFirstAt | resources/lib/engine/candidate_engine.py:206-209 | only the first candidate with the phrase is removed, and nothing when there is none |
| Candidates.PromoteAllLeads | resources/lib/engine/candidate_engine.py:201-216 | after promotion the one-character preferences lead, the last one first, followed by the untouched front of the list |
| Candidates.PushRecent | resources/lib/engine/candidate_engine.py:272-275 | the recent window ends with the new output and never holds more than 10 |
| Candidates.PushRecentWindow | resources/lib/engine/candidate_engine.py:272-275 | the window is always the last 10 outputs |
| Candidates.SmartContext | resources/lib/engine/candidate_engine.py:260 | the last three outputs joined: what precedes them, joined, followed by the context is all recent output joined; it ends with the last output, and is empty without output |
| Candidates.ContinuationOf | resources/lib/engine/candidate_engine.py:293 | a phrase starting with the character loses exactly its first character; any other phrase is kept whole |
| Candidates.Continuations | resources/lib/engine/candidate_engine.py:288-303 | at most one candidate per associated row, each a non-empty system phrase and not exact |
| Candidates.ContinuationsInOrder | resources/lib/engine/candidate_engine.py:288-303 | the candidates are, in order, one per row whose continuation is non-empty, carrying that continuation and the row's zhuyin and frequency |
| Candidates.CandidateEngine.GetCandidates | resources/lib/engine/candidate_engine.py:45-130 | [] for empty zhuyin, the cached list on a hit, otherwise the ranked fresh candidates from the tables as they were; the cache becomes `NextCache` |
| Candidates.CandidateEngine.Compute | resources/lib/engine/candidate_engine.py:65-125 | on a miss, the four queries gathered, sorted and cut to `limit` give exactly `Fresh` |
| Candidates.NextCache | resources/lib/engine/candidate_engine.py:61-128 | the cache after a call keeps its keys unique and holds at most 100 entries |
| Candidates.RepeatedQuery | resources/lib/engine/candidate_engine.py:61-128 | after a call the request's key holds its answer, so repeating it returns the same list even if the tables changed |
| Candidates.CandidateEngine.CommitSelection | resources/lib/engine/candidate_engine.py:173-185 | the selection is recorded in the history, and the cache loses exactly the keys containing the zhuyin |
| Candidates.CandidateEngine.GetSingleCharCandidates | resources/lib/engine/candidate_engine.py:187-218 | the up to 30 single characters, with each one-character preference moved to the front |
| Candidates.CandidateEngine.GetPhraseCandidates | resources/lib/engine/candidate_engine.py:220-236 | [] without syllables and the cache untouched; otherwise `get_candidates` of the space-joined syllables with no context and limit 50, and the cache as that call leaves it |
| Candidates.CandidateEngine.ClearCache | resources/lib/engine/candidate_engine.py:238-240 | the cache is empty |
| Candidates.CandidateEngine.AddUserPhrase | resources/lib/engine/candidate_engine.py:242-245 | the custom phrase is added to both user tables and the cache emptied |
| Candidates.PromotePreferences | resources/lib/engine/candidate_engine.py:201-216 | the promotion loops compute `PromoteAll` |
| Candidates.PopFirst | resources/lib/engine/candidate_engine.py:205-209 | the search loop pops exactly the first candidate with the phrase (`RemoveFirst`) |
| Candidates.GatherLoop | resources/lib/engine/candidate_engine.py:66-121 | the four gathering loops compute `Gather` |
| Candidates.SmartCandidateEngine.GetCandidatesSmart | resources/lib/engine/candidate_engine.py:256-261 | `get_candidates` with the last three outputs joined as context, and the engine's cache as that call leaves it |
| Candidates.SmartCandidateEngine.CommitAndRecord | resources/lib/engine/candidate_engine.py:263-277 | returns the phrase; the history gets the selection upserted (count 1, or its count + 1), the custom table is untouched, the cache loses the keys containing the zhuyin, and the phrase is pushed onto the window of 10 |
| Candidates.LastOutputChar | resources/lib/engine/candidate_engine.py:281-286 | nothing exactly without output or when the last output is empty, otherwise its last character |
| Candidates.SmartCandidateEngine.GetContinuationCandidates | resources/lib/engine/candidate_engine.py:279-303 | [] without output or when the last output is empty; otherwise the continuations of the ten phrases associated with the last output's last character |
| Candidates.SmartCandidateEngine.ClearContext | resources/lib/engine/candidate_engine.py:305-307 | the recent output is empty |
| Learning.BumpCount | resources/lib/engine/learning.py:77-81 | a `+=` on one (key, name) raises exactly that count by the amount and no other |
| Learning.BumpValid | resources/lib/engine/learning.py:77-81 | a `+=` keeps keys unique and groups non-empty |
| Learning.TotalBump | resources/lib/engine/learning.py:77 | each `+= 1` adds one to the total selections |
| Learning.MergeCountsAdds | resources/lib/engine/learning.py:199-208 | after a merge every count is the old count plus the imported one |
| Learning.MergeCountsValid | resources/lib/engine/learning.py:199-208 | merging keeps keys unique and groups non-empty |
| Learning.ImportExportRoundTrip | resources/lib/engine/learning.py:189-208 | importing exported data into empty tables gives the same tables back |
| Learning.MergeLoop | resources/lib/engine/learning.py:199-208 | the nested import loops compute `MergeCounts` |
| Learning.MaxTally | resources/lib/engine/learning.py:121 | `max` returns the first tally of greatest count |
| Learning.Count | resources/lib/engine/learning.py:101 | `get(k1, {}).get(k2, 0)`: with unique keys, the recorded count of the pair, and 0 when either key is absent |
| Learning.PhrasesAtLeastGroups | resources/lib/engine/learning.py:219-224 | with no empty group, unique phrases are at least unique zhuyin |
| Learning.PairsCount | resources/lib/engine/learning.py:221-224 | with unique keys at both levels, summing the group sizes counts the distinct (zhuyin, phrase) pairs |
| Learning.LearningEngine.constructor | resources/lib/engine/learning.py:34-48 | the tables start as the stored file's counts merged into empty tables, and the session empty |
| Learning.LearningEngine.RecordSelection | resources/lib/engine/learning.py:67-88 | the phrase count goes up by one, the bigram count only with a previous character and a non-empty phrase, and the file is written on every 10th selection |
| Learning.LearningEngine.GetPreferenceScore | resources/lib/engine/learning.py:90-101 | the recorded count of the phrase under the zhuyin, and 0 when either key was never recorded |
| Learning.LearningEngine.GetBigramScore | resources/lib/engine/learning.py:103-114 | the recorded count of the next character after the previous one, and 0 when either was never recorded |
| Learning.LearningEngine.GetPreferredPhrase | resources/lib/engine/learning.py:116-121 | None exactly when the zhuyin was never recorded; otherwise a phrase of greatest count, and with unique keys the first of them in insertion order, as `max` returns |
| Learning.LearningEngine.GetLikelyNextChars | resources/lib/engine/learning.py:123-139 | [] for an unknown character; whenever the character was recorded, its followers by count descending (stable) and cut to `limit` |
| Learning.LearningEngine.Adjusted | resources/lib/engine/learning.py:152-160 | only the frequency changes: +100 per preference use, plus 50 per bigram use with a previous character |
| Learning.LearningEngine.AdjustCandidateScores | resources/lib/engine/learning.py:141-162 | the loop adjusts every candidate as `Adjusted` says, in order |
| Learning.LearningEngine.ClearLearningData | resources/lib/engine/learning.py:169-176 | all tables and the session are empty and the stored file is gone |
| Learning.LearningEngine.ExportData | resources/lib/engine/learning.py:178-187 | the two tables as they are, well-formed; `ImportExportRoundTrip` shows they import back unchanged |
| Learning.LearningEngine.ImportData | resources/lib/engine/learning.py:189-212 | the tables after adding the imported counts, to the old tables or to empty ones, after which they are saved |
| Learning.LearningEngine.GetStatistics | resources/lib/engine/learning.py:214-233 | the total of all counts, the number of zhuyin, the number of session selections, and unique phrases equal to the number of distinct (zhuyin, phrase) pairs |
| CandidateList.NextIndex | resources/lib/ui/candidate_list.py:80 | the next index, wrapping from the last to the first |
| CandidateList.PreviousIndex | resources/lib/ui/candidate_list.py:96 | the previous index, wrapping from the first to the last (Python's remainder) |
| CandidateList.NextPreviousInverse | resources/lib/ui/candidate_list.py:75-105 | stepping forward then back, or back then forward, returns to the same index |
| CandidateList.MaxPage | resources/lib/ui/candidate_list.py:135 | -1 for an empty list, otherwise the page that holds the last candidate |
| CandidateList.CandidateListControl.SetCandidates | resources/lib/ui/candidate_list.py:37-42 | the new list with index and page reset to 0 |
| CandidateList.CandidateListControl.Clear | resources/lib/ui/candidate_list.py:44-49 | an empty list with index and page 0 |
| CandidateList.CandidateListControl.SelectNext | resources/lib/ui/candidate_list.py:75-89 | nothing on an empty list, otherwise the next index wrapping round; the page always shows the selection |
| CandidateList.CandidateListControl.SelectPrevious | resources/lib/ui/candidate_list.py:91-105 | the mirror image of `select_next` |
| CandidateList.CandidateListControl.SelectByNumber | resources/lib/ui/candidate_list.py:107-125 | None exactly when the key is outside 1..9 or past the list; otherwise that slot of the page, which becomes selected |
| CandidateList.CandidateListControl.GetSelected | resources/lib/ui/candidate_list.py:127-131 | None exactly for an empty list, otherwise the selected candidate |
| CandidateList.CandidateListControl.NextPage | resources/lib/ui/candidate_list.py:133-139 | one page on with its first candidate selected, never past the last page |
| CandidateList.CandidateListControl.PreviousPage | resources/lib/ui/candidate_list.py:141-146 | one page back with its first candidate selected, never below page 0 |
| CandidateList.CandidateListControl.TotalPages | resources/lib/ui/candidate_list.py:148-153 | 0 exactly for an empty list, otherwise the fewest pages of nine that hold every candidate |
| CandidateList.CandidateListControl.CurrentPage | resources/lib/ui/candidate_list.py:155-158 | counted from 1, the page whose nine slots hold the selected index, and never more than the total |
| CandidateList.CandidateListControl.GetPageInfo | resources/lib/ui/candidate_list.py:160-164 | empty exactly without candidates, otherwise framed by "第 " and " 頁" |
| CandidateList.CandidateBar.SetCandidates | resources/lib/ui/candidate_list.py:182-185 | the leading candidates, as many as there are labels |
| CandidateList.CandidateBar.Clear | resources/lib/ui/candidate_list.py:187-190 | no candidates |
| CandidateList.CandidateBar.Select | resources/lib/ui/candidate_list.py:206-210 | None exactly when `num` is outside 1..len, otherwise the candidate labelled `num` |
| InputBar.TextLabel | resources/lib/ui/input_bar.py:104-106 | text over 30 shows as "..." and a suffix of it, exactly 30 long; shorter text shows whole |
| InputBar.ZhuyinLabel | resources/lib/ui/input_bar.py:113-116 | the zhuyin in brackets, or empty exactly when there is none |
| InputBar.StatusText | resources/lib/ui/input_bar.py:125-132 | the three named states have labels and any other state shows nothing |
| InputBar.InputBar.SetCommittedText | resources/lib/ui/input_bar.py:43-46 | the text is replaced and the zhuyin and state kept |
| InputBar.InputBar.AppendText | resources/lib/ui/input_bar.py:48-51 | the text grows by the argument; the zhuyin is unchanged |
| InputBar.InputBar.DeleteLastChar | resources/lib/ui/input_bar.py:53-64 | True exactly when the text was non-empty, and then exactly its last character is gone |
| InputBar.InputBar.SetCurrentZhuyin | resources/lib/ui/input_bar.py:66-69 | the zhuyin is replaced and the text kept |
| InputBar.InputBar.AppendZhuyin | resources/lib/ui/input_bar.py:71-74 | the zhuyin grows by the symbol; the text is unchanged |
| InputBar.InputBar.DeleteLastZhuyin | resources/lib/ui/input_bar.py:76-87 | True exactly when the zhuyin was non-empty, and then exactly its last symbol is gone |
| InputBar.InputBar.ClearZhuyin | resources/lib/ui/input_bar.py:89-92 | the zhuyin is empty and the text kept |
| InputBar.InputBar.SetState | resources/lib/ui/input_bar.py:94-97 | the state is replaced and both buffers kept |
| InputBar.InputBar.GetFullText | resources/lib/ui/input_bar.py:134-136 | the committed text alone, without the zhuyin being composed |
| InputBar.InputBar.GetDisplayText | resources/lib/ui/input_bar.py:138-142 | the committed text followed by the bracketed zhuyin when there is one |
| InputBar.InputBar.ClearAll | resources/lib/ui/input_bar.py:144-151 | both buffers empty and the state idle |
| InputBar.CompactLine | resources/lib/ui/input_bar.py:205-207 | the text, then a space and the bracketed zhuyin when there is one |
| InputBar.CompactLabel | resources/lib/ui/input_bar.py:209-214 | a line over 40 becomes "..." and a suffix of it, exactly 40 long; a shorter line shows whole |
| InputBar.CompactInputBar.Update | resources/lib/ui/input_bar.py:184-197 | each buffer is replaced only when its argument is given |
| InputBar.CompactInputBar.Label | resources/lib/ui/input_bar.py:199-216 | the label is never longer than 40 |
| InputBar.CompactInputBar.Clear | resources/lib/ui/input_bar.py:218-222 | both buffers empty |
| CecHandler.KeyName | resources/lib/utils/cec_handler.py:129-131 | the mapped key name, or nothing for an unmapped action |
| CecHandler.Route | resources/lib/utils/cec_handler.py:107-127 | a number key with a number callback, else a named key with a callback, else a colour key with a callback, else unhandled |
| CecHandler.Handle | resources/lib/utils/cec_handler.py:91-127 | a repeat counts one more press and at three or more fires a ready long press, resetting the count; a new action starts at 1; otherwise `Route` decides |
| CecHandler.HoldCounting | resources/lib/utils/cec_handler.py:94-105 | with a key held, the count cycles through 1, 2, 0 and every press that reaches three is a long press |
| CecHandler.HoldFiresEveryThird | resources/lib/utils/cec_handler.py:94-105 | a held key reports a long press on exactly the 3rd, 6th, 9th ... press |
| CecHandler.CecHandler.HandleAction | resources/lib/utils/cec_handler.py:81-127 | the detector's new state and the dispatch are `Handle`'s, and True is returned exactly when a callback runs |
| CecHandler.CecHandler.RegisterCallback | resources/lib/utils/cec_handler.py:63-71 | the key gains a callback and nothing else changes |
| CecHandler.CecHandler.RegisterNumberCallback | resources/lib/utils/cec_handler.py:73-75 | a number callback is set |
| CecHandler.CecHandler.RegisterLongPressCallback | resources/lib/utils/cec_handler.py:77-79 | a long-press callback is set |
| CecHandler.CecHandler.ClearCallbacks | resources/lib/utils/cec_handler.py:133-137 | no callbacks remain; the detector is kept |
| CecHandler.Start | resources/lib/utils/cec_handler.py:171-178 | a zero delta keeps that coordinate; otherwise the coordinate is (p + delta) mod n: in range and differing from p + delta by a multiple of n |
| CecHandler.Next | resources/lib/utils/cec_handler.py:183-186 | one wrapping step along the column delta if any, else along the row delta |
| CecHandler.Scan | resources/lib/utils/cec_handler.py:181-190 | the skip loop stops on a free cell or after rows*cols attempts, stays on the grid and only moves along its axis |
| CecHandler.ScanFinds | resources/lib/utils/cec_handler.py:182-186 | when the scan axis holds a cell that is not skipped, the move never ends on a skipped cell |
| CecHandler.KeyboardNavigation.Move | resources/lib/utils/cec_handler.py:160-195 | the loop computes `Scan` from `Start` (and so terminates within rows*cols+1 steps), and the result becomes the in-range current cell |
| CecHandler.KeyboardNavigation.MoveUp | resources/lib/utils/cec_handler.py:197-198 | `move(-1, 0)` |
| CecHandler.KeyboardNavigation.MoveDown | resources/lib/utils/cec_handler.py:200-201 | `move(1, 0)` |
| CecHandler.KeyboardNavigation.MoveLeft | resources/lib/utils/cec_handler.py:203-204 | `move(0, -1)` |
| CecHandler.KeyboardNavigation.MoveRight | resources/lib/utils/cec_handler.py:206-207 | `move(0, 1)` |
| CecHandler.Clamp | resources/lib/utils/cec_handler.py:211-212 | a coordinate in range is kept, one below goes to 0 and one above to the last row or column |
| CecHandler.KeyboardNavigation.SetPosition | resources/lib/utils/cec_handler.py:209-212 | both coordinates clamped into the grid |
| CecHandler.KeyboardNavigation.GetLinearIndex | resources/lib/utils/cec_handler.py:218-220 | an index in 0..rows*cols-1 from which the row and column are read back |
| CecHandler.KeyboardNavigation.GetPosition | resources/lib/utils/cec_handler.py:214-216 | the current cell, which is always on the grid |
| CecHandler.LinearIndex | resources/lib/utils/cec_handler.py:218-220 | row-major indices of the grid's cells are in range and invertible |
| Launcher.SplitArg | default.py:32-36 | no '=' gives a flag; otherwise a key without '=' and a value that rejoin to the argument |
| Launcher.SplitArgJoin | default.py:32-34 | only the first '=' splits: any key without '=' and any value come back out unchanged |
| Launcher.ArgsFromAppend | default.py:34-36 | each argument is one dictionary assignment, so a later duplicate key overwrites |
| Launcher.ArgsFromLookup | default.py:30-36 | a key is present exactly when some argument has it, and the last such argument decides its value |
| Launcher.ParsedArgs | default.py:26-38 | a lone program name gives {}; the keys are those of argv[1:], each with the value of its last occurrence |
| Launcher.ParseArgs | default.py:26-38 | the loop computes `ParsedArgs` |

## Left out

- SQLite plumbing: connections, schema and index creation, database paths. The tables are rows in rowid order.
- `LIKE x%` is a plain prefix test; its `_`/`%` wildcards inside `x` and its ASCII case folding are not modelled.
- `CURRENT_TIMESTAMP` is a clock value the caller passes in.
- JSON reading and writing, `datetime`, and `os.remove`. The learning engine's statistics file is the `stored` snapshot. Deleting it is modelled as an empty snapshot, and a periodic save as replacing the snapshot.
- A statistics file that fails to load: the constructor takes the snapshot as given.
- `end_session` has an empty body and is not modelled.
- `int()` accepts forms the model rejects: underscores between digits and non-ASCII digits. The model accepts a sign ('+' or '-') and ASCII digits, and `str.strip` strips Python's `str.isspace` set.
- SQLite's 64-bit INTEGER is not modelled, because `int` is unbounded: Python raises OverflowError when binding a value above 2^63-1, and `frequency + ?` past that bound turns the column into REAL.
- Python dict order is modelled only where it decides a result: ties in `max`, stable `sorted`, and the cache's eviction order.
- SQL `ORDER BY` leaves the order of rows that tie on every sort column to the query plan. The model breaks such ties in rowid order, for `search`, `search_prefix`, `search_without_tone`, `get_single_char`, `get_associated_phrases` and `get_user_preference`. The contracts (`IsTopK`) leave ties open, but the model's bodies fix that order, and the stable candidate sort carries it on to candidates of equal score.
- `get_possible_completions` lists the parser's symbol sets, and Python's iteration order over a set of strings changes from run to run with hash randomisation. The model takes that order as the sequences of its symbol table.
- Candidates.CandidateEngine.GetCandidates: the model computes the fresh answer as a function of the tables. The source skips the prefix and associated queries when the list is already full; those queries are pure reads, so the result is the same.
- Learning.LearningEngine.AdjustCandidateScores: returns new candidates and does not mutate the caller's objects. The aliasing with lists held in the candidate cache is not modelled.
- A cache hit returns the very list object stored in the cache. Aliasing of that list is not modelled.
- Candidates.PromoteAllLeads: the ordering is proved only for preferences with distinct phrases and for a front with none of them. The history's UNIQUE(zhuyin, phrase) constraint guarantees distinct phrases for one zhuyin.
- CandidateList.CandidateListControl.GetPageInfo: states the empty case and the "第 … 頁" frame, not the digits between them.
- InputBar.CompactInputBar.Label: states the 40-character bound; `CompactLabel` and `CompactLine` state the rest.
- Kodi controls: `_refresh_display`, `getControl`, `setLabel`, `selectItem`, `ListItem`, and the labels' numbering. Only the state and the strings computed for it are modelled.
- Callbacks are not invoked. The handler returns which one runs, and callbacks are modelled by their presence.
- The `xbmcgui` action ids are not part of this model. The handler's three tables are constructor parameters.
- CecHandler.KeyboardNavigation.constructor requires at least one row and one column. With none, `move` would divide by zero and `set_position` would leave the grid.
- The on-screen keyboard window, the settings wrapper, the background service and the entry point's `main` are not part of this model.
- The `utils/constants` module is not part of this model. The symbol classes and tone numbers are a parameter of the parser.
- The source gives the user preferences limit 10 in `get_candidates` and limit 5 in `get_single_char_candidates`; the model follows that.
