# Sumerian tagger corpus processing, modelled in Dafny

This project models the corpus-processing core of the Sumerian part-of-speech
tagger (`eleuthero/sumerian-crf`, Python 2). The core reads ATF transliterations
(a text line, then its `#lem:` lemmatisation line) and produces tagged, segmented
and partitioned corpora. Every script works on a sequence of lines. Here each
input is a `seq<string>` (a `Streams.Reader` where the script reads line by line),
and each output is a `Streams.Writer` whose `written` sequence only grows.

Modules, one per source file:

- `Strings`: the Python string operations the scripts use: `find`, `in`,
  `split`, `split()`, `strip`, `join`, `replace` and `translate(None, chars)`.
  It also has a string order for `sorted` and a few generic sequence lemmas.
- `Streams`: line readers (`readline` returns `""` at end of input), appending
  writers, and `pairwise`.
- `Counters`: `collections.Counter` as an association list in insertion
  order, with `+= n` and `most_common(1)`.
- `Tablet` (`tablet.py`): the `Line` class.
  - `clean` is a string pipeline proved equal to the function `Cleaned`.
  - The `removeAdditions` and `removeErasures` loops are methods proved against
    `WithoutAdditions` and `Erased`. Their termination is a measure on the
    length of the string.
  - `parse`, `add_word` and `scan_for_damage` update the object's fields.
- `TagCorpus` (`tag_corpus.py`):
  - the word-to-lemma index as a class whose map field `buildIndex` and
    `optimizeIndex` update;
  - the folded export of `dumpIndex`;
  - `formatLems`, `getLem` and `process`;
  - the grouping loop of `parse`, which accumulates lines and flushes them at
    each `&` line.
- `Partition` (`partition_corpus.py`):
  - `get_next_tablet`, which splits on blank lines and tags each line with the
    most recent `<l damaged="…">` state;
  - the header copy;
  - the train/test cycle of `gcd` arithmetic;
  - the damage filters of the three outputs.
- `Segment` (`segment.py`):
  - `get_next_tablet`;
  - the header skip;
  - batching into groups of `--count` tablets;
  - the per-tablet human and machine files, as maps from file index to contents.
- `GenerateCorpus` (`generate_corpus.py`): the `&`-delimited tablet grouping and
  language filter.
  - The intended loop is stated tablet by tablet.
  - The loop as written, whose buffer is the very list being iterated, is
    modelled separately (see Findings).
- `Baseline` (`baseline.py`):
  - `get_elements`;
  - the most-common-tag index;
  - the eight-counter confusion matrix of `evaluate`.
- `Context` (`context.py`): the CRF feature writer.
  - Neighbour lookup, gloss removal and `test_all`/`test_any`.
  - The header and the feature row, proved to have the same number of fields.

Where the code and its comments disagree, the model follows the code:

- `pairwise` yields n−1 pairs, never `(n, None)`.
- `clean`'s `...`→`x` step can be undone by the later noise deletion.
- `get_liang_induced_context_rules` is empty, so the header has one column per
  spelling rule and none for context rules.
- `write_tablet_files` numbers files from 0 in every batch, so each batch
  overwrites the files of the one before.
- At `--percent 0` the train counter goes negative and never switches, and at
  `100` it switches to test once and never back.
- A `--count` given on the command line is a string and never equals the
  batch length, so everything lands in one final batch.

## Model

| member | source | states |
|---|---|---|
| `Tablet.DropLineNumberIsTail` | tablet.py:275-277 | dropping the first space-separated token leaves exactly the text after the first space, or nothing without a space |
| `Tablet.RemoveImpliedKeepsPlainText` | tablet.py:288-290 | the implied-sign substitution leaves a line without `<` unchanged |
| `Tablet.ErasureCut` | tablet.py:266 | one erasure cut makes the line strictly shorter |
| `Tablet.ErasedClean` | tablet.py:256-269 | when the loop ends, no `!(` is left in the line |
| `Tablet.ErasureStep` | tablet.py:263-267 | a terminating line always has a `)` after its first `!(`; the cut keeps the final result and termination |
| `Tablet.UnclosedErasureDiverges` | tablet.py:263-267 | a `!(` with no `)` anywhere after it makes the loop run forever |
| `Tablet.ClosedBeforeDiverges` | tablet.py:263-267 | the line `a)b!(c` loops forever: a `)` before the `!(` does not close it |
| `Tablet.AdditionCut` | tablet.py:250 | one addition cut makes the line strictly shorter (the termination measure) |
| `Tablet.WithoutAdditionsClean` | tablet.py:236-253 | the result of `removeAdditions` contains no `<<`, including after an unclosed `<<` deletes every `<` |
| `Tablet.Cleaned` | tablet.py:271-340 | the cleaned text holds none of the noise characters `[]!?#*<>` |
| `Tablet.EllipsisCollapsed` | tablet.py:305-308 | right after the substitution no `...` is left |
| `Tablet.EllipsisCanReappear` | tablet.py:271-340 | the line `1 ..[.` cleans to `...`: noise deletion after the substitution can create a new `...` |
| `Tablet.LemmaTokens` | tablet.py:96-97 | one lemma token per `;`-separated piece |
| `Tablet.LemmataOf` | tablet.py:63-68 | `get_lemmata` is None exactly when no entry has the word, and otherwise the lemmata of the first entry that has it |
| `Tablet.Selected` | tablet.py:107-119 | the recorded positions are in range and strictly increasing (left to right) |
| `Tablet.AlignLength` | tablet.py:107-119 | the loop records one entry per selected position |
| `Tablet.AlignAt` | tablet.py:171-179 | entry k pairs the k-th selected word with its lemma token split on `|` |
| `Tablet.AlignIsSelection` | tablet.py:107-182 | the recorded entries are exactly the selected words with their split tokens, in order |
| `Tablet.SelectedWordsKept` | tablet.py:111-117 | no recorded word is `:` or a comment delimiter, and no word at or after a `%a`/`=` is recorded |
| `Tablet.SelectedOutsideComments` | tablet.py:153-169 | a word after a `($` token is recorded only once a later `$)` token has closed the comment |
| `Tablet.ParseRecordCleaned` | tablet.py:92-124 | a lemmatised text line is aligned on its cleaned text |
| `Tablet.UnalignedLines` | tablet.py:73-90 | no lemma: valid with no words; a comment line: valid, no words, lem cleared; a line with `_`: invalid, no words, lem cleared |
| `Tablet.LemmatisedLineIsCleaned` | tablet.py:92 | otherwise the stored line is the cleaned text and the record is its alignment |
| `Tablet.ValidIffCountsMatch` | tablet.py:94-103 | `valid` holds exactly when the word count equals the `;`-token count; an invalid line records no words |
| `Tablet.ValidLineWords` | tablet.py:103-119 | in a valid line, entries follow increasing word positions, each being token i split on `|`, so there are at most as many entries as tokens; the skip, language-switch and comment rules hold |
| `Tablet.DamageFlags` | tablet.py:185-218 | `damaged` iff some recorded word is damaged; `damaged_and_tagged` iff some recorded word is damaged and no damaged word carries the lemma `u`; it implies `damaged` |
| `Tablet.Line.constructor` | tablet.py:45-60 | the new object's fields are `ParseLine` of the text and the lemma line (marker removed) |
| `Tablet.Line.Parse` | tablet.py:71-124 | the fields after `parse` are the record `ParseRecord` describes |
| `Tablet.Line.AddWords` | tablet.py:105-119 | the loop appends the alignment of the words, stopping at a language switch |
| `Tablet.Line.AddWord` | tablet.py:127-182 | `add_word` appends the entry unless the word is skipped or in a comment, and returns the new comment flag |
| `Tablet.Line.ScanForDamage` | tablet.py:185-218 | the flags become `AnyDamaged` and `DamagedAndTagged` of the words, early return included |
| `Tablet.Line.Clean` | tablet.py:271-340 | the pipeline computes `Cleaned` |
| `Tablet.Line.RemoveAdditions` | tablet.py:221-253 | the loop computes `WithoutAdditions` and leaves no `<<` |
| `Tablet.Line.RemoveErasures` | tablet.py:256-269 | when it terminates, the loop computes `Erased` |
| `Streams.Pairwise` | tag_corpus.py:73-76 | n lines give n−1 pairs `(L[i], L[i+1])` |
| `Streams.Reader.ReadLine` | segment.py:31 | `readline` gives the next line and advances, or `""` exactly at the end of the input |
| `Counters.Inc` | tag_corpus.py:114 | `counter[k] += n` adds n to k's count, leaves other keys, adds n to the total, keeps keys distinct |
| `Counters.MostCommon` | tag_corpus.py:153 | `most_common(1)` is empty exactly for an empty counter, otherwise the first entry of maximal count |
| `Counters.MostCommonIsMax` | tag_corpus.py:153 | the most common count is the key's own count and no key has a larger one |
| `TagCorpus.RecordLemmata` | tablet.py:171-179 | every recorded word has at least one lemma |
| `TagCorpus.CountAllCounts` | tag_corpus.py:113-114 | each lemma's count grows by its number of occurrences; the total grows by the number of lemmata |
| `TagCorpus.AddOccurrenceCount` | tag_corpus.py:108-114 | one word occurrence makes the word a key and adds its lemmata's counts |
| `TagCorpus.AddWordsKeys` | tag_corpus.py:99-109 | after a line, the keys are the old keys plus the line's words |
| `TagCorpus.AddWordsCount` | tag_corpus.py:99-114 | a line adds to (word, lemma) exactly the number of that word's occurrences carrying that lemma |
| `TagCorpus.LineMonotone` | tag_corpus.py:99-114 | indexing one line only increases counts |
| `TagCorpus.IndexedMonotone` | tag_corpus.py:87-114 | `buildIndex` only ever increases counts and keeps keys |
| `TagCorpus.IndexedCovers` | tag_corpus.py:87-114 | every word of every valid lemmatised line becomes a key |
| `TagCorpus.IndexedSound` | tag_corpus.py:87-114 | every counter in the index has distinct keys and at least one entry |
| `TagCorpus.Best` | tag_corpus.py:143-159 | the optimised index has the same words |
| `TagCorpus.BestIsMax` | tag_corpus.py:150-159 | after `optimizeIndex` each counter has one entry, a lemma of the word whose count is the old maximum |
| `TagCorpus.BestIdempotent` | tag_corpus.py:143-159 | optimising twice is optimising once |
| `TagCorpus.TagOf` | tag_corpus.py:133-136 | a key containing `[` or `]` folds to `W`, so no folded tag is glossed |
| `TagCorpus.TagsCounts` | tag_corpus.py:124-138 | the folded counts keep the word's total; glossed keys count only towards `W` |
| `TagCorpus.DumpLines` | tag_corpus.py:124-138 | one exported line per word |
| `TagCorpus.SortedKeys` | tag_corpus.py:124 | the words of the index in strictly ascending order, each once |
| `TagCorpus.CountTags` | tag_corpus.py:125-136 | the fold loop computes `Tags` |
| `TagCorpus.FormatLem` | tag_corpus.py:165-172 | a lemma with `[` and `]` becomes `W` under nogloss and `PF` under pf (if a profession, nogloss winning); others pass unchanged |
| `TagCorpus.Formatted` | tag_corpus.py:162-174 | one formatted field per lemma |
| `TagCorpus.FormatLemsFields` | tag_corpus.py:162-174 | splitting the comma-joined result on `,` gives back the formatted fields |
| `TagCorpus.FormatLems` | tag_corpus.py:162-174 | the loop joins the formatted lemmata with commas |
| `TagCorpus.ChosenMeaning` | tag_corpus.py:177-200 | unknown word → `X`; one lemma → itself; several with bestlemma → one lemma of maximal count; otherwise the word's lemmata, each once |
| `TagCorpus.DamageAttrMeaning` | tag_corpus.py:244-251 | the attribute is `recoverable`, `unrecoverable` or `False` exactly as the line's damage flags say |
| `TagCorpus.Rows` | tag_corpus.py:256-257 | one row per recorded word |
| `TagCorpus.WordRowWidth` | tag_corpus.py:205-218 | every word row has `RowWidth` fields and starts with the word |
| `TagCorpus.ProcessedShape` | tag_corpus.py:221-260 | nothing for a line without lemma; otherwise `<l damaged="…">`, one row per word, `</l>` (the tags only without `--bare`) |
| `TagCorpus.KeptRecords` | tag_corpus.py:278-283 | one (possibly empty) accumulated record per pair |
| `TagCorpus.AccumulatedCovers` | tag_corpus.py:271-306 | the flushed tablets followed by the pending lines are exactly the accumulated lines, in order |
| `TagCorpus.AccumulatedBatches` | tag_corpus.py:288-298 | one flush per pair whose second line starts with `&` |
| `TagCorpus.AccumulatedClosed` | tag_corpus.py:296-298 | after a flush nothing is pending |
| `TagCorpus.ParseOutputParts` | tag_corpus.py:263-306 | the output is the CRF header, then the flushed tablets, then the trailing tablet |
| `TagCorpus.Accumulate` | tag_corpus.py:278-283 | a Line is appended exactly when the text line is not a comment and is followed by `#lem:` |
| `TagCorpus.Index.constructor` | tag_corpus.py:27 | the index starts empty |
| `TagCorpus.Index.BuildIndex` | tag_corpus.py:87-114 | the index becomes `Indexed` of the pairs of lines |
| `TagCorpus.Index.IndexLine` | tag_corpus.py:90-114 | one pair updates the index as `IndexPair` |
| `TagCorpus.Index.IndexWords` | tag_corpus.py:99-114 | the loop over a line's words computes `AddWords` |
| `TagCorpus.Index.CountLemmata` | tag_corpus.py:113-114 | the inner loop adds the word's lemmata to its counter only |
| `TagCorpus.Index.OptimizeIndex` | tag_corpus.py:143-159 | without bestlemma nothing changes; with it, success exactly when no counter is empty, and then the index becomes `Best` |
| `TagCorpus.Index.DumpIndex` | tag_corpus.py:117-140 | writes `{`, one folded line per word in ascending order, `}` |
| `TagCorpus.Index.GetLem` | tag_corpus.py:177-202 | returns the formatted chosen lemmata |
| `TagCorpus.Index.PrintWord` | tag_corpus.py:205-218 | writes the word row |
| `TagCorpus.Index.Process` | tag_corpus.py:221-260 | writes `Processed` of the line |
| `TagCorpus.Index.PrintWords` | tag_corpus.py:256-257 | writes the rows of every recorded word, in order |
| `TagCorpus.Index.ProcessLines` | tag_corpus.py:293-294 | writes every line's output, in order |
| `TagCorpus.Index.Parse` | tag_corpus.py:263-306 | writes `ParseOutput` of the pairs of lines |
| `TagCorpus.Index.ParseTrailing` | tag_corpus.py:302-306 | the lines left at the end are written as one more tablet, only if there are some |
| `TagCorpus.Index.ParseTablets` | tag_corpus.py:271-298 | the loop flushes exactly the tablets `Accumulated` describes and leaves its pending lines |
| `TagCorpus.Index.ParseStep` | tag_corpus.py:278-298 | one pass advances the accumulation by one pair |
| `TagCorpus.Index.CloseTablet` | tag_corpus.py:288-298 | on an `&` line the batch is flushed and emptied, otherwise it is kept |
| `TagCorpus.Index.Flush` | tag_corpus.py:292-294 | a flush writes a blank line and processes the batch |
| `Partition.Declared` | partition_corpus.py:86-91 | `damaged="False"` declares no damage; a line declaring nothing keeps the previous state |
| `Partition.NextTablet` | partition_corpus.py:53-112 | None exactly at end of input; a tablet ends with `('\n', none)` and consumes at least one line |
| `Partition.BodyBound` | partition_corpus.py:103-105 | once a damage state is known, reading cannot fail |
| `Partition.FirstLineDecides` | partition_corpus.py:82-105 | reading fails (unbound `damage_state`) exactly when the first line is neither blank nor a `<l` line declaring a state |
| `Partition.BodyUsed` | partition_corpus.py:74-112 | the tablet has one entry per line read, plus a synthesized blank line when the input ended without one |
| `Partition.BodyEntry` | partition_corpus.py:82-105 | every entry but the last is its line (`<l` lines rewritten to `<l>`) with the latest declared state |
| `Partition.TabletTexts` | partition_corpus.py:53-112 | the texts of a tablet are the lines read plus a synthesized blank line exactly when the input ends unterminated |
| `Partition.TabletLines` | partition_corpus.py:74-112 | a tablet ends with the consumed blank line or, at end of input, a synthesized one |
| `Partition.TabletsCover` | partition_corpus.py:150-196 | if reading never fails, the tablets' texts are every input line in order, plus at most one synthesized blank line |
| `Partition.GetNextTablet` | partition_corpus.py:53-112 | the reading loop computes `NextTablet` and consumes its lines |
| `Partition.PyMod` | partition_corpus.py:146 | Python's remainder has the sign of the divisor |
| `Partition.PyDiv` | partition_corpus.py:146 | Python 2 integer `/` is the floor quotient |
| `Partition.Gcd` | partition_corpus.py:145 | `gcd` is nonzero unless both arguments are zero |
| `Partition.GcdDivides` | partition_corpus.py:145 | for positive arguments the gcd is positive and divides both |
| `Partition.Divisor` | partition_corpus.py:145 | the divisor of the cycle is never zero |
| `Partition.CycleMatchesPercent` | partition_corpus.py:145-146 | for 0<p<100 both cycle lengths are positive and trainmax/(trainmax+testmax) = p/100 |
| `Partition.PercentEdges` | partition_corpus.py:145-146 | p=0 gives (0, 1) and p=100 gives (1, 0) |
| `Partition.CyclePeriodic` | partition_corpus.py:185-192 | `Cycle` (the counter and destination before tablet i, one `Tick` per tablet: `count -= 1`, switch and reload at zero) repeats every trainmax+testmax tablets when both lengths are positive, train first |
| `Partition.TrainCountPartial` | partition_corpus.py:148-192 | after k cycles and j tablets, train has k·trainmax + min(j, trainmax) tablets |
| `Partition.FullCycles` | partition_corpus.py:148-192 | after k full cycles train has k·trainmax tablets and test k·testmax |
| `Partition.NeverSwitches` | partition_corpus.py:185-192 | with trainmax ≤ 0 (p=0) the counter goes negative and every tablet goes to train |
| `Partition.SwitchesOnce` | partition_corpus.py:185-192 | with p=100 the first tablet goes to train and all later ones to test |
| `Partition.PercentDestinations` | partition_corpus.py:145-192 | `--percent 0` sends every tablet to train; `--percent 100` sends exactly the first one there |
| `Partition.FilterKeeps` | partition_corpus.py:153-178 | the filters keep exactly the accepted lines; never unrecoverable ones, and only undamaged ones unless damage is permitted |
| `Partition.WriteKept` | partition_corpus.py:154-178 | writes the accepted lines of a tablet, in order |
| `Partition.Schedule` | partition_corpus.py:185-192 | one destination per tablet, as the cycle gives it |
| `Partition.CopyHeader` | partition_corpus.py:124-129 | copies the lines through the first blank line to train, consuming exactly those |
| `Partition.SendTablet` | partition_corpus.py:153-178 | a train tablet goes to train undamaged only; a test tablet goes to test-remove undamaged and to test-permit undamaged or recoverable |
| `Partition.Send` | partition_corpus.py:152-178 | sending one more tablet extends each output's routed text |
| `Partition.Switch` | partition_corpus.py:185-192 | the destination changes exactly when the counter reaches zero |
| `Partition.ReadTablet` | partition_corpus.py:150-196 | each read removes the next tablet from the upcoming ones |
| `Partition.Deal` | partition_corpus.py:148-196 | the outputs receive the tablets as the schedule and filters route them; `crashed` exactly when reading fails |
| `Partition.Run` | partition_corpus.py:115-201 | header to train, a blank line to each test output, then the dealt tablets |
| `Segment.FirstBlank` | segment.py:112-116 | the index of the first blank line, or the length when there is none |
| `Segment.NextTablet` | segment.py:27-65 | None exactly at end of input; otherwise a tablet consuming at least one line |
| `Segment.NextTabletCut` | segment.py:45-63 | a tablet is the lines through the first blank line, or all lines plus a synthesized blank line |
| `Segment.TabletsComplete` | segment.py:27-65 | concatenating the tablets gives the input plus at most one synthesized blank line |
| `Segment.TabletsEndBlank` | segment.py:48-63 | every tablet ends in a blank line |
| `Segment.GetNextTablet` | segment.py:27-65 | the reading loop computes `NextTablet` and consumes its lines |
| `Segment.HumanPieces` | segment.py:74-79 | no piece of the human-readable file contains a tab |
| `Segment.HumanPiecesAppend` | segment.py:74-79 | the pieces of two stretches of lines are the first's pieces followed by the second's, so the file can be built line by line |
| `Segment.BatchesPartition` | segment.py:118-129 | batches concatenate back to the tablets; with an integer count all but the last have exactly `count` tablets |
| `Segment.TextCountOneBatch` | segment.py:13-17 | a count given as text never matches, so all tablets form one batch |
| `Segment.Directory.WriteTabletFiles` | segment.py:98-101 | tablet i's human and machine files are stored under index i |
| `Segment.Directory.WriteHumanFile` | segment.py:68-79 | the loop emits `HumanPieces` |
| `Segment.StoreHumanOverwrites` | segment.py:98-101 | the first n indexes get the new human files; higher indexes keep their old contents |
| `Segment.StoreMachineOverwrites` | segment.py:82-101 | the machine files are a blank line followed by the tablet, stored likewise |
| `Segment.SkipHeader` | segment.py:112-116 | skips exactly the lines through the first blank line |
| `Segment.ReadTablet` | segment.py:118-127 | each read removes the next tablet from the upcoming ones |
| `Segment.WriteBatches` | segment.py:118-129 | the directory holds the files of every batch, later batches overwriting earlier ones |
| `Segment.WriteBatch` | segment.py:123-125 | writes one batch's files |
| `Segment.Run` | segment.py:104-131 | the header is skipped, then the batches of the remaining tablets are written |
| `GenerateCorpus.Flush` | generate_corpus.py:78-85 | a lemmatised buffer goes wholly to the lemmatised output; otherwise its non-empty lines go to the unlemmatised output |
| `GenerateCorpus.Take` | generate_corpus.py:59-76 | the method follows `Buffer`: `&` resets the buffer and flags; `#atf … lang` is buffered and may set valid; `#lem:` sets lemma and is buffered unless removed; anything else is buffered |
| `GenerateCorpus.Handle` | generate_corpus.py:58-89 | one pass is `Step`: it buffers the line and flushes (then resets) when the next line starts with `&` |
| `GenerateCorpus.Parse` | generate_corpus.py:44-92 | with a fresh buffer the loop writes `Generated` |
| `GenerateCorpus.ChunksCover` | generate_corpus.py:61-65 | the stripped input splits into pieces each opened by an `&` line (all but the first) that together give back the input |
| `GenerateCorpus.FillTablet` | generate_corpus.py:61-76 | within one tablet, `valid` iff some `#atf` line with `lang` ends with the language, `lemma` iff some `#lem:` line, and the buffer is the kept lines |
| `GenerateCorpus.GeneratedByTablets` | generate_corpus.py:58-89 | the output is every tablet followed by an `&` line, flushed in turn; the last tablet is never written |
| `GenerateCorpus.AliasedNeverEnds` | generate_corpus.py:51-76 | as written, the input `a`,`a` makes every run keep appending to the list it iterates, so the loop never finishes |
| `GenerateCorpus.AsWrittenAgrees` | generate_corpus.py:51-89 | as written, an input opening with `&` finishes after n−1 passes with the same output as `Parse` |
| `Context.LeftContext` | context.py:78-87 | the entry `offset` places left when `index−offset ≥ 0`, else `(None, None)` |
| `Context.RightContext` | context.py:91-100 | the entry `offset` places right when `index+offset ≤ len−1`, else `(None, None)` |
| `Context.LeftIsRightOfReversed` | context.py:78-100 | the left context is the right context of the reversed line |
| `Context.Dedupe` | context.py:106 | `list(set(…))` keeps the same members, each once |
| `Context.RemoveGloss` | context.py:104-109 | None stays None, empty stays empty; otherwise no element contains `[` and none repeats |
| `Context.RemoveGlossMembers` | context.py:104-109 | the members are exactly the lemmata with glossed ones replaced by `W` |
| `Context.FormatContext` | context.py:113-117 | None exactly for None or empty input |
| `Context.FormatContextSplits` | context.py:113-117 | otherwise the comma-join, which splits back into the lemmata |
| `Context.TestPass` | context.py:845-846 | writes the field `1` |
| `Context.TestFail` | context.py:850-851 | writes the field `0` |
| `Context.TestAll` | context.py:827-832 | writes one field, `1` iff every test holds (so `1` on no tests) |
| `Context.TestOne` | context.py:896 | a one-test `test_all` writes the test's bit |
| `Context.TestAny` | context.py:836-841 | writes one field, `1` iff some test holds |
| `Context.AdjacentEqual` | context.py:954-955 | one comparison per adjacent pair of signs |
| `Context.RepetitionTests` | context.py:936-957 | a repeated first or last sign implies some repeated sign, which needs a hyphen |
| `Context.ProfessionTests` | context.py:961-969 | one test per (profession, lemma) pair |
| `Context.ProfessionTestsMeaning` | context.py:961-969 | the test fires iff some lemma equals (or contains) some profession |
| `Context.ContextsAreNeighbours` | context.py:862-869 | the left and right contexts are entries of the line or `(None, None)` |
| `Context.PositionFields` | context.py:894-934 | the position tests are 9 fields |
| `Context.SyllableFields` | context.py:936-957 | the syllable tests are 3 fields |
| `Context.ProfessionFields` | context.py:959-1005 | the profession tests are 6 fields |
| `Context.SpellingFields` | context.py:1007-1043 | the spelling tests are 9 fields |
| `Context.SentenceFields` | context.py:1045-1067 | the neighbour and head-of-sentence tests are 5 fields |
| `Context.FeatureFields` | context.py:894-1067 | the boolean features are 32 fields |
| `Context.Descriptive` | context.py:871-892 | the descriptive fields are 5 |
| `Context.RuleFields` | context.py:1069-1072 | one field per spelling rule: whether the word contains its token |
| `Context.RuleTitles` | context.py:817-821 | one title per rule, `<kind> <token> (<frequency>)` |
| `Context.RowMatchesHeader` | context.py:776-1072 | a feature row has exactly as many fields as the header has titles: 37 plus one per spelling rule |
| `Context.WriteHeader` | context.py:776-823 | writes the fixed titles, the rule titles and the newline |
| `Context.WriteRules` | context.py:817-821 | writes one title field per rule |
| `Context.Write` | context.py:855-1072 | writes the row |
| `Context.WriteDescriptive` | context.py:871-892 | writes the five descriptive fields |
| `Context.WriteFeatures` | context.py:894-1067 | writes the 32 boolean fields |
| `Context.WritePositionTests` | context.py:894-934 | writes the position tests |
| `Context.WriteSyllableTests` | context.py:936-957 | writes the syllable tests, `0` for a word of one sign |
| `Context.WriteProfessionTests` | context.py:959-1005 | writes the profession tests, `0` for a missing neighbour |
| `Context.WriteNeighbourTests` | context.py:971-1005 | writes a neighbour's profession test |
| `Context.WriteSpellingTests` | context.py:1007-1043 | writes the spelling tests |
| `Context.WriteSentenceTests` | context.py:1045-1067 | writes the neighbour and head-of-sentence tests |
| `Context.WriteRuleTests` | context.py:1069-1072 | writes one field per spelling rule |
| `Baseline.ElementsAppend` | baseline.py:71-77 | the elements of two stretches of lines are the first's followed by the second's, in line order |
| `Baseline.ElementsCount` | baseline.py:71-77 | exactly one element per line with at least two tab-separated fields |
| `Baseline.ElementsHaveNoTab` | baseline.py:72-77 | the word and the tag of an element are whole fields without tabs |
| `Baseline.CountedKeys` | baseline.py:85-88 | a word is indexed exactly when it was already or some element has it |
| `Baseline.CountedGet` | baseline.py:85-90 | `INDEX[word][pos]` grows by the number of elements equal to (word, pos) |
| `Baseline.CountedWellFormed` | baseline.py:85-90 | every counter keeps distinct tags and at least one entry |
| `Baseline.Best` | baseline.py:53-58 | the optimised index has the same words |
| `Baseline.BestIsMostFrequent` | baseline.py:56-58 | each word's tag is one of its tags with a maximal count |
| `Baseline.TrainedTags` | baseline.py:80-95 | from an empty index, the tagged words are exactly the training words, each tagged with a tag it carries no less often than any other |
| `Baseline.ScoredOne` | baseline.py:128-161 | each element increments exactly one counter: a known one iff the word is known, a positive iff the guess (`Guess`: the indexed tag, or `PN` for a novel word) is `PN`, a true one iff the guess is right |
| `Baseline.TallyKnown` | baseline.py:126-161 | the known counters count the elements with a known word |
| `Baseline.TallyTotal` | baseline.py:122-161 | the eight counters sum to the number of elements |
| `Baseline.TallyNames` | baseline.py:137-161 | true positives plus false negatives count the elements truly tagged `PN` |
| `Baseline.NovelNeverNegative` | baseline.py:128-161 | a novel word is guessed `PN`, so the novel negatives stay 0 |
| `Baseline.Index.constructor` | baseline.py:19 | the index starts empty |
| `Baseline.Index.Count` | baseline.py:85-90 | the counting loop computes `Counted` |
| `Baseline.Index.Optimize` | baseline.py:53-58 | the loop maps every word to its most common tag |
| `Baseline.Index.BuildIndex` | baseline.py:80-95 | counts the training elements (header skipped), then optimises |
| `Baseline.Index.Evaluate` | baseline.py:119-161 | the counting loop computes `Tally` of the test elements |

## Left out

- File and standard-stream I/O, `fileinput`, `argparse` (`init_parser` in every script) and output file names. Inputs are sequences of lines and outputs are appended sequences; the segment files are maps from file index to contents.
- `print_scores` in baseline.py: floating-point precision, recall and F1 with NaN defaults. `Evaluate` returns the eight counters that `print_scores` would consume.
- Regular expressions. `re_impl` is modelled as deleting a `<<…>>` span whose content is a non-empty run of its character class, and `re.sub(r'\.\.\.', 'x')` as literal replacement.
- `Counter.most_common` tie-breaking and dict iteration order. A counter is an association list in insertion order, and `MostCommon` picks the first maximal entry. Best-lemma properties are stated up to ties. The order of `list(set(…))` in `remove_gloss` is left open (only members and distinctness are stated).
- `repr` escaping of quotes in `dumpIndex`'s dictionary output. `DictRepr` writes keys between single quotes as given.
- Crashes are modelled as preconditions, because the source demands them of its callers:
  - an empty stripped text line (`line1[0]` in `parse`, `self.line[0]` in `Line.parse`);
  - a `!(` without a later `)` (`removeErasures` never returns);
  - an empty counter under `--bestlemma`, for which `OptimizeIndex` returns `ok == false`;
  - `skip_first` on an empty file;
  - header loops over an input with no blank line, which never terminate.
  An unbound `damage_state` in partition_corpus.py is an explicit `Unbound` outcome that ends `Deal` with `crashed`.
- The spelling-rule table and the professions list of context.py are parameters. Only their lengths and membership matter. The context-rule table is the empty constant the source returns.
- The commented-out slash handling in tablet.py and the dead feature code at the end of context.py.
- baseline.py keeps one global `INDEX` whose values change type from Counter to tag. `Baseline.Index` keeps the two stages in two fields, `counts` and `tags`.
- Tablet.EllipsisCollapsed: states "no `...`" of the text right after the substitution, not of the final cleaned text. The final text can contain `...` again (`Tablet.EllipsisCanReappear`).
- Tablet.RemoveImpliedKeepsPlainText: states only that text without `<` is unchanged. The deletion itself is stated by the definition `RemoveImplied`.

## Findings

| source | as written | input that shows it | evidently intended | confidence | as-written member | corrected member |
|---|---|---|---|---|---|---|
| generate_corpus.py:51-76 | `lines` is both the list `pairwise` iterates and the tablet buffer until the first reset, so every line buffered before the first `&` line is appended to the input being read | the two-line input `a`, `a` (no `&` line first): each pass appends another `a`, and the loop never ends | a fresh buffer, separate from the input, so the loop makes n−1 passes and writes each `&`-delimited tablet followed by an `&` line | not executed | `GenerateCorpus.AliasedNeverEnds` | `GenerateCorpus.GeneratedByTablets` |
