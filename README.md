# Quran Visions: verified model of the gharib merges, reference tables and saved-verse hooks

The application shows the Quran surah by surah. Each verse can carry two kinds of extra data:

- *gharib*: glosses of its rare words, one slot per commentary, `muyassar` and `siraj`;
- *shehri videos*: episodes of a video series on rare words.

The surahs live as one JSON file per surah. A handful of Node batch scripts enrich those files in place from reference tables. On the client, React hooks keep the reader's saved verses, bookmark collections and share links in localStorage, and export the saved verses as CSV, JSON or text.

This project is a Dafny model of that core, with proofs of what each part promises.

- **Corpus** (`corpus.dfy`): the shared frame of every batch script.
  - A directory is a map from file name to content.
  - Only `*.json` names are kept. JavaScript `parseInt` of the file stem gives the surah number; `NaN` is `None`.
  - Parsing may fail. The legacy key `ayahs` is normalised to `ayat`, and the two keys stay aliased in the written document.
  - A generic fold `RunFiles` runs the per-file step over the listing.
  - It proves that files are independent, that counters are sums over the original files, and that a step which settles makes the whole run idempotent.
- **Gloss merges**: `apply_gharib_fixed.dfy`, `apply_comprehensive_gharib.dfy` and `apply_extended_gharib.dfy`, with `glossmatch.dfy` for the matching rows and counters they share.
  - The three policies are: fill only blank slots; overwrite wordless slots, throwing on a missing slot key; overwrite unconditionally.
  - Each script is a method with loops, proved equal to `RunFiles` over a per-file specification function. Lemmas on those functions state first- or last-match-wins, idempotence and the meaning of the counters.
- **Video merge** (`add_gharib_to_all_surahs.dfy`): a de-duplicated append to `shehri_videos` by `videoId`, and the YouTube URL construction. It has no `NaN` guard.
- **Gharib extraction** (`extract_gharib_data.dfy`): a `"78:n"`-keyed dictionary is built from the Al-Naba file, then whole `gharib` objects are replaced across the corpus.
- **Reference tables**: `gharib_tables.dfy` and `video_mappings.dfy` hold the pure lookups over the rare-word tables and the video table, with excerpts of the real rows.
- **Client hooks**:
  - `saved_ayahs.dfy`, `bookmarks.dfy` and `share_links.dfy`: each hook is a class whose fields are the React state and the localStorage slot; the list transforms are functions with their own lemmas.
  - `export_ayahs.dfy`: the CSV, JSON and TXT contents, the TXT built by a `content +=` loop.
- **Support modules**:
  - `wrappers.dfy`: `Option`, and `Stored` (a storage slot that is absent, holds a value, or does not parse).
  - `seqs.dfy`: filter, find and subsequence lemmas.
  - `text.dfy`: decimal rendering, JavaScript `parseInt`, `join` and `split`, and the line structure of accumulated text.

Conventions of the model:

- **Given as parameters:** clock readings (`now`), generated ids, the page origin, and the locale or ISO rendering of dates.
- **Storage failures:** a failing localStorage write is the flag `writeFails`. A slot that does not parse is `Stored.Corrupt`.
- **Script write failures:** a `writeFileSync` that throws is caught by the file's `try`. The set `unwritable` names the files whose write fails. Such a file keeps its old content and is not counted as processed, but the counters its verses already bumped keep their increments.
- **JSON truthiness:** an empty object `{}` is truthy, as in the source. An expiry of `0` is falsy.

## Model

| member | source | states |
|---|---|---|
| Corpus.InitGharib | apply-gharib-fixed.mjs:41-46 | a verse without `gharib` gets two empty slots; one that has it is returned unchanged; nothing but `gharib` differs |
| Corpus.Gloss | apply-gharib-fixed.mjs:57-70 | the slot written is a non-empty object with exactly the keys `word` and `meaning`, holding the given values |
| Corpus.JsonFiles | apply-gharib-fixed.mjs:14 | the kept names are exactly the listed names ending in `.json`, in listing order, without repetition when the listing has none |
| Corpus.StemOfJson | apply-gharib-fixed.mjs:22 | the base name of `d.json` without the extension is `d` |
| Corpus.NumberedFileName | apply-gharib-fixed.mjs:22-24 | `SurahNumber` gives a file named after an integer that integer back as surah number |
| Corpus.UnnumberedFileName | apply-gharib-fixed.mjs:22-24 | `SurahNumber` of a stem starting with a character that is not white space, a sign or a digit (such as `index`) is `NaN` |
| Corpus.Load | apply-gharib-fixed.mjs:30-36 | the verses are those under `ayat` when present, else those under `ayahs`; none exactly when both keys are missing |
| Corpus.Store | apply-gharib-fixed.mjs:30-32 | the written document holds the new verses under `ayat`, and also under `ayahs` when `ayat` was copied from there (the aliased array); other keys unchanged |
| Corpus.StoreLoaded | apply-gharib-fixed.mjs:79 | writing back the verses a document already holds under `ayat` reproduces the document |
| Corpus.WriteBack | apply-gharib-fixed.mjs:79-87 | the document is written and the file counted as processed exactly when its write does not fail; the entry and verse increments stand either way |
| Corpus.RunFilesCons | apply-gharib-fixed.mjs:20-88 | one turn of the file loop: the step's outcome replaces the file's content and its increments are added |
| Corpus.RunFilesVisit | apply-gharib-fixed.mjs:20-88 | one turn of the loop on an existing file, with the step already computed |
| Corpus.RunFilesPass | apply-gharib-fixed.mjs:26-87 | a listed name with no file behind it is a caught read error: nothing changes |
| Corpus.TallyOfAgree | apply-gharib-fixed.mjs:16-18 | the counter sums only depend on the contents of the listed files |
| Corpus.RunFilesKeys | apply-gharib-fixed.mjs:79 | `RunFiles` never creates or deletes a file |
| Corpus.RunFilesAt | apply-gharib-fixed.mjs:20-88 | `RunFiles`, the file loop: afterwards each listed file holds the step's outcome on its original content and every other file is untouched |
| Corpus.RunFilesTally | apply-gharib-fixed.mjs:16-80 | the counters of `RunFiles` end as the sums of the per-file increments over the original contents |
| Corpus.TallyOfNoneAdded | add-gharib-to-all-surahs.mjs:99 | when no file's step adds anything, the whole run adds nothing |
| Corpus.RunFilesIdempotent | apply-gharib-fixed.mjs:20-88 | when every file's step settles on its own output, a second run leaves every file as the first left it |
| GlossMatch.CountersBound | apply-gharib-fixed.mjs:54-74 | verses with gharib never exceed the entries counted nor the number of verses |
| GlossMatch.CountersByNumber | apply-gharib-fixed.mjs:49-51 | both counters depend only on the verse numbers |
| GlossMatch.EntriesCons | apply-gharib-fixed.mjs:39-76 | the counters add the first verse's rows to those of the rest |
| GlossMatch.CountersStep | apply-gharib-fixed.mjs:39-76 | counting `i + 1` verses is counting `i` and then verse `i` |
| ApplyGharibFixed.FilledKept | apply-gharib-fixed.mjs:57-65 | `FillRows`: a slot that is neither missing nor empty is never written again, whatever the rows |
| ApplyGharibFixed.FirstMatchWins | apply-gharib-fixed.mjs:57-70 | `FillRows` with a match: a blank slot ends with the first row's word and its own commentary's meaning; any other slot keeps its value |
| ApplyGharibFixed.MergeAyah | apply-gharib-fixed.mjs:39-76 | the merged verse has `gharib`, and no field other than `gharib` changes |
| ApplyGharibFixed.MergeAyat | apply-gharib-fixed.mjs:39-76 | the merged array has as many verses as before, each with `gharib` and otherwise equal to the verse at its position |
| ApplyGharibFixed.MergeAyahGloss | apply-gharib-fixed.mjs:41-70 | without a match the verse is only initialised; with one, each blank slot holds the first matching row's gloss and other slots are kept |
| ApplyGharibFixed.MergeAyahIdempotent | apply-gharib-fixed.mjs:57-70 | merging a merged verse again changes nothing |
| ApplyGharibFixed.MergeAyatIdempotent | apply-gharib-fixed.mjs:39-76 | merging a merged verse array again changes nothing |
| ApplyGharibFixed.MergeAyatStep | apply-gharib-fixed.mjs:39-76 | merging `i + 1` verses is merging `i` and then verse `i` |
| ApplyGharibFixed.FixedFile | apply-gharib-fixed.mjs:20-88 | a file is written exactly when its stem is numeric, it parses, it has verses and its write does not fail, and then holds the merged verses; an eligible file adds its entries and verses with gharib to the counters even when the write fails, and counts as processed only when written; any other file is left alone and counts nothing |
| ApplyGharibFixed.LegacyKeyKept | apply-gharib-fixed.mjs:30-79 | a document with only `ayahs` is written with both keys, each holding the merged verses |
| ApplyGharibFixed.RerunSameFileAndCounts | apply-gharib-fixed.mjs:54-74 | on its own output the script writes the same document and reports the same counts: the counters count matching rows, not slots written |
| ApplyGharibFixed.RunTwiceChangesNothing | apply-gharib-fixed.mjs:20-88 | running the script over its own output leaves every file unchanged |
| ApplyGharibFixed.FillSlots | apply-gharib-fixed.mjs:54-75 | the loop over matching rows computes the blank-slot fill and counts every row |
| ApplyGharibFixed.MergeVerse | apply-gharib-fixed.mjs:39-76 | one verse is initialised, merged and its matching rows counted |
| ApplyGharibFixed.MergeVerses | apply-gharib-fixed.mjs:39-76 | the verse loop yields the merged array, the entry count and the count of verses with a match |
| ApplyGharibFixed.ProcessFile | apply-gharib-fixed.mjs:21-87 | one file is handled as `FixedFile` says |
| ApplyGharibFixed.ApplyGharibFixed | apply-gharib-fixed.mjs:14-88 | the files and the three counters are those of the file loop over the listed `.json` files |
| ApplyComprehensiveGharib.FillRowsThrows | apply-comprehensive-gharib.mjs:53-62 | `FillRows` throws exactly when there is a row and a slot key is missing; after one row nothing can throw |
| ApplyComprehensiveGharib.WordKept | apply-comprehensive-gharib.mjs:55-62 | `FillRows` keeps a slot holding a truthy `word` through every row |
| ApplyComprehensiveGharib.Winner | apply-comprehensive-gharib.mjs:53-67 | the winning row is the first with a non-empty word, or the last when none has one |
| ApplyComprehensiveGharib.FirstWordedRowWins | apply-comprehensive-gharib.mjs:53-67 | a wordless slot ends with the gloss of the winning row, with its own commentary's meaning |
| ApplyComprehensiveGharib.MeaningOnlySlotReplaced | apply-comprehensive-gharib.mjs:55-60 | an existing slot such as `{meaning: "x"}` without `word` is replaced by the row's gloss |
| ApplyComprehensiveGharib.MergeAyah | apply-comprehensive-gharib.mjs:38-71 | a verse throws exactly when it has `gharib`, a match and a missing slot key; otherwise only `gharib` changes |
| ApplyComprehensiveGharib.PrependCons | apply-comprehensive-gharib.mjs:38-71 | merging verses one after another composes |
| ApplyComprehensiveGharib.MergeFromThrows | apply-comprehensive-gharib.mjs:38-82 | the verse loop throws exactly when one of the verses does |
| ApplyComprehensiveGharib.MergeFromEntries | apply-comprehensive-gharib.mjs:69 | the rows counted are those of the verses before the first throwing verse |
| ApplyComprehensiveGharib.MergeFromMerged | apply-comprehensive-gharib.mjs:38-71 | without a throw `MergeFrom` yields `MergeAyat`, the verses merged one by one |
| ApplyComprehensiveGharib.ComprehensiveFile | apply-comprehensive-gharib.mjs:19-83 | a numeric, parsing file with verses is written unless a verse throws or its write fails, and counts as processed only when written; the rows of the verses before the first throw (all of them when none throws) add to the entry counter in every case; any other file is left alone and counts nothing |
| ApplyComprehensiveGharib.ThrowSkipsFileButCounts | apply-comprehensive-gharib.mjs:69-82 | a matched verse before a throwing one leaves the file unwritten and unprocessed yet counts its rows |
| ApplyComprehensiveGharib.FillSlots | apply-comprehensive-gharib.mjs:53-70 | the row loop computes the fill, throwing on a missing slot before any row is counted |
| ApplyComprehensiveGharib.MergeVerse | apply-comprehensive-gharib.mjs:38-71 | one verse is initialised and merged as `MergeAyah` says |
| ApplyComprehensiveGharib.MergeVerses | apply-comprehensive-gharib.mjs:38-71 | the verse loop stops at the first throw, as `MergeFrom` says |
| ApplyComprehensiveGharib.ProcessFile | apply-comprehensive-gharib.mjs:20-82 | one file is handled as `ComprehensiveFile` says |
| ApplyComprehensiveGharib.ApplyComprehensiveGharib | apply-comprehensive-gharib.mjs:14-83 | the files and the two counters are those of the file loop |
| ApplyExtendedGharib.LastMatchWins | apply-extended-gharib.mjs:53-65 | `OverwriteRows` with a match: both slots hold the last row's gloss, whatever they held, so they share one `word` |
| ApplyExtendedGharib.MergeAyah | apply-extended-gharib.mjs:38-66 | the merged verse has `gharib`, and no other field changes |
| ApplyExtendedGharib.MergeAyat | apply-extended-gharib.mjs:38-66 | the merged array has as many verses as before, each with `gharib` and otherwise equal to the verse at its position |
| ApplyExtendedGharib.MergeAyahGloss | apply-extended-gharib.mjs:40-65 | a verse without a match keeps its `gharib` (initialised if missing); one with a match gets the last row's gloss in both slots |
| ApplyExtendedGharib.MergeAyahIdempotent | apply-extended-gharib.mjs:53-65 | merging twice is merging once |
| ApplyExtendedGharib.MergeAyatIdempotent | apply-extended-gharib.mjs:38-66 | merging a merged verse array again changes nothing |
| ApplyExtendedGharib.MergeAyatStep | apply-extended-gharib.mjs:38-66 | merging `i + 1` verses is merging `i` and then verse `i` |
| ApplyExtendedGharib.ExtendedFile | apply-extended-gharib.mjs:19-78 | a file is written exactly when its stem is numeric, it parses, it has verses and its write does not fail; an eligible file adds its matching rows to the entry counter even when the write fails, and counts as processed only when written; any other file is left alone |
| ApplyExtendedGharib.RerunSameFileAndCount | apply-extended-gharib.mjs:53-65 | on its own output the script writes the same document and reports the same count |
| ApplyExtendedGharib.ExtendedFileSettles | apply-extended-gharib.mjs:53-65 | each file settles on the script's own output |
| ApplyExtendedGharib.RunTwiceChangesNothing | apply-extended-gharib.mjs:19-78 | running twice leaves the files as running once |
| ApplyExtendedGharib.OverwriteSlots | apply-extended-gharib.mjs:53-65 | the row loop overwrites both slots per row and counts every row |
| ApplyExtendedGharib.MergeVerse | apply-extended-gharib.mjs:38-66 | one verse is initialised, overwritten and its rows counted |
| ApplyExtendedGharib.MergeVerses | apply-extended-gharib.mjs:38-66 | the verse loop yields the merged array and the entry count |
| ApplyExtendedGharib.ProcessFile | apply-extended-gharib.mjs:20-77 | one file is handled as `ExtendedFile` says |
| ApplyExtendedGharib.ApplyExtendedGharib | apply-extended-gharib.mjs:14-78 | the files and the two counters are those of the file loop |
| AddGharibToAllSurahs.WatchUrlInjective | add-gharib-to-all-surahs.mjs:95 | the video id can be read back from its watch URL, so distinct videos get distinct URLs |
| AddGharibToAllSurahs.WatchUrl | add-gharib-to-all-surahs.mjs:95 | the URL is the `https://www.youtube.com/watch?v=` prefix followed by as many characters as the id has |
| AddGharibToAllSurahs.AddVideo | add-gharib-to-all-surahs.mjs:91-100 | the existing videos stay first; one video is appended exactly when no listed video has the mapping's id; afterwards some video has that id |
| AddGharibToAllSurahs.AddVideos | add-gharib-to-all-surahs.mjs:91-101 | existing videos stay first and in order; at most one element per mapping follows |
| AddGharibToAllSurahs.AddVideoIds | add-gharib-to-all-surahs.mjs:92-98 | one push adds its id to the listed ids and nothing else |
| AddGharibToAllSurahs.AddVideosIds | add-gharib-to-all-surahs.mjs:91-101 | afterwards the array lists exactly its old ids and those of the mappings |
| AddGharibToAllSurahs.AddVideoUnique | add-gharib-to-all-surahs.mjs:92 | a push keeps the ids unique |
| AddGharibToAllSurahs.AddVideosUnique | add-gharib-to-all-surahs.mjs:91-101 | no two videos share an id after the merge, given none did before |
| AddGharibToAllSurahs.AddVideosAppended | add-gharib-to-all-surahs.mjs:93-98 | every appended element is `{videoId, watch URL, title, word}` of one mapping |
| AddGharibToAllSurahs.AddVideosKnown | add-gharib-to-all-surahs.mjs:92 | mappings whose ids are already listed add nothing |
| AddGharibToAllSurahs.AddVideosIdempotent | add-gharib-to-all-surahs.mjs:91-101 | merging the same mappings again adds nothing |
| AddGharibToAllSurahs.UniqueIdsCount | add-gharib-to-all-surahs.mjs:92 | an array with unique ids lists as many ids as it has elements |
| AddGharibToAllSurahs.AddedCountsNewIds | add-gharib-to-all-surahs.mjs:99 | `videosAdded` grows by the number of distinct new ids among the matching mappings |
| AddGharibToAllSurahs.MergeAyah | add-gharib-to-all-surahs.mjs:71-102 | both keys are initialised and only `gharib` and `shehri_videos` change |
| AddGharibToAllSurahs.MergeAyat | add-gharib-to-all-surahs.mjs:71-102 | the merged array has as many verses as before, each with both keys set and otherwise equal to the verse at its position |
| AddGharibToAllSurahs.MergeAyahIdempotent | add-gharib-to-all-surahs.mjs:71-102 | merging a merged verse again changes nothing |
| AddGharibToAllSurahs.MergeAyatIdempotent | add-gharib-to-all-surahs.mjs:71-102 | merging a merged array again changes nothing |
| AddGharibToAllSurahs.MergeAyatStep | add-gharib-to-all-surahs.mjs:71-102 | merging `i + 1` verses is merging `i` and then verse `i` |
| AddGharibToAllSurahs.VideosAddedStep | add-gharib-to-all-surahs.mjs:99 | counting `i + 1` verses is counting `i` and then verse `i` |
| AddGharibToAllSurahs.NoMatchNoVideos | add-gharib-to-all-surahs.mjs:86-88 | verses no mapping matches add no video |
| AddGharibToAllSurahs.MergedNoVideos | add-gharib-to-all-surahs.mjs:92 | verses that already list every matching video add none |
| AddGharibToAllSurahs.AddFile | add-gharib-to-all-surahs.mjs:53-114 | a parsing file with verses is written whatever its name unless its write fails, and counts as processed only when written; its pushed videos add to `videosAdded` either way; a malformed file or one without verses is left alone |
| AddGharibToAllSurahs.UnnumberedFileStillWritten | add-gharib-to-all-surahs.mjs:55-106 | a `NaN` surah number matches no mapping, yet the file is initialised, written and counted when its write succeeds |
| AddGharibToAllSurahs.RerunAddsNothing | add-gharib-to-all-surahs.mjs:92 | on its own output the script writes the same document; when the first write succeeded the rerun adds no video |
| AddGharibToAllSurahs.RunTwiceAddsNothing | add-gharib-to-all-surahs.mjs:53-114 | a second run leaves the files as the first did, and reports no video added when no listed file's write fails |
| AddGharibToAllSurahs.SharedVideoAtFirstVerse | add-gharib-to-all-surahs.mjs:37 | verse 4:3 receives the video that episode 27 shares with episode 29 |
| AddGharibToAllSurahs.SharedVideoAtSecondVerse | add-gharib-to-all-surahs.mjs:39 | verse 75:16 receives the same video again: de-duplication is per verse |
| AddGharibToAllSurahs.ListsId | add-gharib-to-all-surahs.mjs:92 | the scan finds the id exactly when an element has it |
| AddGharibToAllSurahs.AppendVideos | add-gharib-to-all-surahs.mjs:91-101 | the loop yields `AddVideos` and counts each push |
| AddGharibToAllSurahs.MergeVerse | add-gharib-to-all-surahs.mjs:71-102 | one verse is initialised and merged, counting its pushes |
| AddGharibToAllSurahs.MergeVerses | add-gharib-to-all-surahs.mjs:71-102 | the verse loop yields the merged array and the push count |
| AddGharibToAllSurahs.ProcessFile | add-gharib-to-all-surahs.mjs:54-113 | one file is handled as `AddFile` says |
| AddGharibToAllSurahs.AddGharibToAllSurahs | add-gharib-to-all-surahs.mjs:46-114 | the files and the two counters are those of the file loop |
| ExtractGharibData.VerseKeyInjective | extract-gharib-data.mjs:61 | a `surah:verse` key names one verse only |
| ExtractGharibData.DatabaseContents | extract-gharib-data.mjs:14-21 | `BuildDatabase`: the dictionary has key `78:n` exactly for the qualifying verses numbered `n`, holding the `gharib` of the last of them |
| ExtractGharibData.DatabaseKeys | extract-gharib-data.mjs:16-20 | the keys are exactly `78:n` for the qualifying verses |
| ExtractGharibData.DatabaseValues | extract-gharib-data.mjs:19 | each key holds the `gharib` of the last qualifying verse with that number |
| ExtractGharibData.DatabaseOnlyNaba | extract-gharib-data.mjs:18-62 | only a verse of surah 78 can have a key in the dictionary |
| ExtractGharibData.ReplaceAyah | extract-gharib-data.mjs:51-65 | a hit replaces `gharib` wholesale with the stored value; no other field changes |
| ExtractGharibData.ReplaceAyat | extract-gharib-data.mjs:51-66 | the array keeps its length; each verse is initialised or replaced, and only its `gharib` differs |
| ExtractGharibData.ReplaceAyatStep | extract-gharib-data.mjs:51-66 | replacing `i + 1` verses is replacing `i` and then verse `i` |
| ExtractGharibData.HitsAreReplacements | extract-gharib-data.mjs:62-64 | `gharibCount` is the number of verses whose `gharib` was replaced |
| ExtractGharibData.HitsStep | extract-gharib-data.mjs:64 | counting `i + 1` verses is counting `i` and then verse `i` |
| ExtractGharibData.OtherSurahOnlyInitialised | extract-gharib-data.mjs:18-65 | a file of any surah but 78 only gets its verses initialised |
| ExtractGharibData.ReplaceAyatIdempotent | extract-gharib-data.mjs:62-65 | replacing twice is replacing once |
| ExtractGharibData.HitsByNumber | extract-gharib-data.mjs:61-62 | the hits depend only on the verse numbers |
| ExtractGharibData.ExtractFile | extract-gharib-data.mjs:32-78 | a file is written exactly when its stem is numeric, it parses, it has verses and its write does not fail; an eligible file adds its hits to the counter even when the write fails, and counts as processed only when written; any other file is left alone |
| ExtractGharibData.RerunSameFileAndCount | extract-gharib-data.mjs:62-64 | on its own output the loop writes the same document and counts the same hits |
| ExtractGharibData.RunTwiceChangesNothing | extract-gharib-data.mjs:32-78 | running twice leaves the files as running once |
| ExtractGharibData.BuildGharibDatabase | extract-gharib-data.mjs:14-21 | the first loop builds the specified dictionary |
| ExtractGharibData.ReplaceVerses | extract-gharib-data.mjs:51-66 | the verse loop yields the replaced array and the hit count |
| ExtractGharibData.ProcessFile | extract-gharib-data.mjs:33-77 | one file is handled as `ExtractFile` says |
| ExtractGharibData.ExtractGharibData | extract-gharib-data.mjs:9-78 | an unreadable Al-Naba file (`Source` is `None`) stops the script before any surah file changes; otherwise the files and counters are those of the file loop over the dictionary `Source` builds |
| GharibTables.GetGharibForVerse | gharib-quran-extended.mjs:398-400 | exactly the rows of that verse, in table order, each as often as in the table |
| GharibTables.GetGharibForSurah | gharib-quran-database.mjs:92-94 | exactly the rows of that surah, in table order, each as often as in the table |
| GharibTables.VerseWithinSurah | gharib-quran-database.mjs:88-94 | the verse lookup is the surah lookup narrowed to the verse, hence a subsequence of it |
| GharibTables.ExtendedSurahsInRange | gharib-quran-extended.mjs:6-395 | every excerpted row names one of the 114 surahs |
| GharibTables.ExtendedTwoRowVerse | gharib-quran-extended.mjs:30-31 | verse 3:7 has two rows and the lookup returns both, in order |
| GharibTables.ExtendedThreeRowVerse | gharib-quran-extended.mjs:40-42 | verse 5:3 has three rows and the lookup returns all three, in order |
| GharibTables.DatabaseRows | gharib-quran-database.mjs:27-58 | the database lookup of verses 78:1 and 78:34 returns their rows |
| GharibTables.DatabaseUncoveredSurah | gharib-quran-database.mjs:92-94 | a surah absent from the database yields nothing |
| VideoMappings.FirstMappingWins | client/src/data/video-mappings.ts:332-334 | the verse lookup returns the first row of that verse in table order, and nothing when it has none |
| VideoMappings.GetVideoForVerse | client/src/data/video-mappings.ts:332-334 | a found row is a table row of that verse; nothing is found exactly when the table has no row of that verse |
| VideoMappings.HasVideo | client/src/data/video-mappings.ts:337-341 | true exactly when the table has a row of that verse |
| VideoMappings.GetVersesByVideoInSurah | client/src/data/video-mappings.ts:346-348 | exactly the rows of that surah, in table order, each as often as in the table |
| VideoMappings.HasVideoIffFound | client/src/data/video-mappings.ts:332-341 | `hasVideo` holds exactly when `getVideoForVerse` finds a row |
| VideoMappings.SurahRows | client/src/data/video-mappings.ts:346-348 | the surah lookup returns exactly that surah's rows, in table order |
| VideoMappings.FoundIsListed | client/src/data/video-mappings.ts:332-348 | a row found for a verse is among its surah's rows |
| VideoMappings.VideoIdNotUnique | client/src/data/video-mappings.ts:289-316 | verses 4:3 and 75:16 map to the same video id |
| VideoMappings.SurahRowsInTableOrder | client/src/data/video-mappings.ts:238-316 | the surah lookup keeps table order, not verse order: 75:24 before 75:16 |
| SavedAyahs.IsSavedIff | client/src/hooks/useSavedAyahs.ts:45-51 | a verse counts as saved exactly when some entry has its surah and verse numbers |
| SavedAyahs.WithSaved | client/src/hooks/useSavedAyahs.ts:42-57 | an already-saved verse leaves the list alone; otherwise one entry, stamped `now`, is appended; it keeps keys unique |
| SavedAyahs.Removed | client/src/hooks/useSavedAyahs.ts:60-68 | every entry with the key goes and the others stay in order, each as often as before; it keeps keys unique |
| SavedAyahs.WithNote | client/src/hooks/useSavedAyahs.ts:78-88 | the entries with the key get the note; every other entry and field is unchanged |
| SavedAyahs.SaveThenRemove | client/src/hooks/useSavedAyahs.ts:42-68 | saving a new verse and removing it restores the list |
| SavedAyahs.SaveTwice | client/src/hooks/useSavedAyahs.ts:45-51 | saving an already-saved verse again changes nothing |
| SavedAyahs.RemoveTwice | client/src/hooks/useSavedAyahs.ts:60-68 | removing twice is removing once |
| SavedAyahs.NoteKeepsSavedVerses | client/src/hooks/useSavedAyahs.ts:78-88 | a note never changes which verses are saved; a note for an unsaved verse changes nothing |
| SavedAyahs.SavedAyahStore.constructor | client/src/hooks/useSavedAyahs.ts:25-26 | the hook starts empty and unloaded over the stored slot |
| SavedAyahs.SavedAyahStore.Load | client/src/hooks/useSavedAyahs.ts:29-39 | a stored list is adopted, an unreadable one ignored; the hook is loaded afterwards |
| SavedAyahs.SavedAyahStore.SaveAyah | client/src/hooks/useSavedAyahs.ts:42-57 | state becomes the saved list; storage is written only when the verse was new; unique keys are preserved |
| SavedAyahs.SavedAyahStore.RemoveAyah | client/src/hooks/useSavedAyahs.ts:60-68 | state becomes the removed list and storage equals it |
| SavedAyahs.SavedAyahStore.IsAyahSaved | client/src/hooks/useSavedAyahs.ts:71-75 | true exactly when some saved entry has the key |
| SavedAyahs.SavedAyahStore.AddNote | client/src/hooks/useSavedAyahs.ts:78-88 | state becomes the noted list and storage equals it |
| SavedAyahs.SavedAyahStore.ClearAll | client/src/hooks/useSavedAyahs.ts:91-94 | the list is empty and the storage entry removed |
| Bookmarks.AyahIdInjective | client/src/hooks/useBookmarks.ts:65 | `surah-verse` ids of non-negative surahs name one verse only |
| Bookmarks.MapBookmark | client/src/hooks/useBookmarks.ts:65-76 | the targeted bookmarks are transformed, all others kept, in place and order |
| Bookmarks.WithAyah | client/src/hooks/useBookmarks.ts:66-74 | the verse id is appended and the time stamped only when it is absent, so `ayahIds` stays duplicate-free |
| Bookmarks.WithoutAyah | client/src/hooks/useBookmarks.ts:81-92 | every occurrence of the verse id goes, and `updatedAt` is bumped even when it was absent |
| Bookmarks.Patched | client/src/hooks/useBookmarks.ts:103-114 | given fields override, the others are kept, `updatedAt` becomes `now` |
| Bookmarks.IsIn | client/src/hooks/useBookmarks.ts:96-100 | false for an unknown bookmark id; otherwise membership of the verse id in the first bookmark with that id |
| Bookmarks.Deleted | client/src/hooks/useBookmarks.ts:118-121 | exactly the bookmarks with the id go; the rest keep their order and multiplicity |
| Bookmarks.ForAyah | client/src/hooks/useBookmarks.ts:124-127 | exactly the bookmarks holding the verse id, in order, each as often as in the list |
| Bookmarks.FirstWithIdKept | client/src/hooks/useBookmarks.ts:96-100 | a transform that keeps ids keeps which bookmark `isInBookmark` looks at |
| Bookmarks.AddThenIsIn | client/src/hooks/useBookmarks.ts:64-100 | after adding, `isInBookmark` holds for that bookmark and verse, provided it exists |
| Bookmarks.RemoveThenNotIn | client/src/hooks/useBookmarks.ts:80-100 | after removing, `isInBookmark` is false for that bookmark and verse |
| Bookmarks.DeleteThenNotIn | client/src/hooks/useBookmarks.ts:96-121 | after deleting, `isInBookmark` is false for that id |
| Bookmarks.AddThenRemove | client/src/hooks/useBookmarks.ts:64-93 | adding a missing verse and removing it restores the verse list |
| Bookmarks.AddTwice | client/src/hooks/useBookmarks.ts:64-77 | adding the same verse again changes nothing |
| Bookmarks.TransformsKeepIdsDistinct | client/src/hooks/useBookmarks.ts:64-121 | adding, removing and deleting keep every verse list duplicate-free; updating does when the new list is |
| Bookmarks.PatchTwice | client/src/hooks/useBookmarks.ts:103-114 | an update keeps id and creation time; repeating it only moves the time stamp |
| Bookmarks.BookmarkStore.constructor | client/src/hooks/useBookmarks.ts:21-22 | the hook starts empty and unloaded over the stored slot |
| Bookmarks.BookmarkStore.Load | client/src/hooks/useBookmarks.ts:25-35 | a stored list is adopted, an unreadable one ignored; loaded afterwards |
| Bookmarks.BookmarkStore.SaveBookmarks | client/src/hooks/useBookmarks.ts:38-45 | a write that throws leaves state and storage unchanged; otherwise both become the new list |
| Bookmarks.BookmarkStore.CreateBookmark | client/src/hooks/useBookmarks.ts:48-61 | one empty bookmark `bookmark-<now>`, default colour `#c17e3a`, is appended after the existing ones |
| Bookmarks.BookmarkStore.AddToBookmark | client/src/hooks/useBookmarks.ts:64-77 | state and storage become `MapBookmark` with `AddAyah` (see `WithAyah`): the targeted bookmark gets the verse id, unless the write fails |
| Bookmarks.BookmarkStore.RemoveFromBookmark | client/src/hooks/useBookmarks.ts:80-93 | state and storage become `MapBookmark` with `RemoveAyah` (see `WithoutAyah`): the targeted bookmark loses the verse id, unless the write fails |
| Bookmarks.BookmarkStore.UpdateBookmark | client/src/hooks/useBookmarks.ts:103-115 | state and storage become `MapBookmark` with `Patch` (see `Patched`): the targeted bookmark is updated, unless the write fails |
| Bookmarks.BookmarkStore.DeleteBookmark | client/src/hooks/useBookmarks.ts:118-121 | the bookmarks with the id are deleted, unless the write fails |
| Bookmarks.BookmarkStore.IsInBookmark | client/src/hooks/useBookmarks.ts:96-100 | true only when a bookmark with the id lists the verse id; false when no bookmark has the id |
| Bookmarks.BookmarkStore.GetBookmarksForAyah | client/src/hooks/useBookmarks.ts:124-127 | exactly the held bookmarks listing the verse id, in their order |
| ShareLinks.Links | client/src/hooks/useShareLink.ts:45 | no entry reads as the empty list, an unreadable one fails |
| ShareLinks.ExpiresAt | client/src/hooks/useShareLink.ts:40 | an expiry time exists exactly for a truthy `expiresIn`, and lies `expiresIn` after creation |
| ShareLinks.LiveIffNotExpired | client/src/hooks/useShareLink.ts:61-78 | the `getAllShareLinks` filter keeps exactly what `getShareLink` does not call expired; expiry at `now` is live |
| ShareLinks.LiveLinks | client/src/hooks/useShareLink.ts:76-78 | exactly the unexpired links, in order, each as often as stored |
| ShareLinks.LiveLinksShrink | client/src/hooks/useShareLink.ts:76-78 | a link expired now stays expired later |
| ShareLinks.WithoutId | client/src/hooks/useShareLink.ts:88-90 | exactly the links with other ids, in order, each as often as stored |
| ShareLinks.Lookup | client/src/hooks/useShareLink.ts:59-66 | the first link with the id unless it has expired; nothing exactly when no link has the id or the first has expired |
| ShareLinks.AfterLookup | client/src/hooks/useShareLink.ts:61-64 | storage after a lookup: when the list reads, has a link with the id and the lookup finds none (the first such link has expired), it becomes the list without every link of that id; in every other case, unreadable storage included, it is unchanged; looking the id up again gives the same answer |
| ShareLinks.AllLive | client/src/hooks/useShareLink.ts:74-83 | the live stored links; `[]` when storage is missing or unreadable |
| ShareLinks.CreateThenLookup | client/src/hooks/useShareLink.ts:28-66 | a new link with a fresh id is found again while unexpired |
| ShareLinks.DeleteThenLookup | client/src/hooks/useShareLink.ts:56-94 | a deleted id is not found; other ids are found as before |
| ShareLinks.DeleteKeepsOthers | client/src/hooks/useShareLink.ts:88-90 | deleting one id does not change which link another id finds |
| ShareLinks.ShareUrlRoundTrip | client/src/hooks/useShareLink.ts:97-99 | a generated share URL gives back its id |
| ShareLinks.ShareIdOfGenerated | client/src/hooks/useShareLink.ts:97-99 | a share URL of this origin is the one generated from the id it carries |
| ShareLinks.ShareUrl | client/src/hooks/useShareLink.ts:97-99 | the URL is the origin, then `/share/`, then as many characters as the id has |
| ShareLinks.ShareLinkStore.constructor | client/src/hooks/useShareLink.ts:20 | the store holds the slot and the saved verses |
| ShareLinks.ShareLinkStore.CreateShareLink | client/src/hooks/useShareLink.ts:28-53 | the link is returned always and appended to storage unless reading or writing it fails |
| ShareLinks.ShareLinkStore.GetShareLink | client/src/hooks/useShareLink.ts:56-71 | the lookup's answer; storage becomes `AfterLookup`: every link with the id is deleted when the first one has expired, unless that write fails, which the delete swallows; otherwise nothing is written; unreadable storage gives nothing |
| ShareLinks.ShareLinkStore.DeleteShareLink | client/src/hooks/useShareLink.ts:86-94 | every link with the id goes, unless reading or writing fails |
| ShareLinks.ShareLinkStore.GetAllShareLinks | client/src/hooks/useShareLink.ts:74-83 | exactly the stored links that have not expired, in order; `[]` when storage is missing or unreadable |
| ShareLinks.ShareLinkStore.CreateShareLinkFromSaved | client/src/hooks/useShareLink.ts:102-112 | nothing saved gives `null` and stores nothing; otherwise a link of the saved verses is created |
| ExportAyahs.CsvLines | client/src/hooks/useExportAyahs.ts:11-24 | with no line break in any field, `CsvContent` has the header line and one line per verse, in order |
| ExportAyahs.CsvHeaderCells | client/src/hooks/useExportAyahs.ts:11-22 | the header line splits into the six headers |
| ExportAyahs.CsvRowCells | client/src/hooks/useExportAyahs.ts:12-19 | with no comma in any field, a row splits into name, verse number and four quoted texts; a missing translation is `""` |
| ExportAyahs.JsonPayload | client/src/hooks/useExportAyahs.ts:39-43 | the payload carries the list unchanged and `totalAyahs` equals its length |
| ExportAyahs.AddTranslation | client/src/hooks/useExportAyahs.ts:67-75 | an empty translation adds no line |
| ExportAyahs.AppendTranslation | client/src/hooks/useExportAyahs.ts:67-75 | the step writes the translation's line only when it is non-empty |
| ExportAyahs.AppendBlock | client/src/hooks/useExportAyahs.ts:65-76 | one verse's steps write its block |
| ExportAyahs.AppendHeader | client/src/hooks/useExportAyahs.ts:59-62 | the header steps write title, date, count and the `=` rule |
| ExportAyahs.ExportToTxt | client/src/hooks/useExportAyahs.ts:58-77 | the accumulated content equals `TxtContent` |
| ExportAyahs.BlockGroupLines | client/src/hooks/useExportAyahs.ts:65-76 | a verse's block reads as heading, text, the non-empty translations, then an empty line, 80 `-` and an empty line |
| ExportAyahs.HeaderGroupLines | client/src/hooks/useExportAyahs.ts:59-62 | the header reads as title, date, verse count, 80 `=` and an empty line |
| ExportAyahs.TxtLinesRead | client/src/hooks/useExportAyahs.ts:58-77 | with no line break in the fields or date, the lines of `TxtContent` are the header lines, each verse's block in input order, and a final empty piece |
| Text.ParseDecimal | apply-gharib-fixed.mjs:22 | `parseInt` reads back the decimal rendering of any integer |
| Text.ParseInt | apply-gharib-fixed.mjs:22 | white space only, or a first character that is not a sign or a digit, gives `NaN`; a negative result needs a leading `-` |
| Text.Rule | client/src/hooks/useExportAyahs.ts:62-76 | `c.repeat(n)` has length `n` and holds only `c` |

## Left out

- Inputs and outputs are modelled by values:
  - Filesystem reads and writes, `JSON.parse` and `JSON.stringify`, and localStorage are modelled by values: a corpus map, a `FileContent` that is `Malformed` when parsing fails, and a storage slot. The 2-space JSON formatting is not modelled.
  - JSON values that are not objects, or hold keys of other types, are all `Malformed`.
- The scripts mutate each verse object in place; the model works on values.
  - The one aliasing that shows in the output is modelled: `data.ayat = data.ayahs` makes both keys hold the merged verses, in `Corpus.Store`.
  - A verse object shared between two array positions is not modelled.
- Console logging and progress messages are not modelled. They are all console output with no effect on the files.
- The reference tables are only excerpts: `gharibQuranExtended` and `gharibQuranDatabase` (gharib-quran-extended.mjs, gharib-quran-database.mjs), `videoMappings` (client/src/data/video-mappings.ts) and the script's own video table (add-gharib-to-all-surahs.mjs:10-41).
  - The lookups and merges take the table as a parameter.
  - The lemmas about concrete rows use a few real rows.
- The two video tables disagree on episode 9: verse 78:24 at client/src/data/video-mappings.ts:110, verse 78:14 at add-gharib-to-all-surahs.mjs:19. This is a matter of data, not logic.
- `Date.now()`, `new Date().toISOString()`, `toLocaleDateString('ar-SA')`, `Math.random()` ids and `window.location.origin` are parameters.
  - Each operation takes one reading `now`, where the source calls `Date.now()` several times:
    - `createBookmark` calls it three times, for the id, `createdAt` and `updatedAt` (client/src/hooks/useBookmarks.ts:50-56);
    - `addToBookmark`, `removeFromBookmark` and `updateBookmark` call it once per targeted bookmark inside their `map` callbacks (client/src/hooks/useBookmarks.ts:71, 87, 109);
    - `createShareLink` calls it twice, for `createdAt` and `expiresAt` (client/src/hooks/useShareLink.ts:39-40);
    - `getAllShareLinks` calls it once per stored link inside its filter (client/src/hooks/useShareLink.ts:78).
  - `getShareLink` reads the clock once (client/src/hooks/useShareLink.ts:61).
  - Id uniqueness is not proved: `bookmark-${Date.now()}` can repeat.
- Bookmarks.AyahIdInjective: proved only for non-negative surah numbers (the source's are 1 to 114); ids of negative surah numbers, which start with `-`, are left unproved.
- Blob creation, anchor clicks, `URL.createObjectURL`, the clipboard and the HTML export template of `useExportAyahs.ts` are DOM side effects or markup. They are not modelled.
- React specifics are not modelled:
  - state update batching, stale closures and `useCallback` dependencies;
  - the separate `useSavedAyahs` instance that `useShareLink` creates (its saved verses are a field of `ShareLinkStore`).
- The storage write failure is modelled for `saveBookmarks` and for the share-link writes, including the delete inside `getShareLink`. A failing `writeFileSync` in the scripts is modelled by `unwritable`; a failing `readFileSync` by a listed name with no file behind it. For `useSavedAyahs` the source has no `catch` around its writes (a throwing write would throw out of the hook), so its writes are modelled as succeeding.
- A stored empty string is falsy and read like a missing entry. The model's `Absent` covers it.
- Stored text that parses but is not a list, such as `null` or `{}`, is not modelled: the hooks would adopt it as state or throw on it (client/src/hooks/useSavedAyahs.ts:32-33, client/src/hooks/useBookmarks.ts:28-29, client/src/hooks/useShareLink.ts:45-46). The model reads every parsed entry as a list.
- Bookmarks.Patched: an update object holding a field explicitly `undefined` (`name`, `description`, `color` or `ayahIds`) is not representable. The spread would erase that field; in the model an absent field keeps the old value.
- The CSV fields are not escaped: a field holding `"` or `,` breaks the row structure, exactly as in the source. The splitting lemmas therefore require fields free of those characters.
- For the two scripts without a `versesWithGharib` counter, the third slot of the tally is always 0.
- The `.tsx` pages and components, `useTheme`, `useReadingPosition` and `quran-data.ts` are not part of this model.
