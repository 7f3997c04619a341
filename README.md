# music-sheets-dl, modelled in Dafny

music-sheets-dl downloads a rap-leak "tracker" spreadsheet's tracks era by era.
It reads a manifest (a local CSV file or a Google Sheets link) and finds the
header row and the columns that play the name, link, length and quality roles.
It lists the eras that carry a link, lets the operator pick one era or all of
them, and resolves each row's link to one of two hosts (pillowcase.su and
music.froste.lol). It turns the noisy song name into a clean title, artist and
composer, saves the file under `downloads/<era>/`, tags MP3 files, and tallies
every row as tagged, downloaded but not tagged, or failed.

This project models the three files that do that work:

- `downloader.dfy` (module `Downloader`) covers `downloader.py`: ID extraction, host dispatch, the
  extension choice, the file-name rules and the title clean-up of
  `process_title_and_metadata`.
- `title_examples.dfy` (module `TitleExamples`) evaluates that clean-up on the name shapes the
  manifests use: artist, feature and producer notes, alternate names, the `???`
  placeholder and bracketed notes. It proves each shape over arbitrary plain
  words, then instantiates it on concrete names.
- `parser.dfy` (module `Parser`) and `parse_errors.dfy` (module `ParseErrors`) cover `parser.py`:
  - `_find_column`;
  - the Google Sheets export URL;
  - header-row detection;
  - the role resolution and era list of `parse_input`, with its exact error messages.
- `batch.dfy` (module `BatchDownload`) covers `batch_download.py`:
  - the era folder and the row filter;
  - the routing of one finished task into a bucket;
  - the per-era tally (a `Tally` class with three `seq<string>` fields) and its merge into the global tally;
  - the three validated prompts and the era selection.
- `text.dfy` (module `Text`) gives the Python string operations the three
  files rely on a meaning:
  - `str.strip`, `lower`, `title`, `replace`, `find` and `in`;
  - `re.search` and `re.sub` for the regular-expression shapes that appear: a literal lead, a greedy character-class run and an optional closing character.

Everything outside the program becomes a parameter:

| outside the program | as a parameter |
|---|---|
| HTTP | a `Response` (content type, or failure) or a `Reply` (body text, or unreachable) |
| the file system | an `Environment`: whether the file exists, its lines, and the outcome of `pd.read_csv` for a header row or a downloaded text |
| `embed_metadata` | whether it raises |
| `input()` | a sequence of already-parsed answers |

The model is sequential.

Behaviours of the code the model keeps, although a reader might expect otherwise:
- `process_title_and_metadata` strips no emoji or symbol code points.
- `sanitize_filename` is not idempotent. It strips `' .'` from both ends and only then cuts to 200 characters, so a cut can leave a trailing space or dot (`SanitizeFilenameNotIdempotent`).
- A row whose name cell is empty makes `process_title_and_metadata` raise. The executor swallows that, so the row lands in no bucket at all, and the tally is not one entry per row (`EveryRowRecordedIff`).
- The same happens to every row when two columns share the name column's name after stripping: `row[name_col]` is then a Series, and the clean-up raises on it. A length or quality column whose name is shared reads as absent, since a Series is not a `str` (`Field`).
- The global tally is extended without a lock. The model is sequential, so this makes no difference to it.
- A missing `Era` column after the name and link columns were found raises a `KeyError` in `parse_input`. The model returns the distinct outcome `EraLookupFails` instead of an error message.
- `parse_input` also raises when two columns have the same name once stripped (` Era` and `Era`, say). A shared link column name fails at `.str` in the link filter, and a shared `Era` name fails at `.tolist()`. The model returns `DuplicateColumn` with that name (`DuplicateColumnIff`).
- `re.sub` removes feature notes in one pass. A note nested in another parenthesis survives: `((feat. a)feat. b)` leaves `(feat. b)` in the title (`NestedFeatureNoteSurvives`). Without nesting, every note is removed (`FeatureNotesRemoved`).
- The era folder is one path component below `downloads`, but an era named `..` writes to the parent of `downloads`, and an era named `.` or a blank one writes into `downloads` itself (`EraFolderOfDotNames`).
- The era list keeps eras that differ only in letter case or surrounding spaces as separate entries. The row filter compares them stripped and lower-cased, so choosing "all eras" downloads those rows once per variant (`FilterSameKey`).
- The header scan's index counts blank lines, but `pd.read_csv(header=...)` skips blank lines when counting rows. A file with blank lines before its header is therefore read from a later row. The model passes the scan's index to `Environment.readFile` unchanged (`BlankLineCounted`) and leaves the rest to that parameter.

## Model

| member | source | states |
|---|---|---|
| Downloader.ExtractId | downloader.py:7-11 | None iff `pillowcase.su/f/` is never followed by an alphanumeric; otherwise the whole alphanumeric run after its first such occurrence |
| Downloader.SanitizeFolderName | downloader.py:13-14 | the result has none of `\/:*?"<>\|`, no whitespace at either end, and is no longer than the input |
| Downloader.SanitizeFolderNameIdempotent | downloader.py:13-14 | sanitizing a folder name twice gives the same as once |
| Downloader.TrimmedFilename | downloader.py:17-18 | after replacement and `strip(' .')`: no reserved character, no space or dot at either end |
| Downloader.SanitizeFilename | downloader.py:16-21 | at most 200 characters, no reserved character, no leading space or dot; a prefix of the trimmed name, equal to it when it fits, exactly 200 long when it does not |
| Downloader.SanitizeFilenameIdempotentIff | downloader.py:16-21 | sanitizing again changes nothing iff the result is empty or does not end in a space or dot |
| Downloader.SanitizeFilenameNotIdempotent | downloader.py:18-20 | a 201-character name whose cut ends in a space: the second sanitization differs from the first |
| Downloader.SongId | downloader.py:34-41 | None iff `music.froste.lol/song/` is never followed by an alphanumeric; otherwise the run after its first such occurrence |
| Downloader.ResolveHost | downloader.py:24-48 | a pillowcase.su link (checked first) resolves to its file ID or fails for lack of one; otherwise a froste song link resolves to its song ID or fails; any other URL is an unsupported host (both directions); a found ID is non-empty, alphanumeric and gives the API URL |
| Downloader.SongIdOfApiUrl | downloader.py:34-42 | the froste download URL built for an ID yields that ID back |
| Downloader.ExtensionFor | downloader.py:52-59 | `.wav` iff the lowered content type contains `wav`; `.m4a` iff not that and it contains `m4a` or `mp4`; `.flac` iff neither and it contains `flac`; `.mp3` otherwise |
| Downloader.FileStem | downloader.py:60-65 | the sanitized title when the title is not blank, the file or song ID otherwise |
| Downloader.FileStemHasNoSlash | downloader.py:60-65 | a stem never contains `/` |
| Downloader.DownloadFile | downloader.py:23-80 | a download happens iff the host resolves and the response is delivered; then the extension follows the content type and the path is the folder joined with stem + extension |
| Downloader.DownloadLandsInFolder | downloader.py:62-65 | the saved file is named by a non-empty, slash-free name ending in the extension, placed directly in the destination folder |
| Downloader.NameInFolder | downloader.py:62 | `os.path.join` of a folder and a slash-free name puts the name inside the folder |
| Downloader.ChooseTitle | downloader.py:135-142 | placeholder main gives the alternate, placeholder alternate gives the main, both non-blank and neither or both placeholders gives `main / alt`; otherwise one of the two |
| Downloader.CleanSpacing | downloader.py:153-154 | no CR or LF, no double space, no whitespace at either end |
| Downloader.ProcessTitleAndMetadata | downloader.py:106-155 | the returned title has no line break, no double space and no whitespace at either end |
| Downloader.ProducerNoteIff | downloader.py:108 | the producer regex matches at i iff `(prod. ` in any case is there followed by a non-empty note closed by `)`; its group is the note |
| Downloader.FeatureNoteIff | downloader.py:112 | the feature regex matches at i iff `(feat.` in any case opens a non-empty note closed by `)`; its group is the note |
| Downloader.ComposerIsFirstProducerNote | downloader.py:107-111 | no composer iff the name has no producer note; otherwise the stripped text of the first one |
| Downloader.FeatureSuffixIsFirstNote | downloader.py:112-115 | no feature suffix iff the name has no feature note; otherwise ` (Feat.` + the title-cased text of the first one + `)` |
| Downloader.FeatureSuffixOfMatch | downloader.py:112-115 | the suffix built from a found feature match is ` (Feat.` + title-cased note + `)` |
| Downloader.FeatureSuffixText | downloader.py:115 | title-casing `feat.<note>` gives `Feat.` followed by the title-cased note |
| Downloader.FeatureWordTitle | downloader.py:115 | title-casing the word `feat.`, in any case, gives `Feat.` |
| Downloader.ArtistIsTextBeforeFirstSeparator | downloader.py:117-122 | no artist iff the name without notes has no ` - `; otherwise the stripped text before the first one |
| Downloader.CleanSpacingKeepsSuffix | downloader.py:153-154 | the final clean-up keeps a clean trailing suffix intact |
| Downloader.SuffixesClean | downloader.py:146-152 | the snippet and low-quality suffixes are clean suffixes |
| Downloader.FinishTitleSuffixes | downloader.py:143-154 | the finished title ends in `(Snippet) (LQ)`, `(LQ)` or `(Snippet)` as the length and quality cells say |
| Downloader.FinishTitleSuffix | downloader.py:143-154 | any clean suffix appended before the clean-up survives at the end of the title |
| Downloader.TitleEndsWithSuffixes | downloader.py:144-152 | the same three endings for the full clean-up of any name |
| Downloader.TitleEndsWithAllSuffixes | downloader.py:106-155 | for any name whose feature suffix is clean, the title ends with the whole run of suffixes: feature, snippet, low quality, in that order |
| Downloader.FinishTitleKeepsSuffixes | downloader.py:143-154 | with a clean feature suffix or none, the finished title ends with the feature, snippet and low-quality suffixes in that order |
| Downloader.SuffixesCleanAfter | downloader.py:144-152 | behind a clean feature suffix or none, the run of suffixes is empty or clean |
| Downloader.SuffixesSplit | downloader.py:144-152 | the snippet and low-quality suffixes follow the feature suffix and do not depend on it |
| Downloader.SuffixesWithoutFeature | downloader.py:144-152 | without a feature suffix the run is empty or a clean suffix |
| Downloader.CleanSuffixConcat | downloader.py:144-152 | two clean suffixes in a row are a clean suffix |
| Downloader.Suffixes | downloader.py:144-152 | the run starts with the feature suffix and is that suffix alone when the track is neither a snippet nor low quality |
| Downloader.FinishTitle | downloader.py:143-154 | the finished title has no line break and no double space |
| Downloader.IsSnippet | downloader.py:144-145 | `available_length` is a string reading `snippet` once stripped and lowered; `FinishTitleSuffixes` shows what it adds |
| Downloader.IsLowQuality | downloader.py:151 | `quality` is a string reading `low quality` once stripped and lowered; `FinishTitleSuffixes` shows what it adds |
| Downloader.SubAllBracketsShape | downloader.py:143 | after removing the bracketed notes, no `[` is followed anywhere by a `]` |
| Downloader.BracketedNotesRemoved | downloader.py:143 | no bracketed note is left in the title, before or after the strip |
| Downloader.SubAllFeatureShape | downloader.py:116 | when no parenthesis opens inside another, removing the feature notes leaves none |
| Downloader.FeatureNotesRemoved | downloader.py:112-116 | in a name whose parentheses do not nest, no feature note is left after the clean-up's removal |
| Downloader.NestedFeatureNoteSurvives | downloader.py:116 | `((feat. a)feat. b)` becomes `(feat. b)`, itself a feature note: removal runs once, so nesting can leave a note behind |
| Downloader.TakeProducer | downloader.py:107-111 | a name without a producer note is kept as is; `ComposerIsFirstProducerNote` gives the composer |
| Downloader.TakeFeature | downloader.py:112-116 | without a feature note the suffix is empty and the name kept as is; otherwise the suffix is ` (` ... `)`, which `FeatureSuffixIsFirstNote` pins down, and `FeatureNotesRemoved` says what is left |
| Downloader.SplitArtist | downloader.py:117-122 | there is an artist iff the name holds ` - `; without one the title is the whole name; `ArtistIsTextBeforeFirstSeparator` gives the parts |
| Downloader.AltText | downloader.py:126 | commas become ` / `, double spaces one space, then strip; `TitleExamples.MainAndAlternate` evaluates it |
| Downloader.ResolveAlternate | downloader.py:123-142 | a `???` title takes the name's first parenthesised group, any other title is merged with its own; `TitleExamples.PlaceholderTitle` and `MainAndAlternate` evaluate it |
| Downloader.PlaceholderAlternate | downloader.py:123-129 | the name's first parenthesised group as an alternate title, or `???` without one; `TitleExamples.PlaceholderTitle` evaluates it |
| Downloader.MergeAlternate | downloader.py:130-142 | a first group that is not a feature note is split off and combined by `ChooseTitle` |
| Downloader.ApiUrl | downloader.py:32-42 | the download address of each host; `SongIdOfApiUrl` shows the froste one gives its ID back |
| Downloader.PathJoin | downloader.py:62 | POSIX `os.path.join`; `NameInFolder` states where a slash-free name lands |
| TitleExamples.ArtistFeatureProducer | downloader.py:106-155 | `A - T (feat. F) (prod. P)` gives title `T (Feat. F')` with the suffixes, artist A and composer P |
| TitleExamples.MainAndAlternate | downloader.py:130-140 | `M (X)` gives `M / X` with no artist or composer |
| TitleExamples.PlaceholderWithAlternate | downloader.py:130-136 | `??? (X)` is not exactly the placeholder, so its group X is split off as the alternate and, the main being `???`, X is the title |
| TitleExamples.PlaceholderTitle | downloader.py:119-127 | `A (X) - ???` gives title X, from the full name's first parenthesised group, and artist `A (X)` |
| TitleExamples.BracketedNote | downloader.py:143 | `S [U]` drops the bracketed note |
| TitleExamples.MarvinsRoom | downloader.py:106-155 | `Drake - Marvins Room (feat. Kendrick Lamar) (prod. Noah)` gives `Marvins Room (Feat. Kendrick Lamar)`, Drake, Noah |
| TitleExamples.AlternateNameSnippet | downloader.py:123-146 | `??? (Alternate Name)` with length `Snippet` gives `Alternate Name (Snippet)` |
| TitleExamples.UnreleasedLowQuality | downloader.py:143-152 | `Song [Unreleased]` with quality `Low Quality` gives `Song (LQ)` |
| TitleExamples.NeverStopAltTake | downloader.py:131-140 | `Never Stop (Alt Take)` gives `Never Stop / Alt Take` |
| Text.StripByIdempotent | downloader.py:14 | stripping twice gives the same as once |
| Text.ContainsIff | downloader.py:24 | `p in s` iff p occurs at some position of s |
| Text.Search | downloader.py:108 | `re.search` returns the leftmost match, and None only when the pattern matches nowhere |
| Text.RunAfter | downloader.py:8-10 | the group of `prefix([class]+)`: None iff no occurrence is followed by a class character, else the maximal run after the first |
| Parser.Normalize | parser.py:8 | the result is no longer than the input and holds only lower-case letters and digits |
| Parser.NormalizeIdempotent | parser.py:8-10 | normalizing twice gives the same as once |
| Parser.NormalizeAppend | parser.py:8-10 | normalization distributes over concatenation |
| Parser.SingularFallbackRedundant | parser.py:11-15 | the singular fallback never adds a match: a column matches iff its normalized name contains the normalized keyword |
| Parser.FirstColumnFacts | parser.py:7-17 | None iff no column matches; otherwise the first matching column, which matches |
| Parser.FindColumn | parser.py:7-17 | the loop returns the first matching column, or None iff none matches |
| Parser.HeaderFrom | parser.py:66-71 | the first line from here whose stripped text has a character other than a comma; every earlier line has none |
| Parser.FindHeaderRow | parser.py:66-73 | the loop returns the first header line, or None iff no line qualifies |
| Parser.HeaderIndex | parser.py:66-71 | the first line that is neither blank nor commas only, with every earlier line one of those |
| Parser.IsHeaderLine | parser.py:69 | the stripped line holds a character other than a comma; `HeaderFrom` uses it |
| Parser.Gid | parser.py:31-34 | a found tab id is a non-empty run of digits |
| Parser.TabOf | parser.py:34 | the tab is the `gid=` digits when present, `0` otherwise |
| Parser.SheetId | parser.py:30 | the first `/spreadsheets/d/` run of ID characters; `ExportUrlRoundTrip` reads it back |
| Parser.ExportUrl | parser.py:35 | the export address of a tab; `ExportUrlRoundTrip` and `ExportUrlGid` give its meaning |
| Parser.CsvRequestFor | parser.py:19-57 | fetched as is iff it is a googleusercontent CSV link or not a Sheets link; a Sheets link without an ID is refused (both directions); otherwise the export URL for its ID and tab |
| Parser.CsvFromUrl | parser.py:19-57 | text only from a reply to an accepted URL; an export is accepted iff it replied with more than 100 characters, any other fetch iff it replied |
| Parser.GidAfter | parser.py:31 | a `?gid=` or `&gid=` query after a prefix with no earlier `gid` parameter yields its digits |
| Parser.ExportUrlGid | parser.py:31-35 | the export URL yields back its tab id |
| Parser.ExportUrlIsSheetsLink | parser.py:29-35 | the export URL is a Sheets link with its ID and not a googleusercontent link |
| Parser.ExportUrlRoundTrip | parser.py:29-35 | ID and tab are read back from the export URL, and asking for it again fetches it unchanged |
| Parser.SheetsLinkDefaultTab | parser.py:29-35 | a Sheets link without a query fetches the export of tab 0 |
| Parser.SheetsLinkTab | parser.py:29-35 | a Sheets link with `?gid=N` or `&gid=N` fetches the export of tab N |
| Parser.SheetsLinkWithoutId | parser.py:32-49 | a Sheets link without `/spreadsheets/d/<id>` is refused and yields no text, whatever the reply |
| Parser.StripColumns | parser.py:88 | the stripped header has exactly as many columns as the original, and column i is the original column i stripped |
| Parser.StrippedColumnsAreClean | parser.py:88 | every column of the stripped header is its own strip |
| Parser.RepeatedIff | parser.py:88 | a name is repeated iff two distinct positions of the stripped header hold it |
| Parser.Repeated | parser.py:88 | the name occurs again after its first position; `RepeatedIff` gives its meaning |
| Parser.MatchIsNotEmpty | parser.py:15-16 | a keyword with normalized text matches no empty column |
| Parser.KeywordsNormalized | parser.py:89-92 | the role keywords are their own normalization |
| Parser.FoundIsTruthy | parser.py:89-93 | a found column is never the empty string |
| Parser.NameColumnPrecedence | parser.py:89 | the name column is the first `songs` column, else the first `name` column, else the first `title` column; None iff no column matches any of them |
| Parser.NameColumn | parser.py:89 | the `or` chain of three lookups; `NameColumnPrecedence` gives its meaning |
| Parser.FoundColumnsAreTruthy | parser.py:89-93 | the `not name_col or not link_col` test is exactly "not found" |
| Parser.FirstIndex | parser.py:96 | the position of the first occurrence, or the length when absent |
| Parser.Dedup | parser.py:96 | `drop_duplicates` keeps exactly the same elements, each once |
| Parser.DedupKeepsFirstAppearanceOrder | parser.py:96 | the kept elements are in the order of their first appearance |
| Parser.EraCellsComplete | parser.py:95-96 | every era carried by a row with a link is collected |
| Parser.EraCellSource | parser.py:95-96 | every collected era comes from a row with a link |
| Parser.EraCellsIff | parser.py:95-96 | an era is collected iff some row with a non-blank link carries it |
| Parser.EraListFacts | parser.py:95-96 | the era list is duplicate-free, holds exactly the eras carried by rows with a link, and is in first-appearance order |
| Parser.EraListEmptyIff | parser.py:95-97 | the era list is empty iff no row with a link carries an era |
| Parser.EraList | parser.py:95-96 | `valid_rows['Era'].dropna().drop_duplicates().tolist()`; `EraListFacts` gives its meaning |
| Parser.Cell | parser.py:95 | the cell under the first column of a name, missing when the row is short; `EraCellsIff` uses it |
| Parser.HasLink | parser.py:95 | the link cell is present and not blank once stripped; `EraCellsIff` uses it |
| Parser.Resolve | parser.py:88-99 | a refused table is refused for missing columns or for having no eras |
| Parser.ReadEras | parser.py:95-99 | past the column check, a refusal can only be for having no eras |
| Parser.Acquire | parser.py:63-87 | file not found iff a file is named and missing; no header iff the file has no header line; no input iff neither a file nor a link is given; download failure iff the link yields no text; otherwise the read of the first header row or of the downloaded text |
| Parser.BlankLineCounted | parser.py:66-75 | a file whose first line is blank and whose second line is a header is read with `header=1` |
| Parser.Parse | parser.py:59-99 | each early error is returned iff reading stops with it; otherwise the outcome of reading and resolving |
| Parser.FindNameColumn | parser.py:89 | the `or` chain of three lookups gives the name column |
| Parser.ResolveColumns | parser.py:88-99 | the imperative role resolution agrees with `Resolve` |
| Parser.ResolveReadsEras | parser.py:93-99 | with both required columns found, `Resolve` reads the eras with the link column the lookup found |
| Parser.ReadErasRaises | parser.py:95-96 | the pandas failures, in order: a shared link column name raises at the link filter, then a missing `Era` column, then a shared `Era` name at `tolist()` |
| Parser.ReadErasParsed | parser.py:95-99 | a parsed read has an `Era` column, unshared link and `Era` names, and a non-empty era list in the manifest |
| Parser.DuplicateColumnIff | parser.py:88-96 | `parse_input` raises on a shared name iff both columns are found and the link column's name, or the `Era` name, is held by two columns after stripping; the shared name is reported |
| Parser.Load | parser.py:74-99 | a `read_csv` error is refused as a parse failure, a table is resolved; `Parse` gives its meaning |
| Parser.ParseInput | parser.py:59-99 | the imperative `parse_input` agrees with `Parse` |
| Parser.MissingColumnsIff | parser.py:93-94 | refused with the stripped column list iff the name or the link column is not found |
| Parser.EraLookupFailsIff | parser.py:93-96 | the era lookup fails iff both columns are found, the link column's name is its own, and no column is named `Era` |
| Parser.NoErasIff | parser.py:95-98 | refused for no eras iff both columns and `Era` are there, neither the link column's nor `Era`'s name is shared, and no row with a link carries an era |
| Parser.ParsedManifest | parser.py:88-99 | a parsed manifest has the stripped header, in which no other column shares the link column's or `Era`'s name, the found roles and a non-empty, duplicate-free era list holding exactly the eras of rows with a link |
| ParseErrors.ParseFailureKeepsReason | parser.py:77 | the parse failure message is `Failed to parse CSV: ` followed by the reason |
| ParseErrors.QuotedItemsNameEach | parser.py:94 | every column appears quoted in the joined list |
| ParseErrors.MissingColumnsNamesEach | parser.py:94 | the missing-columns message starts with its fixed text and names every available column in quotes |
| BatchDownload.EraFolderInDownloads | batch_download.py:10 | the era folder is `downloads/` + the sanitized era, which holds no `/` |
| BatchDownload.EraFolder | batch_download.py:10 | `os.path.join` of `downloads` and the sanitized era; its meaning is in `EraFolderInDownloads` and `EraFolderOfDotNames` |
| BatchDownload.EraFolderOfDotNames | batch_download.py:10 | the eras `..`, `.` and a blank one give the folders `downloads/..` (outside `downloads`), `downloads/.` and `downloads/` |
| BatchDownload.FilterRows | batch_download.py:12 | no more rows than given, each matching the era (stripped, case-insensitive) and having a non-blank link |
| BatchDownload.FilterAppend | batch_download.py:12 | filtering distributes over concatenation, so row order is kept |
| BatchDownload.FilterKeepsExactly | batch_download.py:12 | a row is kept iff it is one of the rows and is wanted |
| BatchDownload.FilterSameKey | batch_download.py:12 | two eras equal after strip and lower-casing select the same rows |
| BatchDownload.SavedPathIsNonEmpty | batch_download.py:25-26 | a saved download never has an empty path |
| BatchDownload.TaskRecordsIff | batch_download.py:21-24 | a task records an entry iff its row has a name |
| BatchDownload.Routing | batch_download.py:25-44 | tagged iff the host resolves, the download is delivered, the title is non-empty, the extension is `.mp3` and tagging does not raise; not tagged iff the same except non-MP3 or tagging raised; failed iff unresolved, undelivered or untitled; a failure records `title (url: url)`, the others the path |
| BatchDownload.Route | batch_download.py:25-44 | the bucket of a finished task; `Routing` gives its meaning |
| BatchDownload.Task | batch_download.py:18-44 | no entry when the name is missing, the routed entry otherwise; `TaskRecordsIff` gives its meaning |
| BatchDownload.TaskOutcome | batch_download.py:18-25 | a filtered row's task on its name, length, quality and link cells; `EveryRowRecordedIff` gives its meaning |
| BatchDownload.Field | batch_download.py:21-23 | the cell a task reads, missing as well when two columns share the name; `EveryRowRecordedIff` uses it |
| BatchDownload.Tally.constructor | batch_download.py:14 | a new tally has three empty buckets |
| BatchDownload.Tally.Record | batch_download.py:31-44 | one entry is appended to its own bucket and the others are unchanged |
| BatchDownload.Tally.Extend | batch_download.py:54-56 | each bucket is extended by the other tally's bucket |
| BatchDownload.BinsPartitionCompleted | batch_download.py:14-56 | the three buckets together hold exactly one entry per task that completed |
| BatchDownload.CompletedAll | batch_download.py:46-52 | every task completed iff none raised |
| BatchDownload.Outcomes | batch_download.py:47 | one outcome per submitted row |
| BatchDownload.EraOutcomes | batch_download.py:12-47 | one outcome per filtered row of the era |
| BatchDownload.EveryRowRecordedIff | batch_download.py:18-52 | the three buckets together hold one entry per filtered row iff every one of those rows has a readable name: a present cell under a name column no other column shares |
| BatchDownload.DownloadAndTag | batch_download.py:18-44 | the row's entry, if any, is appended to its bucket |
| BatchDownload.BinStep | batch_download.py:47-50 | the buckets after one more task are the buckets before plus that task's entry |
| BatchDownload.RunTasks | batch_download.py:46-52 | the per-era tally holds the buckets of the row outcomes, in row order |
| BatchDownload.ProcessEra | batch_download.py:9-56 | the global tally is extended by the buckets of that era's filtered rows |
| BatchDownload.Prompt | batch_download.py:64-72 | the first accepted answer, with every earlier one rejected; None only when no answer is accepted |
| BatchDownload.ChooseInputMethod | batch_download.py:64-72 | the choice is the first answer typed that is 1 or 2; every earlier answer was rejected; none only when the answers run out, none of them accepted |
| BatchDownload.ChooseWorkers | batch_download.py:77-85 | the worker count is the first answer typed between 1 and 10; every earlier answer was rejected; none only when the answers run out, none of them accepted |
| BatchDownload.ChooseEra | batch_download.py:114-122 | the era choice is the first answer typed between 0 and the number of eras; every earlier answer was rejected; none only when the answers run out, none of them accepted |
| BatchDownload.SelectEras | batch_download.py:124-127 | choice 0 selects every era, choice n the n-th alone |
| BatchDownload.SelectionIsListed | batch_download.py:124-127 | selected eras are listed eras, and distinct when the list is |
| BatchDownload.ProcessEras | batch_download.py:129-141 | a new global tally that is the concatenation, era by era, of each selected era's buckets |
| BatchDownload.AllBins | batch_download.py:129-141 | one bucket over all selected eras, era after era; `ProcessEras` is proved to build it |
| BatchDownload.UnquoteQuoted | batch_download.py:96-97 | a path wrapped in matching quotes loses them and is stripped again |
| BatchDownload.UnquotePlain | batch_download.py:96 | a path not starting with a quote is unchanged |
| BatchDownload.Unquote | batch_download.py:96-97 | only a path wrapped in matching quotes is changed; `UnquoteQuoted` and `UnquotePlain` give the two cases |
| BatchDownload.ArgumentsFor | batch_download.py:89-98 | choice 1 passes only the stripped link, choice 2 only the stripped, unquoted path |
| BatchDownload.BlankAnswerNamesNoInput | batch_download.py:89-98 | a blank URL, or a path that is blank once unquoted, is refused as "No file or link provided." |
| BatchDownload.RecomputedErasAgree | batch_download.py:104-107 | recomputing the eras from the manifest gives the list `parse_input` returned |

## Left out

- Output and progress reporting (`print` and `progress_callback`) are not modelled. Every message that `parse_input` returns is modelled, except that the column list's `repr` is simplified (see `ParseErrors.QuotedItemsNameEach` below).
- The bytes of a download, `os.makedirs` and writing the file are not modelled. A download is its `(path, ext)` result alone. A `Failed` response also stands for an error while opening or writing the file.
- The 200-character cut of `sanitize_filename` counts characters (code points), as Python's slice does. A file system's limit in bytes is not modelled.
- `embed_metadata` (downloader.py:82-104) writes ID3 tags through mutagen, a foreign library. The model keeps only whether it raises, which decides between the tagged and not-tagged buckets.
- HTTP requests are parameters: a response's content type or failure for tracks, and a reply's text or unreachability for manifests. Timeouts and redirects are not modelled.
- `pd.read_csv` is a parameter (`Environment.readFile`, `readText`). Quoted fields, multi-line cells, pandas' own renaming of duplicate header names (`X.1`) and the conversion of blank cells to NaN are not modelled; the header `read_csv` returns is taken as given, and names that only coincide after the strip of parser.py:88 are modelled. A cell is absent, as NaN is, or a string.
- Thread pools and `as_completed` are not modelled. Tasks and eras run in list order, so the order inside a bucket is row order and era order, where the program uses completion order. The unlocked `results[...].extend` and the `Lock` are not modelled for the same reason.
- `ProcessEras` treats one selected era and several alike. The program calls `process_era` directly for one era and uses a pool for several; the resulting tally is the same in both cases.
- An exception escaping `process_era` (batch_download.py:138-141) adds nothing to the tally and is not modelled separately; the model has no such paths.
- Answers to `input()` arrive as already-parsed integers, and an answer that is not a number is `None`. Running out of answers ends a prompt with `None`. In the program, `input()` then raises `EOFError`, which neither the `ValueError` handlers (batch_download.py:71, 84, 121) nor the `KeyboardInterrupt` handler (batch_download.py:154) catches, so `main` stops with that error.
- The `KeyboardInterrupt` handler and `exit(0)` (batch_download.py:154-156) are not modelled.
- Case mapping (`lower`, `upper`, `title`) covers ASCII letters only. Unicode `str.strip` whitespace is modelled exactly.
- `os.path.join` is modelled for POSIX paths only.
- ParseErrors.ParseFailureKeepsReason: the reason is the exception's text as given, whatever pandas would print.
- ParseErrors.QuotedItemsNameEach: Python's `repr` quoting of a column list is simplified to single quotes without escaping.
- Reading the file as UTF-8 (and failing on bad input) is not modelled. A file is its lines.
- `start_menu.py` (the console and graphical front end) and `reload.py` are not part of this model.
