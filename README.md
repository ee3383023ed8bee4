# Batch search and batch download of EPUB editions — a Dafny model

The repository has two command-line scripts:

- `batch_search.py` reads a JSON array of book requests (title, author, publisher). It runs one catalog
  search per request and narrows the result locally. It then writes the surviving editions to a text report,
  one numbered "version block" per edition.
- `batch_download.py` reads that report back. Before it does, the user marks the wanted versions by
  writing a `v` in front of a block header. The script picks one edition per title and merges in the
  editions a previous run left pending. It then downloads them within the day's quota and records every
  outcome in a JSON ledger of downloaded, pending and failed editions.

This project models the decision logic of both scripts and proves what each step promises. The remote
catalog, the download server and the file system are parameters or are left out.

Files and modules:

- `maybe.dfy` (`Maybe`): the `Option` type.
- `text.dfy` (`Text`): Python's `strip`/`lstrip`/`rstrip`, `lower`, substring test and digit runs on strings;
  `splitlines`/`join` of lines. Proved: stripping and lowering commute, both are idempotent, and
  splitting the joined lines gives the lines back.
- `seqs.dfy` (`Seqs`): an order-keeping `Filter` (a list comprehension with `if`), the subsequence
  relation, `Map`, and repetition-free lists.
- `batch_search.dfy` (`BatchSearch`): the request record and the book record; `normalize_string` and
  `fuzzy_match`; `build_search_term`; the three field filters; the search strategy; `extract_year` and
  `sort_books_by_year`; the duplicate detection of `load_search_requests`; and the version block the
  report writer emits.
- `list_file.dfy` (`ListFile`): the ledger key `id_hash`; the line classifier both passes of
  `parse_list_file` apply; the line scanner as a function over lines; the two passes as loops; and the
  per-title selection. It also proves that the report's version blocks read back as exactly the editions
  written.
- `ledger.dfy` (`Ledger`): the state document and its three updates as functions, with their laws; the
  `DownloadState` class, whose methods update the `downloaded`, `pending` and `failed` fields in place
  and are proved against those functions.
- `download_run.dfy` (`DownloadRun`): the outcome classification of `download_book`; `main`'s merge of
  pending editions; the already-downloaded filter; and the download loop with its quota and
  limit stop. The classification is stated by `DownloadBook`, the merge by `Merge` and the filter by
  `WithoutDownloaded`. The download loop `DownloadAll` is proved equal to the run specification
  `RunFrom`, and the ledger invariants are proved over a whole run.

Behaviour of the code worth knowing:

- A field that holds only whitespace counts as present. Python tests it by truthiness, so it
  seeds the search, opens a filter stage, and matches every non-empty field (`FuzzyMatchBlankTerm`).
- The selector removes duplicate marked picks by the full key `id_hash` and duplicate single-version picks by `id`
  alone (`SelectGroup`).
- The id filter in `main` compares `id` only, while the ledger compares `id_hash`, so this asymmetry is
  kept. The key is the string `id + "_" + hash`, so two different editions can share a key
  (`KeyCollision`). With ids that contain no `_`, the key is injective (`KeyInjective`).
- An empty selection returns before any pending edition is resumed (`Worklist`). The session
  counter `pending_count` counts only the edition that hit a limit. A quota stop pends the current book and
  every later one; a limit answer pends only the current book, and no later book of the work list is
  recorded at all (`RunStops`).

## Model

| member | source | states |
|---|---|---|
| Text.StripLower | batch_search.py:153 | stripping then lowering equals lowering then stripping |
| Text.LowerIdempotent | batch_search.py:153 | lowering twice is lowering once |
| Text.SplitJoin | batch_download.py:135-136 | reading lines back from the written text gives the written lines, each with its terminator |
| BatchSearch.Normalize | batch_search.py:141-153 | the normal form is no longer than the input, has no edge whitespace and no upper-case letter |
| BatchSearch.FuzzyMatch | batch_search.py:156-169 | a match needs both operands non-empty; a normalised prefix always matches |
| BatchSearch.FuzzyMatchAt | batch_search.py:156-169 | a match holds exactly when both are non-empty and the normalised term occurs at some position of the normalised target |
| BatchSearch.FuzzyMatchReflexive | batch_search.py:156-169 | every non-empty string matches itself, and the empty string does not |
| BatchSearch.FuzzyMatchEmpty | batch_search.py:167-168 | an empty term or an empty target never matches |
| BatchSearch.FuzzyMatchBlankTerm | batch_search.py:141-169 | a non-empty all-whitespace term matches exactly the non-empty targets |
| BatchSearch.FuzzyMatchIgnoresCase | batch_search.py:141-169 | lower-casing either side does not change the answer |
| BatchSearch.NormalizeLower | batch_search.py:141-153 | normalising a lower-cased string gives the same result |
| BatchSearch.FuzzyMatchShorterTerm | batch_search.py:156-169 | a non-empty term contained in a matching term also matches |
| BatchSearch.BuildSearchTermLaws | batch_search.py:119-138 | the term is empty exactly when all three fields are; it starts with the title; for each of the seven combinations of present fields it is those fields, in title, author, publisher order, joined by single spaces |
| BatchSearch.NarrowedLaws | batch_search.py:258-319 | an empty constraint keeps the list; otherwise a book is kept exactly when its field matches, and the order is kept |
| BatchSearch.FilterBooks | batch_search.py:258-319 | each filter returns the input for an empty constraint, else the matching books in order |
| BatchSearch.KeepMatching | batch_search.py:272-276 | the filter loop appends exactly the books the test accepts, in order |
| BatchSearch.SeedField | batch_search.py:391-400 | the seed is the title, else the publisher, else the author; there is none exactly when all three are empty |
| BatchSearch.SearchWithStrategy | batch_search.py:364-476 | no field gives no books and the error line; otherwise the books are the kept seed results with file size "N/A", in seed order, and the log is the strategy's log |
| BatchSearch.NarrowFound | batch_search.py:403-476 | an empty seed result ends the search with nothing; otherwise the three stages run and each kept book becomes a result record |
| BatchSearch.Refine | batch_search.py:411-446 | the title filter, then the publisher and author stages, with their log lines and the final count |
| BatchSearch.NarrowStage | batch_search.py:419-446 | a later stage filters only with more than one candidate and a present constraint, and keeps the previous list when the filter leaves nothing |
| BatchSearch.ToResults | batch_search.py:449-467 | each kept book becomes a result record with the same fields and file size "N/A" |
| BatchSearch.FallbackStageLaws | batch_search.py:419-446 | a stage deletes books without reordering and never empties a non-empty list; what it keeps is the input or books that all match |
| BatchSearch.FallbackStageChoice | batch_search.py:419-446 | when nothing matches, the stage keeps its input; when something matches, it keeps exactly the matching books |
| BatchSearch.StrategyIsSubseq | batch_search.py:364-476 | the kept books are a subsequence of the seed result |
| BatchSearch.StrategyEmptyIff | batch_search.py:403-446 | the strategy keeps nothing exactly when the title filter keeps nothing |
| BatchSearch.StrategyMatchesTitle | batch_search.py:411-446 | with a title given, every kept book's title matches it |
| BatchSearch.StageFallsBack | batch_search.py:425-429 | a stage that matches nothing on several candidates keeps them and logs the filter and the fallback |
| BatchSearch.StrategyAuthorFallback | batch_search.py:434-446 | an author filter that matches nothing keeps the publisher stage's list, and the log records the fallback |
| BatchSearch.StrategyTitleThenPublisher | batch_search.py:364-476 | with title and publisher given, when several titles match and the publisher narrows them, the result and the five log lines are as stated |
| BatchSearch.StrategyExample | batch_search.py:364-476 | on a concrete seed result of three books, the title and publisher stages keep the first book and the log is the five expected lines |
| BatchSearch.FourDigitsFrom | batch_search.py:565 | the leftmost position of four consecutive digits, or none when there is no such position |
| BatchSearch.YearKey | batch_search.py:558-570 | the key is at most 9999, and a non-zero key is the value of some run of four digits |
| BatchSearch.YearKeyLeftmost | batch_search.py:563-567 | the key is the value of the leftmost four-digit run |
| BatchSearch.YearKeyNone | batch_search.py:560-570 | a year text without four consecutive digits gets key 0 |
| BatchSearch.YearKeyPlain | batch_search.py:558-570 | "2021" has key 2021 |
| BatchSearch.YearKeyFirstRun | batch_search.py:558-570 | "c. 1998-2001" has key 1998: the first run wins |
| BatchSearch.YearKeyMissing | batch_search.py:560-561 | "N/A", the empty string and "98" get key 0 |
| BatchSearch.SortByLaws | batch_search.py:572 | sorting by a key returns a permutation ordered by the key in the requested direction |
| BatchSearch.SortByStable | batch_search.py:572 | books with equal keys keep their input order |
| BatchSearch.SortByYear | batch_search.py:547-572 | the sorted books are a permutation ordered by year key, and ties keep input order |
| BatchSearch.FirstIndexOf | batch_search.py:76-95 | the 1-based index of the first request with a key, or none when no request has it |
| BatchSearch.LoadSearchRequests | batch_search.py:57-109 | the requests come back unchanged, with the duplicate report |
| BatchSearch.NoteRequest | batch_search.py:78-95 | one loop pass keeps the map of first indices and the duplicate report in step with the requests read so far |
| BatchSearch.DuplicatesSound | batch_search.py:78-95 | every reported duplicate is a later request whose key first occurred at the reported index, and it carries that request's fields |
| BatchSearch.DuplicatesComplete | batch_search.py:78-95 | a request is reported exactly when an earlier request has its key |
| BatchSearch.VersionBlock | batch_search.py:616-626 | each edition is written as ten lines: the header and nine field lines |
| ListFile.KeyInjective | batch_download.py:107-109 | for ids without `_`, equal keys mean equal id and hash |
| ListFile.KeyCollision | batch_download.py:107-109 | ids `a_b` and `a`, with hashes `c` and `b_c`, give the same key |
| ListFile.DigitRun | batch_download.py:150 | the longest prefix made of digits |
| ListFile.MatchLabelAt | batch_download.py:159-172 | the label chain picks the first label that starts the line |
| ListFile.ScanConcat | batch_download.py:139-185 | scanning two parts in turn equals scanning them joined |
| ListFile.Titles | batch_download.py:174-181 | the title groups are repetition-free and are exactly the titles of the completed blocks |
| ListFile.TitlesFirstOccurrence | batch_download.py:177-182 | the title groups come in order of first occurrence: a block with a later title is preceded by a block with each earlier title |
| ListFile.FirstMarkedFrom | batch_download.py:231-240 | the first version from a position whose key is marked, or the end when there is none |
| ListFile.ParseListFile | batch_download.py:120-247 | the editions picked are the selection applied to the blocks of the file |
| ListFile.CollectVersions | batch_download.py:139-185 | the first pass yields every title once, in order of first occurrence, each with its complete versions in file order |
| ListFile.AddVersion | batch_download.py:174-181 | appending a version keeps the title order and the per-title lists in step with the blocks |
| ListFile.CollectMarked | batch_download.py:187-226 | the second pass yields exactly the keys of the complete marked blocks, each mapped to an edition with that key |
| ListFile.AddMarked | batch_download.py:219-223 | recording a marked version keeps the marked-key map in step with the blocks |
| ListFile.FirstMarked | batch_download.py:231-240 | the search loop finds the first marked version of a title |
| ListFile.SelectDownloads | batch_download.py:228-245 | the selection loop over the titles gives the selection function's result |
| ListFile.SelectTitle | batch_download.py:230-245 | one title adds its first marked version unless that key was already picked; failing that, its only version unless that id was already picked |
| ListFile.SelectGroupExtends | batch_download.py:228-245 | selection only appends, and only versions of the title |
| ListFile.SelectedAreVersions | batch_download.py:228-245 | every selected edition comes from a block of the file |
| ListFile.MarkedVersionSelected | batch_download.py:231-240 | the first marked version of every title is selected, by key |
| ListFile.SingleVersionSelected | batch_download.py:242-245 | an unmarked title with one version has that version's id selected |
| ListFile.SelectedJustified | batch_download.py:228-245 | a selected edition is marked or is the only version of its title |
| ListFile.SelectTargetsDistinctKeys | batch_download.py:228-245 | for ids without `_`, no key is selected twice |
| ListFile.MarkedBeatsUnmarked | batch_download.py:231-240 | of two versions of a title, the marked one is chosen |
| ListFile.AmbiguousTitleSkipped | batch_download.py:242-245 | two unmarked versions of a title select nothing |
| ListFile.BlockRoundTrip | batch_search.py:616-626 | one written version block, marked or not, reads back as that edition with that mark |
| ListFile.ReportRoundTrip | batch_search.py:616-626 | the version blocks of the report, read back line by line, are exactly the editions written, unmarked, in order |
| Ledger.KeysSnoc | batch_download.py:107-109 | appending an edition appends its key |
| Ledger.FirstWithKey | batch_download.py:94-95 | the position of the first failed entry with the key, or the end when there is none |
| Ledger.PendingGrowth | batch_download.py:85-89 | after `add_pending` the key is pending; the list only grows, by at most one, and is unchanged exactly when the key was already pending |
| Ledger.PendingIdempotent | batch_download.py:85-89 | pending an edition twice is pending it once |
| Ledger.PendingKeysUnique | batch_download.py:85-89 | `add_pending` keeps pending keys repetition-free |
| Ledger.SuccessClearsPending | batch_download.py:76-83 | after `add_downloaded` the key is downloaded and not pending; pending keeps exactly the other editions, in order |
| Ledger.DownloadedKeysUnique | batch_download.py:76-83 | `add_downloaded` keeps downloaded keys repetition-free and grows the list by at most one |
| Ledger.SuccessIdempotent | batch_download.py:76-83 | recording a success twice is recording it once |
| Ledger.FailureCounts | batch_download.py:91-105 | the failure count of the key goes up by one and its reason is replaced; other keys' counts do not change; a new entry is added only for a new key |
| Ledger.FailureKeys | batch_download.py:91-105 | the failed keys gain the key only when it was not there |
| Ledger.FailedKeysUnique | batch_download.py:91-105 | `add_failed` keeps failed keys repetition-free |
| Ledger.DownloadState.constructor | batch_download.py:51-68 | the state is the saved document, or empty lists when the file is missing or unreadable |
| Ledger.DownloadState.AddDownloaded | batch_download.py:76-83 | the fields become the success update of the old document |
| Ledger.DownloadState.AddPending | batch_download.py:85-89 | the fields become the pending update of the old document |
| Ledger.DownloadState.AddFailed | batch_download.py:91-105 | the fields become the failure update of the old document |
| DownloadRun.LimitMarkerMentionsLimit | batch_download.py:316-319 | the limit marker itself mentions "limit" |
| DownloadRun.DownloadBookOutcomes | batch_download.py:250-319 | success exactly for a delivered file; the limit marker exactly for an empty reply with no downloads left or an error mentioning limit or quota; other errors keep their message |
| DownloadRun.MergePending | batch_download.py:375-389 | the merge loop gives the merge function's result |
| DownloadRun.MergeAppends | batch_download.py:383-387 | the picks stay in front; the appended books are a subsequence of pending with keys not among the picks; each appended key occurs once and comes from its first pending entry |
| DownloadRun.MergeCovers | batch_download.py:383-387 | every pending key ends up in the merged list |
| DownloadRun.MergeDistinct | batch_download.py:383-387 | a merged list of repetition-free keys stays repetition-free |
| DownloadRun.MergeIdempotent | batch_download.py:375-389 | merging the same pending list twice is merging it once |
| DownloadRun.WithoutDownloadedSpec | batch_download.py:392-394 | the filter keeps exactly the books whose id was never downloaded, in order |
| DownloadRun.WorklistSkipsDownloaded | batch_download.py:366-398 | unforced, every book to download comes from the picks or the pending list and has no downloaded id |
| DownloadRun.WorklistResumesPending | batch_download.py:375-394 | unforced, with a non-empty selection and with no `_` in the ids of the picks and of pending (`PlainIds`), every pending book whose id is not downloaded has a book with its key on the work list |
| DownloadRun.DownloadAll | batch_download.py:434-483 | the loop's ledger and counters are those of the run specification |
| DownloadRun.PendRemaining | batch_download.py:444-446 | every remaining book is pended, in order |
| DownloadRun.PendAllSpec | batch_download.py:444-446 | after pending the remaining books, all their keys are pending, the old pending list stays in front, and nothing else changed |
| DownloadRun.RunQuota | batch_download.py:439-449 | a run never counts more downloads than the day's quota |
| DownloadRun.RunTally | batch_download.py:434-483 | the counters only grow, at most one book counts as pending, and each book counts at most once |
| DownloadRun.RunStops | batch_download.py:439-477 | at the quota the current and every later book are pended and the counters stay; a limit answer pends only the current book, counts it as pending, ends the run and records no other key |
| DownloadRun.RunRecords | batch_download.py:438-483 | no recorded key is forgotten, and when no limit stop occurred every book from the start position is recorded |
| DownloadRun.RunKeepsUnique | batch_download.py:438-483 | a run keeps every ledger list free of repeated keys |
| DownloadRun.RunSession | batch_download.py:366-483 | the work list is the merge and filter result; an empty list or a dry run leaves the ledger unchanged, otherwise it is the run specification's result |

## Left out

- The Z-Library client, login, the network and the remote search (the catalog search is the
  parameter `search`). `search_books_by_condition` is not part of this model.
- In the download loop, the server replies are the parameter `server`, and the day's remaining
  downloads are the parameter `left`.
- JSON and file reading and writing: `save`, `last_update`, the report writer's header and
  not-found sections, the argument parsing, saving the downloaded file, and joining the file path
  with the output directory. The success path returns the delivered name unchanged.
- The strategy log: the source builds fixed-wording text lines, with the terms quoted and the counts,
  and returns them joined by `"\n"`; the no-field case returns a bare error string. The model returns
  these lines as `StrategyStep` values (`StrategyTrace`, `NoSearchTerms`), so their text rendering and
  joining are not modelled. The report parser ignores these lines.
- Timing, `print`, `safe_print`, `flush_stdout` and the dry-run preview output. Dry run is modelled
  only as "no download".
- The legacy `search_epub_books`, `test_connection`, `is_epub_available` and `get_epub_book_details`:
  these are not part of the core.
- Strings are sequences of characters. `strip`, `lower` and `\d` are modelled on ASCII, with Python's
  ASCII whitespace set. Unicode case folding and Unicode digits are not modelled.
- On the search side, a `None` field is modelled as the empty string: every guard tests truthiness, so
  both behave alike. The report writer and the duplicate key print `None` for it; the model writes the
  empty string.
- Ledger.DownloadState.PendingCount: no contract beyond its body (the pending list's length).
- Ledger.DownloadState.DownloadedCount: no contract beyond its body (the downloaded list's length).
- Exceptions that escape the code are not modelled. These are a ledger that parses but lacks one of the
  three lists, a ledger entry without `id` or `hash` (a `KeyError`), and a failing `save`. A missing
  or unreadable ledger file is caught and gives the empty state, which the constructor models.
