# Resumable page indexer, in Dafny

This project models the ingestion core of the UCI search engine
(`prj3/indexer.py`) and two pieces of its search front-end
(`prj3/uci_scout/uci_scout/app.py`), and proves properties of the model.

The indexer reads a *book-keeping file* (the manifest). Each line is
`<level_1>/<level_2> <url>`. The two levels locate a crawled page's raw HTML
under the raw data directory. For every line the indexer:

1. parses the line;
2. reads and parses the page;
3. extracts a title, a description, heading and bold texts, and the
   whitespace-collapsed body text;
4. attaches the line's URL and posts the document to the search index.

A session first reads `progress.json` next to the manifest. It stops if the
last recorded run finished. Otherwise it skips the manifest lines that run
had reached. After its own run it appends an entry with the end line and a
finished flag, then re-raises the error that stopped the run, if any.

The front-end's `max_length` template filter shortens a snippet at a word
boundary. The search view asks the index for the results of page `p` from
offset `(p - 1) * 10`.

Modules, one file each:

- `wrappers.dfy` (`Wrappers`): `Option` and `Result`.
- `text.dfy` (`Text`): the Python string operations the code uses, over
  ASCII. These are `isspace`, `isalnum`, `strip()`, `split()`,
  `split(None, 1)`, `split('/')`, `' '.join` and prefix slices, with their
  round trips.
- `manifest.dfy` (`Manifest`): manifest records and `get_raw_data_path`.
  `get_record_generator` becomes the class `RecordStream`: a file position
  that the skip loop and each `next` advance.
- `extract.dfy` (`Extract`): `parse_raw_html` and its three helpers, over an
  abstract parsed page (`Page`).
- `ingest.dfy` (`Ingest`): `index_page` is the method `SearchIndex.Index` of
  an index object whose stored documents it appends to. `run` is the method
  `Run`, a loop over the stream proved equal to the functional
  specification `RunSpec`. `Pass`/`Go` walk the per-line outcomes, and
  `Harvest`/`StepError` give an independent, position-by-position reference
  description of a pass.
- `driver.dfy` (`Driver`): `load_progress` and `save_progress` are methods
  of the class `ProgressFile`. The session of `main` (lines 237-255) is the
  method `Session`, proved against `PlanOf` and `RunEffect`.
- `app.dfy` (`App`): `max_length` is the method `MaxLength`. Its two
  `while` loops are the methods `CutToSpace` and `CutToAlnum`. All three are
  proved against the function `MaxLengthSpec`. The file also models the
  page offset of `search`.

Behaviour of the code that the model keeps, where a plain description of the
system says otherwise:

- `run` counts `i` from the first line after the skip, not from the start of
  the manifest, and `main` saves that count as the line to resume from.
  `Driver.Session` takes a `Saving` mode: `AsWritten` saves that count, as
  line 252 does; `Absolute` saves the line made absolute, the evidently
  intended behaviour (see Findings).
- A line that does not unpack raises `ValueError` inside the generator,
  before `enumerate` assigns its position. `i` then still holds the previous
  position, or 0 (`Ingest.StopIndex`). Every other failure leaves `i` at the
  failing line.
- The description comes from the `content` attribute as it is, not
  stripped, because `get_el_attribute` does not strip.
- The title and the description are empty when the page has no title and
  description of its own and its body has no words (`Extract.TitleEmpty`).
- A page without `<body>` is skipped, like an unreadable one: the
  `AttributeError` is caught and `None` is returned.
- A `progress.json` that holds an empty list makes `progress[-1]` raise
  before anything runs or is saved (`EmptyProgress`).
- When the last `n` characters hold whitespace but the first `n + 1` have
  no letter or digit before a whitespace character, `max_length` raises
  `IndexError` (see Findings).

## Model

| member | source | states |
|---|---|---|
| Text.Strip | prj3/indexer.py:28 | the result of `strip()` has no whitespace at either end |
| Text.StripMiddle | prj3/indexer.py:28 | `strip()` keeps a contiguous middle of the string and drops only whitespace at both ends |
| Text.StripSurrounded | prj3/indexer.py:28 | `strip()` of a stripped string padded with whitespace gives that string back |
| Text.StripNoop | prj3/indexer.py:86 | a string with no whitespace at either end is its own `strip()` |
| Text.StripIdempotent | prj3/indexer.py:96 | `strip()` applied twice equals `strip()` applied once |
| Text.SkipSpace | prj3/indexer.py:28 | the whitespace run from `i` ends at the first non-whitespace character |
| Text.SkipWord | prj3/indexer.py:28 | the word from `i` ends at the first whitespace character |
| Text.SkipSpaceBack | prj3/indexer.py:28 | the whitespace run that ends at `j` starts just after a non-whitespace character |
| Text.WordsFromAreWords | prj3/indexer.py:58 | every field of `split()` is non-empty and free of whitespace |
| Text.JoinWordsCollapsed | prj3/indexer.py:58 | `' '.join` of such fields is collapsed: single spaces between non-space characters only |
| Text.CollapseShape | prj3/indexer.py:58 | the normalised body is collapsed and has no whitespace at either end |
| Text.WordsFromWord | prj3/indexer.py:58 | a word bounded by whitespace or the end is the first field of the split from its start |
| Text.WordsFromSpace | prj3/indexer.py:58 | leading whitespace does not change the split |
| Text.JoinWordsAt | prj3/indexer.py:58 | in joined words, the first word is followed by one space and then the join of the rest |
| Text.AreWordsTail | prj3/indexer.py:58 | the fields after the first are still words |
| Text.WordsFromJoin | prj3/indexer.py:58 | splitting a suffix that is joined words gives exactly those words |
| Text.WordsOfJoin | prj3/indexer.py:58 | round trip: `split()` of `' '.join(ws)` is `ws` for any list of words |
| Text.CollapseKeepsWords | prj3/indexer.py:58 | normalising keeps exactly the words of the input, and normalising twice equals once |
| Text.Take | prj3/indexer.py:62-63 | `s[:n]` is a prefix of `s` of length `min(n, len(s))` |
| Text.SplitFirst | prj3/indexer.py:28 | `split(None, 1)` gives at most two fields |
| Text.SplitOn | prj3/indexer.py:29 | `split('/')` gives at least one field |
| Text.SplitOnJoin | prj3/indexer.py:29 | round trip: joining the fields of `split('/')` with '/' restores the key |
| Text.SplitOnParts | prj3/indexer.py:29 | no field of `split('/')` contains '/' |
| Text.SplitOnNone | prj3/indexer.py:29 | a string without '/' splits into itself alone |
| Text.SplitOnFirst | prj3/indexer.py:29 | splitting `a/b` with no '/' in `a` yields `a` first, followed by the fields of `b` |
| Manifest.SplitFirstOfKeyAndUrl | prj3/indexer.py:28 | a key, a whitespace gap and a URL split into exactly the key and the URL |
| Manifest.KeyOfWellFormed | prj3/indexer.py:29 | the key of a well-formed record has no whitespace and splits on '/' into its two levels |
| Manifest.ParseLineOfRecord | prj3/indexer.py:27-31 | round trip: a well-formed record written as a line, with any gap and surrounding whitespace, parses back to itself |
| Manifest.SplitFirstSound | prj3/indexer.py:28 | two fields of a stripped line are a word, a non-empty whitespace run and a stripped rest, covering the whole line |
| Manifest.KeySound | prj3/indexer.py:29 | a key with two '/' fields is those fields around one '/' |
| Manifest.ParseLineSound | prj3/indexer.py:27-31 | every record the reader yields is well formed, and the stripped line is its key, whitespace and URL |
| Manifest.ParseFieldsSound | prj3/indexer.py:28-29 | the same for the two splits on a stripped line |
| Manifest.ParseLineErrors | prj3/indexer.py:28-29 | a blank line fails with 0 fields; a single word fails with 1 field; a two-level failure names the line's first word, whose '/'-split does not have two parts |
| Manifest.ParseFieldsErrors | prj3/indexer.py:28-29 | the same rejections for a stripped line |
| Manifest.RawDataPathLevels | prj3/indexer.py:13-16 | for levels without '/', in any directory (empty, ending in '/' or not) and with level 1 possibly empty, the raw path is the directory part followed by the levels part |
| Manifest.LevelsPathSplit | prj3/indexer.py:13-16 | the levels part splits on '/' back into the levels: level 2 alone when level 1 is empty, both otherwise |
| Manifest.RawDataPathInjective | prj3/indexer.py:13-16 | in any raw data directory, distinct accepted records, including those with an empty level 1, address distinct raw files |
| Manifest.SkipLines | prj3/indexer.py:22-25 | skipping leaves the lines from the skip count on, or none past the end |
| Manifest.SkipLinesFurther | prj3/indexer.py:22-25 | skipping `k` more lines equals dropping `k` of what was left |
| Manifest.RecordStream.constructor | prj3/indexer.py:22-25 | the skip loop leaves the position at the skip count, capped at the end of the file, and what remains is `SkipLines` |
| Manifest.RecordStream.Next | prj3/indexer.py:27-31 | an open stream yields the parse of the line at its position and advances by one; a malformed line or the end closes it; a closed stream yields nothing more |
| Extract.ElText | prj3/indexer.py:84-86 | the title text is `strip()` of the element's text, or '' when there is none, and is stripped |
| Extract.ElsText | prj3/indexer.py:94-96 | the kept texts are at most as many as the elements, each non-empty and stripped |
| Extract.ElsTextMembers | prj3/indexer.py:94-96 | a string is kept exactly when it is non-empty and is the stripped text of some element |
| Extract.TextSetClean | prj3/indexer.py:75-79 | no heading or bold set holds an empty string or one with whitespace at an end |
| Extract.TextSetMembers | prj3/indexer.py:75-77 | membership in a heading set, in both directions |
| Extract.BodyTextShape | prj3/indexer.py:58 | the body is collapsed, stripped and has the same words as the page's text |
| Extract.ParseRawHtml | prj3/indexer.py:40-81 | an unreadable file gives `None`; an uncaught failure raises; a page without a body gives `None`; only a parsed page gives metadata |
| Extract.ParseRawHtmlFields | prj3/indexer.py:54-81 | every field: body as above; the title is the stripped title, or else the first 60 body characters; the description is the attribute, or else the first 150 body characters; the sets are clean |
| Extract.BoldMembers | prj3/indexer.py:68-69 | the bold set is exactly the kept texts of `<strong>` and of `<b>` elements |
| Extract.HeadingMembers | prj3/indexer.py:65-67 | each heading set is exactly the kept texts of its elements |
| Extract.TitleEmpty | prj3/indexer.py:62-63 | the title (the description) is empty exactly when the page has none of its own and the body has no words |
| Ingest.SearchIndex.constructor | prj3/indexer.py:34-37 | an index with the given acceptance rule and contents |
| Ingest.SearchIndex.Index | prj3/indexer.py:34-37 | the document is appended when the engine accepts it; otherwise nothing changes |
| Ingest.Outcomes | prj3/indexer.py:106 | one outcome per line left after the skip |
| Ingest.OutcomesOfFirst | prj3/indexer.py:106 | one outcome per line of a non-empty list |
| Ingest.OutcomesAt | prj3/indexer.py:106-112 | the outcome at position `k` is that of line `k` |
| Ingest.OutcomesHead | prj3/indexer.py:106-112 | the first line's outcome comes first, followed by the outcomes of the rest |
| Ingest.OutcomesSuffix | prj3/indexer.py:106-112 | the outcomes of the lines from position `i` on are the outcomes from position `i` on |
| Ingest.OutcomesOfSameLine | prj3/indexer.py:106-112 | two positions holding the same line have the same outcome |
| Ingest.Process | prj3/indexer.py:107-113 | a record's page is extracted; the document gets the record's URL and is submitted; the index grows by it exactly when it is accepted |
| Ingest.Iterate | prj3/indexer.py:106-113 | one loop step: the end of the stream, or the outcome of the line at the stream's position, with the index changed as `Process` says |
| Ingest.Advance | prj3/indexer.py:106-113 | the same step at enumerate position `j`, its outcome being `Outcomes(recs)[j]` |
| Ingest.ExpectedLine | prj3/indexer.py:106 | the outcome at enumerate position `j` is that of manifest line `first + j` |
| Ingest.Run | prj3/indexer.py:99-119 | `run` returns `RunSpec`'s `i`, finished flag and error, and the index gains exactly `RunSpec`'s documents in order |
| Ingest.LineOfItem | prj3/indexer.py:27-31 | a line's outcome follows from what the generator yields for it |
| Ingest.Harvest | prj3/indexer.py:108-113 | at most one document per line |
| Ingest.HarvestStep | prj3/indexer.py:108-113 | one more line adds its document, if it has one |
| Ingest.GoStep | prj3/indexer.py:106-113 | a line that raises nothing moves the pass to the next line, with that line's document stored |
| Ingest.GoStop | prj3/indexer.py:116-119 | a line that raises ends the pass with its error and `i` at the stop index |
| Ingest.GoFinishes | prj3/indexer.py:106-115 | from any position, a pass where no line raises runs to the end |
| Ingest.GoStops | prj3/indexer.py:106-119 | from any position, a pass stops at the first line that raises |
| Ingest.PassFinished | prj3/indexer.py:106-115 | with no failing line: finished, no error, `i` at the last line (0 when none), and every line's document stored in order |
| Ingest.PassStops | prj3/indexer.py:106-119 | with a first failing line `f`: not finished, that line's error, `i` at `f` (at `f - 1` for a malformed line), and exactly the documents before `f` stored |
| Ingest.FirstError | prj3/indexer.py:106-119 | a failing line implies a first failing line |
| Ingest.PassOutcome | prj3/indexer.py:99-119 | finished exactly when there is no error, and every pass is either of the two cases above |
| Ingest.PassResume | prj3/indexer.py:99-119 | an unfinished pass leaves `i` at a line whose predecessors' documents are all stored, and nothing after that line is stored |
| Ingest.StopBounds | prj3/indexer.py:106-119 | what was stored before the failing line lies between the documents before and after the line `i` points at |
| Ingest.HarvestAppend | prj3/indexer.py:106-113 | the documents of consecutive parts of the manifest add up |
| Ingest.HarvestSources | prj3/indexer.py:108-113 | every stored document comes from some line |
| Ingest.LineSubmits | prj3/indexer.py:107-113 | a line's document is the extracted page of the line's record, carrying the record's URL |
| Driver.ProgressFile.constructor | prj3/indexer.py:235 | a progress file that exists or not, with its entries |
| Driver.ProgressFile.Load | prj3/indexer.py:180-183 | loading gives the stored entries |
| Driver.ProgressFile.Save | prj3/indexer.py:186-190 | the new entry is appended to the given list, and the file then exists and holds exactly that list |
| Driver.PlanOf | prj3/indexer.py:237-246 | a session stops before running only when the progress file exists and is loaded, and then either because the last run finished or because the list is empty |
| Driver.RunAndSave | prj3/indexer.py:249-255 | the run's documents are stored, the progress file holds the old list plus one new entry (the relative count with `AsWritten`, as line 252 saves it, or the absolute line with `Absolute`), and the run's error is raised again |
| Driver.Session | prj3/indexer.py:237-255 | a stopping session changes nothing; otherwise it resumes at the planned line and changes the file, the index and the outcome as `RunEffect` says, for the program as written (`AsWritten`) and for the corrected one (`Absolute`) |
| Driver.ResumeEntryResumes | prj3/indexer.py:246-252 | with the absolute entry, the next session reads the manifest from exactly the line at which the run stopped |
| Driver.ResumeEntryAsWrittenRewinds | prj3/indexer.py:246-252 | with the entry as written, the next session reads again the `start` lines before the line at which the run stopped, then continues from there |
| Driver.NextSession | prj3/indexer.py:237-246 | after a save, the next session stops when the entry is finished, and otherwise resumes at the saved line with the whole log kept |
| Driver.ResumeCovers | prj3/indexer.py:237-255 | with the absolute entry (`ResumeEntry`): finished exactly when no error, then every document stored; unfinished, the next session reads from the stopping line, all earlier documents are stored, and at most that line's is stored twice |
| Driver.PrefixBetween | prj3/indexer.py:106-119 | a store that lies between the documents before a line and those after it is one of the two |
| Driver.HarvestSplit | prj3/indexer.py:106-113 | the documents of the lines split at line `i` add up, and line `i` adds at most one |
| Driver.TwoPasses | prj3/indexer.py:99-119 | a pass that stops, then a pass from its `i` that finishes against a search engine that may now accept what it refused, store every line's document in line order, the stopping line's at most twice |
| Driver.TwoSessions | prj3/indexer.py:237-255 | a stopped session, then a session resumed at the saved absolute line that finishes against a search engine that may now accept what it refused, store every document of the manifest after the start line, in order, with at most one stored twice |
| Driver.RefusedThenAccepted | prj3/indexer.py:106-119 | a document the engine refuses stops the pass at its line with nothing stored, and an engine that then accepts it lets the resumed pass finish with the document stored |
| Driver.SampleLine | prj3/indexer.py:27-31 | the line `a/b http://u` yields the record a, b, `http://u` |
| Driver.AsWrittenRewinds | prj3/indexer.py:246-252 | as written, a run resumed at line 2 that fails at once saves line 0, so the next session rereads lines already done |
| App.SpaceEnd | prj3/uci_scout/uci_scout/app.py:29-30 | the first loop stops after the last whitespace character, or runs dry when there is none |
| App.AlnumEnd | prj3/uci_scout/uci_scout/app.py:34-35 | the second loop stops after the last letter or digit, or runs dry when there is none |
| App.WordCutDefined | prj3/uci_scout/uci_scout/app.py:29-35 | the loops run dry exactly when no letter or digit comes before a whitespace character |
| App.WordCutShape | prj3/uci_scout/uci_scout/app.py:29-35 | the cut ends in a letter or digit and is followed by non-alphanumerics up to the last whitespace, after which there is no whitespace |
| App.CutToSpace | prj3/uci_scout/uci_scout/app.py:29-30 | the first loop leaves the prefix up to the last whitespace, or raises when there is none |
| App.CutToAlnum | prj3/uci_scout/uci_scout/app.py:34-35 | the second loop leaves the prefix up to the last letter or digit, or raises when there is none |
| App.MaxLength | prj3/uci_scout/uci_scout/app.py:19-37 | the filter's loops compute `MaxLengthSpec`, including its `IndexError` |
| App.MaxLengthDefined | prj3/uci_scout/uci_scout/app.py:19-37 | the filter returns exactly when the string is short, its last `n` characters hold no whitespace, or its first `n + 1` have a letter or digit before a whitespace |
| App.MaxLengthShape | prj3/uci_scout/uci_scout/app.py:19-37 | short strings come back unchanged; otherwise a prefix of at most `n` characters plus the postfix, cut at `n` when the tail holds no whitespace, and otherwise at a word boundary ending in a letter or digit |
| App.WordCutOfPrefix | prj3/uci_scout/uci_scout/app.py:26-35 | the cut of the first `n + 1` characters, read in the whole string |
| App.CutInPrefix | prj3/uci_scout/uci_scout/app.py:26-35 | a cut of a prefix keeps its properties in the whole string |
| App.MaxLengthBound | prj3/uci_scout/uci_scout/app.py:19-37 | the result is never longer than `n` plus the postfix |
| App.MaxLengthRaises | prj3/uci_scout/uci_scout/app.py:23-35 | `max_length("abcd e", 3)` and `max_length("  ab c", 3)` raise `IndexError` |
| App.CorrectedStemShape | prj3/uci_scout/uci_scout/app.py:19-37 | the corrected filter keeps a prefix of at most `n` characters; exactly when `s[:n+1]` has a letter or digit before a whitespace, it ends in a letter or digit followed by non-alphanumerics up to the last whitespace of `s[:n+1]`; otherwise it is `s[:n]` |
| App.MaxLengthCorrectedShape | prj3/uci_scout/uci_scout/app.py:19-37 | the corrected filter is total and keeps short strings; it cuts the rest to at most `n` characters plus the postfix, at the same word boundary the source's loops find whenever one exists, and otherwise at `n` |
| App.MaxLengthCorrectedAgrees | prj3/uci_scout/uci_scout/app.py:19-37 | when the source cuts at a word boundary without raising, the corrected filter's result is identical |
| App.OffsetPages | prj3/uci_scout/uci_scout/app.py:55-57 | page 1 starts at result 0; each page starts 10 after the previous one; pages from 1 on show each result exactly once; pages below 1 give a negative offset |

## Left out

- HTML parsing and the lxml `Cleaner` are abstracted. A page is what the code reads from the parsed document (`Extract.Page`), or an unreadable file, or a failure the code does not catch (`Extract.PageSource`).
- Elasticsearch is abstracted as `Ingest.SearchIndex`. Whether `es.index` succeeds is the function `accepts` of what the index already holds; the index name and `doc_type` are not modelled.
- `Ingest.SearchIndex.Index`: a call that raises after the engine stored the document is not modelled. A refused document leaves the index unchanged.
- The file system is abstracted. The manifest is its list of lines, or `None` when it cannot be opened. The raw page files are the function `Env.pages` from path to page source.
- JSON encoding of `progress.json` is not modelled; the file is its list of entries. A file that fails to load or to write is not modelled either.
- `datetime.now()` becomes the parameter `now` of `Driver.Session`.
- `get_parser`, `get_logger`, `get_elasticsearch_connection`, `initialize_index` and logging are configuration and I/O. They are not part of this model.
- `ensure_scheme`, the Flask routes, the Elasticsearch service calls, `Pagination` and template rendering are not part of this model. Of `search`, only the offset arithmetic is modelled.
- `App.Offset`: `int(request.args.get('page', 1))` raising on a non-number is not modelled; the page is already an integer.
- `App.MaxLength`: `max_length` is a natural number. A negative `max_length`, which Python slices from the other end, is not modelled.
- `Text.IsSpace` and `Text.IsAlnum` are ASCII only. They model Python 2 byte strings in the C locale; Unicode and locale-dependent classes are not modelled.
- `Text.HasSpace` stands for `re.search('\s', ...)`, whose class is the same ASCII whitespace in that setting.
- `PathJoin` models POSIX `os.path.join` only.
- `Ingest.Run`: `finally: return` (prj3/indexer.py:118-119) also swallows exceptions that are not an `Exception`, such as `KeyboardInterrupt`. The source then returns `is_finished = False` with `err = None`, saves that entry and logs "Done!". The model has no such exception, so `Ingest.PassOutcome`'s "finished exactly when there is no error" holds of the model only.
- Concurrent sessions against the same manifest, and a process killed mid-run (which saves nothing), are not modelled.

## Findings

| source | as written | input that shows it | evidently intended | confidence | as-written member | corrected member |
|---|---|---|---|---|---|---|
| prj3/indexer.py:246-252 | `run` counts `i` from 0 over the lines left after skipping `start`, and `main` saves that count as `end_line_num`, the line the next session resumes from | a 3-line manifest whose last progress entry is `end_line_num = 2`, unfinished; the page of line 2 raises in `parse_raw_html`; the saved line is 0, so the next session starts again at line 0 | save `start + i`, the absolute line where the run stopped | not executed | Driver.AsWrittenRewinds | Driver.ResumeCovers |
| prj3/uci_scout/uci_scout/app.py:23-35 | the whitespace test looks at the last `n` characters, but the loops cut the first `n + 1`; when those have no letter or digit before a whitespace character, a loop empties `trimmed` and `trimmed[-1]` raises `IndexError` | `max_length("abcd e", 3)`; also `max_length("  ab c", 3)` | cut at a word boundary of the first `n + 1` characters when there is one, and otherwise at `n` characters | not executed | App.MaxLengthRaises | App.MaxLengthCorrectedShape |
