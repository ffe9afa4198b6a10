# Diary summary pipeline, modelled in Dafny

The system reads a personal diary kept as Google Docs in year and month folders on
Google Drive, and writes summaries of it to an output directory. One run works like
this:

- It asks whether to use the raw yearly caches already in the output directory, or
  to scan Drive again. When there is no cache, it scans Drive without asking.
- A scan groups the listed documents by the year and month found in their folder
  paths. It fetches each document's text and keeps the documents that have text,
  in natural path order. It then writes one raw cache file for each year that has
  at least one such document.
- For every year, in ascending order, it skips the year when its yearly file already
  exists. Otherwise it makes each month's summary once and keeps it in the month's
  file, reusing a month's file that already holds one. From those monthly summaries
  it makes the yearly summary and writes the yearly file.
- Every model call is retried with a linear backoff when the model reports a rate
  limit. A generator that fails returns a placeholder text instead of raising.

The model has one module per concern:

- `Seqs`, `Text` and `Records`/`Grouping` hold the shared vocabulary:
  - the sort of years;
  - Python's `split`, `join` and `strip`;
  - the two record shapes;
  - the `defaultdict(list)` grouping.
- `Parsers` covers the natural sort key, the year and year-month classifiers, and
  the two listing groupers.
- `Summarizer` covers the token estimate, the greedy batching, the retrying call
  and the three summary generators.
  - The language model is an oracle. It answers the run's n-th request with a
    reply or an error.
  - Every request and every pause is recorded, in order, as an event.
- `SummaryFiles` and `RawCache` cover the three file formats and their readers.
- `Storage` is the output directory as a class `OutputDir`, whose `files` map is
  updated in place. It also holds the cache scan and the mode prompt.
- `DriveIndex` is the specification of the Drive load: its month lists, its two
  indexes and the caches it writes.
- `Orchestrator` is the run. Its class `Pipeline` holds the directory, the record
  of model calls and the request count.
  - The functions `MonthStep`, `YearStep`, `ProcessYears` and `RunSpec` specify
    the methods.
  - The lemmas state what a run keeps, writes and asks for.

The model takes these things as parameters:

- the Drive listing, as a sequence of file records;
- the Drive export, as a function from document id to text;
- the clock reading, as an already formatted string;
- the lines typed at the mode prompt, as a sequence of strings.

## Model

| member | source | states |
|---|---|---|
| Parsers.SplitDigitRunsFlatten | diary_summary/parsers.py:18 | Concatenating the pieces of the digit-run split gives back the input string. |
| Parsers.SplitDigitRunsUnique | diary_summary/parsers.py:18 | Any alternation of non-digit text and non-empty digit runs that concatenates to the string is the split. So the split is the only one of that shape. |
| Parsers.NaturalKey | diary_summary/parsers.py:9-18 | The key has one part per piece of the split. Text pieces are lower-cased, and digit runs become their numeric value. |
| Parsers.KeyLessStrictTotal | diary_summary/parsers.py:9-18 | The order on keys (Python's list and tuple comparison) is irreflexive and total: of two different keys, exactly one is smaller. |
| Parsers.KeyLessTransitive | diary_summary/parsers.py:9-18 | The order on keys is transitive. |
| Parsers.MonthFolderOrder | diary_summary/parsers.py:9-18 | Two month folders of the same year compare by the numeric value of the month, not by its digits. |
| Parsers.NaturalOrderOfMonths | diary_summary/parsers.py:12 | Month 1 sorts before month 2, and month 2 before month 10. |
| Parsers.PlainOrderOfMonths | diary_summary/parsers.py:12 | Plain string order puts month 10 before month 2. This is the contrast the key exists for. |
| Parsers.SortByKeyCorrect | diary_summary/orchestrator.py:77-78 | Sorting by a key gives an ordered list. The result is a permutation of the input. Diaries with equal keys keep their input order, as Python's stable `sort` does. |
| Parsers.ExtractYear | diary_summary/parsers.py:21-46 | A year that is found lies between 1900 and 2100. |
| Parsers.FirstValidYearIs | diary_summary/parsers.py:21-46 | The year found comes from the leftmost match of the first pattern whose leftmost match is in range. Each earlier pattern's leftmost match is absent or out of range. This holds in both directions. |
| Parsers.NoFourDigitsNoYear | diary_summary/parsers.py:21-46 | A path without four consecutive digits has no year. |
| Parsers.ExtractYearMonth | diary_summary/parsers.py:49-80 | A month that is found lies in 1..12 and always comes with a year, and any year found is in range. |
| Parsers.YearMonthFallback | diary_summary/parsers.py:75-80 | When no year-month pattern yields a valid pair, the result is the year from the year patterns, with no month. |
| Parsers.MarkedYearMonthWins | diary_summary/parsers.py:49-80 | A path whose leftmost `NNNN年M月` is a valid year and month yields exactly that pair. |
| Parsers.GroupFilesByYear | diary_summary/parsers.py:83-99 | The loop builds the grouping of the files by their year. Files without a year are dropped, and each bucket keeps the listing order. |
| Parsers.GroupFilesByYearMonth | diary_summary/parsers.py:102-125 | The loop builds the nested grouping by year, then month. Only files with both a year and a month are kept. |
| Grouping.GroupByBuckets | diary_summary/parsers.py:83-99 | No bucket is empty. An element is in bucket k exactly when it is in the input with key k. |
| Grouping.NestedMembers | diary_summary/parsers.py:102-125 | An element is in bucket [y][m] exactly when it is in the input with year y and month m. No nested bucket is empty. |
| Seqs.SortNatsCorrect | diary_summary/storage.py:170 | The sort of years gives an ascending permutation of its input. |
| Seqs.SortedKeys | diary_summary/orchestrator.py:117-120 | `sorted(d.keys())` is strictly ascending and holds exactly the keys. |
| Text.JoinSplit | diary_summary/storage.py:61-76 | Joining the pieces of a split on the same separator gives back the string. |
| Text.NewlinesPlain | diary_summary/storage.py:58-59 | A text without a carriage return is read back in text mode exactly as written. |
| Text.NewlinesCrLf | diary_summary/storage.py:58-59 | In text mode `\r\n` is read as one `\n`, and the rest is read on its own. |
| Text.NewlinesCr | diary_summary/storage.py:58-59 | In text mode a `\r` not followed by `\n` is read as `\n`. |
| Text.NewlinesChar | diary_summary/storage.py:58-59 | In text mode every character other than `\r` is read as itself. |
| Text.NewlinesAppend | diary_summary/storage.py:119-120 | Reading two texts written one after the other gives the two readings one after the other, unless a `\r` ending the first meets a `\n` starting the second. |
| Text.NatToStringInjective | diary_summary/storage.py:32-35 | Different numbers have different decimal texts. |
| Summarizer.EstimateJoin | diary_summary/summarizer.py:10-15 | Joining two texts with a separator that has no ideograph and no ASCII letter at either end adds their ideograph counts and their English word counts. No word is split or merged at the seam. |
| Summarizer.PackIsGreedy | diary_summary/summarizer.py:18-44 | The batches concatenate to the diaries in order, and none is empty. Each batch is within the token limit, or is a single diary. Every batch after the first opens with a diary that did not fit into the batch before it. |
| Summarizer.SplitIntoBatches | diary_summary/summarizer.py:18-44 | The batching loop computes exactly the greedy packing. |
| Summarizer.RetryTrace | diary_summary/summarizer.py:47-74 | A call makes between 1 and `max_retries` requests, all with the same prompt. Between them come the pauses (attempt + 1) × 30 seconds. |
| Summarizer.RetryOnlyAfterRateLimits | diary_summary/summarizer.py:64-70 | A call retries only after a rate-limit error. Every answer except the last was one. |
| Summarizer.RetryOutcome | diary_summary/summarizer.py:59-74 | The last answer decides the result. A reply is returned. Another error is raised as it is. A rate limit is final only on the last allowed attempt, where it becomes `Exceeded maximum retries`. |
| Summarizer.DefaultBackoff | diary_summary/summarizer.py:47-74 | With the default three attempts, a call makes at most three requests. Its pauses are none, 30, or 30 then 60 seconds; a 90-second pause never happens. |
| Summarizer.RateLimitedTwiceThenReply | diary_summary/summarizer.py:47-74 | Two rate limits followed by a reply give three requests, pauses of 30 and 60 seconds, and the third reply. |
| Summarizer.CallWithRetry | diary_summary/summarizer.py:47-74 | The attempt loop does what the recursive specification `Retry` describes, which the lemmas above characterise. |
| Summarizer.SettleOnReply | diary_summary/summarizer.py:77-123 | When the last answer is a reply, the generator returns it and then pauses 2 seconds. |
| Summarizer.SettleOnError | diary_summary/summarizer.py:120-123 | When the last answer is an error, the generator returns the failure text followed by the error's message, and does not pause. |
| Summarizer.SettlePrompts | diary_summary/summarizer.py:77-123 | A generator makes 1 to 3 requests, all with its prompt, and counts them. |
| Summarizer.GenerateMonthlySummary | diary_summary/summarizer.py:77-123 | The monthly generator is one retrying call over the month's joined diaries, settled as the two lemmas above describe. |
| Summarizer.MergeTextSnoc | diary_summary/summarizer.py:212-215 | The merged text has the batch summaries in batch order. Each one is under its `【Part i Summary】` label, and they are separated by blank lines. |
| Summarizer.PartsFailureSticks | diary_summary/summarizer.py:173-237 | Once a batch call has failed, the batch loop does nothing more. |
| Summarizer.SummarizeBatches | diary_summary/summarizer.py:173-207 | The batch loop does what its specification `PartsUpTo` describes, and stops at the first failing batch. |
| Summarizer.GenerateBatchedSummary | diary_summary/summarizer.py:163-241 | The batched path is the batch loop, then the merge call unless a batch failed. |
| Summarizer.MergeSummaries | diary_summary/summarizer.py:209-237 | The merge is one retrying call on the labelled batch summaries, settled with the failure text. Its events and requests follow those of the batch loop. |
| Summarizer.GenerateYearlySummary | diary_summary/summarizer.py:126-241 | The yearly generator takes the direct path below 25000 estimated tokens and the batched path otherwise. |
| Summarizer.PacedPrompts | diary_summary/summarizer.py:173-207 | The batch requests are the batch prompts, in order. |
| Summarizer.PacedWaits | diary_summary/summarizer.py:203-207 | A 65-second pause follows each batch request except the last. |
| Summarizer.YearlyDirectReplies | diary_summary/summarizer.py:142-161 | Below the threshold, with a model that answers, there is one request carrying every diary of the year, then a 2-second pause. |
| Summarizer.YearlyBatchedReplies | diary_summary/summarizer.py:163-237 | Above the threshold, with a model that answers: one request per batch in order, 65-second pauses between them, then the merge request. Its answer is the yearly summary, followed by a 2-second pause. |
| Summarizer.YearlyBatchFailure | diary_summary/summarizer.py:239-241 | When a batch fails, the yearly summary is the failure text with that batch's error. Only batch prompts were sent, so no merge request was made. |
| Summarizer.MonthlyDigestLaterMonth | diary_summary/summarizer.py:258-260 | Months are concatenated in ascending order. A month later than all others adds its section at the end. |
| Summarizer.CombineMonthly | diary_summary/summarizer.py:258-260 | The concatenation loop builds the digest of every month's section in month order. |
| Summarizer.GenerateYearlyFromMonthly | diary_summary/summarizer.py:244-291 | The yearly-from-monthly generator is one retrying call over the digest, settled like the monthly one. |
| SummaryFiles.PathsDistinct | diary_summary/storage.py:11-103 | Different years have different yearly files and raw caches. Yearly files, monthly files and raw caches never share a name. |
| SummaryFiles.MonthlyPathInjective | diary_summary/storage.py:27-44 | Different (year, month) pairs have different monthly files. |
| SummaryFiles.EnvelopeAsRead | diary_summary/storage.py:11-59 | An envelope read in text mode is the envelope around the summary as read. The title, the rules and the time stamp are unchanged. |
| SummaryFiles.EnvelopeRoundTrip | diary_summary/storage.py:11-76 | Reading the summary section back from an envelope gives the summary as read in text mode, stripped. This needs a one-line title not starting with `=`, a title and time stamp without a carriage return, and no line of the summary as read starting with `=`. |
| SummaryFiles.MonthlyRoundTrip | diary_summary/storage.py:27-76 | Loading a monthly file that the writer produced gives back the summary as read in text mode, stripped, under the same condition on its lines. |
| RawCache.CacheAsRead | diary_summary/storage.py:79-120 | A raw cache read in text mode is the cache written for the diaries as read, when the paths and the time stamp hold no carriage return. |
| RawCache.CacheRoundTrip | diary_summary/storage.py:79-153 | Loading a year's raw cache gives back every diary in order. Each keeps its path, its content comes back as read in text mode and stripped, and its file name is the last path component. This needs a time stamp without `【` or a carriage return, and diaries that are `Cacheable`. |
| Storage.CacheYear | diary_summary/storage.py:156-170 | A year is read from a cache file name exactly when some position matches four digits followed by the cache suffix. |
| Storage.CacheFileYear | diary_summary/storage.py:79-170 | The raw cache of a four-digit year is listed by the scan, and gives that year back. |
| Storage.FirstChoiceIs | diary_summary/storage.py:186-198 | The mode is read from the first answer that strips to 1 or 2, and from no other. There is no choice when no such answer exists. |
| Storage.PromptUserForMode | diary_summary/storage.py:173-198 | Without a cached year the mode is the Drive scan. Otherwise it is the first decisive answer, or nothing when the input ends. |
| Storage.OutputDir.SaveSummary | diary_summary/storage.py:11-24 | Writes the yearly envelope and changes no other file. |
| Storage.OutputDir.SaveMonthlySummary | diary_summary/storage.py:27-44 | Writes the monthly envelope in the year's folder and changes no other file. |
| Storage.OutputDir.LoadMonthlySummary | diary_summary/storage.py:47-76 | Gives none without the file. Otherwise it reads the file in text mode and gives the lines between the first two rule lines, joined and stripped. |
| Storage.CollectSummaryLines | diary_summary/storage.py:62-74 | The line loop keeps the lines after the first line starting with `=` and stops at the next one, as `Collected` states from the closed state. |
| Storage.OutputDir.SaveOriginalDiaries | diary_summary/storage.py:79-103 | Writes the header and every diary under its path into the year's raw cache, and changes no other file. |
| Storage.OutputDir.LoadDiaries | diary_summary/storage.py:106-153 | Gives none without the file. Otherwise it reads the file in text mode and gives the entries parsed from every part after the header. |
| Storage.ParseParts | diary_summary/storage.py:123-150 | The parts loop skips the header part and parses every later part as `ParseEntries` does. A part without the content marker is skipped. |
| Storage.OutputDir.CheckCachedYears | diary_summary/storage.py:156-170 | The years are ascending. They are exactly the years read from the listed cache names, one per such name. |
| Storage.OutputDir.LoadDiariesFromCache | diary_summary/storage.py:201-218 | A given year is loaded exactly when its cache reads to at least one diary, and it is loaded with what was read. |
| DriveIndex.MonthDiariesSpec | diary_summary/orchestrator.py:50-79 | A month's list is in natural path order. It is a permutation of the readable diaries, stable on equal keys. It holds exactly the fetched listed files with text, and no diary in it is empty. |
| DriveIndex.YearFromMonthIndex | diary_summary/orchestrator.py:117-133 | A year's list is empty exactly when its month index is empty. It is the concatenation of the index's lists in ascending month order. Every indexed month is a listed month with a non-empty list. |
| DriveIndex.IndexedOrigin | diary_summary/orchestrator.py:82-140 | Every indexed diary has text, and was fetched from a listed file of that year and month. |
| DriveIndex.DriveLoadSpec | diary_summary/orchestrator.py:82-140 | The load gives none exactly for an empty listing or one without a dated file, and then writes nothing. Otherwise a year is indexed exactly when one of its months has a readable diary. Its month index holds the non-empty month lists, and its list is their concatenation in month order. Each indexed year's raw cache holds its list, and no other file changes. |
| Orchestrator.ReadDiariesForMonth | diary_summary/orchestrator.py:50-79 | The fetch loop and sort compute the month list that `MonthDiariesSpec` characterises. |
| Orchestrator.IndexYear | diary_summary/orchestrator.py:120-133 | The month loop of one year adds each non-empty month list to both indexes, in ascending month order. |
| Orchestrator.GroupByMonth | diary_summary/orchestrator.py:194-206 | The cache-only grouping of a year's diaries by the month of their path. Diaries without a month are dropped. |
| Orchestrator.CacheMonths | diary_summary/orchestrator.py:194-206 | The cache-only grouping files diaries only under months 1..12. |
| Orchestrator.Pipeline.LoadDiariesFromDrive | diary_summary/orchestrator.py:82-140 | The load returns the indexes and updates the directory as `DriveLoadSpec` characterises. |
| Orchestrator.Pipeline.LoadYear | diary_summary/orchestrator.py:117-138 | One year of the load indexes the year's months as `AddMonths` does. It writes the year's raw cache only when the year got a diary, and changes no other file. |
| Orchestrator.Pipeline.SummarizeMonth | diary_summary/orchestrator.py:158-170 | An existing month file is reused; its summary counts when it is not empty. Otherwise the month is summarised, its file written, and its calls recorded. |
| Orchestrator.Pipeline.GenerateMonthlySummariesForYear | diary_summary/orchestrator.py:143-172 | The month loop does what the pass `MonthlySummaries` describes, over ascending months. |
| Orchestrator.Pipeline.ProcessYearSummaries | diary_summary/orchestrator.py:175-222 | Does nothing when the yearly file exists. Otherwise it runs the monthly pass. When that pass produced a summary, it then makes the yearly summary from them and writes it. |
| Orchestrator.Pipeline.SummarizeMonthsOf | diary_summary/orchestrator.py:193-214 | Step 1 of the year. In cache mode it groups the year's diaries by month. In Drive mode it takes the year's Drive grouping, or nothing when the year has none. The files and requests then move as the monthly pass `MonthlySummaries` over those months says, and it returns that pass's summaries. |
| Orchestrator.Pipeline.SummarizeYear | diary_summary/orchestrator.py:216-220 | Step 2 of the year. It returns the yearly call on the monthly summaries, numbered from the requests made so far. It records that call's events and requests, and writes the yearly envelope around its text. No other file changes. |
| Orchestrator.Pipeline.Run | diary_summary/orchestrator.py:225-276 | Chooses the mode, loads the diaries, and processes every year with diaries in ascending order, as `RunSpec` describes. |
| Orchestrator.Pipeline.ProcessAllYears | diary_summary/orchestrator.py:270-271 | The year loop applies the year step to each year in order. |
| Orchestrator.MonthlyPassFiles | diary_summary/orchestrator.py:143-172 | The monthly pass keeps every existing file unchanged. It creates only monthly files of the months it visits, and leaves every visited month with a file. |
| Orchestrator.MonthlyPassKeys | diary_summary/orchestrator.py:155-170 | A month has a summary after the pass exactly when it was visited and its file did not exist or held a non-empty summary. |
| Orchestrator.MonthlyPassReuses | diary_summary/orchestrator.py:160-164 | A visited month with an existing non-empty summary file gets the summary stored in it. |
| Orchestrator.MonthlyPassCached | diary_summary/orchestrator.py:160-164 | When every month already has its file, the pass makes no request and writes nothing. |
| Orchestrator.YearStepGrows | diary_summary/orchestrator.py:175-222 | Processing a year keeps every existing file unchanged, and creates only that year's summary files. |
| Orchestrator.YearStepDone | diary_summary/orchestrator.py:175-222 | After a year is processed, its yearly file exists, or every month has a file with an empty summary. |
| Orchestrator.YearStepNoop | diary_summary/orchestrator.py:188-191 | A year that is already done is left as it is: no request and no write. |
| Orchestrator.ProcessYearsGrows | diary_summary/orchestrator.py:270-271 | The year loop keeps every existing file, and creates only summary files of the processed years. |
| Orchestrator.ProcessYearsDone | diary_summary/orchestrator.py:270-271 | After the year loop, every processed year is done. |
| Orchestrator.ProcessYearsNoop | diary_summary/orchestrator.py:270-271 | When every year is done, the year loop changes nothing. |
| Orchestrator.ProcessYearsIdempotent | diary_summary/orchestrator.py:175-222 | Running the year loop a second time on what the first run left changes nothing. Summaries are made at most once. |
| Orchestrator.MonthlyPassPrompts | diary_summary/orchestrator.py:143-172 | The pass only appends to the record of calls, and keeps the request count equal to the number of requests. Every new request is a monthly prompt of a visited month that had no file, carrying that month's diaries. |
| Orchestrator.YearStepPrompts | diary_summary/orchestrator.py:175-222 | A year step sends requests only when the yearly file is absent. Each request is a monthly prompt for an unfiled month, or the yearly prompt over the digest of the pass's summaries. |
| Orchestrator.ProcessYearsPrompts | diary_summary/orchestrator.py:270-271 | The year loop sends requests only for processed years whose yearly file was absent. |
| Orchestrator.RunSpecKeeps | diary_summary/orchestrator.py:225-276 | A run changes no file other than raw caches and summary files, and every file it keeps is unchanged. Every file it creates is a raw cache or a yearly or monthly summary. It only appends to the record of calls. It asks the model only about years whose yearly file was absent. |

## Left out

- The Drive client (`drive.py`) is not part of this model: its credentials, the recursive folder listing that assigns paths, and the export of a document to text. The listing and the export are parameters of the run.
- The Anthropic client, the model name, the token limit and the wording of the prompts are left out. A prompt is a value that carries the year, the month where there is one, and the text it embeds. The model's answers come from an oracle indexed by request number.
- `time.sleep` is recorded as a `Sleep` event in the trace of a run. The run does not wait.
- `datetime.now()` is a parameter, already formatted. One clock reading stands for every write of a run, where the source reads the clock again for each file it writes (diary_summary/storage.py:22, :42, :88); the loaders discard the stamp, so no stated property depends on it. The UTF-8 encoding of the files and the creation of directories are left out: the output directory is a map from relative path to text. Reading a file in text mode is modelled by its newline translation (`Text.Newlines`).
- Storage.OutputDir.SaveSummary, Storage.OutputDir.SaveMonthlySummary, Storage.OutputDir.SaveOriginalDiaries, RawCache.CacheRoundTrip, SummaryFiles.EnvelopeRoundTrip and SummaryFiles.MonthlyRoundTrip: writing in text mode is modelled for a platform whose line separator is `\n`, so the text is stored as written. On Windows every `\n` is written as `\r\n`; content that holds a `\r` then reads back with more line breaks than the round trips state.
- Console output (`print`) and the progress messages are left out.
- The environment checks at the start of `run` (diary_summary/orchestrator.py:233-242) are left out. They only stop the run when a key or a folder id is missing.
- `read_year_diaries_from_drive` (diary_summary/orchestrator.py:20-47) is left out. It duplicates the month reader, and the run never calls it.
- An interrupted prompt (end of input) ends the model's run with no change, where the source raises.
- Parsers.NaturalKey: `str.isdigit` and `str.lower` are modelled for the ASCII digits and letters only. Other Unicode digits and case mappings are left out.
- Summarizer.Estimate: `int(words * 1.3)` is modelled as `13 * words / 10`; floating point is left out. The two agree on every word count a diary can have. When `13 * words` is a multiple of 10, the exact product is a whole number that a double holds exactly, and the rounded float product is not below it. Otherwise the rounding error of the float product is far smaller than the distance of at least 1/10 to the next whole number.
- Storage.OutputDir.CheckCachedYears: the order in which the glob returns names is left open. The model states the multiplicity of each year through the count of contributing names, not year by year.
- RawCache.CacheRoundTrip: the round trip is stated for diaries whose path and content cannot be confused with the cache's own separators and markers (`Cacheable`). A path holding a carriage return is excluded too: text mode would read it as a line break. The content comes back as read in text mode, with `\r\n` and `\r` turned into `\n`.
- SummaryFiles.EnvelopeRoundTrip: the round trip is stated for summaries without a line starting with `=`. Such a line ends the summary early when the file is read back. The title and the time stamp are taken without a carriage return; the writers' titles and the `strftime` stamp have none.
- SummaryFiles.MonthlyRoundTrip: stated, like the envelope round trip, for summaries whose lines as read do not start with `=`, and for a time stamp without a carriage return.
- Parsers.ExtractYear: `\d` and `int()` are modelled for the ASCII digits only. Python's `re` also matches other Unicode decimal digits, such as full-width ones; a year written with them is not found by the model.
- Parsers.ExtractYearMonth: the same ASCII-only reading of `\d` and `int()` applies to the year and the month.
- Storage.CacheYear: the same ASCII-only reading of `\d` and `int()` applies to the year in a cache file name, and so to Storage.OutputDir.CheckCachedYears.
- Orchestrator.CacheMonths states only that months lie in 1..12. Which diaries fall under which month is stated for every grouping by Grouping.GroupByBuckets.
- The comment at diary_summary/summarizer.py:66 names a 90-second pause. With `max_retries=3` the code never waits 90 seconds; Summarizer.DefaultBackoff states what it does.
