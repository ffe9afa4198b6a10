/** The workflow of one run: choose the mode, load the diaries from the raw caches
    or from Drive, then for every year with diaries make the monthly summaries
    (each at most once, kept in its file) and the yearly summary built from them. */
module Orchestrator {
  import opened Seqs
  import opened Records
  import opened Grouping
  import opened Parsers
  import opened Summarizer
  import opened SummaryFiles
  import opened RawCache
  import opened Storage
  import opened DriveIndex

  /** What a run has changed so far: the output directory, the requests and pauses
      of the model calls in order, and the number of requests made. */
  datatype State = State(files: map<string, string>, events: seq<Event>, requests: nat)

  // ---------------------------------------------------------------- the monthly pass

  /** One month of `generate_monthly_summaries_for_year`. A month whose file exists
      costs nothing and contributes its stored summary when that is not empty; any
      other month is summarised, its file written, and its text (the reply, or the
      failure text) contributes. */
  function MonthStep(llm: Oracle, now: string, s: State, year: nat, month: nat, diaries: seq<DiaryEntry>,
                     summaries: map<nat, string>): (State, map<nat, string>)
  {
    var path := MonthlySummaryPath(year, month);
    if path in s.files then
      var cached := SummarySection(s.files[path]);
      (s, if cached != "" then summaries[month := cached] else summaries)
    else
      var r := MonthlySummary(llm, s.requests, year, month, diaries);
      (State(s.files[path := Envelope(MonthlyTitle(year, month), r.text, now)], s.events + r.events, s.requests + r.requests),
       summaries[month := r.text])
  }

  /** The months `ms` of the pass, in order. */
  function MonthlyPass(llm: Oracle, now: string, s: State, year: nat, byMonth: map<nat, seq<DiaryEntry>>,
                       ms: seq<nat>, summaries: map<nat, string>): (State, map<nat, string>)
    requires forall m :: m in ms ==> m in byMonth
    decreases |ms|
  {
    if ms == [] then (s, summaries)
    else
      var next := MonthStep(llm, now, s, year, ms[0], byMonth[ms[0]], summaries);
      MonthlyPass(llm, now, next.0, year, byMonth, ms[1..], next.1)
  }

  /** The whole pass over a year's months in ascending order. */
  function MonthlySummaries(llm: Oracle, now: string, s: State, year: nat, byMonth: map<nat, seq<DiaryEntry>>)
    : (State, map<nat, string>)
  {
    MonthlyPass(llm, now, s, year, byMonth, SortedKeys(byMonth.Keys), map[])
  }

  /** A month without a file: its summary is written and appended to the run. */
  lemma MonthStepGenerates(llm: Oracle, now: string, s: State, year: nat, month: nat, diaries: seq<DiaryEntry>,
                           summaries: map<nat, string>, r: Run)
    requires MonthlySummaryPath(year, month) !in s.files
    requires r == MonthlySummary(llm, s.requests, year, month, diaries)
    ensures MonthStep(llm, now, s, year, month, diaries, summaries) ==
      (State(s.files[MonthlySummaryPath(year, month) := Envelope(MonthlyTitle(year, month), r.text, now)],
             s.events + r.events, s.requests + r.requests), summaries[month := r.text])
  {
  }

  lemma PassStep(llm: Oracle, now: string, s: State, year: nat, byMonth: map<nat, seq<DiaryEntry>>,
                  ms: seq<nat>, i: nat, summaries: map<nat, string>)
    requires i < |ms| && forall m :: m in ms ==> m in byMonth
    ensures var next := MonthStep(llm, now, s, year, ms[i], byMonth[ms[i]], summaries);
      MonthlyPass(llm, now, s, year, byMonth, ms[i..], summaries) == MonthlyPass(llm, now, next.0, year, byMonth, ms[i + 1..], next.1)
  {
    assert ms[i..][1..] == ms[i + 1..];
  }

  // ---------------------------------------------------------------- one year

  /** The month the cache-only mode files a diary under. */
  function EntryMonth(d: DiaryEntry): Option<nat>
  {
    ExtractYearMonth(d.path).1
  }

  /** The months `process_year_summaries` works on: in the cache-only mode the
      year's diaries grouped by the month of their path, otherwise the month index
      built from Drive (nothing when the year has none). */
  function MonthsFor(year: nat, byYear: map<nat, seq<DiaryEntry>>, byYearMonth: map<nat, map<nat, seq<DiaryEntry>>>,
                     cacheOnly: bool): map<nat, seq<DiaryEntry>>
    requires cacheOnly ==> year in byYear
  {
    if cacheOnly then GroupBy(byYear[year], EntryMonth)
    else if year in byYearMonth then byYearMonth[year]
    else map[]
  }

  /** The cache-only grouping files diaries only under real months. */
  lemma CacheMonths(diaries: seq<DiaryEntry>)
    ensures forall m :: m in GroupBy(diaries, EntryMonth) ==> 1 <= m <= 12
  {
    var byMonth := GroupBy(diaries, EntryMonth);
    forall m | m in byMonth ensures 1 <= m <= 12 {
      GroupByBuckets(diaries, EntryMonth);
      var d := byMonth[m][0];
      assert d in byMonth[m];
      assert EntryMonth(d) == Some(m);
    }
  }

  /** `process_year_summaries`: nothing when the yearly file exists; otherwise the
      monthly pass, then, when it produced at least one summary, the yearly summary
      made from them and written to the yearly file. */
  function YearStep(llm: Oracle, now: string, s: State, year: nat, byMonth: map<nat, seq<DiaryEntry>>): State
  {
    if YearlySummaryPath(year) in s.files then s
    else
      var pass := MonthlySummaries(llm, now, s, year, byMonth);
      var t := pass.0;
      if pass.1 == map[] then t
      else
        var r := YearlyFromMonthly(llm, t.requests, year, pass.1);
        State(t.files[YearlySummaryPath(year) := Envelope(YearlyTitle(year), r.text, now)],
              t.events + r.events, t.requests + r.requests)
  }

  /** A year without its yearly file: the pass, then the yearly call when the pass
      produced summaries. */
  lemma YearStepGenerates(llm: Oracle, now: string, s: State, year: nat, byMonth: map<nat, seq<DiaryEntry>>,
                          pass: (State, map<nat, string>), r: Run)
    requires YearlySummaryPath(year) !in s.files
    requires pass == MonthlySummaries(llm, now, s, year, byMonth)
    requires pass.1 != map[] ==> r == YearlyFromMonthly(llm, pass.0.requests, year, pass.1)
    ensures YearStep(llm, now, s, year, byMonth) ==
      if pass.1 == map[] then pass.0
      else State(pass.0.files[YearlySummaryPath(year) := Envelope(YearlyTitle(year), r.text, now)],
                 pass.0.events + r.events, pass.0.requests + r.requests)
  {
  }

  /** The years `ys` of the run's loop, in order. */
  function ProcessYears(llm: Oracle, now: string, s: State, ys: seq<nat>, byYear: map<nat, seq<DiaryEntry>>,
                        byYearMonth: map<nat, map<nat, seq<DiaryEntry>>>, cacheOnly: bool): State
    requires cacheOnly ==> forall y :: y in ys ==> y in byYear
    decreases |ys|
  {
    if ys == [] then s
    else
      var next := YearStep(llm, now, s, ys[0], MonthsFor(ys[0], byYear, byYearMonth, cacheOnly));
      ProcessYears(llm, now, next, ys[1..], byYear, byYearMonth, cacheOnly)
  }

  // ---------------------------------------------------------------- the run

  /** What `load_diaries_from_cache` returns for the years the scan finds. */
  function CacheIndex(files: map<string, string>): map<nat, seq<DiaryEntry>>
  {
    map y | y in YearsOf(files.Keys) && CachedDiaries(files, y) != [] :: CachedDiaries(files, y)
  }

  /** `run`: the mode comes from the answers when a raw cache exists; the cache-only
      mode loads the cached years, the other mode reads Drive (writing the raw
      caches); the run stops when the input ends before a choice, when Drive gives
      nothing to group, or when no year has a diary; otherwise every year with
      diaries is processed in ascending order. */
  function RunSpec(llm: Oracle, fetch: Export, now: string, s: State, listing: seq<FileMeta>, answers: seq<string>): State
  {
    var mode := if YearsOf(s.files.Keys) == {} then Some(false) else FirstChoice(answers);
    if mode.None? then s
    else if mode.value then
      var byYear := CacheIndex(s.files);
      if byYear == map[] then s
      else ProcessYears(llm, now, s, SortedKeys(byYear.Keys), byYear, map[], true)
    else
      var loaded := DriveLoad(fetch, now, s.files, listing);
      var t := State(loaded.1, s.events, s.requests);
      if loaded.0.None? || loaded.0.value.byYear == map[] then t
      else ProcessYears(llm, now, t, SortedKeys(loaded.0.value.byYear.Keys), loaded.0.value.byYear,
                        loaded.0.value.byYearMonth, false)
  }

  // ---------------------------------------------------------------- resuming

  /** `b` keeps every file of `a`, unchanged. */
  predicate Grows(a: map<string, string>, b: map<string, string>)
  {
    forall p :: p in a ==> p in b && b[p] == a[p]
  }

  /** The month's file exists and its summary section is empty. */
  predicate Blank(files: map<string, string>, year: nat, month: nat)
  {
    MonthlySummaryPath(year, month) in files && SummarySection(files[MonthlySummaryPath(year, month)]) == ""
  }

  /** Nothing is left to do for the year: its yearly file exists, or every month has
      a file with an empty summary, so that no yearly summary can be asked for. */
  predicate Done(files: map<string, string>, year: nat, byMonth: map<nat, seq<DiaryEntry>>)
  {
    YearlySummaryPath(year) in files || forall m :: m in byMonth ==> Blank(files, year, m)
  }

  /** A summary file of the year: the yearly file or one of its monthly files. */
  ghost predicate SummaryOf(p: string, year: nat)
  {
    p == YearlySummaryPath(year) || exists m :: p == MonthlySummaryPath(year, m)
  }

  lemma DoneGrows(a: map<string, string>, b: map<string, string>, year: nat, byMonth: map<nat, seq<DiaryEntry>>)
    requires Grows(a, b) && Done(a, year, byMonth)
    ensures Done(b, year, byMonth)
  {
  }

  /** The pass only adds files, one per month it visits, never rewrites one, and
      keeps the summaries it started from for the months it does not visit. */
  lemma {:induction false} MonthlyPassFiles(llm: Oracle, now: string, s: State, year: nat, byMonth: map<nat, seq<DiaryEntry>>,
                                            ms: seq<nat>, acc: map<nat, string>)
    requires forall m :: m in ms ==> m in byMonth
    ensures var r := MonthlyPass(llm, now, s, year, byMonth, ms, acc);
      Grows(s.files, r.0.files) &&
      (forall p :: p in r.0.files && p !in s.files ==> exists m :: m in ms && p == MonthlySummaryPath(year, m)) &&
      (forall m :: m in ms ==> MonthlySummaryPath(year, m) in r.0.files) &&
      (forall m :: m in acc ==> m in r.1) &&
      (forall m :: m in acc && m !in ms ==> r.1[m] == acc[m])
    decreases |ms|
  {
    if ms != [] {
      var next := MonthStep(llm, now, s, year, ms[0], byMonth[ms[0]], acc);
      MonthlyPassFiles(llm, now, next.0, year, byMonth, ms[1..], next.1);
      var r := MonthlyPass(llm, now, s, year, byMonth, ms, acc);
      forall p | p in r.0.files && p !in s.files
        ensures exists m :: m in ms && p == MonthlySummaryPath(year, m)
      {
        if p in next.0.files {
          assert p == MonthlySummaryPath(year, ms[0]);
        } else {
          var m :| m in ms[1..] && p == MonthlySummaryPath(year, m);
          assert m in ms;
        }
      }
    }
  }

  /** A month other than `month` is blank after the step exactly when it was before. */
  lemma MonthStepBlank(llm: Oracle, now: string, s: State, year: nat, month: nat, diaries: seq<DiaryEntry>,
                       summaries: map<nat, string>, m: nat)
    requires m != month
    ensures Blank(MonthStep(llm, now, s, year, month, diaries, summaries).0.files, year, m) == Blank(s.files, year, m)
  {
    if MonthlySummaryPath(year, m) == MonthlySummaryPath(year, month) {
      MonthlyPathInjective(year, m, year, month);
    }
  }

  /** The months with a summary after the pass: those it started with, and every
      visited month except one whose file already held an empty summary. */
  lemma {:induction false} MonthlyPassKeys(llm: Oracle, now: string, s: State, year: nat, byMonth: map<nat, seq<DiaryEntry>>,
                                           ms: seq<nat>, acc: map<nat, string>)
    requires forall m :: m in ms ==> m in byMonth
    ensures var r := MonthlyPass(llm, now, s, year, byMonth, ms, acc);
      forall m :: m in r.1 <==> m in acc || (m in ms && !Blank(s.files, year, m))
    decreases |ms|
  {
    if ms != [] {
      var next := MonthStep(llm, now, s, year, ms[0], byMonth[ms[0]], acc);
      MonthlyPassKeys(llm, now, next.0, year, byMonth, ms[1..], next.1);
      assert forall m :: m in next.1 <==> m in acc || (m == ms[0] && !Blank(s.files, year, ms[0]));
      forall m | m != ms[0]
        ensures Blank(next.0.files, year, m) == Blank(s.files, year, m)
      {
        MonthStepBlank(llm, now, s, year, ms[0], byMonth[ms[0]], acc, m);
      }
      assert forall m :: m in ms <==> m == ms[0] || m in ms[1..];
    }
  }

  /** A visited month whose file already held a summary contributes that summary. */
  lemma {:induction false} MonthlyPassReuses(llm: Oracle, now: string, s: State, year: nat, byMonth: map<nat, seq<DiaryEntry>>,
                                             ms: seq<nat>, acc: map<nat, string>)
    requires forall m :: m in ms ==> m in byMonth
    ensures var r := MonthlyPass(llm, now, s, year, byMonth, ms, acc);
      forall m :: m in ms && MonthlySummaryPath(year, m) in s.files && SummarySection(s.files[MonthlySummaryPath(year, m)]) != "" ==>
        m in r.1 && r.1[m] == SummarySection(s.files[MonthlySummaryPath(year, m)])
    decreases |ms|
  {
    if ms != [] {
      var next := MonthStep(llm, now, s, year, ms[0], byMonth[ms[0]], acc);
      MonthlyPassReuses(llm, now, next.0, year, byMonth, ms[1..], next.1);
      MonthlyPassFiles(llm, now, next.0, year, byMonth, ms[1..], next.1);
      var r := MonthlyPass(llm, now, s, year, byMonth, ms, acc);
      forall m | m in ms && MonthlySummaryPath(year, m) in s.files && SummarySection(s.files[MonthlySummaryPath(year, m)]) != ""
        ensures m in r.1 && r.1[m] == SummarySection(s.files[MonthlySummaryPath(year, m)])
      {
        if m !in ms[1..] {
          assert m == ms[0];
        }
      }
    }
  }

  /** A pass over months that all have files makes no request and writes nothing. */
  lemma {:induction false} MonthlyPassCached(llm: Oracle, now: string, s: State, year: nat, byMonth: map<nat, seq<DiaryEntry>>,
                                             ms: seq<nat>, acc: map<nat, string>)
    requires forall m :: m in ms ==> m in byMonth && MonthlySummaryPath(year, m) in s.files
    ensures MonthlyPass(llm, now, s, year, byMonth, ms, acc).0 == s
    decreases |ms|
  {
    if ms != [] {
      var next := MonthStep(llm, now, s, year, ms[0], byMonth[ms[0]], acc);
      assert next.0 == s;
      MonthlyPassCached(llm, now, s, year, byMonth, ms[1..], next.1);
    }
  }

  /** A year step only adds files, all of them summary files of that year, never
      rewriting one. */
  lemma YearStepGrows(llm: Oracle, now: string, s: State, year: nat, byMonth: map<nat, seq<DiaryEntry>>)
    ensures var t := YearStep(llm, now, s, year, byMonth);
      Grows(s.files, t.files) && forall p :: p in t.files && p !in s.files ==> SummaryOf(p, year)
  {
    if YearlySummaryPath(year) !in s.files {
      var ms := SortedKeys(byMonth.Keys);
      var pass := MonthlySummaries(llm, now, s, year, byMonth);
      MonthlyPassFiles(llm, now, s, year, byMonth, ms, map[]);
      forall p | p in pass.0.files && p !in s.files ensures SummaryOf(p, year) {
        var m :| m in ms && p == MonthlySummaryPath(year, m);
      }
      if pass.1 != map[] {
        var r := YearlyFromMonthly(llm, pass.0.requests, year, pass.1);
        YearlyFileGrows(s.files, pass.0.files, year, Envelope(YearlyTitle(year), r.text, now));
      }
    }
  }

  /** Writing the missing yearly file keeps a growth made of summary files of the year. */
  lemma YearlyFileGrows(a: map<string, string>, b: map<string, string>, year: nat, text: string)
    requires YearlySummaryPath(year) !in a
    requires Grows(a, b) && forall p :: p in b && p !in a ==> SummaryOf(p, year)
    ensures var c := b[YearlySummaryPath(year) := text];
      Grows(a, c) && forall p :: p in c && p !in a ==> SummaryOf(p, year)
  {
  }

  /** After a year step the year is done. */
  lemma YearStepDone(llm: Oracle, now: string, s: State, year: nat, byMonth: map<nat, seq<DiaryEntry>>)
    ensures Done(YearStep(llm, now, s, year, byMonth).files, year, byMonth)
  {
    if YearlySummaryPath(year) !in s.files {
      var ms := SortedKeys(byMonth.Keys);
      var pass := MonthlySummaries(llm, now, s, year, byMonth);
      if pass.1 == map[] {
        MonthlyPassKeys(llm, now, s, year, byMonth, ms, map[]);
        MonthlyPassFiles(llm, now, s, year, byMonth, ms, map[]);
        forall m | m in byMonth ensures Blank(pass.0.files, year, m) {
          assert m in ms && m !in pass.1;
        }
      }
    }
  }

  /** A year that is done is left alone: no request, no file. */
  lemma YearStepNoop(llm: Oracle, now: string, s: State, year: nat, byMonth: map<nat, seq<DiaryEntry>>)
    requires Done(s.files, year, byMonth)
    ensures YearStep(llm, now, s, year, byMonth) == s
  {
    if YearlySummaryPath(year) !in s.files {
      var ms := SortedKeys(byMonth.Keys);
      var pass := MonthlySummaries(llm, now, s, year, byMonth);
      MonthlyPassCached(llm, now, s, year, byMonth, ms, map[]);
      MonthlyPassKeys(llm, now, s, year, byMonth, ms, map[]);
      assert pass.1.Keys == {};
    }
  }

  /** The year loop only adds files, all of them summary files of its years. */
  lemma {:induction false} ProcessYearsGrows(llm: Oracle, now: string, s: State, ys: seq<nat>, byYear: map<nat, seq<DiaryEntry>>,
                                             byYearMonth: map<nat, map<nat, seq<DiaryEntry>>>, cacheOnly: bool)
    requires cacheOnly ==> forall y :: y in ys ==> y in byYear
    ensures var t := ProcessYears(llm, now, s, ys, byYear, byYearMonth, cacheOnly);
      Grows(s.files, t.files) && forall p :: p in t.files && p !in s.files ==> exists y :: y in ys && SummaryOf(p, y)
    decreases |ys|
  {
    if ys != [] {
      var next := YearStep(llm, now, s, ys[0], MonthsFor(ys[0], byYear, byYearMonth, cacheOnly));
      YearStepGrows(llm, now, s, ys[0], MonthsFor(ys[0], byYear, byYearMonth, cacheOnly));
      ProcessYearsGrows(llm, now, next, ys[1..], byYear, byYearMonth, cacheOnly);
      var t := ProcessYears(llm, now, s, ys, byYear, byYearMonth, cacheOnly);
      forall p | p in t.files && p !in s.files
        ensures exists y :: y in ys && SummaryOf(p, y)
      {
        if p in next.files {
          assert SummaryOf(p, ys[0]);
        } else {
          var y :| y in ys[1..] && SummaryOf(p, y);
          assert y in ys;
        }
      }
    }
  }

  /** After the year loop every one of its years is done. */
  lemma {:induction false} ProcessYearsDone(llm: Oracle, now: string, s: State, ys: seq<nat>, byYear: map<nat, seq<DiaryEntry>>,
                                            byYearMonth: map<nat, map<nat, seq<DiaryEntry>>>, cacheOnly: bool)
    requires cacheOnly ==> forall y :: y in ys ==> y in byYear
    ensures var t := ProcessYears(llm, now, s, ys, byYear, byYearMonth, cacheOnly);
      forall y :: y in ys ==> Done(t.files, y, MonthsFor(y, byYear, byYearMonth, cacheOnly))
    decreases |ys|
  {
    if ys != [] {
      var next := YearStep(llm, now, s, ys[0], MonthsFor(ys[0], byYear, byYearMonth, cacheOnly));
      YearStepDone(llm, now, s, ys[0], MonthsFor(ys[0], byYear, byYearMonth, cacheOnly));
      ProcessYearsGrows(llm, now, next, ys[1..], byYear, byYearMonth, cacheOnly);
      ProcessYearsDone(llm, now, next, ys[1..], byYear, byYearMonth, cacheOnly);
      var t := ProcessYears(llm, now, s, ys, byYear, byYearMonth, cacheOnly);
      DoneGrows(next.files, t.files, ys[0], MonthsFor(ys[0], byYear, byYearMonth, cacheOnly));
      assert forall y :: y in ys ==> y == ys[0] || y in ys[1..];
    }
  }

  /** A year loop over years that are all done changes nothing. */
  lemma {:induction false} ProcessYearsNoop(llm: Oracle, now: string, s: State, ys: seq<nat>, byYear: map<nat, seq<DiaryEntry>>,
                                            byYearMonth: map<nat, map<nat, seq<DiaryEntry>>>, cacheOnly: bool)
    requires cacheOnly ==> forall y :: y in ys ==> y in byYear
    requires forall y :: y in ys ==> Done(s.files, y, MonthsFor(y, byYear, byYearMonth, cacheOnly))
    ensures ProcessYears(llm, now, s, ys, byYear, byYearMonth, cacheOnly) == s
    decreases |ys|
  {
    if ys != [] {
      YearStepNoop(llm, now, s, ys[0], MonthsFor(ys[0], byYear, byYearMonth, cacheOnly));
      ProcessYearsNoop(llm, now, s, ys[1..], byYear, byYearMonth, cacheOnly);
    }
  }

  /** Running the year loop a second time over the same diaries changes nothing:
      every summary it could make is already on disk. */
  lemma ProcessYearsIdempotent(llm: Oracle, now: string, s: State, ys: seq<nat>, byYear: map<nat, seq<DiaryEntry>>,
                               byYearMonth: map<nat, map<nat, seq<DiaryEntry>>>, cacheOnly: bool)
    requires cacheOnly ==> forall y :: y in ys ==> y in byYear
    ensures var t := ProcessYears(llm, now, s, ys, byYear, byYearMonth, cacheOnly);
      ProcessYears(llm, now, t, ys, byYear, byYearMonth, cacheOnly) == t
  {
    var t := ProcessYears(llm, now, s, ys, byYear, byYearMonth, cacheOnly);
    ProcessYearsDone(llm, now, s, ys, byYear, byYearMonth, cacheOnly);
    ProcessYearsNoop(llm, now, t, ys, byYear, byYearMonth, cacheOnly);
  }

  /** The request count is the number of prompts sent. */
  predicate Counted(s: State)
  {
    s.requests == |Prompts(s.events)|
  }

  lemma InRepeat<T>(x: T, k: nat, y: T)
    requires y in Repeat(x, k)
    ensures y == x
  {
    var i :| 0 <= i < k && Repeat(x, k)[i] == y;
  }

  /** Appending a settled call's events extends the prompts by its `k` copies of one
      prompt and keeps the count. */
  lemma AppendCall(s: State, events: seq<Event>, k: nat, prompt: Prompt, t: State)
    requires Prompts(events) == Repeat(prompt, k)
    requires t.events == s.events + events && t.requests == s.requests + k
    ensures s.events <= t.events && t.events[|s.events|..] == events
    ensures Counted(s) ==> Counted(t)
  {
    EventsAppend(s.events, events);
    assert t.events[|s.events|..] == events;
  }

  /** The events after `a` in `c`, when `a` is a prefix of `b` and `b` of `c`. */
  lemma EventsAfter(a: seq<Event>, b: seq<Event>, c: seq<Event>)
    requires a <= b <= c
    ensures a <= c && Prompts(c[|a|..]) == Prompts(b[|a|..]) + Prompts(c[|b|..])
  {
    assert c[|a|..] == b[|a|..] + c[|b|..];
    EventsAppend(b[|a|..], c[|b|..]);
  }

  /** The pass asks only for its year's months that had no file, each with that
      month's diaries, and keeps the request count equal to the prompts sent. */
  lemma {:induction false} MonthlyPassPrompts(llm: Oracle, now: string, s: State, year: nat, byMonth: map<nat, seq<DiaryEntry>>,
                                              ms: seq<nat>, acc: map<nat, string>)
    requires forall m :: m in ms ==> m in byMonth
    ensures var r := MonthlyPass(llm, now, s, year, byMonth, ms, acc);
      s.events <= r.0.events && (Counted(s) ==> Counted(r.0)) &&
      forall p :: p in Prompts(r.0.events[|s.events|..]) ==>
        p.MonthPrompt? && p.year == year && p.month in ms && MonthlySummaryPath(year, p.month) !in s.files &&
        p.diaries == JoinEntries(byMonth[p.month])
    decreases |ms|
  {
    if ms == [] {
      assert s.events[|s.events|..] == [];
    } else {
      var month := ms[0];
      var next := MonthStep(llm, now, s, year, month, byMonth[month], acc);
      MonthlyPassPrompts(llm, now, next.0, year, byMonth, ms[1..], next.1);
      MonthlyPassFiles(llm, now, s, year, byMonth, [month], acc);
      var r := MonthlyPass(llm, now, s, year, byMonth, ms, acc);
      var prompt := MonthPrompt(year, month, JoinEntries(byMonth[month]));
      if MonthlySummaryPath(year, month) !in s.files {
        var run := MonthlySummary(llm, s.requests, year, month, byMonth[month]);
        SettlePrompts(llm, s.requests, prompt, SummaryFailed);
        AppendCall(s, run.events, run.requests, prompt, next.0);
      } else {
        assert next.0 == s;
      }
      EventsAfter(s.events, next.0.events, r.0.events);
      forall p | p in Prompts(r.0.events[|s.events|..])
        ensures p.MonthPrompt? && p.year == year && p.month in ms && MonthlySummaryPath(year, p.month) !in s.files &&
                p.diaries == JoinEntries(byMonth[p.month])
      {
        if p in Prompts(next.0.events[|s.events|..]) {
          assert next.0 != s;
          InRepeat(prompt, next.0.requests - s.requests, p);
        } else {
          assert p in Prompts(r.0.events[|next.0.events|..]);
        }
      }
    }
  }

  /** A year step makes requests only when the yearly file is missing: for the
      year's months without a file, each with that month's diaries, and at most
      the yearly request, which carries the digest of the pass's summaries. */
  lemma YearStepPrompts(llm: Oracle, now: string, s: State, year: nat, byMonth: map<nat, seq<DiaryEntry>>)
    ensures var t := YearStep(llm, now, s, year, byMonth);
      s.events <= t.events && (Counted(s) ==> Counted(t)) &&
      forall p :: p in Prompts(t.events[|s.events|..]) ==>
        YearlySummaryPath(year) !in s.files && p.year == year &&
        ((p.MonthPrompt? && p.month in byMonth && MonthlySummaryPath(year, p.month) !in s.files &&
          p.diaries == JoinEntries(byMonth[p.month])) ||
         p == FromMonthlyPrompt(year, MonthlyDigest(year, MonthlySummaries(llm, now, s, year, byMonth).1)))
  {
    var t := YearStep(llm, now, s, year, byMonth);
    if YearlySummaryPath(year) in s.files {
      assert t.events[|s.events|..] == [];
    } else {
      var ms := SortedKeys(byMonth.Keys);
      var pass := MonthlySummaries(llm, now, s, year, byMonth);
      MonthlyPassPrompts(llm, now, s, year, byMonth, ms, map[]);
      if pass.1 == map[] {
      } else {
        var prompt := FromMonthlyPrompt(year, MonthlyDigest(year, pass.1));
        var run := YearlyFromMonthly(llm, pass.0.requests, year, pass.1);
        SettlePrompts(llm, pass.0.requests, prompt, YearlySummaryFailed);
        AppendCall(pass.0, run.events, run.requests, prompt, t);
        EventsAfter(s.events, pass.0.events, t.events);
        forall p | p in Prompts(t.events[|pass.0.events|..]) ensures p == prompt {
          InRepeat(prompt, run.requests, p);
        }
      }
    }
  }

  /** The year loop asks only about its years whose yearly file was missing, and
      keeps the request count equal to the prompts sent. */
  lemma {:induction false} ProcessYearsPrompts(llm: Oracle, now: string, s: State, ys: seq<nat>, byYear: map<nat, seq<DiaryEntry>>,
                                               byYearMonth: map<nat, map<nat, seq<DiaryEntry>>>, cacheOnly: bool)
    requires cacheOnly ==> forall y :: y in ys ==> y in byYear
    ensures var t := ProcessYears(llm, now, s, ys, byYear, byYearMonth, cacheOnly);
      s.events <= t.events && (Counted(s) ==> Counted(t)) &&
      forall p :: p in Prompts(t.events[|s.events|..]) ==> p.year in ys && YearlySummaryPath(p.year) !in s.files
    decreases |ys|
  {
    if ys == [] {
      assert s.events[|s.events|..] == [];
    } else {
      var byMonth := MonthsFor(ys[0], byYear, byYearMonth, cacheOnly);
      var next := YearStep(llm, now, s, ys[0], byMonth);
      YearStepPrompts(llm, now, s, ys[0], byMonth);
      YearStepGrows(llm, now, s, ys[0], byMonth);
      ProcessYearsPrompts(llm, now, next, ys[1..], byYear, byYearMonth, cacheOnly);
      var t := ProcessYears(llm, now, s, ys, byYear, byYearMonth, cacheOnly);
      EventsAfter(s.events, next.events, t.events);
      forall p | p in Prompts(t.events[|s.events|..])
        ensures p.year in ys && YearlySummaryPath(p.year) !in s.files
      {
        if p !in Prompts(next.events[|s.events|..]) {
          assert p.year in ys[1..];
        }
      }
    }
  }

  /** A raw cache of some year. */
  ghost predicate IsRawCache(p: string)
  {
    exists y :: p == RawCachePath(y)
  }

  /** A run never rewrites or removes a file other than a raw cache, creates no file
      but raw caches and summaries, makes no request about a year whose yearly summary
      already existed, and keeps the request count equal to the prompts sent. */
  lemma RunSpecKeeps(llm: Oracle, fetch: Export, now: string, s: State, listing: seq<FileMeta>, answers: seq<string>)
    ensures var t := RunSpec(llm, fetch, now, s, listing, answers);
      (forall p :: p in s.files && !IsRawCache(p) ==> p in t.files && t.files[p] == s.files[p]) &&
      (forall p :: p in t.files && p !in s.files ==> IsRawCache(p) || exists y :: SummaryOf(p, y)) &&
      s.events <= t.events && (Counted(s) ==> Counted(t)) &&
      forall p :: p in Prompts(t.events[|s.events|..]) ==> YearlySummaryPath(p.year) !in s.files
  {
    var t := RunSpec(llm, fetch, now, s, listing, answers);
    var mode := if YearsOf(s.files.Keys) == {} then Some(false) else FirstChoice(answers);
    if mode.None? || (mode.value && CacheIndex(s.files) == map[]) {
      assert t == s && t.events[|s.events|..] == [];
    } else if mode.value {
      var byYear := CacheIndex(s.files);
      ProcessYearsGrows(llm, now, s, SortedKeys(byYear.Keys), byYear, map[], true);
      ProcessYearsPrompts(llm, now, s, SortedKeys(byYear.Keys), byYear, map[], true);
    } else {
      var loaded := DriveLoad(fetch, now, s.files, listing);
      var u := State(loaded.1, s.events, s.requests);
      DriveLoadSpec(fetch, now, s.files, listing);
      forall p | !IsRawCache(p)
        ensures (p in u.files <==> p in s.files) && (p in s.files ==> u.files[p] == s.files[p])
      {
      }
      forall y ensures !IsRawCache(YearlySummaryPath(y)) {
        forall y2 ensures YearlySummaryPath(y) != RawCachePath(y2) {
          PathsDistinct(y, y2, 0);
        }
      }
      if loaded.0.None? || loaded.0.value.byYear == map[] {
        assert t == u && t.events[|s.events|..] == [];
      } else {
        var ix := loaded.0.value;
        ProcessYearsGrows(llm, now, u, SortedKeys(ix.byYear.Keys), ix.byYear, ix.byYearMonth, false);
        ProcessYearsPrompts(llm, now, u, SortedKeys(ix.byYear.Keys), ix.byYear, ix.byYearMonth, false);
        forall p | p in t.files && p !in s.files && !IsRawCache(p) ensures exists y :: SummaryOf(p, y) {
          assert p !in u.files;
        }
      }
    }
  }

  // ---------------------------------------------------------------- the loops

  /** `read_diaries_from_drive_for_month`: fetch each file, keep those with text,
      sort by natural path. */
  method ReadDiariesForMonth(fetch: Export, files: seq<FileMeta>) returns (diaries: seq<DiaryEntry>)
    ensures diaries == MonthDiaries(fetch, files)
  {
    diaries := [];
    for i := 0 to |files|
      invariant diaries == Readable(fetch, files[..i])
    {
      var file := files[i];
      var content := fetch(file.id);
      assert files[..i + 1][..i] == files[..i];
      if content != "" {
        diaries := diaries + [DiaryEntry(file.name, PathOf(file), content, file.createdTime, file.modifiedTime)];
      }
    }
    assert files[..|files|] == files;
    diaries := SortByKey(diaries, EntryKey);
  }

  /** The grouping loop of the cache-only mode: diaries without a month are
      skipped, the rest appended to their month's list. */
  method GroupByMonth(diaries: seq<DiaryEntry>) returns (byMonth: map<nat, seq<DiaryEntry>>)
    ensures byMonth == GroupBy(diaries, EntryMonth)
  {
    byMonth := map[];
    GroupByEmpty(EntryMonth);
    for i := 0 to |diaries|
      invariant byMonth == GroupBy(diaries[..i], EntryMonth)
    {
      var diary := diaries[i];
      GroupBySnoc(diaries[..i], diary, EntryMonth);
      assert diaries[..i + 1] == diaries[..i] + [diary];
      var month := ExtractYearMonth(diary.path).1;
      if month.Some? {
        byMonth := byMonth[month.value := (if month.value in byMonth then byMonth[month.value] else []) + [diary]];
      }
    }
    assert diaries[..|diaries|] == diaries;
  }

  /** The inner loop of `load_diaries_from_drive` over one year's months in
      ascending order: each non-empty month list goes under `[year][month]` and
      extends the year's list. */
  method IndexYear(fetch: Export, year: nat, months: map<nat, seq<FileMeta>>, ix: Index) returns (r: Index)
    ensures r == AddMonths(fetch, ix, year, months, SortedKeys(months.Keys))
  {
    var byYear: map<nat, seq<DiaryEntry>>, byYearMonth: map<nat, map<nat, seq<DiaryEntry>>> := ix.byYear, ix.byYearMonth;
    var ms := SortedKeys(months.Keys);
    for j := 0 to |ms|
      invariant Index(byYear, byYearMonth) == AddMonths(fetch, ix, year, months, ms[..j])
    {
      var month := ms[j];
      AddMonthsSnoc(fetch, ix, year, months, ms, j);
      var diaries := ReadDiariesForMonth(fetch, months[month]);
      if diaries != [] {
        byYearMonth := byYearMonth[year := (if year in byYearMonth then byYearMonth[year] else map[])[month := diaries]];
        byYear := byYear[year := (if year in byYear then byYear[year] else []) + diaries];
      }
    }
    assert ms[..|ms|] == ms;
    return Index(byYear, byYearMonth);
  }

  /** The world one run talks to: the output directory, the model (by request
      number), the Drive export and the clock, with the record of the model calls
      made so far. */
  class Pipeline {
    const dir: OutputDir
    const llm: Oracle
    const fetch: Export
    const now: string
    var events: seq<Event>
    var requests: nat

    function Current(): State
      reads this, dir
    {
      State(dir.files, events, requests)
    }

    constructor (dir: OutputDir, llm: Oracle, fetch: Export, now: string)
      ensures this.dir == dir && this.llm == llm && this.fetch == fetch && this.now == now
      ensures events == [] && requests == 0
    {
      this.dir := dir;
      this.llm := llm;
      this.fetch := fetch;
      this.now := now;
      events := [];
      requests := 0;
    }

    /** `load_diaries_from_drive`, from the listing on. */
    method LoadDiariesFromDrive(listing: seq<FileMeta>) returns (r: Option<Index>)
      modifies dir
      ensures (r, dir.files) == DriveLoad(fetch, now, old(dir.files), listing)
    {
      if listing == [] {
        return None;
      }
      var g := GroupFilesByYearMonth(listing);
      if g == map[] {
        return None;
      }
      var byYear: map<nat, seq<DiaryEntry>> := map[];
      var byYearMonth: map<nat, map<nat, seq<DiaryEntry>>> := map[];
      var years := SortedKeys(g.Keys);
      for i := 0 to |years|
        invariant (Index(byYear, byYearMonth), dir.files) == AddYears(fetch, now, Index(map[], map[]), old(dir.files), g, years[..i])
      {
        var year := years[i];
        AddYearsSnoc(fetch, now, Index(map[], map[]), old(dir.files), g, years, i);
        var indexed := LoadYear(year, g[year], Index(byYear, byYearMonth));
        byYear, byYearMonth := indexed.byYear, indexed.byYearMonth;
      }
      AddYearsWhole(fetch, now, Index(map[], map[]), old(dir.files), g, years);
      return Some(Index(byYear, byYearMonth));
    }

    /** One year of that loop: index the year's months, then write the year's raw
        cache when the year has a diary. */
    method LoadYear(year: nat, months: map<nat, seq<FileMeta>>, ix: Index) returns (next: Index)
      modifies dir
      ensures next == AddMonths(fetch, ix, year, months, SortedKeys(months.Keys))
      ensures dir.files == if year in next.byYear then old(dir.files)[RawCachePath(year) := CacheText(year, next.byYear[year], now)]
                           else old(dir.files)
    {
      next := IndexYear(fetch, year, months, ix);
      if year in next.byYear {
        dir.SaveOriginalDiaries(year, next.byYear[year], now);
      }
    }

    /** `generate_monthly_summaries_for_year`. */
    method GenerateMonthlySummariesForYear(year: nat, byMonth: map<nat, seq<DiaryEntry>>) returns (summaries: map<nat, string>)
      modifies this, dir
      ensures (Current(), summaries) == MonthlySummaries(llm, now, old(Current()), year, byMonth)
    {
      var months := SortedKeys(byMonth.Keys);
      summaries := map[];
      for i := 0 to |months|
        invariant MonthlyPass(llm, now, old(Current()), year, byMonth, months, map[]) ==
                  MonthlyPass(llm, now, Current(), year, byMonth, months[i..], summaries)
      {
        PassStep(llm, now, Current(), year, byMonth, months, i, summaries);
        summaries := SummarizeMonth(year, months[i], byMonth[months[i]], summaries);
      }
    }

    /** One month of that loop: reuse the month's file, or summarise the month and
        write its file. */
    method SummarizeMonth(year: nat, month: nat, diaries: seq<DiaryEntry>, summaries: map<nat, string>)
      returns (updated: map<nat, string>)
      modifies this, dir
      ensures (Current(), updated) == MonthStep(llm, now, old(Current()), year, month, diaries, summaries)
    {
      updated := summaries;
      if MonthlySummaryPath(year, month) in dir.files {
        var cached := dir.LoadMonthlySummary(year, month);
        if cached.Some? && cached.value != "" {
          updated := summaries[month := cached.value];
        }
      } else {
        var r := GenerateMonthlySummary(llm, requests, year, month, diaries);
        MonthStepGenerates(llm, now, Current(), year, month, diaries, summaries, r);
        updated := summaries[month := r.text];
        events := events + r.events;
        requests := requests + r.requests;
        dir.SaveMonthlySummary(year, month, r.text, now);
      }
    }

    /** `process_year_summaries`; the cache-only mode reads the year's diaries, so the
        year must have some. */
    method ProcessYearSummaries(year: nat, byYear: map<nat, seq<DiaryEntry>>,
                                byYearMonth: map<nat, map<nat, seq<DiaryEntry>>>, cacheOnly: bool)
      requires cacheOnly ==> year in byYear
      modifies this, dir
      ensures Current() == YearStep(llm, now, old(Current()), year, MonthsFor(year, byYear, byYearMonth, cacheOnly))
    {
      if YearlySummaryPath(year) in dir.files {
        return;
      }
      var summaries := SummarizeMonthsOf(year, byYear, byYearMonth, cacheOnly);
      ghost var pass := (Current(), summaries);
      var r := Summarizer.Run("", [], 0);
      if summaries != map[] {
        r := SummarizeYear(year, summaries);
      }
      YearStepGenerates(llm, now, old(Current()), year, MonthsFor(year, byYear, byYearMonth, cacheOnly), pass, r);
    }

    /** The monthly half of `process_year_summaries`: the months of `year` come from the
        cached diaries grouped by month, or from the Drive grouping. */
    method SummarizeMonthsOf(year: nat, byYear: map<nat, seq<DiaryEntry>>,
                             byYearMonth: map<nat, map<nat, seq<DiaryEntry>>>, cacheOnly: bool)
      returns (summaries: map<nat, string>)
      requires cacheOnly ==> year in byYear
      modifies this, dir
      ensures (Current(), summaries) == MonthlySummaries(llm, now, old(Current()), year, MonthsFor(year, byYear, byYearMonth, cacheOnly))
    {
      if cacheOnly {
        var byMonth := GroupByMonth(byYear[year]);
        summaries := GenerateMonthlySummariesForYear(year, byMonth);
      } else if year in byYearMonth {
        summaries := GenerateMonthlySummariesForYear(year, byYearMonth[year]);
      } else {
        summaries := map[];
        assert SortedKeys(MonthsFor(year, byYear, byYearMonth, cacheOnly).Keys) == [];
      }
    }

    /** The yearly half of `process_year_summaries`: the yearly summary made from the
        monthly ones, recorded and written to the yearly file. */
    method SummarizeYear(year: nat, summaries: map<nat, string>) returns (r: Run)
      modifies this, dir
      ensures r == YearlyFromMonthly(llm, old(requests), year, summaries)
      ensures Current() == State(old(dir.files)[YearlySummaryPath(year) := Envelope(YearlyTitle(year), r.text, now)],
                                 old(events) + r.events, old(requests) + r.requests)
    {
      r := GenerateYearlyFromMonthly(llm, requests, year, summaries);
      events := events + r.events;
      requests := requests + r.requests;
      dir.SaveSummary(year, r.text, now);
    }

    /** `run`, from the cache scan on: `listing` is what the Drive scan finds and
        `answers` the lines typed at the mode prompt. */
    method Run(listing: seq<FileMeta>, answers: seq<string>)
      modifies this, dir
      ensures Current() == RunSpec(llm, fetch, now, old(Current()), listing, answers)
    {
      var cachedYears := dir.CheckCachedYears();
      assert cachedYears == [] <==> YearsOf(dir.files.Keys) == {} by {
        if cachedYears != [] {
          assert cachedYears[0] in YearsOf(dir.files.Keys);
        }
        if YearsOf(dir.files.Keys) != {} {
          var y :| y in YearsOf(dir.files.Keys);
          assert y in cachedYears;
        }
      }
      var useCacheOnly := PromptUserForMode(cachedYears, answers);
      if useCacheOnly.None? {
        return;
      }
      var byYear: map<nat, seq<DiaryEntry>>;
      var byYearMonth: map<nat, map<nat, seq<DiaryEntry>>> := map[];
      if useCacheOnly.value {
        byYear := dir.LoadDiariesFromCache(cachedYears);
        assert byYear == CacheIndex(dir.files);
      } else {
        var loaded := LoadDiariesFromDrive(listing);
        if loaded.None? {
          return;
        }
        byYear, byYearMonth := loaded.value.byYear, loaded.value.byYearMonth;
      }
      if byYear == map[] {
        return;
      }
      ProcessAllYears(SortedKeys(byYear.Keys), byYear, byYearMonth, useCacheOnly.value);
    }

    /** The year loop of `run`. */
    method ProcessAllYears(years: seq<nat>, byYear: map<nat, seq<DiaryEntry>>,
                           byYearMonth: map<nat, map<nat, seq<DiaryEntry>>>, cacheOnly: bool)
      requires cacheOnly ==> forall y :: y in years ==> y in byYear
      modifies this, dir
      ensures Current() == ProcessYears(llm, now, old(Current()), years, byYear, byYearMonth, cacheOnly)
    {
      for i := 0 to |years|
        invariant ProcessYears(llm, now, old(Current()), years, byYear, byYearMonth, cacheOnly) ==
                  ProcessYears(llm, now, Current(), years[i..], byYear, byYearMonth, cacheOnly)
      {
        assert years[i..][1..] == years[i + 1..];
        ProcessYearSummaries(years[i], byYear, byYearMonth, cacheOnly);
      }
    }
  }
}
