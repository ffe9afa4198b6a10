/** The output directory as a store of texts keyed by path relative to it: the
    writers of the three formats, their loaders, the scan for cached years and the
    cache-only loader. */
module Storage {
  import opened Seqs
  import opened Text
  import opened Records
  import opened SummaryFiles
  import opened RawCache

  // ---------------------------------------------------------------- cached years

  /** The fixed tail of a raw cache file name. */
  function CacheSuffix(): string
  {
    "年日记原文.txt"
  }

  /** `OUTPUT_DIR.glob("*年日记原文.txt")` lists the name: a file directly in the
      directory whose name ends with the suffix. */
  predicate Listed(name: string)
  {
    '/' !in name && |name| >= |CacheSuffix()| && name[|name| - |CacheSuffix()|..] == CacheSuffix()
  }

  /** `(\d{4})年日记原文\.txt` matches `name` at `p`. */
  predicate YearMatchAt(name: string, p: nat)
  {
    p + 4 <= |name| && AllDigits(name[p..p + 4]) && OccursAt(name, CacheSuffix(), p + 4)
  }

  /** The leftmost match at or after `p`, as `re.search` finds it. */
  function YearMatchFrom(name: string, p: nat): (r: Option<nat>)
    ensures r.Some? ==> p <= r.value && YearMatchAt(name, r.value)
    ensures forall q: nat :: p <= q && (r.None? || q < r.value) ==> !YearMatchAt(name, q)
    decreases |name| - p
  {
    if p + 4 > |name| then None
    else if YearMatchAt(name, p) then Some(p)
    else YearMatchFrom(name, p + 1)
  }

  /** The year `check_cached_years` reads from a file name: the four digits of the
      leftmost match, if there is one. */
  function CacheYear(name: string): (r: Option<nat>)
    ensures r.Some? <==> exists p: nat :: YearMatchAt(name, p)
  {
    match YearMatchFrom(name, 0)
    case None => None
    case Some(p) => Some(DigitsValue(name[p..p + 4]))
  }

  /** A name the scan lists and reads a year from. */
  predicate YieldsYear(name: string)
  {
    Listed(name) && CacheYear(name).Some?
  }

  /** The names among `names` that contribute a year to the scan. */
  function Contributing(names: set<string>): set<string>
  {
    set name | name in names && YieldsYear(name)
  }

  /** The names of the directory that contribute a year to the scan. */
  function CacheNames(files: map<string, string>): set<string>
  {
    Contributing(files.Keys)
  }

  /** The years read from the contributing names among `names`. */
  function YearsOf(names: set<string>): set<nat>
  {
    set name | name in Contributing(names) :: CacheYear(name).value
  }

  lemma YearsOfAdd(names: set<string>, name: string)
    requires name !in names
    ensures YearsOf(names + {name}) == YearsOf(names) + (if YieldsYear(name) then {CacheYear(name).value} else {})
  {
    ContributingAdd(names, name);
  }

  /** Looking at one more name adds it to the contributing names exactly when it
      yields a year. */
  lemma ContributingAdd(names: set<string>, name: string)
    requires name !in names
    ensures Contributing(names + {name}) == Contributing(names) + (if YieldsYear(name) then {name} else {})
    ensures |Contributing(names + {name})| == |Contributing(names)| + (if YieldsYear(name) then 1 else 0)
  {
    var before, after := Contributing(names), Contributing(names + {name});
    if YieldsYear(name) {
      assert after == before + {name};
      assert name !in before;
    } else {
      assert after == before;
    }
  }

  /** The raw cache of a four-digit year is listed by the scan and gives that year
      back. */
  lemma CacheFileYear(year: nat)
    requires 1000 <= year <= 9999
    ensures Listed(RawCachePath(year)) && CacheYear(RawCachePath(year)) == Some(year)
  {
    var y, name := NatToString(year), RawCachePath(year);
    FourDigits(year);
    assert name == y + CacheSuffix();
    assert name[..4] == y && name[4..] == CacheSuffix();
    assert name[0..4] == y;
    assert YearMatchAt(name, 0);
    assert '/' !in y;
  }

  // ---------------------------------------------------------------- the mode prompt

  /** An answer that settles the prompt once stripped: "1" (cache only) or "2"
      (scan Drive). */
  predicate Decisive(answer: string)
  {
    Strip(answer) == "1" || Strip(answer) == "2"
  }

  /** The choice read from the answers in order: the first decisive one, or
      `None` when the input ends before one (reading past the end raises). */
  function FirstChoice(answers: seq<string>): Option<bool>
  {
    if answers == [] then None
    else if Strip(answers[0]) == "1" then Some(true)
    else if Strip(answers[0]) == "2" then Some(false)
    else FirstChoice(answers[1..])
  }

  /** `prompt_user_for_mode`: Drive scan without a cached year, otherwise what the
      user answers; `Some(true)` is the cache-only mode. */
  function ModeChoice(cached: seq<nat>, answers: seq<string>): Option<bool>
  {
    if cached == [] then Some(false) else FirstChoice(answers)
  }

  /** The position of the first decisive answer; the number of answers when there
      is none. */
  function FirstDecisive(answers: seq<string>): (k: nat)
    ensures k <= |answers|
    ensures forall j :: 0 <= j < k ==> !Decisive(answers[j])
    ensures k < |answers| ==> Decisive(answers[k])
  {
    if answers == [] || Decisive(answers[0]) then 0 else 1 + FirstDecisive(answers[1..])
  }

  /** The choice is read from the first decisive answer and from no other: none
      when there is none, cache-only exactly when it is "1". */
  lemma {:induction false} FirstChoiceIs(answers: seq<string>)
    ensures var k := FirstDecisive(answers);
      FirstChoice(answers) == if k == |answers| then None else Some(Strip(answers[k]) == "1")
  {
    if answers != [] && !Decisive(answers[0]) {
      FirstChoiceIs(answers[1..]);
    }
  }

  /** The prompt loop: asks until an answer is decisive. */
  method PromptUserForMode(cached: seq<nat>, answers: seq<string>) returns (r: Option<bool>)
    ensures r == ModeChoice(cached, answers)
  {
    if cached == [] {
      return Some(false);
    }
    var i := 0;
    while true
      invariant 0 <= i <= |answers|
      invariant FirstChoice(answers[i..]) == FirstChoice(answers)
      decreases |answers| - i
    {
      if i == |answers| {
        return None;
      }
      var choice := Strip(answers[i]);
      if choice == "1" {
        return Some(true);
      } else if choice == "2" {
        return Some(false);
      }
      assert answers[i..][1..] == answers[i + 1..];
      i := i + 1;
    }
  }

  /** What `load_diaries_from_file` returns for a year whose cache exists; the empty
      list when it does not. */
  function CachedDiaries(files: map<string, string>, year: nat): seq<DiaryEntry>
  {
    if RawCachePath(year) in files then ParseCache(files[RawCachePath(year)]) else []
  }

  /** The `in_summary` loop of `load_monthly_summary_from_file` over the lines read. */
  method CollectSummaryLines(lines: seq<string>) returns (summaryLines: seq<string>)
    ensures summaryLines == Collected(lines, false)
  {
    summaryLines := [];
    var inSummary := false;
    for i := 0 to |lines|
      invariant summaryLines + Collected(lines[i..], inSummary) == Collected(lines, false)
    {
      var line := lines[i];
      CollectedCons(line, lines[i + 1..], inSummary);
      assert lines[i..] == [line] + lines[i + 1..];
      if IsRuleLine(line) {
        if !inSummary {
          inSummary := true;
          continue;
        } else {
          assert summaryLines == Collected(lines, false);
          break;
        }
      } else if inSummary {
        summaryLines := summaryLines + [line];
      }
    }
    assert summaryLines == Collected(lines, false) by {
      assert lines[|lines|..] == [];
    }
  }

  /** The loop of `load_diaries_from_file` over the parts after the header: every part
      that parses is kept, in order. */
  method ParseParts(parts: seq<string>) returns (diaries: seq<DiaryEntry>)
    requires |parts| >= 1
    ensures diaries == ParseEntries(parts[1..])
  {
    diaries := [];
    for i := 1 to |parts|
      invariant diaries == ParseEntries(parts[1..i])
    {
      var part := parts[i];
      assert parts[1..i + 1] == parts[1..i] + [part];
      ParseEntriesSnoc(parts[1..i], part);
      var entry := ParseEntry(part);
      if entry.None? {
        continue;
      }
      diaries := diaries + [entry.value];
    }
    assert parts[1..|parts|] == parts[1..];
  }

  // ---------------------------------------------------------------- the directory

  class OutputDir {
    /** The texts of the files under the output directory, by relative path. */
    var files: map<string, string>

    constructor (initial: map<string, string>)
      ensures files == initial
    {
      files := initial;
    }

    /** `save_summary_to_file`: writes the yearly envelope and nothing else. */
    method SaveSummary(year: nat, summary: string, now: string)
      modifies this
      ensures files == old(files)[YearlySummaryPath(year) := Envelope(YearlyTitle(year), summary, now)]
    {
      files := files[YearlySummaryPath(year) := Envelope(YearlyTitle(year), summary, now)];
    }

    /** `save_monthly_summary_to_file`: writes the monthly envelope under the year's
        sub-directory and nothing else. */
    method SaveMonthlySummary(year: nat, month: nat, summary: string, now: string)
      modifies this
      ensures files == old(files)[MonthlySummaryPath(year, month) := Envelope(MonthlyTitle(year, month), summary, now)]
    {
      files := files[MonthlySummaryPath(year, month) := Envelope(MonthlyTitle(year, month), summary, now)];
    }

    /** `load_monthly_summary_from_file`: `None` without the file, otherwise the
        flag machine over the lines of its text read in text mode (`\r\n` and `\r`
        become `\n`), joined and stripped. */
    method LoadMonthlySummary(year: nat, month: nat) returns (r: Option<string>)
      ensures MonthlySummaryPath(year, month) !in files ==> r == None
      ensures MonthlySummaryPath(year, month) in files ==>
                r == Some(SummarySection(files[MonthlySummaryPath(year, month)]))
    {
      var path := MonthlySummaryPath(year, month);
      if path !in files {
        return None;
      }
      var lines := SplitOn(Newlines(files[path]), "\n");
      var summaryLines := CollectSummaryLines(lines);
      return Some(Strip(Join(summaryLines, "\n")));
    }

    /** `save_original_diaries_to_file`: writes the header, then each diary after the
        separator, to the year's raw cache and nothing else. */
    method SaveOriginalDiaries(year: nat, diaries: seq<DiaryEntry>, now: string)
      modifies this
      ensures files == old(files)[RawCachePath(year) := CacheText(year, diaries, now)]
    {
      var text := Header(year, |diaries|, now);
      for i := 0 to |diaries|
        invariant text == Header(year, |diaries|, now) + Entries(diaries[..i])
        invariant files == old(files)
      {
        var d := diaries[i];
        var entry := "\n" + Bar() + "\n" + ("【" + d.path + "】\n") + (Bar() + "\n\n") + d.content + "\n\n";
        EntryText(d);
        EntriesSnoc(diaries[..i], d);
        assert diaries[..i + 1] == diaries[..i] + [d];
        text := text + entry;
      }
      assert diaries[..|diaries|] == diaries;
      files := files[RawCachePath(year) := text];
    }

    /** `load_diaries_from_file`: `None` without the file, otherwise the entries read
        from every part after the header of its text read in text mode. */
    method LoadDiaries(year: nat) returns (r: Option<seq<DiaryEntry>>)
      ensures RawCachePath(year) !in files ==> r == None
      ensures RawCachePath(year) in files ==> r == Some(ParseCache(files[RawCachePath(year)]))
    {
      var path := RawCachePath(year);
      if path !in files {
        return None;
      }
      var parts := SplitOn(Newlines(files[path]), Separator());
      var diaries := ParseParts(parts);
      return Some(diaries);
    }

    /** `check_cached_years`: the years read from the listed raw cache names, sorted,
        one per name that yields a year. */
    method CheckCachedYears() returns (years: seq<nat>)
      ensures Ascending(years)
      ensures forall y :: y in years <==> y in YearsOf(files.Keys)
      ensures |years| == |CacheNames(files)|
    {
      var names := files.Keys;
      var found: seq<nat> := [];
      ghost var seen: set<string> := {};
      while names != {}
        invariant names !! seen && names + seen == files.Keys
        invariant forall y :: y in found <==> y in YearsOf(seen)
        invariant |found| == |Contributing(seen)|
        decreases |names|
      {
        var name :| name in names;
        ContributingAdd(seen, name);
        YearsOfAdd(seen, name);
        if Listed(name) {
          var year := CacheYear(name);
          if year.Some? {
            found := found + [year.value];
          }
        }
        names := names - {name};
        seen := seen + {name};
      }
      assert seen == files.Keys;
      years := SortNats(found);
      SortNatsCorrect(found);
      SortNatsMembers(found);
    }

    /** `load_diaries_from_cache`: the given years whose cache file reads to at least
        one diary, each with what was read. */
    method LoadDiariesFromCache(cached: seq<nat>) returns (byYear: map<nat, seq<DiaryEntry>>)
      ensures forall y :: y in byYear <==> y in cached && CachedDiaries(files, y) != []
      ensures forall y :: y in byYear ==> byYear[y] == CachedDiaries(files, y)
    {
      byYear := map[];
      for i := 0 to |cached|
        invariant forall y :: y in byYear <==> y in cached[..i] && CachedDiaries(files, y) != []
        invariant forall y :: y in byYear ==> byYear[y] == CachedDiaries(files, y)
      {
        assert cached[..i + 1] == cached[..i] + [cached[i]];
        var diaries := LoadDiaries(cached[i]);
        if diaries.Some? && diaries.value != [] {
          byYear := byYear[cached[i] := diaries.value];
        }
      }
      assert cached[..|cached|] == cached;
    }
  }
}
