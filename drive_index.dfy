/** What `load_diaries_from_drive` builds from the grouped Drive listing: each
    month's readable diaries in natural path order, the per-year list that
    concatenates them, the per-month index of the non-empty lists, and the raw
    cache written for every year that has a diary. */
module DriveIndex {
  import opened Seqs
  import opened Records
  import opened Grouping
  import opened Parsers
  import opened SummaryFiles
  import opened RawCache

  /** The Drive export: a document's text by its id, empty when it could not be
      read. */
  type Export = string -> string

  /** The diary a listed file becomes once its text is fetched. */
  function Fetched(fetch: Export, f: FileMeta): DiaryEntry
  {
    DiaryEntry(f.name, PathOf(f), fetch(f.id), f.createdTime, f.modifiedTime)
  }

  /** The fetched diaries of the files whose text is not empty, in listing order. */
  function Readable(fetch: Export, files: seq<FileMeta>): seq<DiaryEntry>
  {
    if files == [] then []
    else
      var f := files[|files| - 1];
      Readable(fetch, files[..|files| - 1]) + (if fetch(f.id) != "" then [Fetched(fetch, f)] else [])
  }

  /** The sort key `read_diaries_from_drive_for_month` orders by. */
  function EntryKey(d: DiaryEntry): seq<KeyPart>
  {
    NaturalKey(d.path)
  }

  /** `read_diaries_from_drive_for_month`: the readable diaries, sorted stably by
      the natural key of their paths. */
  function MonthDiaries(fetch: Export, files: seq<FileMeta>): seq<DiaryEntry>
  {
    SortByKey(Readable(fetch, files), EntryKey)
  }

  lemma {:induction false} ReadableMembers(fetch: Export, files: seq<FileMeta>)
    ensures forall d :: d in Readable(fetch, files) <==>
              exists i :: 0 <= i < |files| && fetch(files[i].id) != "" && d == Fetched(fetch, files[i])
  {
    if files != [] {
      var init, f := files[..|files| - 1], files[|files| - 1];
      ReadableMembers(fetch, init);
      forall d ensures d in Readable(fetch, files) <==>
                exists i :: 0 <= i < |files| && fetch(files[i].id) != "" && d == Fetched(fetch, files[i])
      {
        if d in Readable(fetch, init) {
          var i :| 0 <= i < |init| && fetch(init[i].id) != "" && d == Fetched(fetch, init[i]);
          assert files[i] == init[i];
        }
        if exists i :: 0 <= i < |files| && fetch(files[i].id) != "" && d == Fetched(fetch, files[i]) {
          var i :| 0 <= i < |files| && fetch(files[i].id) != "" && d == Fetched(fetch, files[i]);
          if i < |init| {
            assert init[i] == files[i];
          }
        }
      }
    }
  }

  /** A month's list is ordered by natural path, holds exactly the readable
      diaries of the month's files (as a multiset, and each key's diaries in
      listing order), and every diary in it has text. */
  lemma MonthDiariesSpec(fetch: Export, files: seq<FileMeta>)
    ensures SortedByKey(MonthDiaries(fetch, files), EntryKey)
    ensures multiset(MonthDiaries(fetch, files)) == multiset(Readable(fetch, files))
    ensures forall k :: WithKey(MonthDiaries(fetch, files), EntryKey, k) == WithKey(Readable(fetch, files), EntryKey, k)
    ensures forall d :: d in MonthDiaries(fetch, files) <==>
              exists i :: 0 <= i < |files| && fetch(files[i].id) != "" && d == Fetched(fetch, files[i])
    ensures forall d :: d in MonthDiaries(fetch, files) ==> d.content != ""
  {
    var sorted, readable := MonthDiaries(fetch, files), Readable(fetch, files);
    SortByKeyCorrect(readable, EntryKey);
    ReadableMembers(fetch, files);
    forall d ensures d in sorted <==> d in readable {
      assert d in sorted <==> d in multiset(sorted);
      assert d in readable <==> d in multiset(readable);
    }
  }

  // ---------------------------------------------------------------- the two indexes

  /** `diaries_by_year` and `diaries_by_year_month` as the loop leaves them. */
  datatype Index = Index(byYear: map<nat, seq<DiaryEntry>>, byYearMonth: map<nat, map<nat, seq<DiaryEntry>>>)

  /** One month of the loop: a non-empty list goes under `[year][month]` and
      extends the year's list; an empty one changes nothing. */
  function AddMonth(ix: Index, year: nat, month: nat, ds: seq<DiaryEntry>): Index
  {
    if ds == [] then ix
    else
      Index(ix.byYear[year := (if year in ix.byYear then ix.byYear[year] else []) + ds],
            ix.byYearMonth[year := (if year in ix.byYearMonth then ix.byYearMonth[year] else map[])[month := ds]])
  }

  /** The inner loop over the months `ms` of one year. */
  function AddMonths(fetch: Export, ix: Index, year: nat, months: map<nat, seq<FileMeta>>, ms: seq<nat>): Index
    requires forall m :: m in ms ==> m in months
  {
    if ms == [] then ix
    else
      var m := ms[|ms| - 1];
      AddMonth(AddMonths(fetch, ix, year, months, ms[..|ms| - 1]), year, m, MonthDiaries(fetch, months[m]))
  }

  /** The state after the years `ys` of the outer loop: the indexes and the files
      of the output directory, a raw cache being written after each year that has
      a diary. */
  function AddYears(fetch: Export, now: string, ix: Index, files: map<string, string>,
                    g: map<nat, map<nat, seq<FileMeta>>>, ys: seq<nat>): (Index, map<string, string>)
    requires forall y :: y in ys ==> y in g
  {
    if ys == [] then (ix, files)
    else
      var y := ys[|ys| - 1];
      var prev := AddYears(fetch, now, ix, files, g, ys[..|ys| - 1]);
      var next := AddMonths(fetch, prev.0, y, g[y], SortedKeys(g[y].Keys));
      (next, if y in next.byYear then prev.1[RawCachePath(y) := CacheText(y, next.byYear[y], now)] else prev.1)
  }

  lemma AddMonthsSnoc(fetch: Export, ix: Index, year: nat, months: map<nat, seq<FileMeta>>, ms: seq<nat>, j: nat)
    requires j < |ms| && forall m :: m in ms ==> m in months
    ensures AddMonths(fetch, ix, year, months, ms[..j + 1]) ==
            AddMonth(AddMonths(fetch, ix, year, months, ms[..j]), year, ms[j], MonthDiaries(fetch, months[ms[j]]))
  {
    assert ms[..j + 1][..j] == ms[..j];
  }

  lemma AddYearsSnoc(fetch: Export, now: string, ix: Index, files: map<string, string>,
                     g: map<nat, map<nat, seq<FileMeta>>>, ys: seq<nat>, i: nat)
    requires i < |ys| && forall y :: y in ys ==> y in g
    ensures var prev, y := AddYears(fetch, now, ix, files, g, ys[..i]), ys[i];
      var next := AddMonths(fetch, prev.0, y, g[y], SortedKeys(g[y].Keys));
      AddYears(fetch, now, ix, files, g, ys[..i + 1]) ==
        (next, if y in next.byYear then prev.1[RawCachePath(y) := CacheText(y, next.byYear[y], now)] else prev.1)
  {
    assert ys[..i + 1][..i] == ys[..i];
  }

  lemma AddYearsWhole(fetch: Export, now: string, ix: Index, files: map<string, string>,
                      g: map<nat, map<nat, seq<FileMeta>>>, ys: seq<nat>)
    requires forall y :: y in ys ==> y in g
    ensures AddYears(fetch, now, ix, files, g, ys[..|ys|]) == AddYears(fetch, now, ix, files, g, ys)
  {
    assert ys[..|ys|] == ys;
  }

  /** `load_diaries_from_drive` from the listing on: `None` when the listing is
      empty or no file has both a year and a month, otherwise the two indexes; with
      the files of the output directory afterwards. */
  function DriveLoad(fetch: Export, now: string, files: map<string, string>, listing: seq<FileMeta>)
    : (Option<Index>, map<string, string>)
  {
    var g := Nested(listing, DatedYear, DatedMonth);
    if listing == [] || g == map[] then (None, files)
    else
      var r := AddYears(fetch, now, Index(map[], map[]), files, g, SortedKeys(g.Keys));
      (Some(r.0), r.1)
  }

  // ---------------------------------------------------------------- what the indexes hold

  /** Every month's list, empty ones included. */
  function MonthLists(fetch: Export, months: map<nat, seq<FileMeta>>): map<nat, seq<DiaryEntry>>
  {
    map m | m in months :: MonthDiaries(fetch, months[m])
  }

  /** The lists of `lists` under the keys `ms`, one after the other. */
  function ConcatOf(lists: map<nat, seq<DiaryEntry>>, ms: seq<nat>): seq<DiaryEntry>
    requires forall m :: m in ms ==> m in lists
  {
    if ms == [] then [] else ConcatOf(lists, ms[..|ms| - 1]) + lists[ms[|ms| - 1]]
  }

  /** The non-empty lists of `lists` under the keys `ms`. */
  function NonEmptyOf(lists: map<nat, seq<DiaryEntry>>, ms: seq<nat>): map<nat, seq<DiaryEntry>>
    requires forall m :: m in ms ==> m in lists
  {
    map m | m in ms && lists[m] != [] :: lists[m]
  }

  /** A year's diaries: its month lists in ascending month order. */
  function YearDiaries(fetch: Export, months: map<nat, seq<FileMeta>>): seq<DiaryEntry>
  {
    ConcatOf(MonthLists(fetch, months), SortedKeys(months.Keys))
  }

  /** A year's month index: the months whose list is not empty. */
  function MonthIndex(fetch: Export, months: map<nat, seq<FileMeta>>): map<nat, seq<DiaryEntry>>
  {
    NonEmptyOf(MonthLists(fetch, months), SortedKeys(months.Keys))
  }

  /** The keys of `ms` whose list is not empty, in the order of `ms`. */
  function Filled(lists: map<nat, seq<DiaryEntry>>, ms: seq<nat>): (r: seq<nat>)
    requires forall m :: m in ms ==> m in lists
    ensures forall m :: m in r <==> m in ms && lists[m] != []
  {
    if ms == [] then []
    else
      var m := ms[|ms| - 1];
      Filled(lists, ms[..|ms| - 1]) + (if lists[m] != [] then [m] else [])
  }

  lemma {:induction false} FilledAscending(lists: map<nat, seq<DiaryEntry>>, ms: seq<nat>)
    requires forall m :: m in ms ==> m in lists
    requires StrictlyAscending(ms)
    ensures StrictlyAscending(Filled(lists, ms))
  {
    if ms != [] {
      var init, m := ms[..|ms| - 1], ms[|ms| - 1];
      FilledAscending(lists, init);
      var f := Filled(lists, init);
      forall i | 0 <= i < |f| ensures f[i] < m {
        assert f[i] in init;
      }
    }
  }

  /** Skipping the keys of empty lists changes no concatenation. */
  lemma {:induction false} ConcatFilled(lists: map<nat, seq<DiaryEntry>>, ms: seq<nat>)
    requires forall m :: m in ms ==> m in lists
    ensures ConcatOf(lists, ms) == ConcatOf(lists, Filled(lists, ms))
  {
    if ms != [] {
      var init, m := ms[..|ms| - 1], ms[|ms| - 1];
      ConcatFilled(lists, init);
      var f := Filled(lists, init);
      assert ConcatOf(lists, ms) == ConcatOf(lists, f) + lists[m];
      if lists[m] != [] {
        var h := f + [m];
        assert Filled(lists, ms) == h;
        assert h[..|f|] == f;
        assert ConcatOf(lists, h) == ConcatOf(lists, f) + lists[m];
      } else {
        assert Filled(lists, ms) == f;
      }
    }
  }

  /** Concatenation looks only at the lists under the keys it is given. */
  lemma {:induction false} ConcatFrame(a: map<nat, seq<DiaryEntry>>, b: map<nat, seq<DiaryEntry>>, ms: seq<nat>)
    requires forall m :: m in ms ==> m in a && m in b && a[m] == b[m]
    ensures ConcatOf(a, ms) == ConcatOf(b, ms)
  {
    if ms != [] {
      ConcatFrame(a, b, ms[..|ms| - 1]);
    }
  }

  /** A concatenation is empty exactly when every list in it is. */
  lemma {:induction false} ConcatEmpty(lists: map<nat, seq<DiaryEntry>>, ms: seq<nat>)
    requires forall m :: m in ms ==> m in lists
    ensures ConcatOf(lists, ms) == [] <==> NonEmptyOf(lists, ms) == map[]
  {
    if ms != [] {
      var init, m := ms[..|ms| - 1], ms[|ms| - 1];
      ConcatEmpty(lists, init);
      if lists[m] != [] {
        assert m in NonEmptyOf(lists, ms);
      } else if NonEmptyOf(lists, init) != map[] {
        var k :| k in NonEmptyOf(lists, init);
        assert k in NonEmptyOf(lists, ms);
      } else {
        assert NonEmptyOf(lists, ms) == map[] by {
          assert ms == init + [m];
          forall k | k in ms ensures lists[k] == [] {
            if k != m {
              assert k in init;
              assert k !in NonEmptyOf(lists, init);
            }
          }
        }
      }
    }
  }

  /** Dropping the empty lists and the keys that carried them changes no
      concatenation. */
  lemma ConcatSkipsEmpty(lists: map<nat, seq<DiaryEntry>>, ms: seq<nat>)
    requires forall m :: m in ms ==> m in lists
    requires StrictlyAscending(ms)
    ensures ConcatOf(lists, ms) == ConcatOf(NonEmptyOf(lists, ms), SortedKeys(NonEmptyOf(lists, ms).Keys))
  {
    var n := NonEmptyOf(lists, ms);
    var f := Filled(lists, ms);
    FilledAscending(lists, ms);
    AscendingUnique(f, SortedKeys(n.Keys));
    ConcatFilled(lists, ms);
    ConcatFrame(lists, n, f);
  }

  /** One more month with a non-empty list adds exactly that month. */
  lemma NonEmptyOfSnoc(lists: map<nat, seq<DiaryEntry>>, ms: seq<nat>)
    requires ms != [] && forall m :: m in ms ==> m in lists
    ensures var m := ms[|ms| - 1];
      NonEmptyOf(lists, ms) == if lists[m] == [] then NonEmptyOf(lists, ms[..|ms| - 1])
                               else NonEmptyOf(lists, ms[..|ms| - 1])[m := lists[m]]
  {
    var init, m := ms[..|ms| - 1], ms[|ms| - 1];
    assert forall k :: k in ms <==> k in init || k == m;
  }

  /** `lists` holds the list of every month of `ms`. */
  predicate ListsOf(fetch: Export, months: map<nat, seq<FileMeta>>, lists: map<nat, seq<DiaryEntry>>, ms: seq<nat>)
  {
    forall m :: m in ms ==> m in months && m in lists && lists[m] == MonthDiaries(fetch, months[m])
  }

  lemma MonthListsOf(fetch: Export, months: map<nat, seq<FileMeta>>, ms: seq<nat>)
    requires forall m :: m in ms ==> m in months
    ensures ListsOf(fetch, months, MonthLists(fetch, months), ms)
  {
  }

  /** The inner loop, on a state that does not have the year yet, gives the year
      the concatenation of the month lists, when it is not empty. */
  lemma {:induction false} AddMonthsYear(fetch: Export, ix: Index, year: nat, months: map<nat, seq<FileMeta>>,
                                         lists: map<nat, seq<DiaryEntry>>, ms: seq<nat>)
    requires ListsOf(fetch, months, lists, ms)
    requires year !in ix.byYear
    ensures var r, c := AddMonths(fetch, ix, year, months, ms), ConcatOf(lists, ms);
      r.byYear == if c != [] then ix.byYear[year := c] else ix.byYear
  {
    if ms != [] {
      var init, m := ms[..|ms| - 1], ms[|ms| - 1];
      assert ListsOf(fetch, months, lists, init);
      AddMonthsYear(fetch, ix, year, months, lists, init);
      var prev := AddMonths(fetch, ix, year, months, init);
      var x := lists[m];
      assert AddMonths(fetch, ix, year, months, ms) == AddMonth(prev, year, m, x);
      var c := ConcatOf(lists, init);
      assert ConcatOf(lists, ms) == c + x;
      if x == [] {
        assert c + x == c;
      } else if c == [] {
        assert c + x == x;
      }
    }
  }

  /** The inner loop, on a state that does not have the year yet, gives the year
      the index of its non-empty month lists, when there is one. */
  lemma {:induction false} AddMonthsMonths(fetch: Export, ix: Index, year: nat, months: map<nat, seq<FileMeta>>,
                                           lists: map<nat, seq<DiaryEntry>>, ms: seq<nat>)
    requires ListsOf(fetch, months, lists, ms)
    requires StrictlyAscending(ms)
    requires year !in ix.byYearMonth
    ensures var r, n := AddMonths(fetch, ix, year, months, ms), NonEmptyOf(lists, ms);
      r.byYearMonth == if n != map[] then ix.byYearMonth[year := n] else ix.byYearMonth
  {
    if ms != [] {
      var init, m := ms[..|ms| - 1], ms[|ms| - 1];
      assert ListsOf(fetch, months, lists, init);
      AddMonthsMonths(fetch, ix, year, months, lists, init);
      NonEmptyOfSnoc(lists, ms);
      var prev := AddMonths(fetch, ix, year, months, init);
      assert AddMonths(fetch, ix, year, months, ms) == AddMonth(prev, year, m, lists[m]);
      AddMonthIndexStep(ix, prev, year, m, lists[m], NonEmptyOf(lists, init));
    }
  }

  /** One month of the loop, on the month index of a year the state did not have
      before the year's loop. */
  lemma AddMonthIndexStep(ix: Index, prev: Index, year: nat, m: nat, x: seq<DiaryEntry>, n: map<nat, seq<DiaryEntry>>)
    requires year !in ix.byYearMonth
    requires prev.byYearMonth == if n != map[] then ix.byYearMonth[year := n] else ix.byYearMonth
    ensures var n' := if x == [] then n else n[m := x];
      AddMonth(prev, year, m, x).byYearMonth == if n' != map[] then ix.byYearMonth[year := n'] else ix.byYearMonth
  {
    if x != [] {
      assert m in n[m := x];
    }
  }

  /** A later year of the outer loop leaves an earlier year's entries alone. */
  lemma {:induction false} AddMonthsFrame(fetch: Export, ix: Index, year: nat, months: map<nat, seq<FileMeta>>, ms: seq<nat>, y: nat)
    requires forall m :: m in ms ==> m in months
    requires y != year
    ensures var r := AddMonths(fetch, ix, year, months, ms);
      (y in r.byYear <==> y in ix.byYear) && (y in r.byYear ==> r.byYear[y] == ix.byYear[y]) &&
      (y in r.byYearMonth <==> y in ix.byYearMonth) && (y in r.byYearMonth ==> r.byYearMonth[y] == ix.byYearMonth[y])
  {
    if ms != [] {
      AddMonthsFrame(fetch, ix, year, months, ms[..|ms| - 1], y);
    }
  }

  /** What the indexes say about year `y` once the loop has passed it. */
  predicate Indexed(fetch: Export, ix: Index, g: map<nat, map<nat, seq<FileMeta>>>, y: nat)
    requires y in g
  {
    (y in ix.byYear <==> YearDiaries(fetch, g[y]) != []) &&
    (y in ix.byYearMonth <==> y in ix.byYear) &&
    (y in ix.byYear ==> ix.byYear[y] == YearDiaries(fetch, g[y]) && ix.byYearMonth[y] == MonthIndex(fetch, g[y]))
  }

  /** The year the inner loop has just handled. */
  lemma AddMonthsIndexed(fetch: Export, ix: Index, g: map<nat, map<nat, seq<FileMeta>>>, y: nat)
    requires y in g && y !in ix.byYear && y !in ix.byYearMonth
    ensures Indexed(fetch, AddMonths(fetch, ix, y, g[y], SortedKeys(g[y].Keys)), g, y)
  {
    var ms := SortedKeys(g[y].Keys);
    MonthListsOf(fetch, g[y], ms);
    AddMonthsYear(fetch, ix, y, g[y], MonthLists(fetch, g[y]), ms);
    AddMonthsMonths(fetch, ix, y, g[y], MonthLists(fetch, g[y]), ms);
    ConcatEmpty(MonthLists(fetch, g[y]), ms);
  }

  /** The indexes after the years `ys`: a year is in either exactly when it has a
      diary; its list is `YearDiaries` and its month index is `MonthIndex`. */
  lemma {:induction false} AddYearsIndex(fetch: Export, now: string, files: map<string, string>,
                                         g: map<nat, map<nat, seq<FileMeta>>>, ys: seq<nat>)
    requires forall y :: y in ys ==> y in g
    requires StrictlyAscending(ys)
    ensures var ix := AddYears(fetch, now, Index(map[], map[]), files, g, ys).0;
      (forall y :: y in ix.byYear ==> y in ys) && (forall y :: y in ix.byYearMonth ==> y in ys) &&
      forall y :: y in ys ==> Indexed(fetch, ix, g, y)
  {
    if ys != [] {
      var init, last := ys[..|ys| - 1], ys[|ys| - 1];
      AddYearsIndex(fetch, now, files, g, init);
      var prev := AddYears(fetch, now, Index(map[], map[]), files, g, init).0;
      var ms := SortedKeys(g[last].Keys);
      var ix := AddMonths(fetch, prev, last, g[last], ms);
      assert last !in init;
      AddMonthsIndexed(fetch, prev, g, last);
      forall y | y != last
        ensures (y in ix.byYear <==> y in prev.byYear) && (y in ix.byYear ==> ix.byYear[y] == prev.byYear[y])
        ensures (y in ix.byYearMonth <==> y in prev.byYearMonth) && (y in ix.byYearMonth ==> ix.byYearMonth[y] == prev.byYearMonth[y])
      {
        AddMonthsFrame(fetch, prev, last, g[last], ms, y);
      }
      forall y | y in ys ensures Indexed(fetch, ix, g, y) {
        if y != last {
          assert y in init;
        }
      }
    }
  }

  /** After the years `ys`, the raw cache of each year with a diary holds that
      year's list. */
  lemma {:induction false} AddYearsCaches(fetch: Export, now: string, files: map<string, string>,
                                          g: map<nat, map<nat, seq<FileMeta>>>, ys: seq<nat>)
    requires forall y :: y in ys ==> y in g
    requires StrictlyAscending(ys)
    ensures var r := AddYears(fetch, now, Index(map[], map[]), files, g, ys);
      forall y :: y in r.0.byYear ==> RawCachePath(y) in r.1 && r.1[RawCachePath(y)] == CacheText(y, r.0.byYear[y], now)
  {
    if ys != [] {
      var init, last := ys[..|ys| - 1], ys[|ys| - 1];
      AddYearsCaches(fetch, now, files, g, init);
      var prev := AddYears(fetch, now, Index(map[], map[]), files, g, init);
      var ms := SortedKeys(g[last].Keys);
      var next := AddMonths(fetch, prev.0, last, g[last], ms);
      var written := if last in next.byYear then prev.1[RawCachePath(last) := CacheText(last, next.byYear[last], now)] else prev.1;
      assert AddYears(fetch, now, Index(map[], map[]), files, g, ys) == (next, written);
      forall y | y in next.byYear
        ensures RawCachePath(y) in written && written[RawCachePath(y)] == CacheText(y, next.byYear[y], now)
      {
        if y != last {
          AddMonthsFrame(fetch, prev.0, last, g[last], ms, y);
          PathsDistinct(y, last, 0);
        }
      }
    }
  }

  /** After the years `ys`, a path that is no indexed year's raw cache is as it
      was. */
  lemma {:induction false} AddYearsOthers(fetch: Export, now: string, files: map<string, string>,
                                          g: map<nat, map<nat, seq<FileMeta>>>, ys: seq<nat>, p: string)
    requires forall y :: y in ys ==> y in g
    requires StrictlyAscending(ys)
    requires forall y :: y in AddYears(fetch, now, Index(map[], map[]), files, g, ys).0.byYear ==> p != RawCachePath(y)
    ensures var r := AddYears(fetch, now, Index(map[], map[]), files, g, ys);
      (p in r.1 <==> p in files) && (p in files ==> r.1[p] == files[p])
  {
    if ys != [] {
      var init, last := ys[..|ys| - 1], ys[|ys| - 1];
      AddYearsIndex(fetch, now, files, g, init);
      var prev := AddYears(fetch, now, Index(map[], map[]), files, g, init);
      var ms := SortedKeys(g[last].Keys);
      var next := AddMonths(fetch, prev.0, last, g[last], ms);
      var written := if last in next.byYear then prev.1[RawCachePath(last) := CacheText(last, next.byYear[last], now)] else prev.1;
      assert AddYears(fetch, now, Index(map[], map[]), files, g, ys) == (next, written);
      forall y | y in prev.0.byYear ensures p != RawCachePath(y) {
        assert y in init;
        assert y != last;
        AddMonthsFrame(fetch, prev.0, last, g[last], ms, y);
      }
      AddYearsOthers(fetch, now, files, g, init, p);
    }
  }

  /** A year's list is empty exactly when it has no month in its index, and it is
      the concatenation of the index's lists in ascending month order. */
  lemma YearFromMonthIndex(fetch: Export, months: map<nat, seq<FileMeta>>)
    ensures YearDiaries(fetch, months) == [] <==> MonthIndex(fetch, months) == map[]
    ensures YearDiaries(fetch, months) == ConcatOf(MonthIndex(fetch, months), SortedKeys(MonthIndex(fetch, months).Keys))
    ensures forall m :: m in MonthIndex(fetch, months) ==> m in months && MonthIndex(fetch, months)[m] != []
  {
    var lists, ms := MonthLists(fetch, months), SortedKeys(months.Keys);
    ConcatEmpty(lists, ms);
    ConcatSkipsEmpty(lists, ms);
  }

  lemma MonthIndexAt(fetch: Export, months: map<nat, seq<FileMeta>>, m: nat)
    requires m in MonthIndex(fetch, months)
    ensures m in months && MonthIndex(fetch, months)[m] == MonthDiaries(fetch, months[m])
  {
  }

  /** Every indexed diary was fetched, with text, from a listed file of that year
      and month. */
  lemma IndexedOrigin(fetch: Export, listing: seq<FileMeta>, y: nat, m: nat, d: DiaryEntry)
    requires var g := Nested(listing, DatedYear, DatedMonth);
      y in g && m in MonthIndex(fetch, g[y]) && d in MonthIndex(fetch, g[y])[m]
    ensures d.content != ""
    ensures exists f :: f in listing && DatedYear(f) == Some(y) && DatedMonth(f) == Some(m) && d == Fetched(fetch, f)
  {
    var g := Nested(listing, DatedYear, DatedMonth);
    var months: map<nat, seq<FileMeta>> := g[y];
    MonthIndexAt(fetch, months, m);
    var listed: seq<FileMeta> := months[m];
    MonthDiariesSpec(fetch, listed);
    var i :| 0 <= i < |listed| && fetch(listed[i].id) != "" && d == Fetched(fetch, listed[i]);
    var f := listed[i];
    assert f in g[y][m];
    NestedMember(listing, DatedYear, DatedMonth, y, m, f);
  }

  /** What `load_diaries_from_drive` returns and writes: `None` exactly for an
      empty listing or one without a dated file; otherwise a year is in both
      indexes exactly when one of its months has a readable diary, its month index
      holds the non-empty month lists, its list is their concatenation in
      ascending month order, the raw cache of each indexed year holds its list,
      and nothing else in the directory changes. */
  lemma DriveLoadSpec(fetch: Export, now: string, files: map<string, string>, listing: seq<FileMeta>)
    ensures var g, r := Nested(listing, DatedYear, DatedMonth), DriveLoad(fetch, now, files, listing);
      (r.0.None? <==> listing == [] || g == map[]) &&
      (r.0.None? ==> r.1 == files) &&
      (r.0.Some? ==>
         var ix := r.0.value;
         (forall y :: y in ix.byYear <==> y in ix.byYearMonth) &&
         (forall y :: y in ix.byYear <==> y in g && YearDiaries(fetch, g[y]) != []) &&
         (forall y :: y in ix.byYear ==>
            ix.byYearMonth[y] == MonthIndex(fetch, g[y]) &&
            ix.byYear[y] == ConcatOf(ix.byYearMonth[y], SortedKeys(ix.byYearMonth[y].Keys))) &&
         (forall y :: y in ix.byYear ==> RawCachePath(y) in r.1 && r.1[RawCachePath(y)] == CacheText(y, ix.byYear[y], now)) &&
         (forall p :: (forall y :: y in ix.byYear ==> p != RawCachePath(y)) ==>
            (p in r.1 <==> p in files) && (p in files ==> r.1[p] == files[p])))
  {
    var g := Nested(listing, DatedYear, DatedMonth);
    if listing != [] && g != map[] {
      var ys := SortedKeys(g.Keys);
      AddYearsIndex(fetch, now, files, g, ys);
      AddYearsCaches(fetch, now, files, g, ys);
      var ix := AddYears(fetch, now, Index(map[], map[]), files, g, ys).0;
      forall p | forall y :: y in ix.byYear ==> p != RawCachePath(y)
        ensures var r := DriveLoad(fetch, now, files, listing).1; (p in r <==> p in files) && (p in files ==> r[p] == files[p])
      {
        AddYearsOthers(fetch, now, files, g, ys, p);
      }
      forall y | y in ix.byYear
        ensures ix.byYear[y] == ConcatOf(ix.byYearMonth[y], SortedKeys(ix.byYearMonth[y].Keys))
      {
        assert Indexed(fetch, ix, g, y);
        YearFromMonthIndex(fetch, g[y]);
      }
      forall y ensures (y in ix.byYear <==> y in g && YearDiaries(fetch, g[y]) != []) && (y in ix.byYear <==> y in ix.byYearMonth) {
        if y in g {
          assert Indexed(fetch, ix, g, y);
        }
      }
    }
  }
}
