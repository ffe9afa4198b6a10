/** The raw yearly cache: every diary of a year written under its path into one text
    file, and the loader that splits that file back into entries. */
module RawCache {
  import opened Seqs
  import opened Text
  import opened Records

  // ---------------------------------------------------------------- layout

  /** The 60-character rule of the cache file. */
  function Bar(): string
  {
    Rule(60)
  }

  /** `"\n" + "=" * 60 + "\n【"`: what stands before every entry. */
  function Separator(): (s: string)
    ensures |s| == 63 && s[0] == '\n' && s[61] == '\n' && s[62] == '【'
    ensures forall i :: 1 <= i < 61 ==> s[i] == '='
  {
    "\n" + Bar() + "\n【"
  }

  /** `"=" * 60 + "\n\n"`: what stands before an entry's content. */
  function ContentMarker(): (s: string)
    ensures |s| == 62 && s[60] == '\n' && s[61] == '\n'
    ensures forall i :: 0 <= i < 60 ==> s[i] == '='
  {
    Bar() + "\n\n"
  }

  /** The file header: title, rule, generation time, diary count, rule, blank line. */
  function Header(year: nat, count: nat, now: string): string
  {
    NatToString(year) + "年日记原文合集\n" + Bar() + "\n" + "生成时间: " + now + "\n" +
    "共 " + NatToString(count) + " 篇日记\n" + Bar() + "\n\n"
  }

  /** What follows the separator for one diary: its path closed by `】`, the rule, a
      blank line, the content and two newlines. */
  function Body(d: DiaryEntry): string
  {
    d.path + "】\n" + Bar() + "\n\n" + d.content + "\n\n"
  }

  /** The entries of the file, each introduced by the separator. */
  function Entries(ds: seq<DiaryEntry>): string
  {
    if ds == [] then "" else Separator() + Body(ds[0]) + Entries(ds[1..])
  }

  /** The whole text `save_original_diaries_to_file` writes for a year. */
  function CacheText(year: nat, ds: seq<DiaryEntry>, now: string): string
  {
    Header(year, |ds|, now) + Entries(ds)
  }

  /** The writes for one diary put down the separator and its body. */
  lemma EntryText(d: DiaryEntry)
    ensures "\n" + Bar() + "\n" + ("【" + d.path + "】\n") + (Bar() + "\n\n") + d.content + "\n\n" ==
            Separator() + Body(d)
  {
  }

  lemma {:induction false} EntriesSnoc(ds: seq<DiaryEntry>, d: DiaryEntry)
    ensures Entries(ds + [d]) == Entries(ds) + (Separator() + Body(d))
    decreases |ds|
  {
    if ds == [] {
      assert [d][1..] == [];
    } else {
      assert (ds + [d])[1..] == ds[1..] + [d];
      EntriesSnoc(ds[1..], d);
    }
  }

  // ---------------------------------------------------------------- loading

  /** One part of the split file, as the loader reads it: the first line without its
      trailing `】` is the path, the content is what follows the first content marker,
      stripped, and the times are empty. A part without a content marker is skipped
      (the `ValueError` the loader catches). */
  function ParseEntry(part: string): (r: Option<DiaryEntry>)
    ensures r.Some? <==> Contains(part, ContentMarker())
    ensures r.Some? ==> r.value.filename == LastComponent(r.value.path)
    ensures r.Some? ==> r.value.createdTime == "" && r.value.modifiedTime == ""
    ensures r.Some? ==> r.value.path == [] || r.value.path[|r.value.path| - 1] != '】'
  {
    ContainsFind(part, ContentMarker());
    var pathLine := RStripChar(SplitOn(part, "\n")[0], '】');
    match FindFrom(part, ContentMarker(), 0)
    case None => None
    case Some(k) => Some(DiaryEntry(LastComponent(pathLine), pathLine, Strip(part[k + 62..]), "", ""))
  }

  /** The entries read from the parts, in order, skipping the unreadable ones. */
  function ParseEntries(parts: seq<string>): (ds: seq<DiaryEntry>)
    ensures |ds| <= |parts|
  {
    if parts == [] then []
    else
      var e := ParseEntry(parts[|parts| - 1]);
      ParseEntries(parts[..|parts| - 1]) + (if e.Some? then [e.value] else [])
  }

  lemma ParseEntriesSnoc(parts: seq<string>, part: string)
    ensures ParseEntries(parts + [part]) ==
            ParseEntries(parts) + (if ParseEntry(part).Some? then [ParseEntry(part).value] else [])
  {
    assert (parts + [part])[..|parts|] == parts;
  }

  /** What `load_diaries_from_file` returns for the text of an existing cache file,
      read in text mode: the entries of every part after the header. */
  function ParseCache(text: string): seq<DiaryEntry>
  {
    ParseEntries(SplitOn(Newlines(text), Separator())[1..])
  }

  /** Every entry the loader returns names its file after the last path component and
      carries empty times, and there is at most one entry per separator in the text. */
  lemma {:induction false} ParsedEntriesShape(parts: seq<string>)
    ensures forall e :: e in ParseEntries(parts) ==>
              e.filename == LastComponent(e.path) && e.createdTime == "" && e.modifiedTime == ""
  {
    if parts != [] {
      ParsedEntriesShape(parts[..|parts| - 1]);
    }
  }

  lemma ParseCacheShape(text: string)
    ensures |ParseCache(text)| < |SplitOn(Newlines(text), Separator())|
    ensures forall e :: e in ParseCache(text) ==>
              e.filename == LastComponent(e.path) && e.createdTime == "" && e.modifiedTime == ""
  {
    ParsedEntriesShape(SplitOn(Newlines(text), Separator())[1..]);
  }

  // ---------------------------------------------------------------- round trip

  /** No copy of `sep` starts inside `x` when `sep` follows it. */
  ghost predicate Clean(x: string, sep: string)
  {
    forall p: nat :: p < |x| ==> !OccursAt(x + sep, sep, p)
  }

  /** `sep` does not occur in `s`. */
  ghost predicate Free(s: string, sep: string)
  {
    forall p: nat :: !OccursAt(s, sep, p)
  }

  lemma SplitClean(x: string, sep: string, y: string)
    requires |sep| > 0 && Clean(x, sep)
    ensures SplitOn(x + sep + y, sep) == [x] + SplitOn(y, sep)
  {
    forall p: nat | p < |x| ensures !OccursAt(x + sep + y, sep, p) {
      assert !OccursAt(x + sep, sep, p);
      assert (x + sep + y)[p..p + |sep|] == (x + sep)[p..p + |sep|];
    }
    SplitFirst(x, sep, y);
  }

  lemma SplitCleanAlone(x: string, sep: string)
    requires |sep| > 0 && Clean(x, sep)
    ensures SplitOn(x, sep) == [x]
  {
    forall p: nat ensures !OccursAt(x, sep, p) {
      if p + |sep| <= |x| {
        assert !OccursAt(x + sep, sep, p);
        assert x[p..p + |sep|] == (x + sep)[p..p + |sep|];
      }
    }
    SplitNone(x, sep);
  }

  /** A text without `【` cannot hold the start of a separator. */
  lemma BracketFreeClean(x: string)
    requires '【' !in x
    ensures Clean(x, Separator())
  {
    var sep := Separator();
    forall p: nat | p < |x| ensures !OccursAt(x + sep, sep, p) {
      if p + 62 < |x| {
        assert x[p + 62] in x;
      }
      assert (x + sep)[p..p + 63][62] == (x + sep)[p + 62];
    }
  }

  lemma HeaderClean(year: nat, count: nat, now: string)
    requires '【' !in now
    ensures Clean(Header(year, count, now), Separator())
  {
    var y, c := NatToString(year), NatToString(count);
    assert '【' !in y && '【' !in c;
    assert '【' !in Bar();
    BracketFreeClean(Header(year, count, now));
  }

  /** The tail of an entry: once the content holds no separator, none starts before
      the next entry's. */
  lemma TailClean(content: string)
    requires Free("\n" + content, Separator())
    ensures Clean("\n" + content + "\n\n", Separator())
  {
    var sep, head := Separator(), "\n" + content;
    var v := head + "\n\n" + sep;
    assert "\n" + content + "\n\n" + sep == v;
    forall q: nat | q < |head| + 2 ensures !OccursAt(v, sep, q) {
      if q + 63 <= |head| {
        assert v[q..q + 63] == head[q..q + 63];
        assert !OccursAt(head, sep, q);
      } else {
        assert v[q..q + 63][62] == v[q + 62];
        var j := q + 62 - |head|;
        assert j < 64;
        if j < 2 {
          assert v[q + 62] == '\n';
        } else {
          assert v[q + 62] == sep[j - 2];
        }
      }
    }
  }

  /** An entry's body holds no separator before the next one, when its path is one
      line and its content holds no separator. */
  lemma BodyClean(d: DiaryEntry)
    requires '\n' !in d.path && Free("\n" + d.content, Separator())
    ensures Clean(Body(d), Separator())
  {
    var sep, n := Separator(), |d.path|;
    var tail := "\n" + d.content + "\n\n";
    var head := d.path + "】\n" + Bar() + "\n";
    assert Body(d) == head + tail;
    var w := head + (tail + sep);
    assert Body(d) + sep == w;
    TailClean(d.content);
    forall p: nat | p < |head| + |tail| ensures !OccursAt(w, sep, p) {
      if p < n {
        assert w[p] == d.path[p] && d.path[p] in d.path;
        assert w[p..p + 63][0] == w[p];
      } else if p == n {
        assert w[p..p + 63][0] == w[p] == '】';
      } else if p == n + 1 {
        assert w[p..p + 63][62] == w[n + 63] == tail[0];
      } else if p < n + 62 {
        assert w[p] == Bar()[p - n - 2];
        assert w[p..p + 63][0] == w[p];
      } else if p == n + 62 {
        assert w[p..p + 63][1] == w[n + 63] == tail[0];
      } else {
        var q := p - |head|;
        assert w[p..p + 63] == (tail + sep)[q..q + 63];
        assert !OccursAt(tail + sep, sep, q);
      }
    }
  }

  /** The bodies of the entries, in order. */
  function Bodies(ds: seq<DiaryEntry>): (bs: seq<string>)
    ensures |bs| == |ds|
  {
    if ds == [] then [] else [Body(ds[0])] + Bodies(ds[1..])
  }

  /** The text splits into the header and the bodies, in order. */
  lemma {:induction false} SplitEntries(x: string, ds: seq<DiaryEntry>)
    requires Clean(x, Separator())
    requires forall i :: 0 <= i < |ds| ==> Clean(Body(ds[i]), Separator())
    ensures SplitOn(x + Entries(ds), Separator()) == [x] + Bodies(ds)
    decreases |ds|
  {
    if ds == [] {
      assert x + Entries(ds) == x;
      SplitCleanAlone(x, Separator());
    } else {
      var b := Body(ds[0]);
      assert x + Entries(ds) == x + Separator() + (b + Entries(ds[1..]));
      SplitClean(x, Separator(), b + Entries(ds[1..]));
      SplitEntries(b, ds[1..]);
    }
  }

  /** What the loader recovers of a diary: the path, the file name after the last `/`,
      the stripped content, and no times. */
  function Recovered(d: DiaryEntry): DiaryEntry
  {
    DiaryEntry(LastComponent(d.path), d.path, Strip(d.content), "", "")
  }

  /** A diary the file as read carries intact: a one-line path that does not end in
      `】`, and content in which the separator never occurs (after a newline). */
  ghost predicate Intact(d: DiaryEntry)
  {
    '\n' !in d.path && (d.path == [] || d.path[|d.path| - 1] != '】') &&
    Free("\n" + d.content, Separator())
  }

  lemma RStripCharLast(s: string, c: char)
    requires s == [] || s[|s| - 1] != c
    ensures RStripChar(s + [c], c) == s
  {
    assert (s + [c])[..|s|] == s;
  }

  /** The first line of a body is the path closed by `】`. */
  lemma BodyFirstLine(d: DiaryEntry)
    requires '\n' !in d.path
    ensures SplitOn(Body(d), "\n")[0] == d.path + "】"
  {
    var first := d.path + "】";
    var rest := Bar() + "\n\n" + d.content + "\n\n";
    assert Body(d) == first + ("\n" + rest);
    assert '\n' !in first;
    SplitLine(first, rest);
  }

  /** The first content marker of a body is the one after the path line. */
  lemma BodyMarker(d: DiaryEntry)
    requires '\n' !in d.path
    ensures FindFrom(Body(d), ContentMarker(), 0) == Some(|d.path| + 2)
  {
    var b, n, marker := Body(d), |d.path|, ContentMarker();
    assert b[n + 2..n + 64] == marker;
    forall p: nat | p < n + 2 ensures !OccursAt(b, marker, p) {
      if p + 60 < n {
        assert b[p + 60] == d.path[p + 60];
        assert d.path[p + 60] in d.path;
        assert b[p..p + 62][60] == b[p + 60];
      } else if p + 60 == n {
        assert b[p..p + 62][60] == b[n] == '】';
      } else if p + 60 == n + 1 {
        assert b[p..p + 62][61] == b[n + 2] == '=';
      } else {
        assert b[p..p + 62][60] == b[p + 60] == '=';
      }
    }
    FindFromIs(b, marker, n + 2);
  }

  lemma BodyContent(d: DiaryEntry)
    ensures |Body(d)| >= |d.path| + 64
    ensures Strip(Body(d)[|d.path| + 64..]) == Strip(d.content)
  {
    var pre, content := d.path + "】\n" + Bar() + "\n\n", d.content + "\n\n";
    assert Body(d) == pre + content && |pre| == |d.path| + 64;
    assert Body(d)[|d.path| + 64..] == content;
    assert "" + d.content + "\n\n" == content;
    StripSurrounded("", d.content, "\n\n");
  }

  /** One body is read back as the diary it was written for. */
  lemma ParseBody(d: DiaryEntry)
    requires Intact(d)
    ensures ParseEntry(Body(d)) == Some(Recovered(d))
  {
    BodyFirstLine(d);
    RStripCharLast(d.path, '】');
    BodyMarker(d);
    BodyContent(d);
  }

  /** Parsing the parts of a concatenation parses each side. */
  lemma {:induction false} ParseEntriesConcat(xs: seq<string>, ys: seq<string>)
    ensures ParseEntries(xs + ys) == ParseEntries(xs) + ParseEntries(ys)
    decreases |ys|
  {
    if ys == [] {
      assert xs + ys == xs;
    } else {
      assert (xs + ys)[..|xs + ys| - 1] == xs + ys[..|ys| - 1];
      ParseEntriesConcat(xs, ys[..|ys| - 1]);
    }
  }

  /** What the loader recovers of each diary, in order. */
  function RecoveredAll(ds: seq<DiaryEntry>): (rs: seq<DiaryEntry>)
    ensures |rs| == |ds| && forall i :: 0 <= i < |ds| ==> rs[i] == Recovered(ds[i])
  {
    if ds == [] then [] else [Recovered(ds[0])] + RecoveredAll(ds[1..])
  }

  lemma {:induction false} ParseBodies(ds: seq<DiaryEntry>)
    requires forall i :: 0 <= i < |ds| ==> Intact(ds[i])
    ensures ParseEntries(Bodies(ds)) == RecoveredAll(ds)
    decreases |ds|
  {
    if ds != [] {
      var b := Body(ds[0]);
      ParseBody(ds[0]);
      assert ParseEntries([b]) == [Recovered(ds[0])] by {
        assert [b][..0] == [];
      }
      ParseEntriesConcat([b], Bodies(ds[1..]));
      ParseBodies(ds[1..]);
    }
  }

  // ---------------------------------------------------------------- reading in text mode

  /** A diary as a text-mode read sees its content: `\r\n` and `\r` turned into `\n`. */
  function AsRead(d: DiaryEntry): (r: DiaryEntry)
    ensures r.path == d.path && '\r' !in r.content
  {
    NewlinesNoCr(d.content);
    d.(content := Newlines(d.content))
  }

  function AsReadAll(ds: seq<DiaryEntry>): (rs: seq<DiaryEntry>)
    ensures |rs| == |ds| && forall i :: 0 <= i < |ds| ==> rs[i] == AsRead(ds[i])
  {
    if ds == [] then [] else [AsRead(ds[0])] + AsReadAll(ds[1..])
  }

  /** The diary as the file read back holds it before stripping: a final `\r` of the
      content merges with the line break written after it. */
  function ReadBack(d: DiaryEntry): DiaryEntry
  {
    d.(content := Newlines(DropCr(d.content)))
  }

  function ReadBackAll(ds: seq<DiaryEntry>): (rs: seq<DiaryEntry>)
    ensures |rs| == |ds| && forall i :: 0 <= i < |ds| ==> rs[i] == ReadBack(ds[i])
  {
    if ds == [] then [] else [ReadBack(ds[0])] + ReadBackAll(ds[1..])
  }

  /** A diary the cache file can carry: a one-line path without a carriage return that
      does not end in `】`, and content in which, as read, the separator never occurs
      (after a newline). */
  ghost predicate Cacheable(d: DiaryEntry)
  {
    '\n' !in d.path && '\r' !in d.path && (d.path == [] || d.path[|d.path| - 1] != '】') &&
    Free("\n" + Newlines(d.content), Separator())
  }

  /** A separator-free text stays free when cut short. */
  lemma FreePrefix(x: string, y: string, sep: string)
    requires Free(x + y, sep)
    ensures Free(x, sep)
  {
    forall p: nat ensures !OccursAt(x, sep, p) {
      if OccursAt(x, sep, p) {
        assert (x + y)[p..p + |sep|] == x[p..p + |sep|];
        assert OccursAt(x + y, sep, p);
      }
    }
  }

  /** A cacheable diary is carried intact by the file as read, and the loader recovers
      the same entry from it as from the diary as read. */
  lemma ReadBackIntact(d: DiaryEntry)
    requires Cacheable(d)
    ensures Intact(ReadBack(d)) && Recovered(ReadBack(d)) == Recovered(AsRead(d))
  {
    ReadBackFree(d.content);
    ReadWithoutFinalCr(d.content);
  }

  /** Dropping a final `\r` keeps the content as read free of separators. */
  lemma ReadBackFree(c: string)
    requires Free("\n" + Newlines(c), Separator())
    ensures Free("\n" + Newlines(DropCr(c)), Separator())
  {
    var read := Newlines(DropCr(c));
    NewlinesDropCr(c);
    var extra := if c == DropCr(c) then "" else "\n";
    assert "\n" + Newlines(c) == ("\n" + read) + extra;
    FreePrefix("\n" + read, extra, Separator());
  }

  /** The entries read in text mode are the entries of the diaries read back. */
  lemma {:induction false} EntriesAsRead(ds: seq<DiaryEntry>)
    requires forall i :: 0 <= i < |ds| ==> '\r' !in ds[i].path
    ensures Newlines(Entries(ds)) == Entries(ReadBackAll(ds))
    decreases |ds|
  {
    if ds != [] {
      EntryAsRead(ds[0], Entries(ds[1..]));
      EntriesAsRead(ds[1..]);
      assert ReadBackAll(ds)[0] == ReadBack(ds[0]) && ReadBackAll(ds)[1..] == ReadBackAll(ds[1..]);
    }
  }

  /** One entry read in text mode is the entry of the diary read back, when its path
      holds no carriage return. */
  lemma EntryAsRead(d: DiaryEntry, rest: string)
    requires '\r' !in d.path
    ensures Newlines(Separator() + Body(d) + rest) == Separator() + Body(ReadBack(d)) + Newlines(rest)
  {
    EntryParts(d, rest);
    EntryParts(ReadBack(d), Newlines(rest));
    EntryHeadNoCr(d);
    NewlinesThrough(EntryHead(d), d.content, "\n" + rest);
    NewlinesChar('\n', rest);
  }

  /** What stands before an entry's content: the separator, the path line and the rule. */
  function EntryHead(d: DiaryEntry): string
  {
    Separator() + d.path + "】\n" + Bar() + "\n\n"
  }

  lemma EntryParts(d: DiaryEntry, rest: string)
    ensures Separator() + Body(d) + rest == EntryHead(d) + (d.content + ("\n" + ("\n" + rest)))
  {
  }

  lemma EntryHeadNoCr(d: DiaryEntry)
    requires '\r' !in d.path
    ensures '\r' !in EntryHead(d)
  {
    assert '\r' !in Bar();
  }

  /** The whole file read in text mode is the file written for the diaries read back. */
  lemma CacheAsRead(year: nat, ds: seq<DiaryEntry>, now: string)
    requires '\r' !in now
    requires forall i :: 0 <= i < |ds| ==> '\r' !in ds[i].path
    ensures Newlines(CacheText(year, ds, now)) == CacheText(year, ReadBackAll(ds), now)
  {
    var h := Header(year, |ds|, now);
    HeaderAsRead(year, |ds|, now, Entries(ds));
    EntriesAsRead(ds);
    assert CacheText(year, ReadBackAll(ds), now) == h + Entries(ReadBackAll(ds));
  }

  /** The header holds no carriage return and ends a line, so it reads as written and
      the rest of the file reads on its own. */
  lemma HeaderAsRead(year: nat, count: nat, now: string, rest: string)
    requires '\r' !in now
    ensures Newlines(Header(year, count, now) + rest) == Header(year, count, now) + Newlines(rest)
  {
    var h := Header(year, count, now);
    assert '\r' !in h && h[|h| - 1] == '\n' by {
      DigitsOnly(year);
      DigitsOnly(count);
      assert '\r' !in Bar();
    }
    NewlinesAppend(h, rest);
    NewlinesPlain(h);
  }

  /** Cache round trip: loading the file written for a year's diaries gives back every
      diary, in order, with its path, its stripped content as read in text mode and its
      last path component as file name, provided the time stamp holds no `【` and no
      carriage return, and every diary is `Cacheable`. */
  lemma CacheRoundTrip(year: nat, ds: seq<DiaryEntry>, now: string)
    requires '【' !in now && '\r' !in now
    requires forall i :: 0 <= i < |ds| ==> Cacheable(ds[i])
    ensures ParseCache(CacheText(year, ds, now)) == RecoveredAll(AsReadAll(ds))
  {
    var rs := ReadBackAll(ds);
    ReadBackAllIntact(ds);
    CacheAsRead(year, ds, now);
    ParseWritten(year, rs, now);
  }

  /** The diaries read back are intact, and the loader recovers from them what it would
      from the diaries as read. */
  lemma ReadBackAllIntact(ds: seq<DiaryEntry>)
    requires forall i :: 0 <= i < |ds| ==> Cacheable(ds[i])
    ensures forall i :: 0 <= i < |ds| ==> Intact(ReadBackAll(ds)[i])
    ensures RecoveredAll(ReadBackAll(ds)) == RecoveredAll(AsReadAll(ds))
  {
    var rs, qs := ReadBackAll(ds), AsReadAll(ds);
    var xs, ys := RecoveredAll(rs), RecoveredAll(qs);
    forall i | 0 <= i < |ds| ensures Intact(rs[i]) && xs[i] == ys[i] {
      ReadBackIntact(ds[i]);
      assert xs[i] == Recovered(rs[i]) && rs[i] == ReadBack(ds[i]);
      assert ys[i] == Recovered(qs[i]) && qs[i] == AsRead(ds[i]);
    }
    assert |xs| == |ys|;
  }

  /** The file holding intact diaries splits into the header and their bodies, and
      each body parses back to its diary. */
  lemma ParseWritten(year: nat, ds: seq<DiaryEntry>, now: string)
    requires '【' !in now
    requires forall i :: 0 <= i < |ds| ==> Intact(ds[i])
    ensures ParseEntries(SplitOn(CacheText(year, ds, now), Separator())[1..]) == RecoveredAll(ds)
  {
    HeaderClean(year, |ds|, now);
    forall i | 0 <= i < |ds| ensures Clean(Body(ds[i]), Separator()) {
      BodyClean(ds[i]);
    }
    SplitEntries(Header(year, |ds|, now), ds);
    ParseBodies(ds);
  }
}
